/** Where a row's block says each of its prices, and how much a price there buys. */
module PublishedPrices {
  import opened Common
  import opened Decimals
  import opened Json
  import opened PriceBlocks
  import opened PriceReading

  /** What one published price buys. */
  function Buys(unit: string): nat {
    if unit == "token" || unit == "character" then 1_000_000
    else if unit == "web_search" then 1_000
    else 1
  }

  function Singular(unit: string): string {
    if unit == "tokens" then "token"
    else if unit == "requests" then "request"
    else if unit == "images" then "image"
    else unit
  }

  predicate IsUnitName(unit: string) {
    || unit == "token" || unit == "character" || unit == "request"
    || unit == "image" || unit == "megapixel"
    || unit == "second" || unit == "minute"
    || unit == "web_search"
  }

  function Multiplied(d: Decimal, n: int): Decimal {
    Decimal(d.coefficient * n, d.exponent)
  }

  /** A million of the published price is the column's price, per million, of as much as that price buys. */
  ghost predicate IsPriced(v: Option<Value>, column: Decimal, unit: string) {
    && v.Some? && v.value.Dec?
    && SameNumber(Multiplied(v.value.d, 1_000_000), Multiplied(column, Buys(unit)))
  }

  ghost predicate IsPricedIfAny(v: Option<Value>, column: Option<Decimal>, unit: string) {
    if column.None? then v.None? else IsPriced(v, column.value, unit)
  }

  /** Where the input column is published: an image made, sound or text given, or a search. */
  function WhereGiven(block: Value, unit: string): Option<Value> {
    if unit == "web_search" then Field(Some(block), "web_search")
    else if unit == "image" || unit == "megapixel" then Field(Field(Some(block), "image"), "output")
    else if unit == "second" || unit == "minute" then Field(Field(Some(block), "audio"), "input")
    else Field(Field(Some(block), "text"), "input")
  }

  /** Where the output column is: sound or text made. */
  function WhereMade(block: Value, unit: string): Option<Value> {
    if unit == "second" || unit == "minute" then Field(Field(Some(block), "audio"), "output")
    else Field(Field(Some(block), "text"), "output")
  }

  predicate PublishesOutput(unit: string) {
    unit != "web_search" && unit != "image" && unit != "megapixel"
  }

  /** The tiers that say something of what is given, in order. */
  function GivenTellers(tiers: seq<Tier>): seq<Tier> {
    if tiers == [] then []
    else
      var last := tiers[|tiers| - 1];
      GivenTellers(tiers[..|tiers| - 1])
      + if last.input.Some? || last.cacheRead.Some? || last.cacheWrite.Some? then [last] else []
  }

  function MadeTellers(tiers: seq<Tier>): seq<Tier> {
    if tiers == [] then []
    else
      var last := tiers[|tiers| - 1];
      MadeTellers(tiers[..|tiers| - 1]) + if last.output.Some? then [last] else []
  }

  predicate IsFrom(override: Value, tier: Tier) {
    Threshold(override) == Some(Int(tier.minInputTokens))
  }

  ghost predicate HasCache(v: Option<Value>, read: Option<Decimal>, write: Option<Decimal>, unit: string) {
    && IsPricedIfAny(Field(Field(v, "cache"), "read"), read, unit)
    && IsPricedIfAny(Field(Field(v, "cache"), "write"), write, unit)
  }

  ghost predicate IsGivenTier(override: Value, tier: Tier, unit: string) {
    && IsFrom(override, tier)
    && IsPricedIfAny(Field(Some(override), "price"), tier.input, unit)
    && HasCache(Some(override), tier.cacheRead, tier.cacheWrite, unit)
  }

  ghost predicate IsMadeTier(override: Value, tier: Tier, unit: string) {
    IsFrom(override, tier) && IsPricedIfAny(Field(Some(override), "price"), tier.output, unit)
  }

  ghost predicate AreGivenTiers(overrides: seq<Value>, tiers: seq<Tier>, unit: string) {
    |overrides| == |tiers| && forall k :: 0 <= k < |tiers| ==> IsGivenTier(overrides[k], tiers[k], unit)
  }

  ghost predicate AreMadeTiers(overrides: seq<Value>, tiers: seq<Tier>, unit: string) {
    |overrides| == |tiers| && forall k :: 0 <= k < |tiers| ==> IsMadeTier(overrides[k], tiers[k], unit)
  }

  /** Every price of a row is where its unit has it published, at the rate its unit is sold by. */
  ghost predicate Publishes(block: Value, row: PriceRow, unit: string) {
    var (given, made) := (WhereGiven(block, unit), WhereMade(block, unit));
    && Field(given, "unit") == Some(Text(unit))
    && IsPriced(Field(given, "price"), row.input, unit)
    && HasCache(given, row.cacheRead, row.cacheWrite, unit)
    && AreGivenTiers(Items(Field(given, "overrides")), GivenTellers(row.tiers), unit)
    && if PublishesOutput(unit) then
         && Field(made, "unit") == Some(Text(unit))
         && IsPriced(Field(made, "price"), row.output, unit)
         && AreMadeTiers(Items(Field(made, "overrides")), MadeTellers(row.tiers), unit)
       else made.None?
  }

  // ---- the proof -------------------------------------------------------------------------------------

  lemma PublishedIsPriced(column: Decimal, u: Unit)
    requires Fits(Some(column))
    ensures IsPriced(Some(Published(column, u)), column, UnitName(u))
  {
    PublishedIs(column, u);
    PowersOfTen();
    hide Pow10, Digits, Published;
    var (c, places) := (column.coefficient, Places(u));
    assert Buys(UnitName(u)) * Pow10(places) == 1_000_000;
    MulAssoc(c, Buys(UnitName(u)), Pow10(places));
  }

  lemma PowersOfTen()
    ensures Pow10(0) == 1 && Pow10(3) == 1_000 && Pow10(6) == 1_000_000
  {
  }

  lemma RateIsPriced(name: string, column: Option<Decimal>, u: Unit)
    requires Fits(column)
    ensures IsPricedIfAny(Get(Rate(name, column, u), name), column, UnitName(u))
    ensures forall key :: key != name ==> Get(Rate(name, column, u), key) == None
  {
    hide Published, IsPriced;
    GetRate(name, column, u, name);
    if column.Some? {
      PublishedIsPriced(column.value, u);
    }
  }

  lemma CacheIsPriced(read: Option<Decimal>, write: Option<Decimal>, u: Unit)
    requires Fits(read) && Fits(write)
    ensures forall key :: key != "cache" ==> Get(Cache(read, write, u), key) == None
    ensures forall v ::
      Field(v, "cache") == Get(Cache(read, write, u), "cache") ==> HasCache(v, read, write, UnitName(u))
  {
    hide IsPriced, Published, Rate, Fits;
    var (a, b) := (Rate("read", read, u), Rate("write", write, u));
    RateIsPriced("read", read, u);
    RateIsPriced("write", write, u);
    GetJoin(a, b, "read");
    GetJoin(a, b, "write");
    if a + b == [] {
      assert a == [] && b == [];
    }
  }

  lemma GivenTierIsPriced(tier: Tier, u: Unit)
    requires Fits(tier.input) && Fits(tier.cacheRead) && Fits(tier.cacheWrite)
    ensures GivenOverride(tier, u) == [] <==> tier.input.None? && tier.cacheRead.None? && tier.cacheWrite.None?
    ensures GivenOverride(tier, u) != [] ==>
      |GivenOverride(tier, u)| == 1 && IsGivenTier(GivenOverride(tier, u)[0], tier, UnitName(u))
  {
    SaidNothing(tier, u);
    hide IsPriced, Published, Rate, Cache, HasCache, Fits, IsPricedIfAny;
    var (price, cache) := (Rate("price", tier.input, u), Cache(tier.cacheRead, tier.cacheWrite, u));
    RateIsPriced("price", tier.input, u);
    CacheIsPriced(tier.cacheRead, tier.cacheWrite, u);
    var override := Some(Mapping([When(tier)] + (price + cache)));
    forall key | key != "when" ensures Field(override, key) == Get(price, key).Or(Get(cache, key)) {
      GetJoin([When(tier)], price + cache, key);
      GetJoin(price, cache, key);
    }
    assert Field(override, "price") == Get(price, "price");
    assert Field(override, "cache") == Get(cache, "cache");
    StartsWhen(tier, price + cache);
  }

  lemma SaidNothing(tier: Tier, u: Unit)
    ensures Rate("price", tier.input, u) + Cache(tier.cacheRead, tier.cacheWrite, u) == [] <==>
      tier.input.None? && tier.cacheRead.None? && tier.cacheWrite.None?
  {
  }

  lemma StartsWhen(tier: Tier, said: seq<Member>)
    ensures IsFrom(Mapping([When(tier)] + said), tier)
  {
    var gte := [Member("gte", Int(tier.minInputTokens))];
    assert Get(gte, "gte") == Some(Int(tier.minInputTokens));
    assert Get([Member("context", Mapping(gte))], "context") == Some(Mapping(gte));
  }

  lemma MadeTierIsPriced(tier: Tier, u: Unit)
    requires Fits(tier.output) && tier.output.Some?
    ensures IsMadeTier(Mapping([When(tier)] + Rate("price", tier.output, u)), tier, UnitName(u))
  {
    hide IsPriced, Published, Rate, Fits, IsPricedIfAny;
    RateIsPriced("price", tier.output, u);
    GetJoin([When(tier)], Rate("price", tier.output, u), "price");
    StartsWhen(tier, Rate("price", tier.output, u));
  }

  lemma {:induction false} TiersArePriced(tiers: seq<Tier>, u: Unit)
    requires TiersFit(tiers)
    ensures AreGivenTiers(GivenOverrides(tiers, u), GivenTellers(tiers), UnitName(u))
    ensures SlotOf(u).made.Some? ==> AreMadeTiers(MadeOverrides(tiers, u), MadeTellers(tiers), UnitName(u))
  {
    hide IsGivenTier, IsMadeTier, GivenOverride, Fits;
    if tiers != [] {
      var last := tiers[|tiers| - 1];
      TiersArePriced(tiers[..|tiers| - 1], u);
      GivenTierIsPriced(last, u);
      if last.output.Some? {
        MadeTierIsPriced(last, u);
      }
    }
  }

  lemma PriceIsPriced(column: Decimal, rest: seq<Member>, u: Unit)
    requires Fits(Some(column))
    ensures var v := Some(Mapping(Price(column, u) + rest));
      && Field(v, "unit") == Some(Text(UnitName(u))) && IsPriced(Field(v, "price"), column, UnitName(u))
      && forall key :: key != "price" && key != "unit" ==> Field(v, key) == Get(rest, key)
  {
    hide IsPriced, Published;
    PublishedIsPriced(column, u);
    forall key ensures Get(Price(column, u) + rest, key) == Get(Price(column, u), key).Or(Get(rest, key)) {
      GetJoin(Price(column, u), rest, key);
    }
    var (price, unit) := (Member("price", Published(column, u)), Member("unit", Text(UnitName(u))));
    assert Price(column, u) == [price] + [unit];
    forall key ensures Get(Price(column, u), key) ==
        if key == "price" then Some(price.value) else if key == "unit" then Some(unit.value) else None
    {
      GetJoin([price], [unit], key);
      GetOne(price, key);
      GetOne(unit, key);
    }
  }

  lemma GetOne(member: Member, key: string)
    ensures Get([member], key) == if key == member.key then Some(member.value) else None
  {
  }

  lemma OverridesAreItems(overrides: seq<Value>)
    ensures forall key :: key != "overrides" ==> Get(Overrides(overrides), key) == None
    ensures Items(Get(Overrides(overrides), "overrides")) == overrides
  {
  }

  lemma GivenPublishes(row: PriceRow, u: Unit)
    requires RatesFit(row)
    ensures var given := Some(Given(row, u));
      && Field(given, "unit") == Some(Text(UnitName(u)))
      && IsPriced(Field(given, "price"), row.input, UnitName(u))
      && HasCache(given, row.cacheRead, row.cacheWrite, UnitName(u))
      && AreGivenTiers(Items(Field(given, "overrides")), GivenTellers(row.tiers), UnitName(u))
  {
    hide IsPriced, HasCache, AreGivenTiers, Published, Given, Price, Cache, Overrides, GivenOverrides, RatesFit, Fits,
         GivenTellers, Items, Field, Get;
    var overrides := GivenOverrides(row.tiers, u);
    var (cache, said) := (Cache(row.cacheRead, row.cacheWrite, u), Overrides(overrides));
    RatesOfTheRowFit(row);
    GivenIs(row, u);
    PriceIsPriced(row.input, cache + said, u);
    GetJoin(cache, said, "cache");
    GetJoin(cache, said, "overrides");
    CacheIsPriced(row.cacheRead, row.cacheWrite, u);
    OverridesAreItems(overrides);
    TiersArePriced(row.tiers, u);
  }

  lemma GivenIs(row: PriceRow, u: Unit)
    ensures Given(row, u) == Mapping(Price(row.input, u)
      + (Cache(row.cacheRead, row.cacheWrite, u) + Overrides(GivenOverrides(row.tiers, u))))
  {
    var (price, cache) := (Price(row.input, u), Cache(row.cacheRead, row.cacheWrite, u));
    var said := Overrides(GivenOverrides(row.tiers, u));
    hide Price, Cache, Overrides, GivenOverrides;
    assert price + cache + said == price + (cache + said);
  }

  lemma MadePublishes(row: PriceRow, u: Unit)
    requires RatesFit(row) && SlotOf(u).made.Some?
    ensures var made := Some(Made(row, u));
      && Field(made, "unit") == Some(Text(UnitName(u)))
      && IsPriced(Field(made, "price"), row.output, UnitName(u))
      && AreMadeTiers(Items(Field(made, "overrides")), MadeTellers(row.tiers), UnitName(u))
  {
    hide *;
    RatesOfTheRowFit(row);
    TiersArePriced(row.tiers, u);
    MadeIs(row, u);
    PriceIsPriced(row.output, Overrides(MadeOverrides(row.tiers, u)), u);
    OverridesAreItems(MadeOverrides(row.tiers, u));
  }

  lemma RatesOfTheRowFit(row: PriceRow)
    requires RatesFit(row)
    ensures TiersFit(row.tiers)
    ensures Fits(Some(row.input)) && Fits(Some(row.output)) && Fits(row.cacheRead) && Fits(row.cacheWrite)
  {
    hide Fits;
  }

  lemma MadeIs(row: PriceRow, u: Unit)
    ensures Made(row, u) == Mapping(Price(row.output, u) + Overrides(MadeOverrides(row.tiers, u)))
  {
  }

  lemma BlockHolds(row: PriceRow, u: Unit)
    ensures WhereGiven(Block(row, u), UnitName(u)) == Some(Given(row, u))
    ensures PublishesOutput(UnitName(u)) <==> SlotOf(u).made.Some?
    ensures WhereMade(Block(row, u), UnitName(u)) == if SlotOf(u).made.Some? then Some(Made(row, u)) else None
  {
    hide Given, Made;
    var (given, made) := (Member("input", Given(row, u)), Member("output", Made(row, u)));
    assert [given, made] == [given] + [made];
    GetJoin([given], [made], "output");
    var block := Block(row, u);
    forall key
      ensures Field(Some(block), key) == if key == block.members[0].key then Some(block.members[0].value) else None
    {
      GetOne(block.members[0], key);
    }
  }

  /** A row whose rates fit has every one of them published, under the one name its unit goes by. */
  lemma RowIsPublished(row: PriceRow)
    ensures UnitOf(row.unit).Some? <==> IsUnitName(Singular(row.unit))
    ensures UnitOf(row.unit).Some? && RatesFit(row) ==>
      Publishes(Block(row, UnitOf(row.unit).value), row, Singular(row.unit))
  {
    if UnitOf(row.unit).Some? && RatesFit(row) {
      var u := UnitOf(row.unit).value;
      assert UnitName(u) == Singular(row.unit);
      hide Given, Made, Block, WhereGiven, WhereMade, IsPriced, HasCache, AreGivenTiers, AreMadeTiers, RatesFit;
      BlockHolds(row, u);
      GivenPublishes(row, u);
      if SlotOf(u).made.Some? {
        MadePublishes(row, u);
      }
    }
  }
}
