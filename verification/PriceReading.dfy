/** Reading a row's columns back out of its cost block, and why nothing is lost on the way. */
module PriceReading {
  import opened Common
  import opened Decimals
  import opened Json
  import opened JsonRoundTrip
  import opened PriceBlocks

  /** The rates of one tier, each without trailing zeros. */
  datatype Rates = Rates(
    input: Option<Decimal>,
    output: Option<Decimal>,
    cacheRead: Option<Decimal>,
    cacheWrite: Option<Decimal>)

  /** A row's columns as numbers; the tiers by threshold. */
  datatype Columns = Columns(
    unit: string,
    input: Decimal,
    output: Option<Decimal>,
    cacheRead: Option<Decimal>,
    cacheWrite: Option<Decimal>,
    tiers: map<Decimal, Rates>)

  // ---- the reader ---------------------------------------------------------------------------------

  /** The first member of that name. */
  function Get(members: seq<Member>, key: string): Option<Value> {
    if members == [] then None
    else if members[0].key == key then Some(members[0].value)
    else Get(members[1..], key)
  }

  /** A member of a mapping. */
  function Field(v: Option<Value>, key: string): Option<Value> {
    if v.Some? && v.value.Mapping? then Get(v.value.members, key) else None
  }

  /** A published price, per million again. */
  function PerMillion(v: Option<Value>, u: Unit): Option<Decimal> {
    if v.Some? && v.value.Dec?
    then Some(Stripped(Decimal(v.value.d.coefficient, v.value.d.exponent + Places(u))))
    else None
  }

  function Threshold(override: Value): Option<Value> {
    Field(Field(Field(Some(override), "when"), "context"), "gte")
  }

  function GivenRates(override: Value, u: Unit): Rates {
    var cache := Field(Some(override), "cache");
    Rates(PerMillion(Field(Some(override), "price"), u), None,
          PerMillion(Field(cache, "read"), u), PerMillion(Field(cache, "write"), u))
  }

  /** The tiers the overrides of the given direction spell; a later override of a threshold stands. */
  function GivenTiers(overrides: seq<Value>, u: Unit): map<Decimal, Rates> {
    if overrides == [] then map[]
    else
      var last := overrides[|overrides| - 1];
      var tiers := GivenTiers(overrides[..|overrides| - 1], u);
      if Threshold(last).Some? && Threshold(last).value.Dec?
      then tiers[Threshold(last).value.d := GivenRates(last, u)] else tiers
  }

  function MadeTiers(overrides: seq<Value>, u: Unit): map<Decimal, Option<Decimal>> {
    if overrides == [] then map[]
    else
      var last := overrides[|overrides| - 1];
      var tiers := MadeTiers(overrides[..|overrides| - 1], u);
      if Threshold(last).Some? && Threshold(last).value.Dec?
      then tiers[Threshold(last).value.d := PerMillion(Field(Some(last), "price"), u)] else tiers
  }

  function Items(v: Option<Value>): seq<Value> {
    if v.Some? && v.value.List? then v.value.items else []
  }

  const NO_RATES := Rates(None, None, None, None)

  function Merged(given: map<Decimal, Rates>, made: map<Decimal, Option<Decimal>>): map<Decimal, Rates> {
    map t | t in given.Keys + made.Keys ::
      (if t in given then given[t] else NO_RATES).(output := if t in made then made[t] else None)
  }

  /** The price the given columns were written as: the search price, an image made, else the input price. */
  function GivenPrice(block: Value): Option<Value> {
    if Field(Some(block), "web_search").Some? then Field(Some(block), "web_search")
    else if Field(Some(block), "image").Some? then Field(Field(Some(block), "image"), "output")
    else if Field(Some(block), "audio").Some? then Field(Field(Some(block), "audio"), "input")
    else Field(Field(Some(block), "text"), "input")
  }

  function MadePrice(block: Value): Option<Value> {
    if Field(Some(block), "audio").Some? then Field(Field(Some(block), "audio"), "output")
    else Field(Field(Some(block), "text"), "output")
  }

  /** The columns a block says. */
  function ColumnsOf(block: Value): Option<Columns> {
    var (given, made) := (GivenPrice(block), MadePrice(block));
    match Field(given, "unit")
    case Some(Text(name)) =>
      (match UnitOf(name)
       case None => None
       case Some(u) =>
         var input := PerMillion(Field(given, "price"), u);
         var cache := Field(given, "cache");
         if input.None? then None
         else Some(Columns(name, input.value, PerMillion(Field(made, "price"), u),
                           PerMillion(Field(cache, "read"), u), PerMillion(Field(cache, "write"), u),
                           Merged(GivenTiers(Items(Field(given, "overrides")), u),
                                  MadeTiers(Items(Field(made, "overrides")), u)))))
    case _ => None
  }

  // ---- what the block keeps of a row --------------------------------------------------------------

  function StrippedOption(d: Option<Decimal>): Option<Decimal> {
    if d.None? then None else Some(Stripped(d.value))
  }

  function ThresholdOf(tier: Tier): Decimal {
    Stripped(Decimal(tier.minInputTokens, 0))
  }

  /** A tier's rates, the output one only where the unit's slot has a place for it. */
  function RatesOf(tier: Tier, u: Unit): Rates {
    Rates(StrippedOption(tier.input), if SlotOf(u).made.None? then None else StrippedOption(tier.output),
          StrippedOption(tier.cacheRead), StrippedOption(tier.cacheWrite))
  }

  /** What the overrides of the given direction can say of a tier. */
  function GivenPart(tier: Tier, u: Unit): Rates {
    RatesOf(tier, u).(output := None)
  }

  ghost predicate DistinctThresholds(tiers: seq<Tier>) {
    forall i, j :: 0 <= i < j < |tiers| ==> tiers[i].minInputTokens != tiers[j].minInputTokens
  }

  /** The tiers that say something, by threshold. */
  ghost predicate IsTierMap(tiers: seq<Tier>, u: Unit, m: map<Decimal, Rates>) {
    && (forall i :: 0 <= i < |tiers| && RatesOf(tiers[i], u) != NO_RATES ==>
          ThresholdOf(tiers[i]) in m && m[ThresholdOf(tiers[i])] == RatesOf(tiers[i], u))
    && (forall t :: t in m ==>
          exists i :: 0 <= i < |tiers| && ThresholdOf(tiers[i]) == t && RatesOf(tiers[i], u) != NO_RATES)
  }

  /** Every rate has at most the digits the context keeps. */
  predicate RatesFit(row: PriceRow) {
    && Fits(Some(row.input)) && Fits(Some(row.output)) && Fits(row.cacheRead) && Fits(row.cacheWrite)
    && forall i :: 0 <= i < |row.tiers| ==>
      Fits(row.tiers[i].input) && Fits(row.tiers[i].output) && Fits(row.tiers[i].cacheRead)
      && Fits(row.tiers[i].cacheWrite)
  }

  predicate Fits(d: Option<Decimal>) {
    d.Some? ==> Digits(Abs(d.value.coefficient)) <= PRECISION
  }

  // ---- numbers ------------------------------------------------------------------------------------

  /** Stripping first does not change what moving the point gives. */
  lemma StrippedMoves(d: Decimal, k: int)
    ensures Stripped(Decimal(Stripped(d).coefficient, Stripped(d).exponent + k))
            == Stripped(Decimal(d.coefficient, d.exponent + k))
  {
    hide Stripped;
    var j := StrippedScale(d);
    var c := Stripped(d).coefficient;
    StrippedShift(c, d.exponent + k, j);
    if d.coefficient == 0 {
      StrippedZero(d.exponent + k);
      StrippedZero(d.exponent);
      StrippedZero(Stripped(d).exponent + k);
    }
  }

  lemma StrippedZero(e: int)
    ensures Stripped(Decimal(0, e)) == Decimal(0, 0)
  {
  }

  /** Publishing a column only moves the point. */
  lemma PublishedIs(column: Decimal, u: Unit)
    requires Fits(Some(column))
    ensures Published(column, u) == Dec(Decimal(column.coefficient, column.exponent - Places(u)))
  {
  }

  /** A published price reads back as the column it came from. */
  lemma PublishedRound(column: Decimal, u: Unit)
    requires Fits(Some(column))
    ensures PerMillion(Some(Exactly(Published(column, u))), u) == Some(Stripped(column))
    ensures AllExact(Published(column, u))
  {
    hide Stripped, Published, Digits, Places, Abs;
    PublishedIs(column, u);
    var places: int := Places(u);
    var d := Decimal(column.coefficient, column.exponent - places);
    StrippedMoves(d, places);
    StrippedFits(d);
  }

  // ---- fields of what was written -----------------------------------------------------------------

  /** Looking a name up in what two lists join to. */
  lemma {:induction false} GetJoin(a: seq<Member>, b: seq<Member>, key: string)
    ensures Get(a + b, key) == Get(a, key).Or(Get(b, key))
  {
    if a == [] {
      assert a + b == b;
    } else {
      assert (a + b)[1..] == a[1..] + b;
      GetJoin(a[1..], b, key);
    }
  }

  function ExactlyOption(v: Option<Value>): Option<Value> {
    if v.None? then None else Some(Exactly(v.value))
  }

  lemma {:induction false} GetExactly(members: seq<Member>, key: string)
    ensures Get(ExactlyMembers(members), key) == ExactlyOption(Get(members, key))
  {
    if members != [] {
      GetExactly(members[1..], key);
      assert ExactlyMembers(members)[1..] == ExactlyMembers(members[1..]);
    }
  }

  /** A field of the exact form is the exact form of the field. */
  lemma FieldExactly(v: Option<Value>, key: string)
    ensures Field(ExactlyOption(v), key) == ExactlyOption(Field(v, key))
  {
    if v.Some? && v.value.Mapping? {
      GetExactly(v.value.members, key);
    }
  }

  lemma GetRate(name: string, column: Option<Decimal>, u: Unit, key: string)
    ensures Get(Rate(name, column, u), key) ==
            if key == name && column.Some? then Some(Published(column.value, u)) else None
  {
  }

  /** An optional column reads back from where it was published. */
  lemma OptionRound(column: Option<Decimal>, u: Unit)
    requires Fits(column)
    ensures PerMillion(ExactlyOption(if column.None? then None else Some(Published(column.value, u))), u)
            == StrippedOption(column)
  {
    hide Published, Exactly, Stripped;
    if column.Some? {
      PublishedRound(column.value, u);
    }
  }

  /** The cache rates read back, from wherever the cache member stands. */
  lemma CacheRound(read: Option<Decimal>, write: Option<Decimal>, u: Unit)
    requires Fits(read) && Fits(write)
    ensures forall key :: key != "cache" ==> Get(Cache(read, write, u), key) == None
    ensures var cache := ExactlyOption(Get(Cache(read, write, u), "cache"));
      && PerMillion(Field(cache, "read"), u) == StrippedOption(read)
      && PerMillion(Field(cache, "write"), u) == StrippedOption(write)
  {
    hide Published, Exactly, Stripped, PerMillion;
    var rates := Rate("read", read, u) + Rate("write", write, u);
    var cache := Get(Cache(read, write, u), "cache");
    FieldExactly(cache, "read");
    FieldExactly(cache, "write");
    GetJoin(Rate("read", read, u), Rate("write", write, u), "read");
    GetJoin(Rate("read", read, u), Rate("write", write, u), "write");
    GetRate("read", read, u, "read");
    GetRate("write", write, u, "read");
    GetRate("read", read, u, "write");
    GetRate("write", write, u, "write");
    OptionRound(read, u);
    OptionRound(write, u);
    if rates == [] {
      assert read.None? && write.None?;
      AbsentRate(u);
    } else {
      assert cache == Some(Mapping(rates));
    }
  }

  lemma AbsentRate(u: Unit)
    ensures PerMillion(None, u) == None
  {
  }

  // ---- tiers --------------------------------------------------------------------------------------

  lemma WhenRound(tier: Tier, said: seq<Member>)
    ensures Threshold(Exactly(Mapping([When(tier)] + said))) == Some(Dec(ThresholdOf(tier)))
  {
    hide Stripped;
    var override := Some(Mapping([When(tier)] + said));
    var when := Some(Mapping([Member("context", Mapping([Member("gte", Int(tier.minInputTokens))]))]));
    var context := Some(Mapping([Member("gte", Int(tier.minInputTokens))]));
    assert Field(override, "when") == when;
    assert Field(when, "context") == context;
    assert Field(context, "gte") == Some(Int(tier.minInputTokens));
    FieldExactly(override, "when");
    FieldExactly(when, "context");
    FieldExactly(context, "gte");
  }

  lemma GivenRatesRound(tier: Tier, u: Unit)
    requires Fits(tier.input) && Fits(tier.cacheRead) && Fits(tier.cacheWrite)
    requires GivenOverride(tier, u) != []
    ensures var override := Exactly(GivenOverride(tier, u)[0]);
      && Threshold(override) == Some(Dec(ThresholdOf(tier)))
      && GivenRates(override, u) == GivenPart(tier, u)
  {
    hide Published, Exactly, Stripped, PerMillion, Cache, Rate, When;
    var (price, cache) := (Rate("price", tier.input, u), Cache(tier.cacheRead, tier.cacheWrite, u));
    var override := Some(Mapping([When(tier)] + (price + cache)));
    WhenRound(tier, price + cache);
    forall key | key == "price" || key == "cache"
      ensures Field(override, key) == Get(price, key).Or(Get(cache, key))
    {
      GetJoin([When(tier)], price + cache, key);
      WhenIsNot(tier, key);
      GetJoin(price, cache, key);
    }
    FieldExactly(override, "price");
    FieldExactly(override, "cache");
    GetRate("price", tier.input, u, "price");
    GetRate("price", tier.input, u, "cache");
    CacheRound(tier.cacheRead, tier.cacheWrite, u);
    OptionRound(tier.input, u);
  }

  lemma WhenIsNot(tier: Tier, key: string)
    requires key != "when"
    ensures Get([When(tier)], key) == None
  {
  }

  lemma MadeRateRound(tier: Tier, u: Unit)
    requires Fits(tier.output) && MadeOverride(tier, u) != []
    ensures var override := Exactly(MadeOverride(tier, u)[0]);
      && Threshold(override) == Some(Dec(ThresholdOf(tier)))
      && PerMillion(Field(Some(override), "price"), u) == RatesOf(tier, u).output
      && RatesOf(tier, u).output.Some?
  {
    hide Published, Exactly, Stripped, PerMillion, Rate, When;
    var price := Rate("price", tier.output, u);
    var override := Some(Mapping([When(tier)] + price));
    WhenRound(tier, price);
    GetJoin([When(tier)], price, "price");
    WhenIsNot(tier, "price");
    FieldExactly(override, "price");
    GetRate("price", tier.output, u, "price");
    OptionRound(tier.output, u);
  }

  lemma {:induction false} ExactlyItemsJoin(a: seq<Value>, b: seq<Value>)
    ensures ExactlyItems(a + b) == ExactlyItems(a) + ExactlyItems(b)
  {
    if a == [] {
      assert a + b == b;
    } else {
      assert (a + b)[1..] == a[1..] + b;
      ExactlyItemsJoin(a[1..], b);
    }
  }

  /** Different thresholds stay different without their trailing zeros. */
  lemma ThresholdsDiffer(a: Tier, b: Tier)
    ensures ThresholdOf(a) == ThresholdOf(b) <==> a.minInputTokens == b.minInputTokens
  {
    hide Stripped;
    StrippedIsCanonical(Decimal(a.minInputTokens, 0), Decimal(b.minInputTokens, 0));
  }

  lemma SaysGiven(tier: Tier, u: Unit)
    ensures GivenOverride(tier, u) != [] <==> GivenPart(tier, u) != NO_RATES
    ensures |GivenOverride(tier, u)| <= 1
  {
  }

  lemma SaysMade(tier: Tier, u: Unit)
    ensures MadeOverride(tier, u) != [] <==> RatesOf(tier, u).output.Some?
    ensures |MadeOverride(tier, u)| <= 1
  {
  }

  /** What the overrides of the given direction say of the tiers, the last of them aside. */
  ghost predicate IsGivenMap(tiers: seq<Tier>, u: Unit, m: map<Decimal, Rates>) {
    && (forall i :: 0 <= i < |tiers| && GivenPart(tiers[i], u) != NO_RATES ==>
          ThresholdOf(tiers[i]) in m && m[ThresholdOf(tiers[i])] == GivenPart(tiers[i], u))
    && (forall t :: t in m ==>
          exists i :: 0 <= i < |tiers| && ThresholdOf(tiers[i]) == t && GivenPart(tiers[i], u) != NO_RATES)
  }

  ghost predicate IsMadeMap(tiers: seq<Tier>, u: Unit, m: map<Decimal, Option<Decimal>>) {
    && (forall i :: 0 <= i < |tiers| && RatesOf(tiers[i], u).output.Some? ==>
          ThresholdOf(tiers[i]) in m && m[ThresholdOf(tiers[i])] == RatesOf(tiers[i], u).output)
    && (forall t :: t in m ==>
          exists i :: 0 <= i < |tiers| && ThresholdOf(tiers[i]) == t && RatesOf(tiers[i], u).output.Some?)
  }

  lemma GivenMapGrows(tiers: seq<Tier>, u: Unit, m: map<Decimal, Rates>)
    requires tiers != [] && DistinctThresholds(tiers) && IsGivenMap(tiers[..|tiers| - 1], u, m)
    ensures var last := tiers[|tiers| - 1];
      var said := GivenPart(last, u);
      IsGivenMap(tiers, u, if said == NO_RATES then m else m[ThresholdOf(last) := said])
  {
    hide RatesOf, ThresholdOf;
    var (shorter, last) := (tiers[..|tiers| - 1], tiers[|tiers| - 1]);
    var said := GivenPart(last, u);
    var grown := if said == NO_RATES then m else m[ThresholdOf(last) := said];
    forall i | 0 <= i < |tiers| && GivenPart(tiers[i], u) != NO_RATES
      ensures ThresholdOf(tiers[i]) in grown && grown[ThresholdOf(tiers[i])] == GivenPart(tiers[i], u)
    {
      if i < |shorter| {
        assert tiers[i] == shorter[i];
        ThresholdsDiffer(tiers[i], last);
      }
    }
    forall t | t in grown
      ensures exists i :: 0 <= i < |tiers| && ThresholdOf(tiers[i]) == t && GivenPart(tiers[i], u) != NO_RATES
    {
      if t in m {
        var i :| 0 <= i < |shorter| && ThresholdOf(shorter[i]) == t && GivenPart(shorter[i], u) != NO_RATES;
        assert tiers[i] == shorter[i];
      }
    }
  }

  lemma MadeMapGrows(tiers: seq<Tier>, u: Unit, m: map<Decimal, Option<Decimal>>)
    requires tiers != [] && DistinctThresholds(tiers) && IsMadeMap(tiers[..|tiers| - 1], u, m)
    ensures var last := tiers[|tiers| - 1];
      var said := RatesOf(last, u).output;
      IsMadeMap(tiers, u, if said.None? then m else m[ThresholdOf(last) := said])
  {
    hide RatesOf, ThresholdOf;
    var (shorter, last) := (tiers[..|tiers| - 1], tiers[|tiers| - 1]);
    var said := RatesOf(last, u).output;
    var grown := if said.None? then m else m[ThresholdOf(last) := said];
    forall i | 0 <= i < |tiers| && RatesOf(tiers[i], u).output.Some?
      ensures ThresholdOf(tiers[i]) in grown && grown[ThresholdOf(tiers[i])] == RatesOf(tiers[i], u).output
    {
      if i < |shorter| {
        assert tiers[i] == shorter[i];
        ThresholdsDiffer(tiers[i], last);
      }
    }
    forall t | t in grown
      ensures exists i :: 0 <= i < |tiers| && ThresholdOf(tiers[i]) == t && RatesOf(tiers[i], u).output.Some?
    {
      if t in m {
        var i :| 0 <= i < |shorter| && ThresholdOf(shorter[i]) == t && RatesOf(shorter[i], u).output.Some?;
        assert tiers[i] == shorter[i];
      }
    }
  }

  ghost predicate TiersFit(tiers: seq<Tier>) {
    forall i :: 0 <= i < |tiers| ==>
      Fits(tiers[i].input) && Fits(tiers[i].output) && Fits(tiers[i].cacheRead) && Fits(tiers[i].cacheWrite)
  }

  lemma GivenTiersLast(overrides: seq<Value>, last: Value, u: Unit, t: Decimal)
    requires Threshold(last) == Some(Dec(t))
    ensures GivenTiers(overrides + [last], u) == GivenTiers(overrides, u)[t := GivenRates(last, u)]
  {
  }

  lemma MadeTiersLast(overrides: seq<Value>, last: Value, u: Unit, t: Decimal)
    requires Threshold(last) == Some(Dec(t))
    ensures MadeTiers(overrides + [last], u) == MadeTiers(overrides, u)[t := PerMillion(Field(Some(last), "price"), u)]
  {
  }

  lemma ExactlyOne(o: Value)
    ensures ExactlyItems([o]) == [Exactly(o)]
  {
  }

  lemma {:induction false} GivenTiersRound(tiers: seq<Tier>, u: Unit)
    requires DistinctThresholds(tiers) && TiersFit(tiers)
    ensures IsGivenMap(tiers, u, GivenTiers(ExactlyItems(GivenOverrides(tiers, u)), u))
  {
    if tiers != [] {
      hide IsGivenMap, GivenTiers, Exactly, ExactlyItems, GivenOverride, RatesOf, GivenRates, Threshold, ThresholdOf;
      var (shorter, last) := (tiers[..|tiers| - 1], tiers[|tiers| - 1]);
      var said := GivenOverride(last, u);
      var m := GivenTiers(ExactlyItems(GivenOverrides(shorter, u)), u);
      GivenTiersRound(shorter, u);
      GivenMapGrows(tiers, u, m);
      SaysGiven(last, u);
      if said == [] {
        assert GivenOverrides(tiers, u) == GivenOverrides(shorter, u);
      } else {
        assert said == [said[0]];
        ExactlyItemsJoin(GivenOverrides(shorter, u), said);
        ExactlyOne(said[0]);
        GivenRatesRound(last, u);
        GivenTiersLast(ExactlyItems(GivenOverrides(shorter, u)), Exactly(said[0]), u, ThresholdOf(last));
      }
    }
  }

  lemma {:induction false} MadeTiersRound(tiers: seq<Tier>, u: Unit)
    requires DistinctThresholds(tiers) && TiersFit(tiers)
    ensures IsMadeMap(tiers, u, MadeTiers(ExactlyItems(MadeOverrides(tiers, u)), u))
  {
    if tiers != [] {
      hide IsMadeMap, MadeTiers, Exactly, ExactlyItems, MadeOverride, RatesOf, Threshold, ThresholdOf;
      var (shorter, last) := (tiers[..|tiers| - 1], tiers[|tiers| - 1]);
      var said := MadeOverride(last, u);
      var m := MadeTiers(ExactlyItems(MadeOverrides(shorter, u)), u);
      MadeTiersRound(shorter, u);
      MadeMapGrows(tiers, u, m);
      SaysMade(last, u);
      if said == [] {
        assert MadeOverrides(tiers, u) == MadeOverrides(shorter, u);
      } else {
        assert said == [said[0]];
        ExactlyItemsJoin(MadeOverrides(shorter, u), said);
        ExactlyOne(said[0]);
        MadeRateRound(last, u);
        MadeTiersLast(ExactlyItems(MadeOverrides(shorter, u)), Exactly(said[0]), u, ThresholdOf(last));
      }
    }
  }

  /** The two directions' overrides together say every tier. */
  lemma MergedIsTierMap(tiers: seq<Tier>, u: Unit, given: map<Decimal, Rates>, made: map<Decimal, Option<Decimal>>)
    requires DistinctThresholds(tiers) && IsGivenMap(tiers, u, given) && IsMadeMap(tiers, u, made)
    ensures IsTierMap(tiers, u, Merged(given, made))
  {
    hide RatesOf, ThresholdOf;
    var m := Merged(given, made);
    forall i | 0 <= i < |tiers| && RatesOf(tiers[i], u) != NO_RATES
      ensures ThresholdOf(tiers[i]) in m && m[ThresholdOf(tiers[i])] == RatesOf(tiers[i], u)
    {
      var t := ThresholdOf(tiers[i]);
      if t in given {
        var j :| 0 <= j < |tiers| && ThresholdOf(tiers[j]) == t && GivenPart(tiers[j], u) != NO_RATES;
        ThresholdsDiffer(tiers[i], tiers[j]);
        assert i == j;
      }
      if t in made {
        var j :| 0 <= j < |tiers| && ThresholdOf(tiers[j]) == t && RatesOf(tiers[j], u).output.Some?;
        ThresholdsDiffer(tiers[i], tiers[j]);
        assert i == j;
      }
    }
  }

  // ---- the whole block ----------------------------------------------------------------------------

  lemma OverridesField(overrides: seq<Value>)
    ensures forall key :: key != "overrides" ==> Get(Overrides(overrides), key) == None
    ensures Items(ExactlyOption(Get(Overrides(overrides), "overrides"))) == ExactlyItems(overrides)
  {
  }

  lemma GetTwo(a: Member, b: Member, key: string)
    ensures Get([a], key) == if a.key == key then Some(a.value) else None
    ensures Get([a, b], key) == if a.key == key then Some(a.value) else Get([b], key)
    ensures Get([b], key) == if b.key == key then Some(b.value) else None
  {
  }

  lemma PriceField(column: Decimal, u: Unit)
    ensures Get(Price(column, u), "price") == Some(Published(column, u))
    ensures Get(Price(column, u), "unit") == Some(Text(UnitName(u)))
    ensures Get(Price(column, u), "cache") == None && Get(Price(column, u), "overrides") == None
  {
    hide Published;
    var (price, unit) := (Member("price", Published(column, u)), Member("unit", Text(UnitName(u))));
    GetTwo(price, unit, "price");
    GetTwo(price, unit, "unit");
    GetTwo(price, unit, "cache");
    GetTwo(price, unit, "overrides");
  }

  /** The fields of the given price. */
  lemma GivenFields(row: PriceRow, u: Unit)
    requires RatesFit(row) && DistinctThresholds(row.tiers)
    ensures var given := Some(Exactly(Given(row, u)));
      && Field(given, "unit") == Some(Text(UnitName(u)))
      && PerMillion(Field(given, "price"), u) == Some(Stripped(row.input))
      && PerMillion(Field(Field(given, "cache"), "read"), u) == StrippedOption(row.cacheRead)
      && PerMillion(Field(Field(given, "cache"), "write"), u) == StrippedOption(row.cacheWrite)
      && IsGivenMap(row.tiers, u, GivenTiers(Items(Field(given, "overrides")), u))
  {
    hide Published, Stripped, PerMillion, Cache, Price, Overrides, IsGivenMap, GivenTiers, GivenOverrides, Field, Items,
         DistinctThresholds;
    var (price, cache) := (Price(row.input, u), Cache(row.cacheRead, row.cacheWrite, u));
    var overrides := Overrides(GivenOverrides(row.tiers, u));
    var given := Some(Given(row, u));
    forall key
      ensures Field(Some(Exactly(Given(row, u))), key)
              == ExactlyOption(Get(price, key).Or(Get(cache, key)).Or(Get(overrides, key)))
    {
      GetJoin(price + cache, overrides, key);
      GetJoin(price, cache, key);
      FieldExactly(given, key);
      FieldOfMapping(price + cache + overrides, key);
    }
    PriceField(row.input, u);
    PublishedRound(row.input, u);
    CacheRound(row.cacheRead, row.cacheWrite, u);
    OverridesField(GivenOverrides(row.tiers, u));
    GivenTiersRound(row.tiers, u);
    ExactlyText(UnitName(u));
  }

  lemma FieldOfMapping(members: seq<Member>, key: string)
    ensures Field(Some(Mapping(members)), key) == Get(members, key)
  {
  }

  lemma ExactlyText(text: string)
    ensures Exactly(Text(text)) == Text(text)
  {
  }

  /** The fields of the made price. */
  lemma MadeFields(row: PriceRow, u: Unit)
    requires RatesFit(row) && DistinctThresholds(row.tiers)
    ensures var made := Some(Exactly(Made(row, u)));
      && PerMillion(Field(made, "price"), u) == Some(Stripped(row.output))
      && IsMadeMap(row.tiers, u, MadeTiers(Items(Field(made, "overrides")), u))
  {
    hide Published, Stripped, PerMillion, Price, Overrides, IsMadeMap, MadeTiers, MadeOverrides, Field, Items,
         DistinctThresholds;
    var price := Price(row.output, u);
    var overrides := Overrides(MadeOverrides(row.tiers, u));
    var made := Some(Made(row, u));
    forall key
      ensures Field(Some(Exactly(Made(row, u))), key) == ExactlyOption(Get(price, key).Or(Get(overrides, key)))
    {
      GetJoin(price, overrides, key);
      FieldExactly(made, key);
      FieldOfMapping(price + overrides, key);
    }
    PriceField(row.output, u);
    PublishedRound(row.output, u);
    OverridesField(MadeOverrides(row.tiers, u));
    MadeTiersRound(row.tiers, u);
  }

  /** Where the block puts the two prices, by unit. */
  lemma BlockPrices(row: PriceRow, u: Unit)
    ensures GivenPrice(Block(row, u)) == Some(Given(row, u))
    ensures MadePrice(Block(row, u)) == if SlotOf(u).made.None? then None else Some(Made(row, u))
  {
    hide Given, Made, Field;
    var slot := SlotOf(u);
    var (given, made) := (Given(row, u), Made(row, u));
    if slot.modality.None? {
      FieldsOf(Member("web_search", given), Member("", given));
    } else {
      FieldsOf(Member(slot.given, given), Member("output", made));
      FieldsOf(Member(slot.modality.value, Mapping(
        if slot.made.None? then [Member(slot.given, given)] else [Member("input", given), Member("output", made)])),
        Member("", given));
    }
    assert Field(None, "output") == None by { NoField("output"); }
  }

  lemma NoField(key: string)
    ensures Field(None, key) == None
  {
  }

  lemma FieldsOf(a: Member, b: Member)
    ensures forall key :: Field(Some(Mapping([a])), key) == if a.key == key then Some(a.value) else None
    ensures forall key :: Field(Some(Mapping([a, b])), key) ==
                          if a.key == key then Some(a.value) else if b.key == key then Some(b.value) else None
  {
    forall key
      ensures Field(Some(Mapping([a])), key) == if a.key == key then Some(a.value) else None
      ensures Field(Some(Mapping([a, b])), key) ==
              if a.key == key then Some(a.value) else if b.key == key then Some(b.value) else None
    {
      GetTwo(a, b, key);
    }
  }

  /** The two prices are where they were in the exact form too. */
  lemma PricesExactly(block: Value)
    ensures GivenPrice(Exactly(block)) == ExactlyOption(GivenPrice(block))
    ensures MadePrice(Exactly(block)) == ExactlyOption(MadePrice(block))
  {
    hide Field, Exactly;
    assert ExactlyOption(Some(block)) == Some(Exactly(block));
    FieldExactly(Some(block), "web_search");
    FieldExactly(Some(block), "image");
    FieldExactly(Some(block), "audio");
    FieldExactly(Some(block), "text");
    FieldExactly(Field(Some(block), "image"), "output");
    FieldExactly(Field(Some(block), "audio"), "input");
    FieldExactly(Field(Some(block), "audio"), "output");
    FieldExactly(Field(Some(block), "text"), "input");
    FieldExactly(Field(Some(block), "text"), "output");
  }

  /** A row's columns, so far as its unit's slot holds them. */
  ghost predicate SaysTheColumns(c: Columns, row: PriceRow, u: Unit) {
    && c.unit == UnitName(u)
    && c.input == Stripped(row.input)
    && c.output == (if SlotOf(u).made.None? then None else Some(Stripped(row.output)))
    && c.cacheRead == StrippedOption(row.cacheRead)
    && c.cacheWrite == StrippedOption(row.cacheWrite)
    && IsTierMap(row.tiers, u, c.tiers)
  }

  lemma NothingMade(tiers: seq<Tier>, u: Unit)
    requires SlotOf(u).made.None?
    ensures IsMadeMap(tiers, u, map[]) && MadeTiers([], u) == map[]
  {
  }

  /** Reading the block gives back every column its unit's slot holds: both prices, the cache and every tier. */
  lemma BlockRound(row: PriceRow, u: Unit)
    requires RatesFit(row) && DistinctThresholds(row.tiers)
    ensures ColumnsOf(Exactly(Block(row, u))).Some?
    ensures SaysTheColumns(ColumnsOf(Exactly(Block(row, u))).value, row, u)
  {
    hide Exactly, Given, Made, Block, GivenPrice, MadePrice, PerMillion, Stripped, GivenTiers, MadeTiers, Merged,
         IsTierMap, IsGivenMap, IsMadeMap, RatesFit, DistinctThresholds;
    BlockPrices(row, u);
    PricesExactly(Block(row, u));
    GivenFields(row, u);
    UnitNames(u);
    var given := GivenTiers(Items(Field(Some(Exactly(Given(row, u))), "overrides")), u);
    if SlotOf(u).made.None? {
      NothingMade(row.tiers, u);
      AbsentRate(u);
      MergedIsTierMap(row.tiers, u, given, map[]);
    } else {
      MadeFields(row, u);
      MergedIsTierMap(row.tiers, u, given, MadeTiers(Items(Field(Some(Exactly(Made(row, u))), "overrides")), u));
    }
  }

  lemma UnitNames(u: Unit)
    ensures UnitOf(UnitName(u)) == Some(u)
  {
  }

  // ---- through the printed text -------------------------------------------------------------------

  lemma AllExactMembers(a: seq<Member>, b: seq<Member>)
    requires AllExact(Mapping(a)) && AllExact(Mapping(b))
    ensures AllExact(Mapping(a + b))
  {
  }

  lemma MappingExact(members: seq<Member>)
    ensures AllExact(Mapping(members)) <==> forall m :: m in members ==> AllExact(m.value)
  {
  }

  lemma RateExact(key: string, column: Option<Decimal>, u: Unit)
    requires Fits(column)
    ensures AllExact(Mapping(Rate(key, column, u)))
  {
    hide Published;
    if column.Some? {
      PublishedRound(column.value, u);
    }
  }

  lemma CacheExact(read: Option<Decimal>, write: Option<Decimal>, u: Unit)
    requires Fits(read) && Fits(write)
    ensures AllExact(Mapping(Cache(read, write, u)))
  {
    hide Rate;
    RateExact("read", read, u);
    RateExact("write", write, u);
    AllExactMembers(Rate("read", read, u), Rate("write", write, u));
  }

  lemma {:induction false} OverridesExact(tiers: seq<Tier>, u: Unit)
    requires TiersFit(tiers)
    ensures forall o :: o in GivenOverrides(tiers, u) || o in MadeOverrides(tiers, u) ==> AllExact(o)
  {
    hide AllExact, Rate, Cache, When;
    if tiers != [] {
      var last := tiers[|tiers| - 1];
      OverridesExact(tiers[..|tiers| - 1], u);
      var (price, cache) := (Rate("price", last.input, u), Cache(last.cacheRead, last.cacheWrite, u));
      RateExact("price", last.input, u);
      CacheExact(last.cacheRead, last.cacheWrite, u);
      RateExact("price", last.output, u);
      WhenExact(last);
      AllExactMembers(price, cache);
      AllExactMembers([When(last)], price + cache);
      AllExactMembers([When(last)], Rate("price", last.output, u));
    }
  }

  lemma WhenExact(tier: Tier)
    ensures AllExact(Mapping([When(tier)]))
  {
    hide AllExact;
    var gte := [Member("gte", Int(tier.minInputTokens))];
    var context := [Member("context", Mapping(gte))];
    IntExact(tier.minInputTokens);
    MappingExact(gte);
    MappingExact(context);
    MappingExact([When(tier)]);
  }

  lemma IntExact(n: int)
    ensures AllExact(Int(n))
  {
  }

  lemma ListExact(overrides: seq<Value>)
    requires forall o :: o in overrides ==> AllExact(o)
    ensures AllExact(Mapping(Overrides(overrides)))
  {
  }

  lemma PriceExact(column: Decimal, u: Unit)
    requires Fits(Some(column))
    ensures AllExact(Mapping(Price(column, u)))
  {
    hide Published;
    PublishedRound(column, u);
  }

  lemma PricesExact(row: PriceRow, u: Unit)
    requires RatesFit(row)
    ensures AllExact(Given(row, u)) && AllExact(Made(row, u))
  {
    hide AllExact, Price, Cache, Overrides, GivenOverrides, MadeOverrides;
    var (given, made) := (GivenOverrides(row.tiers, u), MadeOverrides(row.tiers, u));
    PriceExact(row.input, u);
    PriceExact(row.output, u);
    CacheExact(row.cacheRead, row.cacheWrite, u);
    OverridesExact(row.tiers, u);
    ListExact(given);
    ListExact(made);
    AllExactMembers(Price(row.input, u), Cache(row.cacheRead, row.cacheWrite, u));
    AllExactMembers(Price(row.input, u) + Cache(row.cacheRead, row.cacheWrite, u), Overrides(given));
    AllExactMembers(Price(row.output, u), Overrides(made));
  }

  lemma BlockExact(row: PriceRow, u: Unit)
    requires RatesFit(row)
    ensures AllExact(Block(row, u))
  {
    hide Given, Made, AllExact;
    PricesExact(row, u);
    var members := Block(row, u).members;
    MappingExact(members);
    if SlotOf(u).modality.Some? {
      MappingExact(members[0].value.members);
    }
  }

  /**
   The text stored for a row loads, and reads back as the row's columns: nothing the columns held is rounded
   on the way to the price published, to the text, or back.
   */
  lemma TextRound(row: PriceRow, u: Unit)
    requires RatesFit(row) && DistinctThresholds(row.tiers)
    ensures var block := Load(Dump(Block(row, u)));
      && block.Some? && ColumnsOf(block.value).Some? && SaysTheColumns(ColumnsOf(block.value).value, row, u)
  {
    hide Load, Dump, Block, Exactly, AllExact, ColumnsOf, SaysTheColumns, RatesFit, DistinctThresholds;
    BlockExact(row, u);
    RoundTrip(Block(row, u));
    BlockRound(row, u);
  }

  /** A rate fits with up to 28 digits, so a NUMERIC(18,8) column, below ten to the tenth, always does. */
  lemma NumericColumnFits(n: int)
    ensures Fits(Some(Decimal(n, -8))) <==> Abs(n) < Pow10(28)
    ensures Abs(n) < Pow10(18) ==> Fits(Some(Decimal(n, -8)))
  {
    hide Pow10, Digits;
    DigitsAtMost(Abs(n), 28);
    Pow10Monotone(18, 28);
  }
}
