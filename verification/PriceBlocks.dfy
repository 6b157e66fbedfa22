/** Revision b7e3c9d2f4a1: a price row's six columns as one models.dev cost block. */
module PriceBlocks {
  import opened Common
  import opened Decimals
  import opened Json

  datatype Unit = Token | Request | Image | Character | Megapixel | Second | Minute | WebSearch

  datatype Tier = Tier(
    minInputTokens: int,
    input: Option<Decimal>,
    output: Option<Decimal>,
    cacheRead: Option<Decimal>,
    cacheWrite: Option<Decimal>)

  datatype PriceRow = PriceRow(
    unit: string,
    input: Decimal,
    output: Decimal,
    cacheRead: Option<Decimal>,
    cacheWrite: Option<Decimal>,
    tiers: seq<Tier>)

  /** Where a unit's columns are written: the modality, or the `web_search` field, and the direction each prices. */
  datatype Slot = Slot(modality: Option<string>, given: string, made: Option<string>)

  function UnitName(u: Unit): string {
    match u
    case Token => "token"
    case Request => "request"
    case Image => "image"
    case Character => "character"
    case Megapixel => "megapixel"
    case Second => "second"
    case Minute => "minute"
    case WebSearch => "web_search"
  }

  /** The unit a row's column names, under its own name or the plural an older writer left. */
  function UnitOf(name: string): Option<Unit> {
    if name == "token" || name == "tokens" then Some(Token)
    else if name == "request" || name == "requests" then Some(Request)
    else if name == "image" || name == "images" then Some(Image)
    else if name == "character" then Some(Character)
    else if name == "megapixel" then Some(Megapixel)
    else if name == "second" then Some(Second)
    else if name == "minute" then Some(Minute)
    else if name == "web_search" then Some(WebSearch)
    else None
  }

  /** How far the point moves from a price per million to a price of what the unit publishes. */
  function Places(u: Unit): nat {
    match u
    case Token => 0
    case Character => 0
    case WebSearch => 3
    case _ => 6
  }

  function Per(u: Unit): Decimal {
    var places: int := Places(u);
    Decimal(1, -places)
  }

  function SlotOf(u: Unit): Slot {
    match u
    case Image => Slot(Some("image"), "output", None)
    case Megapixel => Slot(Some("image"), "output", None)
    case Second => Slot(Some("audio"), "input", Some("output"))
    case Minute => Slot(Some("audio"), "input", Some("output"))
    case WebSearch => Slot(None, "input", None)
    case _ => Slot(Some("text"), "input", Some("output"))
  }

  // ---- the block ----------------------------------------------------------------------------------

  function Published(column: Decimal, u: Unit): Value {
    Dec(Times(column, Per(u)))
  }

  function Rate(key: string, column: Option<Decimal>, u: Unit): seq<Member> {
    if column.None? then [] else [Member(key, Published(column.value, u))]
  }

  function Cache(read: Option<Decimal>, write: Option<Decimal>, u: Unit): seq<Member> {
    var rates := Rate("read", read, u) + Rate("write", write, u);
    if rates == [] then [] else [Member("cache", Mapping(rates))]
  }

  function When(tier: Tier): Member {
    Member("when", Mapping([Member("context", Mapping([Member("gte", Int(tier.minInputTokens))]))]))
  }

  /** What a tier says of the given direction, if it says anything. */
  function GivenOverride(tier: Tier, u: Unit): seq<Value> {
    var said := Rate("price", tier.input, u) + Cache(tier.cacheRead, tier.cacheWrite, u);
    if said == [] then [] else [Mapping([When(tier)] + said)]
  }

  /** What it says of the made direction. */
  function MadeOverride(tier: Tier, u: Unit): seq<Value> {
    if SlotOf(u).made.None? || tier.output.None? then []
    else [Mapping([When(tier)] + Rate("price", tier.output, u))]
  }

  function GivenOverrides(tiers: seq<Tier>, u: Unit): seq<Value> {
    if tiers == [] then []
    else GivenOverrides(tiers[..|tiers| - 1], u) + GivenOverride(tiers[|tiers| - 1], u)
  }

  function MadeOverrides(tiers: seq<Tier>, u: Unit): seq<Value> {
    if tiers == [] then []
    else MadeOverrides(tiers[..|tiers| - 1], u) + MadeOverride(tiers[|tiers| - 1], u)
  }

  function Overrides(overrides: seq<Value>): seq<Member> {
    if overrides == [] then [] else [Member("overrides", List(overrides))]
  }

  function Price(column: Decimal, u: Unit): seq<Member> {
    [Member("price", Published(column, u)), Member("unit", Text(UnitName(u)))]
  }

  function Given(row: PriceRow, u: Unit): Value {
    Mapping(Price(row.input, u) + Cache(row.cacheRead, row.cacheWrite, u) + Overrides(GivenOverrides(row.tiers, u)))
  }

  function Made(row: PriceRow, u: Unit): Value {
    Mapping(Price(row.output, u) + Overrides(MadeOverrides(row.tiers, u)))
  }

  function Block(row: PriceRow, u: Unit): Value {
    var slot := SlotOf(u);
    match slot.modality
    case None => Mapping([Member("web_search", Given(row, u))])
    case Some(modality) =>
      Mapping([Member(modality, Mapping(
        if slot.made.None? then [Member(slot.given, Given(row, u))]
        else [Member("input", Given(row, u)), Member("output", Made(row, u))]))])
  }

  // ---- the migration ------------------------------------------------------------------------------

  /** The overrides of the two directions, gathered tier by tier. */
  method GatherOverrides(tiers: seq<Tier>, u: Unit) returns (given: seq<Value>, made: seq<Value>)
    ensures given == GivenOverrides(tiers, u) && made == MadeOverrides(tiers, u)
  {
    hide Rate, Cache, SlotOf, When;
    given, made := [], [];
    for i := 0 to |tiers|
      invariant given == GivenOverrides(tiers[..i], u)
      invariant made == MadeOverrides(tiers[..i], u)
    {
      var tier := tiers[i];
      assert tiers[..i + 1][..i] == tiers[..i];
      var override := Rate("price", tier.input, u) + Cache(tier.cacheRead, tier.cacheWrite, u);
      if override != [] {
        given := given + [Mapping([When(tier)] + override)];
      }
      if SlotOf(u).made.Some? && tier.output.Some? {
        made := made + [Mapping([When(tier)] + Rate("price", tier.output, u))];
      }
    }
    assert tiers[..|tiers|] == tiers;
  }

  /** The cost block a row's six columns say. */
  method BuildBlock(row: PriceRow, u: Unit) returns (block: Value)
    ensures block == Block(row, u)
  {
    hide Price, Cache, Overrides, GivenOverrides, MadeOverrides;
    var slot := SlotOf(u);
    var givenOverrides, madeOverrides := GatherOverrides(row.tiers, u);
    var given := Mapping(Price(row.input, u) + Cache(row.cacheRead, row.cacheWrite, u) + Overrides(givenOverrides));
    if slot.modality.None? {
      return Mapping([Member("web_search", given)]);
    }
    var prices := [Member(slot.given, given)];
    if slot.made.Some? {
      var made := Mapping(Price(row.output, u) + Overrides(madeOverrides));
      prices := [Member(slot.given, given), Member(slot.made.value, made)];
    }
    block := Mapping([Member(slot.modality.value, Mapping(prices))]);
  }

  /** The text of every row's block, or the first row whose unit has none. */
  method Backfill(rows: seq<PriceRow>) returns (result: Result<seq<string>, nat>)
    ensures result.Ok? <==> forall i :: 0 <= i < |rows| ==> UnitOf(rows[i].unit).Some?
    ensures result.Ok? ==> |result.value| == |rows| && forall i :: 0 <= i < |rows| ==>
      result.value[i] == Dump(Block(rows[i], UnitOf(rows[i].unit).value))
    ensures result.Err? ==> result.error < |rows| && UnitOf(rows[result.error].unit).None?
    ensures result.Err? ==> forall j :: 0 <= j < result.error ==> UnitOf(rows[j].unit).Some?
  {
    hide Dump, Block, UnitOf;
    var texts: seq<string> := [];
    for i := 0 to |rows|
      invariant |texts| == i
      invariant forall j :: 0 <= j < i ==> UnitOf(rows[j].unit).Some?
      invariant forall j :: 0 <= j < i ==> texts[j] == Dump(Block(rows[j], UnitOf(rows[j].unit).value))
    {
      var unit := UnitOf(rows[i].unit);
      if unit.None? {
        return Err(i);
      }
      var block := BuildBlock(rows[i], unit.value);
      texts := texts + [Dump(block)];
    }
    return Ok(texts);
  }
}
