/** Revision 9964faffc86b: each search and fetch tool gets a price of its own. */
module ToolPrices {
  import opened Common

  /** Whole units of the column's last decimal place. */
  type Price = nat
  /** Counted from the earliest moment a timestamp can name. */
  type Time = nat

  datatype ToolKind = Search | Fetch
  datatype PriceKind = Model | OfTool(tool: ToolKind)
  datatype Tool = Tool(kind: ToolKind, name: string, provider: string)

  /** A price under its kind and name, without its version. */
  datatype PriceKey = PriceKey(kind: PriceKind, modelKey: string)
  /** The primary key of the price list. */
  datatype VersionKey = VersionKey(key: PriceKey, at: Time)
  datatype Row = Row(rate: Price, origin: string)
  type Prices = map<VersionKey, Row>

  const BUILTIN := Tool(Fetch, "builtin_fetch", "builtin")

  function KindName(kind: ToolKind): string {
    match kind
    case Search => "search"
    case Fetch => "fetch"
  }

  /** What comes before the first colon, and what comes after it. */
  function Partition(text: string): (string, string) {
    if text == "" then ("", "")
    else if text[0] == ':' then ("", text[1..])
    else
      var (provider, name) := Partition(text[1..]);
      ([text[0]] + provider, name)
  }

  /** A model key and its older spelling. */
  function Spellings(modelKey: string): (PriceKey, PriceKey) {
    var (provider, name) := Partition(modelKey);
    (PriceKey(Model, modelKey), PriceKey(Model, provider + "/" + name))
  }

  function NameKey(tool: Tool): PriceKey {
    PriceKey(OfTool(tool.kind), tool.name)
  }

  function OldKeys(tool: Tool): (PriceKey, PriceKey) {
    Spellings(tool.provider + ":" + tool.name)
  }

  function OwnKeys(tool: Tool): set<PriceKey> {
    {NameKey(tool), OldKeys(tool).0, OldKeys(tool).1}
  }

  function GeneralKeys(kind: ToolKind): (PriceKey, PriceKey) {
    Spellings("otari:web_" + KindName(kind))
  }

  // ---- what a call is billed at ------------------------------------------------------------------------

  ghost predicate InForce(prices: Prices, key: PriceKey, now: Time) {
    exists at: Time :: at <= now && VersionKey(key, at) in prices
  }

  ghost predicate IsNewest(prices: Prices, key: PriceKey, now: Time, at: Time) {
    at <= now && VersionKey(key, at) in prices
    && forall other: Time :: at < other <= now ==> VersionKey(key, other) !in prices
  }

  /** The rate of the newest version in force. */
  ghost function Newest(prices: Prices, key: PriceKey, now: Time): Option<Price> {
    if exists at: Time :: IsNewest(prices, key, now, at) then
      var at: Time :| IsNewest(prices, key, now, at);
      Some(prices[VersionKey(key, at)].rate)
    else None
  }

  ghost function Preferred(prices: Prices, keys: (PriceKey, PriceKey), now: Time): Option<Price> {
    Newest(prices, keys.0, now).Or(Newest(prices, keys.1, now))
  }

  ghost function OwnPrice(prices: Prices, tool: Tool, now: Time): Option<Price> {
    Newest(prices, NameKey(tool), now).Or(Preferred(prices, OldKeys(tool), now))
  }

  ghost function GeneralPrice(prices: Prices, kind: ToolKind, now: Time): Option<Price> {
    Preferred(prices, GeneralKeys(kind), now)
  }

  /** Before the change: its own price, or failing that the general one of its kind. */
  ghost function BilledBefore(prices: Prices, tool: Tool, now: Time): Option<Price> {
    OwnPrice(prices, tool, now).Or(GeneralPrice(prices, tool.kind, now))
  }

  lemma {:induction false} NewestExists(prices: Prices, key: PriceKey, now: Time, at: Time)
    requires at <= now && VersionKey(key, at) in prices
    ensures exists newest: Time :: IsNewest(prices, key, now, newest)
    decreases now - at
  {
    if !IsNewest(prices, key, now, at) {
      var other: Time :| at < other <= now && VersionKey(key, other) in prices;
      NewestExists(prices, key, now, other);
    }
  }

  lemma NewestIsInForce(prices: Prices, key: PriceKey, now: Time)
    ensures Newest(prices, key, now).Some? <==> InForce(prices, key, now)
  {
    if InForce(prices, key, now) {
      var at: Time :| at <= now && VersionKey(key, at) in prices;
      NewestExists(prices, key, now, at);
    }
  }

  lemma NewestIs(prices: Prices, key: PriceKey, now: Time, at: Time)
    requires IsNewest(prices, key, now, at)
    ensures Newest(prices, key, now) == Some(prices[VersionKey(key, at)].rate)
  {
  }

  // ---- the rows each price is read from ----------------------------------------------------------------

  ghost predicate NoneInForceBefore(prices: Prices, keys: seq<PriceKey>, i: nat, now: Time) {
    forall j :: 0 <= j < i && j < |keys| ==> !InForce(prices, keys[j], now)
  }

  /** The rate of the newest version in force under the first of the keys that has one. */
  ghost predicate IsFirstRate(prices: Prices, keys: seq<PriceKey>, now: Time, rate: Option<Price>) {
    match rate
    case None => forall i :: 0 <= i < |keys| ==> !InForce(prices, keys[i], now)
    case Some(r) =>
      exists i, at: Time :: 0 <= i < |keys| && NoneInForceBefore(prices, keys, i, now)
        && IsNewest(prices, keys[i], now, at) && prices[VersionKey(keys[i], at)].rate == r
  }

  /** A model key with a slash where its first colon is. */
  ghost predicate IsOlderSpelling(modelKey: string, older: string) {
    exists i :: 0 <= i < |modelKey| && modelKey[i] == ':' && ':' !in modelKey[..i]
      && older == modelKey[..i] + "/" + modelKey[i + 1..]
  }

  /** Any search is priced as `otari:web_search` or in the older spelling of that, any fetch as `otari:web_fetch`. */
  ghost predicate IsGeneralRate(prices: Prices, kind: ToolKind, now: Time, rate: Option<Price>) {
    match kind
    case Search =>
      IsFirstRate(prices, [PriceKey(Model, "otari:web_search"), PriceKey(Model, "otari/web_search")], now, rate)
    case Fetch =>
      IsFirstRate(prices, [PriceKey(Model, "otari:web_fetch"), PriceKey(Model, "otari/web_fetch")], now, rate)
  }

  /** A tool is priced under its kind and name, or as `provider:name`, or in the older spelling of that. */
  ghost predicate IsOwnRate(prices: Prices, tool: Tool, now: Time, rate: Option<Price>) {
    exists older ::
      && IsOlderSpelling(tool.provider + ":" + tool.name, older)
      && IsFirstRate(prices, [PriceKey(OfTool(tool.kind), tool.name),
                              PriceKey(Model, tool.provider + ":" + tool.name), PriceKey(Model, older)], now, rate)
  }

  lemma NoneOfNone(prices: Prices, now: Time)
    ensures IsFirstRate(prices, [], now, None)
  {
  }

  lemma OneMoreKey(prices: Prices, key: PriceKey, keys: seq<PriceKey>, now: Time, rate: Option<Price>)
    requires IsFirstRate(prices, keys, now, rate)
    ensures IsFirstRate(prices, [key] + keys, now, Newest(prices, key, now).Or(rate))
  {
    var all := [key] + keys;
    NewestIsInForce(prices, key, now);
    if InForce(prices, key, now) {
      var at: Time :|
        IsNewest(prices, key, now, at) && Newest(prices, key, now) == Some(prices[VersionKey(key, at)].rate);
      assert all[0] == key && NoneInForceBefore(prices, all, 0, now);
    } else if rate.Some? {
      var i, at: Time :| 0 <= i < |keys| && NoneInForceBefore(prices, keys, i, now)
        && IsNewest(prices, keys[i], now, at) && prices[VersionKey(keys[i], at)].rate == rate.value;
      forall j | 0 <= j < i + 1 ensures !InForce(prices, all[j], now) {
        assert j > 0 ==> all[j] == keys[j - 1];
      }
      assert all[i + 1] == keys[i] && NoneInForceBefore(prices, all, i + 1, now);
    }
  }

  lemma TwoKeys(prices: Prices, keys: (PriceKey, PriceKey), now: Time)
    ensures IsFirstRate(prices, [keys.0, keys.1], now, Preferred(prices, keys, now))
  {
    hide Newest, IsFirstRate;
    NoneOfNone(prices, now);
    OneMoreKey(prices, keys.1, [], now, None);
    assert [keys.1] + [] == [keys.1] && [keys.0] + [keys.1] == [keys.0, keys.1];
    OneMoreKey(prices, keys.0, [keys.1], now, Newest(prices, keys.1, now));
  }

  lemma {:induction false} PartitionAtFirstColon(text: string)
    ensures var (provider, name) := Partition(text);
      if ':' in text then
        |provider| < |text| && text[|provider|] == ':' && ':' !in text[..|provider|]
        && provider == text[..|provider|] && name == text[|provider| + 1..]
      else provider == text && name == ""
  {
    if text != "" && text[0] != ':' {
      PartitionAtFirstColon(text[1..]);
    }
  }

  lemma SpellingsOf(modelKey: string)
    requires ':' in modelKey
    ensures Spellings(modelKey).0 == PriceKey(Model, modelKey)
    ensures Spellings(modelKey).1.kind == Model && IsOlderSpelling(modelKey, Spellings(modelKey).1.modelKey)
    ensures forall older :: IsOlderSpelling(modelKey, older) ==> older == Spellings(modelKey).1.modelKey
  {
    PartitionAtFirstColon(modelKey);
    var i := |Partition(modelKey).0|;
    AreInFront(modelKey);
    forall j | 0 <= j < |modelKey| && modelKey[j] == ':' && ':' !in modelKey[..j] ensures j == i {
    }
  }

  lemma AreInFront(text: string)
    ensures forall i, end :: 0 <= i < end <= |text| ==> text[i] in text[..end]
  {
    forall i, end | 0 <= i < end <= |text| ensures text[i] in text[..end] {
      assert text[..end][i] == text[i];
    }
  }

  lemma SlashedAt(text: string, front: string, back: string)
    requires text == front + ":" + back && ':' !in front
    ensures IsOlderSpelling(text, front + "/" + back)
  {
    assert text[|front|] == ':' && text[..|front|] == front && text[|front| + 1..] == back;
  }

  lemma TheGeneralKeys()
    ensures GeneralKeys(Search) == (PriceKey(Model, "otari:web_search"), PriceKey(Model, "otari/web_search"))
    ensures GeneralKeys(Fetch) == (PriceKey(Model, "otari:web_fetch"), PriceKey(Model, "otari/web_fetch"))
  {
    TheKeysOf("web_search");
    TheKeysOf("web_fetch");
    assert "otari:web_" + KindName(Search) == "otari:web_search" && "otari:web_" + KindName(Fetch) == "otari:web_fetch";
    assert "otari" + ":" + "web_search" == "otari:web_search" && "otari" + "/" + "web_search" == "otari/web_search";
    assert "otari" + ":" + "web_fetch" == "otari:web_fetch" && "otari" + "/" + "web_fetch" == "otari/web_fetch";
  }

  lemma TheKeysOf(name: string)
    ensures Spellings("otari" + ":" + name)
      == (PriceKey(Model, "otari" + ":" + name), PriceKey(Model, "otari" + "/" + name))
  {
    var key := "otari" + ":" + name;
    assert key[5] == ':';
    hide Spellings, Partition, IsOlderSpelling;
    SlashedAt(key, "otari", name);
    SpellingsOf(key);
  }

  lemma GeneralPriceIs(prices: Prices, kind: ToolKind, now: Time)
    ensures IsGeneralRate(prices, kind, now, GeneralPrice(prices, kind, now))
  {
    TheGeneralKeys();
    hide GeneralKeys, IsFirstRate, Preferred;
    TwoKeys(prices, GeneralKeys(kind), now);
  }

  lemma OwnPriceIs(prices: Prices, tool: Tool, now: Time)
    ensures IsOwnRate(prices, tool, now, OwnPrice(prices, tool, now))
  {
    var key := tool.provider + ":" + tool.name;
    assert key[|tool.provider|] == ':';
    SpellingsOf(key);
    hide Spellings, IsFirstRate, Newest;
    var older := OldKeys(tool).1.modelKey;
    TwoKeys(prices, OldKeys(tool), now);
    OneMoreKey(prices, NameKey(tool), [OldKeys(tool).0, OldKeys(tool).1], now, Preferred(prices, OldKeys(tool), now));
    assert [NameKey(tool)] + [OldKeys(tool).0, OldKeys(tool).1]
      == [PriceKey(OfTool(tool.kind), tool.name), PriceKey(Model, key), PriceKey(Model, older)];
  }

  lemma OneRate(prices: Prices, keys: seq<PriceKey>, now: Time, a: Option<Price>, b: Option<Price>)
    requires IsFirstRate(prices, keys, now, a) && IsFirstRate(prices, keys, now, b)
    ensures a == b
  {
  }

  // ---- the lookups ---------------------------------------------------------------------------------------

  const CHUNK := 300

  /** One query for at most 300 keys. */
  method QueryChunk(prices: Prices, keys: seq<PriceKey>, now: Time) returns (found: set<PriceKey>)
    requires |keys| <= 300
    ensures forall k :: k in found <==> k in keys && InForce(prices, k, now)
  {
    found := set v | v in prices && v.key in keys && v.at <= now :: v.key;
    forall k | k in keys && InForce(prices, k, now) ensures k in found {
      var at: Time :| at <= now && VersionKey(k, at) in prices;
      assert VersionKey(k, at).key == k;
    }
  }

  /** Asked 300 keys at a time, and the same as asked at once, in whatever order the keys are. */
  method PricedKeys(prices: Prices, wanted: seq<PriceKey>, now: Time) returns (found: set<PriceKey>)
    ensures forall k :: k in found <==> k in wanted && InForce(prices, k, now)
  {
    found := {};
    var start := 0;
    while start < |wanted|
      invariant 0 <= start
      invariant forall k :: k in found <==> k in wanted[..Least(start, |wanted|)] && InForce(prices, k, now)
    {
      var stop := Least(start + CHUNK, |wanted|);
      var chunk := QueryChunk(prices, wanted[start..stop], now);
      assert wanted[..stop] == wanted[..start] + wanted[start..stop];
      found := found + chunk;
      start := start + CHUNK;
    }
    assert wanted[..|wanted|] == wanted;
  }

  function Least(a: nat, b: nat): nat {
    if a < b then a else b
  }

  /** The newest version in force of one spelling. */
  method QueryNewest(prices: Prices, key: PriceKey, now: Time) returns (rate: Option<Price>)
    ensures rate == Newest(prices, key, now)
  {
    var todo := set v | v in prices && v.key == key && v.at <= now;
    rate := None;
    ghost var seen: set<VersionKey> := {};
    var latest: Time := 0;
    while todo != {}
      invariant forall v :: v in todo ==> v in prices && v.key == key && v.at <= now
      invariant forall v :: v in prices && v.key == key && v.at <= now ==> v in todo || v in seen
      invariant forall v :: v in seen ==> rate.Some? && v.at <= latest
      invariant rate.Some? ==>
        latest <= now && VersionKey(key, latest) in prices && rate.value == prices[VersionKey(key, latest)].rate
      decreases |todo|
    {
      var v :| v in todo;
      if rate.None? || v.at > latest {
        latest := v.at;
        rate := Some(prices[v].rate);
        assert v == VersionKey(key, latest);
      }
      todo, seen := todo - {v}, seen + {v};
    }
    if rate.Some? {
      forall other: Time | latest < other <= now ensures VersionKey(key, other) !in prices {
        assert VersionKey(key, other) !in seen;
      }
      assert IsNewest(prices, key, now, latest);
    }
  }

  /** The preferred spelling first. */
  method RateInForce(prices: Prices, kind: ToolKind, now: Time) returns (rate: Option<Price>)
    ensures rate == GeneralPrice(prices, kind, now) && IsGeneralRate(prices, kind, now, rate)
  {
    GeneralPriceIs(prices, kind, now);
    var (first, second) := GeneralKeys(kind);
    rate := QueryNewest(prices, first, now);
    if rate.None? {
      rate := QueryNewest(prices, second, now);
    }
  }

  // ---- the new prices ------------------------------------------------------------------------------------

  /** An unpriced tool is written where there is a general price to give it; the built-in fetcher always is. */
  ghost predicate Writes(prices: Prices, tool: Tool, now: Time) {
    OwnPrice(prices, tool, now).None? && (GeneralPrice(prices, tool.kind, now).Some? || tool == BUILTIN)
  }

  ghost function NewRow(prices: Prices, tool: Tool, now: Time): Row {
    Row(GeneralPrice(prices, tool.kind, now).Or(Some(0)).value, "migration")
  }

  /** The price list once the tools have had their turn. */
  ghost function Written(prices: Prices, tools: seq<Tool>, now: Time): Prices {
    if tools == [] then prices
    else
      var (front, tool) := (tools[..|tools| - 1], tools[|tools| - 1]);
      if Writes(prices, tool, now)
      then Written(prices, front, now)[VersionKey(NameKey(tool), now) := NewRow(prices, tool, now)]
      else Written(prices, front, now)
  }

  function Tools(stored: seq<Tool>): seq<Tool> {
    if BUILTIN in stored then stored else stored + [BUILTIN]
  }

  /** The table of tools has one row per name. */
  predicate DistinctNames(stored: seq<Tool>) {
    forall i, j :: 0 <= i < j < |stored| ==> stored[i].name != stored[j].name
  }

  /** A stored fetch tool of the built-in fetcher's name, and neither of them has a price. */
  ghost predicate Clash(prices: Prices, stored: seq<Tool>, now: Time) {
    exists tool :: tool in stored && ClashesWithBuiltin(prices, tool, now)
  }

  ghost predicate ClashesWithBuiltin(prices: Prices, tool: Tool, now: Time) {
    tool != BUILTIN && NameKey(tool) == NameKey(BUILTIN) && Writes(prices, tool, now) && Writes(prices, BUILTIN, now)
  }

  lemma PricedByAKey(prices: Prices, tool: Tool, now: Time)
    ensures OwnPrice(prices, tool, now).Some? <==> exists k :: k in OwnKeys(tool) && InForce(prices, k, now)
  {
    NewestIsInForce(prices, NameKey(tool), now);
    NewestIsInForce(prices, OldKeys(tool).0, now);
    NewestIsInForce(prices, OldKeys(tool).1, now);
  }

  lemma {:induction false} WrittenAt(prices: Prices, tools: seq<Tool>, now: Time, v: VersionKey)
    ensures v in Written(prices, tools, now) <==>
      v in prices || exists t :: t in tools && Writes(prices, t, now) && v == VersionKey(NameKey(t), now)
    ensures v in prices && (forall t :: t in tools && Writes(prices, t, now) ==> v != VersionKey(NameKey(t), now)) ==>
      Written(prices, tools, now)[v] == prices[v]
  {
    hide Writes, NewRow;
    if tools != [] {
      var front, tool := tools[..|tools| - 1], tools[|tools| - 1];
      assert forall t :: t in tools <==> t in front || t == tool;
      WrittenAt(prices, front, now, v);
    }
  }

  /** No version starts now under a name that is about to be written. */
  lemma NothingStartsNow(prices: Prices, tool: Tool, now: Time)
    requires Writes(prices, tool, now)
    ensures VersionKey(NameKey(tool), now) !in prices
  {
    NewestIsInForce(prices, NameKey(tool), now);
    if VersionKey(NameKey(tool), now) in prices {
      assert InForce(prices, NameKey(tool), now);
      assert false;
    }
  }

  ghost predicate WritesTheSame(prices: Prices, tool: Tool, other: Tool, now: Time) {
    NameKey(tool) == NameKey(other) && Writes(prices, tool, now)
  }

  /** The insert of the last tool meets a row exactly when an earlier tool of its name was written. */
  lemma MeetsARow(prices: Prices, stored: seq<Tool>, now: Time, i: nat)
    requires DistinctNames(stored) && i < |Tools(stored)| && Writes(prices, Tools(stored)[i], now)
    ensures VersionKey(NameKey(Tools(stored)[i]), now) in Written(prices, Tools(stored)[..i], now)
      <==> exists j :: 0 <= j < i && WritesTheSame(prices, Tools(stored)[j], Tools(stored)[i], now)
  {
    var tools := Tools(stored);
    hide Writes, Written, Tools;
    var v := VersionKey(NameKey(tools[i]), now);
    NothingStartsNow(prices, tools[i], now);
    WrittenAt(prices, tools[..i], now, v);
    if t :| t in tools[..i] && Writes(prices, t, now) && v == VersionKey(NameKey(t), now) {
      var j :| 0 <= j < i && tools[..i][j] == t;
      assert tools[j] == t;
    }
    if j :| 0 <= j < i && WritesTheSame(prices, tools[j], tools[i], now) {
      assert tools[..i][j] == tools[j];
      assert tools[j] in tools[..i];
    }
  }

  lemma OnlyTheBuiltinMeets(prices: Prices, stored: seq<Tool>, now: Time, i: nat, j: nat)
    requires DistinctNames(stored) && j < i < |Tools(stored)| && NameKey(Tools(stored)[i]) == NameKey(Tools(stored)[j])
    requires Writes(prices, Tools(stored)[i], now) && Writes(prices, Tools(stored)[j], now)
    ensures Clash(prices, stored, now)
  {
    hide Writes;
    assert i == |stored| && Tools(stored)[i] == BUILTIN;
    assert ClashesWithBuiltin(prices, stored[j], now);
  }

  lemma ClashMeets(prices: Prices, stored: seq<Tool>, now: Time)
    requires DistinctNames(stored) && Clash(prices, stored, now)
    ensures |Tools(stored)| == |stored| + 1 && Tools(stored)[|stored|] == BUILTIN && Writes(prices, BUILTIN, now)
    ensures VersionKey(NameKey(BUILTIN), now) in Written(prices, Tools(stored)[..|stored|], now)
  {
    hide Writes, Written;
    var tool :| tool in stored && ClashesWithBuiltin(prices, tool, now);
    var j :| 0 <= j < |stored| && stored[j] == tool;
    assert BUILTIN !in stored;
    MeetsARow(prices, stored, now, |stored|);
    assert Tools(stored)[j] == tool;
  }

  class PriceList {
    var prices: Prices

    /** Refused by the primary key when two tools would write the same row. */
    method Upgrade(stored: seq<Tool>, now: Time) returns (result: Result<(), Tool>)
      requires DistinctNames(stored)
      modifies this
      ensures result.Ok? <==> !Clash(old(prices), stored, now)
      ensures result.Ok? ==> prices == Written(old(prices), Tools(stored), now)
      ensures result.Ok? ==> GivesTheGeneralRates(old(prices), prices, stored, now)
    {
      var tools := Tools(stored);
      ghost var before := prices;
      hide Writes, Written, Clash, Tools, GeneralPrice, NewRow, OwnPrice, DistinctNames;
      var priced := PricedTools(prices, tools, now);
      var search := RateInForce(prices, Search, now);
      var fetch := RateInForce(prices, Fetch, now);
      WrittenNone(prices, tools, now);
      var i := 0;
      while i < |tools|
        invariant 0 <= i <= |tools|
        invariant prices == Written(before, tools[..i], now)
        invariant Clash(before, stored, now) && i > |stored| ==> false
      {
        var tool := tools[i];
        var rate := if tool.kind == Search then search else fetch;
        TurnOf(before, tools, now, i);
        if !(tool in priced || (rate.None? && tool != BUILTIN)) {
          WritesWhen(before, tool, now);
          MeetsARow(before, stored, now, i);
          var v := VersionKey(NameKey(tool), now);
          if v in prices {
            ghost var j :| 0 <= j < i && WritesTheSame(before, tools[j], tools[i], now);
            OnlyTheBuiltinMeets(before, stored, now, i, j);
            return Err(tool);
          }
          prices := prices[v := Row(rate.Or(Some(0)).value, "migration")];
        } else {
          WritesWhen(before, tool, now);
        }
        if Clash(before, stored, now) {
          ClashMeets(before, stored, now);
        }
        i := i + 1;
      }
      assert tools[..i] == tools;
      if Clash(before, stored, now) {
        ClashMeets(before, stored, now);
      }
      if !Clash(before, stored, now) {
        WrittenGivesTheGeneralRates(before, stored, now);
      }
      return Ok(());
    }

    /** Every price a migration wrote, whichever migration it was. */
    method Downgrade()
      modifies this
      ensures prices == Undone(old(prices))
    {
      prices := map v | v in prices && !(prices[v].origin == "migration" && v.key.kind.OfTool?) :: prices[v];
    }
  }

  function Undone(prices: Prices): Prices {
    map v | v in prices && !IsMigrated(prices, v) :: prices[v]
  }

  predicate IsMigrated(prices: Prices, v: VersionKey)
    requires v in prices
  {
    prices[v].origin == "migration" && v.key.kind.OfTool?
  }

  /** The tools with a price of their own. */
  method PricedTools(prices: Prices, tools: seq<Tool>, now: Time) returns (priced: set<Tool>)
    ensures forall t :: t in priced <==> t in tools && OwnPrice(prices, t, now).Some?
  {
    hide OwnPrice, InForce;
    var wanted: seq<PriceKey> := [];
    var i := 0;
    while i < |tools|
      invariant 0 <= i <= |tools|
      invariant forall j, k :: 0 <= j < i && k in OwnKeys(tools[j]) ==> k in wanted
    {
      wanted := wanted + [NameKey(tools[i]), OldKeys(tools[i]).0, OldKeys(tools[i]).1];
      i := i + 1;
    }
    var found := PricedKeys(prices, wanted, now);
    priced := set t | t in tools && OwnKeys(t) * found != {};
    forall t | t in tools ensures t in priced <==> OwnPrice(prices, t, now).Some? {
      PricedByAKey(prices, t, now);
      assert forall k :: k in OwnKeys(t) ==> k in wanted;
      if k :| k in OwnKeys(t) && InForce(prices, k, now) {
        assert k in OwnKeys(t) * found;
      }
    }
  }

  lemma WrittenNone(prices: Prices, tools: seq<Tool>, now: Time)
    ensures Written(prices, tools[..0], now) == prices
  {
  }

  lemma TurnOf(prices: Prices, tools: seq<Tool>, now: Time, i: nat)
    requires i < |tools|
    ensures Written(prices, tools[..i + 1], now)
      == if Writes(prices, tools[i], now)
         then Written(prices, tools[..i], now)[VersionKey(NameKey(tools[i]), now) := NewRow(prices, tools[i], now)]
         else Written(prices, tools[..i], now)
  {
    assert tools[..i + 1][..i] == tools[..i];
  }

  lemma WritesWhen(prices: Prices, tool: Tool, now: Time)
    ensures Writes(prices, tool, now) <==>
      OwnPrice(prices, tool, now).None? && (GeneralPrice(prices, tool.kind, now).Some? || tool == BUILTIN)
    ensures NewRow(prices, tool, now) == Row(GeneralPrice(prices, tool.kind, now).Or(Some(0)).value, "migration")
  {
  }

  // ---- every tool keeps its price ------------------------------------------------------------------------

  /** Versions that start at other moments, or under other keys, are as they were. */
  lemma SameNewest(before: Prices, after: Prices, key: PriceKey, now: Time)
    requires forall at: Time :: at <= now ==> (VersionKey(key, at) in after <==> VersionKey(key, at) in before)
    requires forall at: Time :: at <= now && VersionKey(key, at) in before ==>
      after[VersionKey(key, at)] == before[VersionKey(key, at)]
    ensures Newest(after, key, now) == Newest(before, key, now)
  {
    if at: Time :| IsNewest(before, key, now, at) {
      assert IsNewest(after, key, now, at);
    } else if at: Time :| IsNewest(after, key, now, at) {
      assert IsNewest(before, key, now, at);
    }
  }

  /** Only the tools written get a version, and only under their own name. */
  lemma OtherKeysStay(prices: Prices, tools: seq<Tool>, now: Time, key: PriceKey, later: Time)
    requires forall t :: t in tools && Writes(prices, t, now) ==> NameKey(t) != key
    ensures Newest(Written(prices, tools, now), key, later) == Newest(prices, key, later)
  {
    hide Writes, Newest;
    forall at: Time
      ensures VersionKey(key, at) in Written(prices, tools, now) <==> VersionKey(key, at) in prices
      ensures VersionKey(key, at) in prices ==>
        Written(prices, tools, now)[VersionKey(key, at)] == prices[VersionKey(key, at)]
    {
      WrittenAt(prices, tools, now, VersionKey(key, at));
    }
    SameNewest(prices, Written(prices, tools, now), key, later);
  }

  lemma OldKeysStay(prices: Prices, tools: seq<Tool>, now: Time, tool: Tool, later: Time)
    ensures Preferred(Written(prices, tools, now), OldKeys(tool), later) == Preferred(prices, OldKeys(tool), later)
  {
    hide Writes, Newest, Written;
    assert OldKeys(tool).0.kind == OldKeys(tool).1.kind == Model;
    OtherKeysStay(prices, tools, now, OldKeys(tool).0, later);
    OtherKeysStay(prices, tools, now, OldKeys(tool).1, later);
  }

  /** Of the tools of this name, only this one is written. */
  ghost predicate IsOnlyWriter(prices: Prices, tools: seq<Tool>, now: Time, tool: Tool) {
    tool in tools && Writes(prices, tool, now)
    && forall t :: t in tools && NameKey(t) == NameKey(tool) && Writes(prices, t, now) ==> t == tool
  }

  lemma {:induction false} WrittenRow(prices: Prices, tools: seq<Tool>, now: Time, tool: Tool)
    requires IsOnlyWriter(prices, tools, now, tool)
    ensures VersionKey(NameKey(tool), now) in Written(prices, tools, now)
    ensures Written(prices, tools, now)[VersionKey(NameKey(tool), now)] == NewRow(prices, tool, now)
  {
    hide Writes, NewRow;
    var front, last := tools[..|tools| - 1], tools[|tools| - 1];
    assert forall t :: t in front ==> t in tools;
    if last != tool {
      assert tool in front;
      WrittenRow(prices, front, now, tool);
    }
  }

  /** Nothing else in the list is named like this tool. */
  ghost predicate IsAlone(stored: seq<Tool>, tool: Tool) {
    tool in Tools(stored) && forall t :: t in Tools(stored) && NameKey(t) == NameKey(tool) ==> t == tool
  }

  /** Every stored tool is, but for a fetch tool that took the built-in fetcher's name. */
  lemma StoredToolsAreAlone(stored: seq<Tool>, tool: Tool)
    requires DistinctNames(stored) && tool in Tools(stored)
    ensures IsAlone(stored, tool) <==>
      !(exists t :: t in stored && t != BUILTIN && NameKey(t) == NameKey(BUILTIN) && NameKey(tool) == NameKey(BUILTIN))
  {
  }

  /** A tool that puts a row under this key. */
  ghost predicate IsWriter(prices: Prices, stored: seq<Tool>, now: Time, key: PriceKey, writer: Tool) {
    writer in Tools(stored) && NameKey(writer) == key && Writes(prices, writer, now)
  }

  lemma WriterIsTheOnlyOne(prices: Prices, stored: seq<Tool>, now: Time, key: PriceKey, writer: Tool)
    requires DistinctNames(stored) && !Clash(prices, stored, now) && IsWriter(prices, stored, now, key, writer)
    ensures IsOnlyWriter(prices, Tools(stored), now, writer)
  {
    var tools := Tools(stored);
    var i :| 0 <= i < |tools| && tools[i] == writer;
    hide Writes, Tools, Clash;
    forall t | t in tools && NameKey(t) == NameKey(writer) && Writes(prices, t, now) ensures t == writer {
      var j :| 0 <= j < |tools| && tools[j] == t;
      if j < i {
        OnlyTheBuiltinMeets(prices, stored, now, i, j);
      } else if i < j {
        OnlyTheBuiltinMeets(prices, stored, now, j, i);
      }
    }
  }

  /** Whoever wrote the row under its name, a tool finds that price there until a version of its own starts. */
  lemma PriceWritten(prices: Prices, stored: seq<Tool>, now: Time, tool: Tool, writer: Tool, later: Time)
    requires DistinctNames(stored) && !Clash(prices, stored, now) && now <= later
    requires IsWriter(prices, stored, now, NameKey(tool), writer)
    ensures OwnPrice(Written(prices, Tools(stored), now), tool, later)
      == Newest(prices, NameKey(tool), later).Or(Some(NewRow(prices, writer, now).rate))
  {
    WriterIsTheOnlyOne(prices, stored, now, NameKey(tool), writer);
    hide Writes, NewRow, Written, Newest, Preferred, Tools, Clash;
    NewestOfWritten(prices, stored, now, writer, later);
  }

  lemma PriceLeft(prices: Prices, stored: seq<Tool>, now: Time, tool: Tool, later: Time)
    requires forall w :: !IsWriter(prices, stored, now, NameKey(tool), w)
    ensures OwnPrice(Written(prices, Tools(stored), now), tool, later) == OwnPrice(prices, tool, later)
  {
    hide Writes, Written, Newest, Preferred, Tools;
    assert forall t :: t in Tools(stored) && Writes(prices, t, now) && NameKey(t) == NameKey(tool) ==>
      IsWriter(prices, stored, now, NameKey(tool), t);
    OldKeysStay(prices, Tools(stored), now, tool, later);
    OtherKeysStay(prices, Tools(stored), now, NameKey(tool), later);
  }

  /**
   At any later moment a tool whose name nobody was written under is billed as before exactly when it has a price
   of its own by then or there is still no general one. A tool whose name was written under, by itself or by
   another, is billed as before exactly when a version of that name has started since, or its older keys and the
   general price say what was written.
   */
  lemma PriceAsTimePasses(prices: Prices, stored: seq<Tool>, now: Time, tool: Tool, later: Time)
    requires DistinctNames(stored) && !Clash(prices, stored, now) && now <= later
    ensures (forall w :: !IsWriter(prices, stored, now, NameKey(tool), w)) ==>
      (OwnPrice(Written(prices, Tools(stored), now), tool, later) == BilledBefore(prices, tool, later)
       <==> OwnPrice(prices, tool, later).Some? || GeneralPrice(prices, tool.kind, later).None?)
    ensures forall w :: IsWriter(prices, stored, now, NameKey(tool), w) ==>
      (OwnPrice(Written(prices, Tools(stored), now), tool, later) == BilledBefore(prices, tool, later)
       <==> Newest(prices, NameKey(tool), later).Some?
            || Preferred(prices, OldKeys(tool), later).Or(GeneralPrice(prices, tool.kind, later))
               == Some(NewRow(prices, w, now).rate))
  {
    hide Writes, NewRow, Written, Newest, Preferred, Tools, Clash;
    if forall w :: !IsWriter(prices, stored, now, NameKey(tool), w) {
      PriceLeft(prices, stored, now, tool, later);
    }
    forall w | IsWriter(prices, stored, now, NameKey(tool), w)
      ensures OwnPrice(Written(prices, Tools(stored), now), tool, later)
        == Newest(prices, NameKey(tool), later).Or(Some(NewRow(prices, w, now).rate))
    {
      PriceWritten(prices, stored, now, tool, w, later);
    }
  }

  lemma NewestOfWritten(prices: Prices, stored: seq<Tool>, now: Time, tool: Tool, later: Time)
    requires IsOnlyWriter(prices, Tools(stored), now, tool) && now <= later
    ensures Newest(Written(prices, Tools(stored), now), NameKey(tool), later)
      == Newest(prices, NameKey(tool), later).Or(Some(NewRow(prices, tool, now).rate))
  {
    var tools, key := Tools(stored), NameKey(tool);
    var after := Written(prices, tools, now);
    WrittenRow(prices, tools, now, tool);
    PricedByAKey(prices, tool, now);
    assert !InForce(prices, key, now);
    hide Writes, NewRow, Written, Newest, InForce, Tools;
    forall at: Time ensures VersionKey(key, at) in after <==> VersionKey(key, at) in prices || at == now {
      WrittenAt(prices, tools, now, VersionKey(key, at));
    }
    forall at: Time | VersionKey(key, at) in prices && at != now
      ensures after[VersionKey(key, at)] == prices[VersionKey(key, at)]
    {
      WrittenAt(prices, tools, now, VersionKey(key, at));
    }
    NewestIsInForce(prices, key, later);
    if InForce(prices, key, later) {
      StartsLater(prices, key, now, later);
      var at: Time :| IsNewest(prices, key, later, at) && at > now;
      assert IsNewest(after, key, later, at);
      NewestIs(prices, key, later, at);
      NewestIs(after, key, later, at);
    } else {
      forall other: Time | other <= later ensures VersionKey(key, other) !in prices {
        NotInForce(prices, key, later, other);
      }
      assert IsNewest(after, key, later, now);
      NewestIs(after, key, later, now);
      NoneIsNone(prices, key, later);
    }
  }

  lemma NotInForce(prices: Prices, key: PriceKey, now: Time, at: Time)
    requires !InForce(prices, key, now) && at <= now
    ensures VersionKey(key, at) !in prices
  {
  }

  lemma NoneIsNone(prices: Prices, key: PriceKey, now: Time)
    requires !InForce(prices, key, now)
    ensures Newest(prices, key, now) == None
  {
  }

  lemma StartsLater(prices: Prices, key: PriceKey, now: Time, later: Time)
    requires !InForce(prices, key, now) && InForce(prices, key, later)
    ensures exists at: Time :: IsNewest(prices, key, later, at) && at > now
  {
    var at: Time :| at <= later && VersionKey(key, at) in prices;
    NewestExists(prices, key, later, at);
    var newest: Time :| IsNewest(prices, key, later, newest);
    assert newest <= now ==> InForce(prices, key, now);
  }

  /** What a tool is to cost afterwards: the built-in fetcher is free where nothing prices it. */
  ghost function Due(prices: Prices, tool: Tool, now: Time): Option<Price> {
    if tool == BUILTIN then BilledBefore(prices, tool, now).Or(Some(0)) else BilledBefore(prices, tool, now)
  }

  /** Another tool of its name is written at a price that is not its own. */
  ghost predicate IsOverruledBy(prices: Prices, stored: seq<Tool>, now: Time, tool: Tool, other: Tool) {
    && other != tool && IsWriter(prices, stored, now, NameKey(tool), other)
    && OwnPrice(prices, tool, now) != Some(NewRow(prices, other, now).rate)
  }

  /**
   At the moment of the migration a tool, stored or built in, keeps its price exactly when no other tool of its
   name is written at a different one.
   */
  lemma EveryToolKeepsItsPrice(prices: Prices, stored: seq<Tool>, now: Time, tool: Tool)
    requires DistinctNames(stored) && !Clash(prices, stored, now) && tool in Tools(stored)
    ensures OwnPrice(Written(prices, Tools(stored), now), tool, now) == Due(prices, tool, now)
      <==> !exists other :: IsOverruledBy(prices, stored, now, tool, other)
  {
    hide Newest, Preferred, Written, Tools, Clash;
    if w :| IsWriter(prices, stored, now, NameKey(tool), w) {
      PriceWritten(prices, stored, now, tool, w, now);
      WriterIsTheOnlyOne(prices, stored, now, NameKey(tool), w);
      assert forall other :: IsWriter(prices, stored, now, NameKey(tool), other) ==> other == w;
      NotPricedByName(prices, w, now);
      if w != tool {
        assert !Writes(prices, tool, now);
        assert IsOverruledBy(prices, stored, now, tool, w)
          <==> OwnPrice(prices, tool, now) != Some(NewRow(prices, w, now).rate);
      }
    } else {
      PriceLeft(prices, stored, now, tool, now);
      assert !IsWriter(prices, stored, now, NameKey(tool), tool);
    }
  }

  /**
   A stored fetch tool of the built-in fetcher's name shares its row: when either of them is written, the other is
   billed at that price, whatever it was billed at before.
   */
  lemma NamesakeSharesThePrice(prices: Prices, stored: seq<Tool>, now: Time, tool: Tool)
    requires DistinctNames(stored) && tool in stored && tool != BUILTIN && NameKey(tool) == NameKey(BUILTIN)
    requires !Clash(prices, stored, now)
    ensures OwnPrice(Written(prices, Tools(stored), now), tool, now)
      == if Writes(prices, BUILTIN, now) then Some(NewRow(prices, BUILTIN, now).rate) else Due(prices, tool, now)
    ensures OwnPrice(Written(prices, Tools(stored), now), BUILTIN, now)
      == if Writes(prices, tool, now) then Some(NewRow(prices, tool, now).rate) else Due(prices, BUILTIN, now)
  {
    BuiltinIsATool(stored);
    OnlyTheTwoShare(stored, tool);
    EveryToolKeepsItsPrice(prices, stored, now, tool);
    EveryToolKeepsItsPrice(prices, stored, now, BUILTIN);
    hide Newest, Preferred, Written, Tools, Clash, Due, NewRow, Writes;
    if Writes(prices, BUILTIN, now) {
      PriceWritten(prices, stored, now, tool, BUILTIN, now);
      NotPricedByName(prices, BUILTIN, now);
    }
    if Writes(prices, tool, now) {
      PriceWritten(prices, stored, now, BUILTIN, tool, now);
      NotPricedByName(prices, tool, now);
    }
  }

  lemma OnlyTheTwoShare(stored: seq<Tool>, tool: Tool)
    requires DistinctNames(stored) && tool in stored && tool != BUILTIN && NameKey(tool) == NameKey(BUILTIN)
    ensures forall t :: t in Tools(stored) && NameKey(t) == NameKey(BUILTIN) ==> t == tool || t == BUILTIN
  {
  }

  lemma BuiltinIsATool(stored: seq<Tool>)
    ensures BUILTIN in Tools(stored) && forall t :: t in stored ==> t in Tools(stored)
  {
  }

  lemma NotPricedByName(prices: Prices, tool: Tool, now: Time)
    requires Writes(prices, tool, now)
    ensures Newest(prices, NameKey(tool), now) == None
  {
  }

  lemma NoVersion(prices: Prices, key: PriceKey, now: Time)
    requires forall v :: v in prices ==> v.key != key
    ensures Newest(prices, key, now) == None
  {
  }

  const NAMESAKE := Tool(Fetch, "builtin_fetch", "exa")

  /** A stored namesake, an upgrade that is not refused, and a price before and after. */
  ghost predicate IsRepriced(prices: Prices, tool: Tool, now: Time, before: Price, after: Price) {
    && DistinctNames([NAMESAKE]) && !Clash(prices, [NAMESAKE], now) && tool in Tools([NAMESAKE])
    && BilledBefore(prices, tool, now) == Some(before)
    && OwnPrice(Written(prices, Tools([NAMESAKE]), now), tool, now) == Some(after)
  }

  /** A price of 7 under the namesake's older key becomes a price of 0. */
  lemma NamesakeIsRepriced(now: Time)
    ensures exists prices :: IsRepriced(prices, NAMESAKE, now, 7, 0)
  {
    hide Partition, Written;
    var key := OldKeys(NAMESAKE).0;
    var prices: Prices := map[VersionKey(key, now) := Row(7, "api")];
    KeysDiffer();
    NothingPrices(prices, BUILTIN, now);
    NothingGeneral(prices, now);
    NoVersion(prices, NameKey(NAMESAKE), now);
    NewestIs(prices, key, now, now);
    NamesakeSharesThePrice(prices, [NAMESAKE], now, NAMESAKE);
    assert IsRepriced(prices, NAMESAKE, now, 7, 0);
  }

  /** A price of 5 under the built-in fetcher's older key becomes the general price of 9, written for the namesake. */
  lemma BuiltinIsRepriced(now: Time)
    ensures exists prices :: IsRepriced(prices, BUILTIN, now, 5, 9)
  {
    hide Partition, Written;
    var key, general := OldKeys(BUILTIN).0, GeneralKeys(Fetch).0;
    KeysDiffer();
    var prices: Prices := map[VersionKey(key, now) := Row(5, "api"), VersionKey(general, now) := Row(9, "api")];
    NothingPrices(prices, NAMESAKE, now);
    NoVersion(prices, NameKey(BUILTIN), now);
    NewestIs(prices, key, now, now);
    NewestIs(prices, general, now, now);
    NamesakeSharesThePrice(prices, [NAMESAKE], now, NAMESAKE);
    assert IsRepriced(prices, BUILTIN, now, 5, 9);
  }

  /** With a general price alone both would be written, and the upgrade is refused. */
  lemma NamesakesClash(now: Time)
    ensures exists prices :: DistinctNames([NAMESAKE]) && Clash(prices, [NAMESAKE], now)
  {
    hide Partition;
    var general := GeneralKeys(Fetch).0;
    var prices: Prices := map[VersionKey(general, now) := Row(9, "api")];
    KeysDiffer();
    NothingPrices(prices, NAMESAKE, now);
    NothingPrices(prices, BUILTIN, now);
    NewestIs(prices, general, now, now);
    assert NAMESAKE in [NAMESAKE] && ClashesWithBuiltin(prices, NAMESAKE, now);
    assert Clash(prices, [NAMESAKE], now);
  }

  lemma NothingPrices(prices: Prices, tool: Tool, now: Time)
    requires forall v :: v in prices ==> v.key !in OwnKeys(tool)
    ensures OwnPrice(prices, tool, now) == None
  {
    NoVersion(prices, NameKey(tool), now);
    NoVersion(prices, OldKeys(tool).0, now);
    NoVersion(prices, OldKeys(tool).1, now);
  }

  lemma NothingGeneral(prices: Prices, now: Time)
    requires forall v :: v in prices ==> v.key != GeneralKeys(Fetch).0 && v.key != GeneralKeys(Fetch).1
    ensures GeneralPrice(prices, Fetch, now) == None
  {
    NoVersion(prices, GeneralKeys(Fetch).0, now);
    NoVersion(prices, GeneralKeys(Fetch).1, now);
  }

  /** The older keys start with different letters. */
  lemma KeysDiffer()
    ensures var (own, builtin, general) := (OldKeys(NAMESAKE), OldKeys(BUILTIN), GeneralKeys(Fetch));
      && own.0.modelKey[..1] == own.1.modelKey[..1] == "e"
      && builtin.0.modelKey[..1] == builtin.1.modelKey[..1] == "b"
      && general.0.modelKey[..1] == general.1.modelKey[..1] == "o"
  {
  }

  // ---- which rows are written, and at what price ---------------------------------------------------------

  /** The tools stored, and the built-in fetcher. */
  predicate IsATool(stored: seq<Tool>, tool: Tool) {
    tool in stored || tool == Tool(Fetch, "builtin_fetch", "builtin")
  }

  /** No price of its own, and a general one to be given, which the built-in fetcher can do without. */
  ghost predicate NeedsARow(prices: Prices, tool: Tool, now: Time) {
    && IsOwnRate(prices, tool, now, None)
    && (IsGeneralRate(prices, tool.kind, now, None) ==> tool == Tool(Fetch, "builtin_fetch", "builtin"))
  }

  function RowOf(tool: Tool, now: Time): VersionKey {
    VersionKey(PriceKey(OfTool(tool.kind), tool.name), now)
  }

  /** The row of a tool holds the general rate of its kind, or nothing at all to pay where there is none. */
  ghost predicate IsGiven(before: Prices, after: Prices, tool: Tool, now: Time) {
    && RowOf(tool, now) !in before && RowOf(tool, now) in after
    && after[RowOf(tool, now)].origin == "migration"
    && (if IsGeneralRate(before, tool.kind, now, None) then after[RowOf(tool, now)].rate == 0
        else IsGeneralRate(before, tool.kind, now, Some(after[RowOf(tool, now)].rate)))
  }

  /** Every tool that needs a row has been given one, and nothing else has changed. */
  ghost predicate GivesTheGeneralRates(before: Prices, after: Prices, stored: seq<Tool>, now: Time) {
    && (forall v :: v in before ==> v in after && after[v] == before[v])
    && (forall tool :: IsATool(stored, tool) && NeedsARow(before, tool, now) ==> IsGiven(before, after, tool, now))
    && (forall v :: v in after && v !in before ==>
          exists tool :: IsATool(stored, tool) && NeedsARow(before, tool, now) && v == RowOf(tool, now))
  }

  lemma NeedsARowWhen(prices: Prices, tool: Tool, now: Time)
    ensures NeedsARow(prices, tool, now) <==> Writes(prices, tool, now)
    ensures IsGeneralRate(prices, tool.kind, now, None) <==> GeneralPrice(prices, tool.kind, now) == None
  {
    GeneralPriceIs(prices, tool.kind, now);
    OwnPriceIs(prices, tool, now);
    hide OwnPrice, GeneralPrice, IsFirstRate;
    OneGeneralRate(prices, tool.kind, now);
    OneOwnRate(prices, tool, now);
  }

  lemma OneGeneralRate(prices: Prices, kind: ToolKind, now: Time)
    ensures forall a, b :: IsGeneralRate(prices, kind, now, a) && IsGeneralRate(prices, kind, now, b) ==> a == b
  {
    hide IsFirstRate;
    forall a, b | IsGeneralRate(prices, kind, now, a) && IsGeneralRate(prices, kind, now, b) ensures a == b {
      if kind == Search {
        OneRate(prices, [PriceKey(Model, "otari:web_search"), PriceKey(Model, "otari/web_search")], now, a, b);
      } else {
        OneRate(prices, [PriceKey(Model, "otari:web_fetch"), PriceKey(Model, "otari/web_fetch")], now, a, b);
      }
    }
  }

  lemma OneOwnRate(prices: Prices, tool: Tool, now: Time)
    ensures forall a, b :: IsOwnRate(prices, tool, now, a) && IsOwnRate(prices, tool, now, b) ==> a == b
  {
    hide IsFirstRate;
    var key := tool.provider + ":" + tool.name;
    assert key[|tool.provider|] == ':';
    SpellingsOf(key);
    var older := Spellings(key).1.modelKey;
    hide Spellings, IsOlderSpelling;
    forall a, b | IsOwnRate(prices, tool, now, a) && IsOwnRate(prices, tool, now, b) ensures a == b {
      var keys := [PriceKey(OfTool(tool.kind), tool.name), PriceKey(Model, key), PriceKey(Model, older)];
      OneRate(prices, keys, now, a, b);
    }
  }

  lemma WrittenGivesTheGeneralRates(prices: Prices, stored: seq<Tool>, now: Time)
    requires DistinctNames(stored) && !Clash(prices, stored, now)
    ensures GivesTheGeneralRates(prices, Written(prices, Tools(stored), now), stored, now)
  {
    var tools, after := Tools(stored), Written(prices, Tools(stored), now);
    assert forall tool :: tool in tools <==> IsATool(stored, tool);
    forall tool ensures NeedsARow(prices, tool, now) <==> Writes(prices, tool, now) {
      NeedsARowWhen(prices, tool, now);
    }
    hide Writes, NeedsARow, Written, Tools, Clash, NewRow, IsGeneralRate;
    forall v ensures v in prices ==> v in after && after[v] == prices[v] {
      WrittenAt(prices, tools, now, v);
      if t :| t in tools && Writes(prices, t, now) && v == VersionKey(NameKey(t), now) {
        NothingStartsNow(prices, t, now);
      }
    }
    forall v | v in after && v !in prices
      ensures exists tool :: IsATool(stored, tool) && NeedsARow(prices, tool, now) && v == RowOf(tool, now)
    {
      WrittenAt(prices, tools, now, v);
      var t :| t in tools && Writes(prices, t, now) && v == VersionKey(NameKey(t), now);
      assert v == RowOf(t, now);
    }
    forall tool | IsATool(stored, tool) && NeedsARow(prices, tool, now) ensures IsGiven(prices, after, tool, now) {
      NothingStartsNow(prices, tool, now);
      WriterIsTheOnlyOne(prices, stored, now, NameKey(tool), tool);
      WrittenRow(prices, tools, now, tool);
      GivenIs(prices, after, tool, now);
    }
  }

  lemma GivenIs(prices: Prices, after: Prices, tool: Tool, now: Time)
    requires RowOf(tool, now) !in prices && RowOf(tool, now) in after
    requires after[RowOf(tool, now)] == NewRow(prices, tool, now)
    ensures IsGiven(prices, after, tool, now)
  {
    GeneralPriceIs(prices, tool.kind, now);
    NeedsARowWhen(prices, tool, now);
    hide GeneralPrice, IsGeneralRate;
  }

  // ---- what a call is billed at, row by row ----------------------------------------------------------------

  /** Before the change: the first of the rows a tool has of its own, else of those of its kind. */
  lemma BilledAtTheFirstRow(prices: Prices, tool: Tool, now: Time)
    returns (own: Option<Price>, general: Option<Price>)
    ensures IsOwnRate(prices, tool, now, own) && IsGeneralRate(prices, tool.kind, now, general)
    ensures BilledBefore(prices, tool, now) == if own.Some? then own else general
  {
    own, general := OwnPrice(prices, tool, now), GeneralPrice(prices, tool.kind, now);
    GeneralPriceIs(prices, tool.kind, now);
    OwnPriceIs(prices, tool, now);
  }

  // ---- and back --------------------------------------------------------------------------------------------

  lemma {:induction false} WrittenIsMigrated(prices: Prices, tools: seq<Tool>, now: Time, v: VersionKey)
    requires v in Written(prices, tools, now)
    ensures v in prices ==> Written(prices, tools, now)[v] == prices[v]
    ensures v !in prices ==> IsMigrated(Written(prices, tools, now), v)
  {
    hide Writes;
    if tools != [] {
      var front, tool := tools[..|tools| - 1], tools[|tools| - 1];
      if Writes(prices, tool, now) {
        NothingStartsNow(prices, tool, now);
      }
      if v in Written(prices, front, now) {
        WrittenIsMigrated(prices, front, now, v);
      }
    }
  }

  /** Downgrading undoes the upgrade exactly when no migration had written a tool's price before it. */
  lemma DowngradeUndoes(prices: Prices, stored: seq<Tool>, now: Time)
    ensures Undone(Written(prices, Tools(stored), now)) == prices <==>
      forall v :: v in prices ==> !IsMigrated(prices, v)
  {
    var after := Written(prices, Tools(stored), now);
    hide Written, Tools;
    forall v | v in after
      ensures v in prices ==> after[v] == prices[v]
      ensures v !in prices ==> IsMigrated(after, v)
    {
      WrittenIsMigrated(prices, Tools(stored), now, v);
    }
    forall v | v in prices ensures v in after {
      WrittenAt(prices, Tools(stored), now, v);
    }
    if v :| v in prices && IsMigrated(prices, v) {
      assert v !in Undone(after);
    }
  }
}
