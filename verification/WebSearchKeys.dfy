/**
 The organizations' web search keys, the workspaces' overrides of them, and the rules that say which
 key a workspace searches with. The rule changed twice: see `KeyKindMigration` and `KeyOrderMigration`.
 */
module WebSearchKeys {
  import opened Common

  type KeyId = nat
  type OrganizationId = nat
  type WorkspaceId = nat

  datatype Kind = Search | Fetch

  /** A row of `org_web_search_keys`. */
  datatype Key = Key(
    organization: OrganizationId,
    kind: Kind,
    provider: string,
    name: string,
    hasSecret: bool,
    isDefault: bool,
    archived: bool,
    createdAt: int)

  /** A row of `workspace_web_search_key_overrides`, keyed by its unique (workspace, key) pair. */
  datatype Override = Override(organization: OrganizationId, isDefault: bool, disabled: bool)

  type Keys = map<KeyId, Key>
  type Overrides = map<(WorkspaceId, KeyId), Override>
  type Group = (OrganizationId, Kind)

  // ---- orders -------------------------------------------------------------------------------

  /** Which provider's default came first while an organization could have several. */
  function Rank(provider: string): nat {
    if provider == "tavily" then 0 else if provider == "brave" then 1 else 2
  }

  /** Oldest first; by rank before age when `ranked`. */
  predicate Precedes(keys: Keys, ranked: bool, a: KeyId, b: KeyId) {
    && a in keys && b in keys
    && var (ra, rb) := if ranked then (Rank(keys[a].provider), Rank(keys[b].provider)) else (0, 0);
       || ra < rb
       || (ra == rb && keys[a].createdAt < keys[b].createdAt)
       || (ra == rb && keys[a].createdAt == keys[b].createdAt && a <= b)
  }

  /** Made earlier, or at the same moment with the smaller id. */
  predicate IsOlder(keys: Keys, k: KeyId, j: KeyId)
    requires k in keys && j in keys
  {
    keys[k].createdAt < keys[j].createdAt || (keys[k].createdAt == keys[j].createdAt && k <= j)
  }

  predicate IsFirst(keys: Keys, ranked: bool, s: set<KeyId>, k: KeyId) {
    k in s && forall j :: j in s ==> Precedes(keys, ranked, k, j)
  }

  lemma {:induction false} FirstExists(keys: Keys, ranked: bool, s: set<KeyId>)
    requires s != {} && s <= keys.Keys
    ensures exists k :: IsFirst(keys, ranked, s, k)
    decreases |s|
  {
    var x :| x in s;
    var rest := s - {x};
    if rest == {} {
      assert s == {x};
      assert IsFirst(keys, ranked, s, x);
    } else {
      FirstExists(keys, ranked, rest);
      var k :| IsFirst(keys, ranked, rest, k);
      var first := if Precedes(keys, ranked, x, k) then x else k;
      forall j | j in s ensures Precedes(keys, ranked, first, j) {
        assert j == x || j in rest;
      }
      assert IsFirst(keys, ranked, s, first);
    }
  }

  ghost function First(keys: Keys, ranked: bool, s: set<KeyId>): (first: Option<KeyId>)
    requires s <= keys.Keys
    ensures first.None? <==> s == {}
    ensures first.Some? ==> IsFirst(keys, ranked, s, first.value)
  {
    if s == {} then None
    else
      FirstExists(keys, ranked, s);
      var k :| IsFirst(keys, ranked, s, k);
      Some(k)
  }

  /** `rows` without repetition, in order. */
  ghost predicate InOrder(keys: Keys, ranked: bool, rows: seq<KeyId>) {
    && (forall i, j :: 0 <= i < j < |rows| ==> rows[i] != rows[j])
    && (forall i, j :: 0 <= i < j < |rows| ==> Precedes(keys, ranked, rows[i], rows[j]))
    && (forall k :: k in rows ==> k in keys)
  }

  lemma NothingInOrder(keys: Keys, ranked: bool)
    ensures InOrder(keys, ranked, [])
  {
  }

  lemma AppendInOrder(keys: Keys, ranked: bool, rows: seq<KeyId>, k: KeyId)
    requires InOrder(keys, ranked, rows) && k in keys
    requires forall j :: j in rows ==> j != k && Precedes(keys, ranked, j, k)
    ensures InOrder(keys, ranked, rows + [k])
  {
    var longer := rows + [k];
    forall i, j | 0 <= i < j < |longer| ensures longer[i] != longer[j] && Precedes(keys, ranked, longer[i], longer[j]) {
      assert longer[i] in rows;
    }
  }

  lemma HeadIsFirst(keys: Keys, ranked: bool, rows: seq<KeyId>, s: set<KeyId>)
    requires InOrder(keys, ranked, rows) && s <= keys.Keys
    requires forall k :: k in rows <==> k in s
    ensures First(keys, ranked, s) == if rows == [] then None else Some(rows[0])
  {
    if rows != [] {
      assert rows[0] in s;
      assert IsFirst(keys, ranked, s, rows[0]);
    } else {
      assert s == {};
    }
  }

  // ---- who may use what -----------------------------------------------------------------------

  function Lookup(overrides: Overrides, w: WorkspaceId, k: KeyId): Option<Override> {
    if (w, k) in overrides then Some(overrides[(w, k)]) else None
  }

  predicate TurnedOff(overrides: Overrides, w: WorkspaceId, k: KeyId) {
    (w, k) in overrides && overrides[(w, k)].disabled
  }

  predicate HasPin(overrides: Overrides, w: WorkspaceId, k: KeyId) {
    (w, k) in overrides && overrides[(w, k)].isDefault
  }

  function GroupOf(key: Key): Group {
    (key.organization, key.kind)
  }

  function Groups(keys: Keys): set<Group> {
    set k | k in keys :: GroupOf(keys[k])
  }

  function InGroup(keys: Keys, g: Group): set<KeyId> {
    set k | k in keys && GroupOf(keys[k]) == g
  }

  function Live(keys: Keys, g: Group): set<KeyId> {
    set k | k in keys && GroupOf(keys[k]) == g && !keys[k].archived
  }

  function LiveDefaults(keys: Keys, g: Group): set<KeyId> {
    set k | k in Live(keys, g) && keys[k].isDefault
  }

  function KeptOn(keys: Keys, overrides: Overrides, g: Group, w: WorkspaceId): set<KeyId> {
    set k | k in Live(keys, g) && !TurnedOff(overrides, w, k)
  }

  function KeptPins(keys: Keys, overrides: Overrides, g: Group, w: WorkspaceId): set<KeyId> {
    set k | k in KeptOn(keys, overrides, g, w) && HasPin(overrides, w, k)
  }

  function KeptDefaults(keys: Keys, overrides: Overrides, g: Group, w: WorkspaceId): set<KeyId> {
    set k | k in KeptOn(keys, overrides, g, w) && keys[k].isDefault
  }

  // ---- the three rules ------------------------------------------------------------------------

  /** Before there was one default per kind: the pin, else the defaults by rank, else the oldest key. */
  ghost function RankedChoice(keys: Keys, overrides: Overrides, g: Group, w: WorkspaceId): Option<KeyId> {
    First(keys, false, KeptPins(keys, overrides, g, w))
      .Or(First(keys, true, KeptDefaults(keys, overrides, g, w)))
      .Or(First(keys, false, KeptOn(keys, overrides, g, w)))
  }

  /** With one default per kind: the pin, else the default, else the oldest key. */
  ghost function OldestChoice(keys: Keys, overrides: Overrides, g: Group, w: WorkspaceId): Option<KeyId> {
    First(keys, false, KeptPins(keys, overrides, g, w))
      .Or(First(keys, false, KeptDefaults(keys, overrides, g, w)))
      .Or(First(keys, false, KeptOn(keys, overrides, g, w)))
  }

  /** Today: the pin, else the default, else the deployment's own tool. */
  ghost function StarredChoice(keys: Keys, overrides: Overrides, g: Group, w: WorkspaceId): Option<KeyId> {
    First(keys, false, KeptPins(keys, overrides, g, w))
      .Or(First(keys, false, KeptDefaults(keys, overrides, g, w)))
  }

  // ---- what the schema enforces -----------------------------------------------------------------

  /** `uq_org_web_search_keys_org_kind_default`. */
  ghost predicate OneDefaultPerKind(keys: Keys) {
    forall g, a, b :: a in LiveDefaults(keys, g) && b in LiveDefaults(keys, g) ==> a == b
  }

  /** The composite foreign key from an override to a key of its own organization. */
  ghost predicate OverridesNameKeys(keys: Keys, overrides: Overrides) {
    forall p :: p in overrides ==> p.1 in keys && overrides[p].organization == keys[p.1].organization
  }

  /** A workspace belongs to one organization. */
  ghost predicate OneOrganizationEach(overrides: Overrides) {
    forall p, q :: p in overrides && q in overrides && p.0 == q.0 ==>
      overrides[p].organization == overrides[q].organization
  }

  /** What a workspace's pin leaves of its other pins. */
  function Unpinned(row: Option<Override>): Option<Override> {
    match row
    case None => None
    case Some(r) => Some(r.(isDefault := false))
  }

  /** The same keys, differing at most in which are defaults. */
  ghost predicate SameButDefaults(before: Keys, after: Keys) {
    && before.Keys == after.Keys
    && forall k :: k in before ==> after[k] == before[k].(isDefault := after[k].isDefault)
  }

  lemma OrderIgnoresDefaults(before: Keys, after: Keys, ranked: bool, s: set<KeyId>)
    requires SameButDefaults(before, after) && s <= before.Keys
    ensures First(before, ranked, s) == First(after, ranked, s)
    ensures forall g :: Live(before, g) == Live(after, g)
  {
  }

  // ---- the tables -------------------------------------------------------------------------------

  /** The two tables, as a migration's connection reads and writes them. */
  class Tables {
    var keys: Keys
    var overrides: Overrides

    /** SELECT the given keys, ordered. */
    method SelectInOrder(wanted: set<KeyId>, ranked: bool) returns (rows: seq<KeyId>)
      requires wanted <= keys.Keys
      ensures InOrder(keys, ranked, rows)
      ensures forall k :: k in rows <==> k in wanted
      ensures |rows| == |wanted|
    {
      hide InOrder, Precedes;
      var rest := wanted;
      rows := [];
      NothingInOrder(keys, ranked);
      while rest != {}
        invariant rest <= wanted
        invariant InOrder(keys, ranked, rows)
        invariant forall k :: k in rows <==> k in wanted - rest
        invariant forall k, j :: k in rows && j in rest ==> Precedes(keys, ranked, k, j)
        invariant |rows| + |rest| == |wanted|
        decreases |rest|
      {
        FirstExists(keys, ranked, rest);
        var k :| k in rest && forall j | j in rest :: Precedes(keys, ranked, k, j);
        AppendInOrder(keys, ranked, rows, k);
        rows, rest := rows + [k], rest - {k};
      }
    }

    /** The overrides of the given keys, by workspace and then by key. */
    method OverridesByWorkspace(wanted: set<KeyId>)
      returns (byWorkspace: map<WorkspaceId, map<KeyId, Override>>)
      ensures forall w, k :: (w in byWorkspace && k in byWorkspace[w]) <==> ((w, k) in overrides && k in wanted)
      ensures forall w, k :: w in byWorkspace && k in byWorkspace[w] ==> byWorkspace[w][k] == overrides[(w, k)]
      ensures forall w :: w in byWorkspace ==> byWorkspace[w] != map[]
    {
      var rest := set p | p in overrides && p.1 in wanted;
      byWorkspace := map[];
      while rest != {}
        invariant forall p :: p in rest ==> p in overrides && p.1 in wanted
        invariant forall w, k :: (w in byWorkspace && k in byWorkspace[w])
                                 <==> ((w, k) in overrides && k in wanted && (w, k) !in rest)
        invariant forall w, k :: w in byWorkspace && k in byWorkspace[w] ==> byWorkspace[w][k] == overrides[(w, k)]
        invariant forall w :: w in byWorkspace ==> byWorkspace[w] != map[]
        decreases |rest|
      {
        var p :| p in rest;
        var (w, k) := p;
        var rows := if w in byWorkspace then byWorkspace[w] else map[];
        byWorkspace := byWorkspace[w := rows[k := overrides[p]]];
        rest := rest - {p};
      }
    }
  }
}
