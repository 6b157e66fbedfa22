/**
 Revision dbd76ac9d948: every key becomes a search key, and an organization with live defaults on
 several providers is left with the first of them in rank order. The migration runs with every key a search key,
 because it has just added the column with that default.
 */
module KeyKindMigration {
  import opened Common
  import opened WebSearchKeys

  ghost predicate AllSearch(keys: Keys) {
    forall k :: k in keys ==> keys[k].kind == Search
  }

  // ---- the state the migration leaves ---------------------------------------------------------

  ghost predicate ManyDefaults(keys: Keys, o: OrganizationId) {
    |LiveDefaults(keys, (o, Search))| >= 2
  }

  /** The default a search tried first. */
  ghost function RankedDefault(keys: Keys, o: OrganizationId): Option<KeyId> {
    First(keys, true, LiveDefaults(keys, (o, Search)))
  }

  ghost function KeyAfter(keys: Keys, k: KeyId): Key
    requires k in keys
  {
    if ManyDefaults(keys, keys[k].organization)
       && k in LiveDefaults(keys, (keys[k].organization, Search))
       && RankedDefault(keys, keys[k].organization) != Some(k)
    then keys[k].(isDefault := false) else keys[k]
  }

  ghost predicate HasLivePin(keys: Keys, overrides: Overrides, o: OrganizationId, w: WorkspaceId) {
    exists k :: k in Live(keys, (o, Search)) && HasPin(overrides, w, k)
  }

  /** The workspace turned the kept default off, pinned no live key, and kept another default on. */
  ghost predicate Stranded(keys: Keys, overrides: Overrides, o: OrganizationId, w: WorkspaceId) {
    && ManyDefaults(keys, o)
    && RankedDefault(keys, o).Some?
    && TurnedOff(overrides, w, RankedDefault(keys, o).value)
    && !HasLivePin(keys, overrides, o, w)
    && KeptDefaults(keys, overrides, (o, Search), w) != {}
  }

  /** The next default the workspace kept on. */
  ghost function NextDefault(keys: Keys, overrides: Overrides, o: OrganizationId, w: WorkspaceId): Option<KeyId> {
    First(keys, true, KeptDefaults(keys, overrides, (o, Search), w))
  }

  ghost function OverrideAfter(keys: Keys, overrides: Overrides, w: WorkspaceId, k: KeyId): Option<Override> {
    var row := Lookup(overrides, w, k);
    if k !in keys || !Stranded(keys, overrides, keys[k].organization, w) then row
    else if NextDefault(keys, overrides, keys[k].organization, w) == Some(k) then
      Some(Override(keys[k].organization, true, false))
    else Unpinned(row)
  }

  ghost predicate KeysMigrated(before: Keys, after: Keys, done: set<OrganizationId>) {
    && after.Keys == before.Keys
    && forall k :: k in before ==>
      after[k] == if before[k].organization in done then KeyAfter(before, k) else before[k]
  }

  ghost predicate OverridesMigrated(keys: Keys, before: Overrides, after: Overrides, done: set<OrganizationId>) {
    forall w, k :: Lookup(after, w, k) ==
                   if k in keys && keys[k].organization in done then OverrideAfter(keys, before, w, k)
                   else Lookup(before, w, k)
  }

  /** Organization `o`, for the workspaces in `done`. */
  ghost predicate WorkspacesMigrated(
      keys: Keys, before: Overrides, after: Overrides, o: OrganizationId, done: set<WorkspaceId>) {
    forall w, k :: Lookup(after, w, k) ==
                   if w in done && k in InGroup(keys, (o, Search)) then OverrideAfter(keys, before, w, k)
                   else Lookup(before, w, k)
  }

  ghost predicate Sound(keys: Keys, overrides: Overrides) {
    AllSearch(keys) && OverridesNameKeys(keys, overrides) && OneOrganizationEach(overrides)
  }

  // ---- locality -------------------------------------------------------------------------------

  lemma OverrideAfterIsLocal(keys: Keys, a: Overrides, b: Overrides, o: OrganizationId, w: WorkspaceId)
    requires AllSearch(keys)
    requires forall k :: k in InGroup(keys, (o, Search)) ==> Lookup(a, w, k) == Lookup(b, w, k)
    ensures forall k :: k in InGroup(keys, (o, Search)) ==> OverrideAfter(keys, a, w, k) == OverrideAfter(keys, b, w, k)
    ensures Stranded(keys, a, o, w) == Stranded(keys, b, o, w)
  {
    hide Precedes, IsFirst;
    var g := (o, Search);
    forall k | k in InGroup(keys, g)
      ensures TurnedOff(a, w, k) == TurnedOff(b, w, k) && HasPin(a, w, k) == HasPin(b, w, k)
    {
      assert Lookup(a, w, k) == Lookup(b, w, k);
    }
    forall k ensures k in KeptDefaults(keys, a, g, w) <==> k in KeptDefaults(keys, b, g, w) {
      assert k in Live(keys, g) ==> k in InGroup(keys, g);
    }
    assert KeptDefaults(keys, a, g, w) == KeptDefaults(keys, b, g, w);
    assert HasLivePin(keys, a, o, w) == HasLivePin(keys, b, o, w) by {
      forall k | k in Live(keys, g) ensures HasPin(a, w, k) == HasPin(b, w, k) { assert k in InGroup(keys, g); }
    }
    RankedDefaultIsLive(keys, o);
  }

  lemma RankedDefaultIsLive(keys: Keys, o: OrganizationId)
    ensures RankedDefault(keys, o).Some? ==> RankedDefault(keys, o).value in InGroup(keys, (o, Search))
  {
  }

  // ---- the migration --------------------------------------------------------------------------

  /** The row of (v, k) once the pins of `w` are cleared and `chosen` is pinned. */
  ghost function PinnedRow(
      before: Overrides, o: OrganizationId, w: WorkspaceId, chosen: KeyId, v: WorkspaceId, k: KeyId): Option<Override> {
    var row := Lookup(before, v, k);
    if v != w then row
    else if k != chosen then Unpinned(row)
    else if row.Some? then Some(row.value.(isDefault := true))
    else Some(Override(o, true, false))
  }

  method PinTheDefault(db: Tables, o: OrganizationId, w: WorkspaceId, chosen: KeyId)
    modifies db`overrides
    ensures forall v, k :: Lookup(db.overrides, v, k) == PinnedRow(old(db.overrides), o, w, chosen, v, k)
  {
    db.overrides := map p | p in db.overrides ::
      if p.0 == w && db.overrides[p].isDefault then db.overrides[p].(isDefault := false) else db.overrides[p];
    if (w, chosen) in db.overrides {
      db.overrides := db.overrides[(w, chosen) := db.overrides[(w, chosen)].(isDefault := true)];
    } else {
      db.overrides := db.overrides[(w, chosen) := Override(o, true, false)];
    }
  }

  /** Clearing every pin of a workspace touches one organization, the only one it has overrides in. */
  lemma PinMigratesTheWorkspace(
      keys: Keys, before: Overrides, after: Overrides, o: OrganizationId, w: WorkspaceId, chosen: KeyId)
    requires Sound(keys, before)
    requires forall v, k :: Lookup(after, v, k) == PinnedRow(before, o, w, chosen, v, k)
    requires Stranded(keys, before, o, w) && NextDefault(keys, before, o, w) == Some(chosen)
    ensures WorkspacesMigrated(keys, before, after, o, {w})
    ensures Sound(keys, after)
  {
    hide Precedes;
    var g := (o, Search);
    assert chosen in KeptDefaults(keys, before, g, w) && chosen in InGroup(keys, g);
    RankedDefaultIsLive(keys, o);
    var off := RankedDefault(keys, o).value;
    assert (w, off) in before && keys[off].organization == o;
    forall v, k
      ensures Lookup(after, v, k) ==
              if v in {w} && k in InGroup(keys, g) then OverrideAfter(keys, before, v, k) else Lookup(before, v, k)
    {
      assert Lookup(after, v, k) == PinnedRow(before, o, w, chosen, v, k);
      if v == w && (w, k) in before {
        assert before[(w, k)].organization == before[(w, off)].organization;
      }
    }
    forall p | p in after
      ensures p.1 in keys && after[p].organization == keys[p.1].organization
      ensures p in before || (p == (w, chosen) && after[p].organization == o)
      ensures p in before ==> after[p].organization == before[p].organization
    {
      assert Lookup(after, p.0, p.1) == PinnedRow(before, o, w, chosen, p.0, p.1);
      assert Lookup(before, p.0, p.1).Some? <==> p in before;
    }
    forall p, q | p in after && q in after && p.0 == q.0
      ensures after[p].organization == after[q].organization
    {
      assert (w, off) in before;
    }
  }

  lemma NothingToPin(keys: Keys, overrides: Overrides, o: OrganizationId, w: WorkspaceId)
    requires AllSearch(keys) && !Stranded(keys, overrides, o, w)
    ensures WorkspacesMigrated(keys, overrides, overrides, o, {w})
  {
  }

  function KeptAmong(rows: seq<KeyId>, overrides: map<KeyId, Override>): set<KeyId> {
    set k | k in rows && !(k in overrides && overrides[k].disabled)
  }

  /** The first of `rows` the workspace kept on. */
  method FirstKeptOn(keys: Keys, rows: seq<KeyId>, overrides: map<KeyId, Override>) returns (chosen: Option<KeyId>)
    requires InOrder(keys, true, rows)
    ensures chosen == First(keys, true, KeptAmong(rows, overrides))
  {
    ghost var kept := KeptAmong(rows, overrides);
    for i := 0 to |rows|
      invariant forall j :: 0 <= j < i ==> rows[j] !in kept
    {
      if !(rows[i] in overrides && overrides[rows[i]].disabled) {
        forall k | k in kept ensures Precedes(keys, true, rows[i], k) {
          var j :| 0 <= j < |rows| && rows[j] == k;
        }
        assert IsFirst(keys, true, kept, rows[i]);
        return Some(rows[i]);
      }
    }
    assert kept == {};
    return None;
  }

  ghost predicate RowsOf(keys: Keys, overrides: Overrides, o: OrganizationId, w: WorkspaceId,
                         rows: map<KeyId, Override>) {
    && (forall k :: k in rows ==> k in InGroup(keys, (o, Search)))
    && (forall k :: k in InGroup(keys, (o, Search)) ==>
      Lookup(overrides, w, k) == if k in rows then Some(rows[k]) else None)
  }

  /** What a workspace's rows say, in terms of the tables. */
  lemma RowsMeaning(keys: Keys, overrides: Overrides, o: OrganizationId, w: WorkspaceId, rows: map<KeyId, Override>,
                    ordered: seq<KeyId>, live: set<KeyId>)
    requires RowsOf(keys, overrides, o, w, rows) && live == Live(keys, (o, Search))
    requires InOrder(keys, true, ordered) && |ordered| >= 2
    requires forall k :: k in ordered <==> k in LiveDefaults(keys, (o, Search))
    ensures RankedDefault(keys, o) == Some(ordered[0])
    ensures TurnedOff(overrides, w, ordered[0]) <==> ordered[0] in rows && rows[ordered[0]].disabled
    ensures HasLivePin(keys, overrides, o, w) <==> exists k :: k in rows && rows[k].isDefault && k in live
    ensures TurnedOff(overrides, w, ordered[0]) ==>
              KeptAmong(ordered[1..], rows) == KeptDefaults(keys, overrides, (o, Search), w)
  {
    hide Precedes;
    HeadIsFirst(keys, true, ordered, LiveDefaults(keys, (o, Search)));
    forall k | k in live
      ensures k in InGroup(keys, (o, Search))
      ensures TurnedOff(overrides, w, k) == (k in rows && rows[k].disabled)
      ensures HasPin(overrides, w, k) == (k in rows && rows[k].isDefault)
    {
      assert k in InGroup(keys, (o, Search));
      assert Lookup(overrides, w, k) == if k in rows then Some(rows[k]) else None;
    }
    assert ordered[0] in ordered;
    if TurnedOff(overrides, w, ordered[0]) {
      forall k
        ensures k in KeptAmong(ordered[1..], rows) <==> k in KeptDefaults(keys, overrides, (o, Search), w)
      {
        assert k in ordered <==> k == ordered[0] || k in ordered[1..];
      }
    }
  }

  /** One workspace's turn: it gets a new pin where the kept default is off for it and no live pin stands in. */
  method PinTheNextDefaultFor(
      db: Tables, ghost keys: Keys, o: OrganizationId, ordered: seq<KeyId>, live: set<KeyId>, w: WorkspaceId,
      rows: map<KeyId, Override>)
    requires Sound(keys, db.overrides) && live == Live(keys, (o, Search))
    requires InOrder(keys, true, ordered) && |ordered| >= 2 && ManyDefaults(keys, o)
    requires forall k :: k in ordered <==> k in LiveDefaults(keys, (o, Search))
    requires RowsOf(keys, db.overrides, o, w, rows)
    requires keys == db.keys
    modifies db`overrides
    ensures WorkspacesMigrated(keys, old(db.overrides), db.overrides, o, {w})
    ensures Sound(keys, db.overrides)
  {
    hide Precedes, WorkspacesMigrated, Sound, InOrder;
    ghost var before := db.overrides;
    SoundKeys(keys, before);
    RowsMeaning(keys, before, o, w, rows, ordered, live);
    if !(ordered[0] in rows && rows[ordered[0]].disabled) {
      NothingToPin(keys, before, o, w);
      return;
    }
    if exists k :: k in rows && rows[k].isDefault && k in live {
      NothingToPin(keys, before, o, w);
      return;
    }
    InOrderTail(keys, ordered);
    var chosen := FirstKeptOn(db.keys, ordered[1..], rows);
    if chosen.None? {
      NothingToPin(keys, before, o, w);
      return;
    }
    PinTheDefault(db, o, w, chosen.value);
    PinMigratesTheWorkspace(keys, before, db.overrides, o, w, chosen.value);
  }

  lemma SoundKeys(keys: Keys, overrides: Overrides)
    requires Sound(keys, overrides)
    ensures AllSearch(keys)
  {
  }

  lemma InOrderTail(keys: Keys, ordered: seq<KeyId>)
    requires InOrder(keys, true, ordered) && ordered != []
    ensures InOrder(keys, true, ordered[1..])
  {
  }

  /** One more workspace done. */
  lemma WorkspaceDone(
      keys: Keys, before: Overrides, current: Overrides, after: Overrides, o: OrganizationId,
      done: set<WorkspaceId>, w: WorkspaceId)
    requires AllSearch(keys) && w !in done
    requires WorkspacesMigrated(keys, before, current, o, done)
    requires WorkspacesMigrated(keys, current, after, o, {w})
    ensures WorkspacesMigrated(keys, before, after, o, done + {w})
  {
    hide Precedes, IsFirst, Stranded;
    var g := (o, Search);
    forall k | k in InGroup(keys, g) ensures Lookup(before, w, k) == Lookup(current, w, k) {}
    OverrideAfterIsLocal(keys, before, current, o, w);
    forall v, k
      ensures Lookup(after, v, k) ==
              if v in done + {w} && k in InGroup(keys, g) then OverrideAfter(keys, before, v, k)
              else Lookup(before, v, k)
    {
      assert Lookup(after, v, k) == if v in {w} && k in InGroup(keys, g) then OverrideAfter(keys, current, v, k)
                                    else Lookup(current, v, k);
      assert Lookup(current, v, k) == if v in done && k in InGroup(keys, g) then OverrideAfter(keys, before, v, k)
                                      else Lookup(before, v, k);
    }
  }

  /** A workspace with no override in the organization turned nothing off, so it is left alone. */
  lemma AllWorkspacesDone(keys: Keys, before: Overrides, after: Overrides, o: OrganizationId, done: set<WorkspaceId>)
    requires AllSearch(keys) && WorkspacesMigrated(keys, before, after, o, done)
    requires forall w, k :: w !in done && k in InGroup(keys, (o, Search)) ==> (w, k) !in before
    ensures OverridesMigrated(keys, before, after, {o})
  {
  }

  function LiveOf(keys: Keys, o: OrganizationId): set<KeyId> {
    set k | k in keys && keys[k].organization == o && !keys[k].archived
  }

  function MembersOf(keys: Keys, o: OrganizationId): set<KeyId> {
    set k | k in keys && keys[k].organization == o
  }

  /** The kind need not be asked for. */
  lemma EveryKeyIsASearchKey(keys: Keys, o: OrganizationId)
    requires AllSearch(keys)
    ensures LiveOf(keys, o) == Live(keys, (o, Search)) && MembersOf(keys, o) == InGroup(keys, (o, Search))
  {
  }

  /** A turn for every workspace that has overrides, in whatever order they come. */
  method PinTheNextDefault(db: Tables, o: OrganizationId, ordered: seq<KeyId>)
    requires Sound(db.keys, db.overrides) && ManyDefaults(db.keys, o)
    requires InOrder(db.keys, true, ordered) && |ordered| >= 2
    requires forall k :: k in ordered <==> k in LiveDefaults(db.keys, (o, Search))
    modifies db`overrides
    ensures OverridesMigrated(db.keys, old(db.overrides), db.overrides, {o})
    ensures Sound(db.keys, db.overrides)
  {
    hide *;
    ghost var keys, before := db.keys, db.overrides;
    SoundKeys(keys, before);
    var live := LiveOf(db.keys, o);
    var members := MembersOf(db.keys, o);
    EveryKeyIsASearchKey(keys, o);
    var byWorkspace := db.OverridesByWorkspace(members);
    var todo := byWorkspace.Keys;
    NoWorkspaceDone(keys, before, o);
    assert byWorkspace.Keys - todo == {};
    while todo != {}
      invariant todo <= byWorkspace.Keys
      invariant WorkspacesMigrated(keys, before, db.overrides, o, byWorkspace.Keys - todo)
      invariant Sound(keys, db.overrides)
      decreases |todo|
    {
      var w :| w in todo;
      ghost var current, done := db.overrides, byWorkspace.Keys - todo;
      RowsStand(keys, before, current, o, done, w, byWorkspace[w]);
      PinTheNextDefaultFor(db, keys, o, ordered, live, w, byWorkspace[w]);
      WorkspaceDone(keys, before, current, db.overrides, o, done, w);
      OneLess(byWorkspace.Keys, todo, w);
      todo := todo - {w};
    }
    assert byWorkspace.Keys - todo == byWorkspace.Keys;
    AllWorkspacesDone(keys, before, db.overrides, o, byWorkspace.Keys);
  }

  lemma NoWorkspaceDone(keys: Keys, overrides: Overrides, o: OrganizationId)
    ensures WorkspacesMigrated(keys, overrides, overrides, o, {})
  {
  }

  lemma RowsStand(keys: Keys, before: Overrides, current: Overrides, o: OrganizationId, done: set<WorkspaceId>,
                  w: WorkspaceId, rows: map<KeyId, Override>)
    requires WorkspacesMigrated(keys, before, current, o, done) && w !in done
    requires forall k :: k in rows <==> (w, k) in before && k in InGroup(keys, (o, Search))
    requires forall k :: k in rows ==> rows[k] == before[(w, k)]
    ensures RowsOf(keys, current, o, w, rows)
  {
  }

  /** Leave one organization one default. */
  method KeepOneDefault(db: Tables, o: OrganizationId, rows: set<KeyId>)
    requires Sound(db.keys, db.overrides) && rows == LiveDefaults(db.keys, (o, Search))
    modifies db
    ensures KeysMigrated(old(db.keys), db.keys, {o})
    ensures OverridesMigrated(old(db.keys), old(db.overrides), db.overrides, {o})
    ensures Sound(db.keys, db.overrides)
  {
    hide Precedes;
    ghost var keys, before := db.keys, db.overrides;
    if |rows| < 2 {
      return;
    }
    var ordered := db.SelectInOrder(rows, true);
    PinTheNextDefault(db, o, ordered);
    HeadIsFirst(keys, true, ordered, rows);
    db.keys := map k | k in db.keys ::
      if k in ordered[1..] then db.keys[k].(isDefault := false) else db.keys[k];
    forall k | k in keys
      ensures db.keys[k] == if keys[k].organization in {o} then KeyAfter(keys, k) else keys[k]
    {
      assert k in ordered <==> k == ordered[0] || k in ordered[1..];
      assert ordered[0] !in ordered[1..];
    }
  }

  function OfOrganization(keys: Keys, ids: set<KeyId>, o: OrganizationId): set<KeyId> {
    set k | k in ids && k in keys && keys[k].organization == o
  }

  lemma OneMoreOfOrganization(keys: Keys, rows: set<KeyId>, rest: set<KeyId>, k: KeyId)
    requires k in rest && rest <= rows && k in keys
    ensures rows - (rest - {k}) == (rows - rest) + {k}
    ensures forall o ::
      OfOrganization(keys, rows - (rest - {k}), o)
      == OfOrganization(keys, rows - rest, o) + (if keys[k].organization == o then {k} else {})
  {
  }

  function DefaultsIn(defaults: map<OrganizationId, set<KeyId>>, o: OrganizationId): set<KeyId> {
    if o in defaults then defaults[o] else {}
  }

  /** The live defaults of each organization that has any. */
  method DefaultsByOrganization(db: Tables) returns (defaults: map<OrganizationId, set<KeyId>>)
    requires AllSearch(db.keys)
    ensures forall o :: o in defaults ==> defaults[o] == LiveDefaults(db.keys, (o, Search))
    ensures forall o :: o !in defaults ==> LiveDefaults(db.keys, (o, Search)) == {}
  {
    hide OfOrganization, LiveDefaults;
    var keys := db.keys;
    var rows := set k | k in keys && keys[k].isDefault && !keys[k].archived;
    var rest := rows;
    defaults := map[];
    NoneOfOrganization(keys);
    assert rows - rest == {};
    while rest != {}
      invariant rest <= rows
      invariant forall o :: DefaultsIn(defaults, o) == OfOrganization(keys, rows - rest, o)
      decreases |rest|
    {
      var k :| k in rest;
      var o := keys[k].organization;
      OneMoreOfOrganization(keys, rows, rest, k);
      defaults := defaults[o := DefaultsIn(defaults, o) + {k}];
      rest := rest - {k};
    }
    assert rows - rest == rows;
    DefaultsAreLive(keys, rows);
    assert forall o :: DefaultsIn(defaults, o) == LiveDefaults(keys, (o, Search));
  }

  lemma NoneOfOrganization(keys: Keys)
    ensures forall o :: OfOrganization(keys, {}, o) == {}
  {
  }

  lemma DefaultsAreLive(keys: Keys, rows: set<KeyId>)
    requires AllSearch(keys) && rows == set k | k in keys && keys[k].isDefault && !keys[k].archived
    ensures forall o :: OfOrganization(keys, rows, o) == LiveDefaults(keys, (o, Search))
  {
  }

  /** Organizations share no key, so what one organization's step writes another's does not read. */
  lemma OrganizationUntouched(before: Keys, current: Keys, done: set<OrganizationId>, o: OrganizationId)
    requires KeysMigrated(before, current, done) && o !in done
    ensures SameButDefaults(before, current)
    ensures forall k :: k in InGroup(before, (o, Search)) ==> current[k] == before[k]
    ensures InGroup(current, (o, Search)) == InGroup(before, (o, Search))
    ensures Live(current, (o, Search)) == Live(before, (o, Search))
    ensures LiveDefaults(current, (o, Search)) == LiveDefaults(before, (o, Search))
    ensures RankedDefault(current, o) == RankedDefault(before, o)
  {
    hide Precedes, IsFirst;
    forall k | k in before ensures GroupOf(current[k]) == GroupOf(before[k]) {}
    OrderIgnoresDefaults(before, current, true, LiveDefaults(before, (o, Search)));
    assert LiveDefaults(current, (o, Search)) == LiveDefaults(before, (o, Search)) by {
      forall k ensures k in LiveDefaults(current, (o, Search)) <==> k in LiveDefaults(before, (o, Search)) {
        assert k in Live(before, (o, Search)) ==> k in InGroup(before, (o, Search));
      }
    }
  }

  lemma RowsUntouched(
      before: Keys, beforeRows: Overrides, current: Keys, currentRows: Overrides, done: set<OrganizationId>,
      o: OrganizationId, w: WorkspaceId, k: KeyId)
    requires AllSearch(before) && o !in done && k in InGroup(before, (o, Search))
    requires KeysMigrated(before, current, done) && OverridesMigrated(before, beforeRows, currentRows, done)
    ensures OverrideAfter(current, currentRows, w, k) == OverrideAfter(before, beforeRows, w, k)
  {
    hide Precedes, IsFirst;
    var g := (o, Search);
    OrganizationUntouched(before, current, done, o);
    forall j | j in InGroup(before, g) ensures Lookup(currentRows, w, j) == Lookup(beforeRows, w, j) {}
    OverrideAfterIsLocal(before, beforeRows, currentRows, o, w);
    assert KeptDefaults(current, currentRows, g, w) == KeptDefaults(before, currentRows, g, w) by {
      forall j ensures j in KeptDefaults(current, currentRows, g, w) <==> j in KeptDefaults(before, currentRows, g, w) {
        assert j in Live(before, g) ==> j in InGroup(before, g);
      }
    }
    OrderIgnoresDefaults(before, current, true, KeptDefaults(before, currentRows, g, w));
    assert HasLivePin(current, currentRows, o, w) == HasLivePin(before, currentRows, o, w);
    assert ManyDefaults(current, o) == ManyDefaults(before, o);
    assert Stranded(current, currentRows, o, w) == Stranded(before, currentRows, o, w);
  }

  lemma OrganizationDone(
      before: Keys, beforeRows: Overrides, current: Keys, currentRows: Overrides, after: Keys, afterRows: Overrides,
      done: set<OrganizationId>, o: OrganizationId)
    requires AllSearch(before) && o !in done
    requires KeysMigrated(before, current, done) && OverridesMigrated(before, beforeRows, currentRows, done)
    requires KeysMigrated(current, after, {o}) && OverridesMigrated(current, currentRows, afterRows, {o})
    ensures KeysMigrated(before, after, done + {o})
    ensures OverridesMigrated(before, beforeRows, afterRows, done + {o})
  {
    hide Precedes, IsFirst, OverrideAfter;
    OrganizationUntouched(before, current, done, o);
    forall k | k in before
      ensures after[k] == if before[k].organization in done + {o} then KeyAfter(before, k) else before[k]
    {
      assert current[k].organization == before[k].organization;
      if before[k].organization == o {
        assert k in InGroup(before, (o, Search));
      }
    }
    forall w, k
      ensures Lookup(afterRows, w, k) ==
              if k in before && before[k].organization in done + {o} then OverrideAfter(before, beforeRows, w, k)
              else Lookup(beforeRows, w, k)
    {
      assert k in before ==> current[k].organization == before[k].organization;
      assert Lookup(currentRows, w, k) ==
             if k in before && before[k].organization in done then OverrideAfter(before, beforeRows, w, k)
             else Lookup(beforeRows, w, k);
      if k in InGroup(before, (o, Search)) {
        RowsUntouched(before, beforeRows, current, currentRows, done, o, w, k);
      }
    }
  }

  ghost predicate Migrated(before: Keys, beforeRows: Overrides, after: Keys, afterRows: Overrides) {
    && after.Keys == before.Keys
    && (forall k :: k in before ==> after[k] == KeyAfter(before, k))
    && (forall w, k :: Lookup(afterRows, w, k) == OverrideAfter(before, beforeRows, w, k))
  }

  lemma NothingMigrated(keys: Keys, rows: Overrides)
    ensures KeysMigrated(keys, keys, {}) && OverridesMigrated(keys, rows, rows, {})
  {
  }

  /** An organization with no live default has nothing to migrate. */
  lemma AllOrganizationsDone(
      before: Keys, beforeRows: Overrides, after: Keys, afterRows: Overrides, done: set<OrganizationId>)
    requires AllSearch(before)
    requires KeysMigrated(before, after, done) && OverridesMigrated(before, beforeRows, afterRows, done)
    requires forall o :: o !in done ==> LiveDefaults(before, (o, Search)) == {}
    ensures Migrated(before, beforeRows, after, afterRows)
  {
  }

  lemma DefaultsStand(before: Keys, current: Keys, done: set<OrganizationId>, o: OrganizationId, rows: set<KeyId>)
    requires KeysMigrated(before, current, done) && o !in done && rows == LiveDefaults(before, (o, Search))
    ensures rows == LiveDefaults(current, (o, Search))
  {
  }

  method KeepOneDefaultPerOrganization(db: Tables)
    requires Sound(db.keys, db.overrides)
    modifies db
    ensures Migrated(old(db.keys), old(db.overrides), db.keys, db.overrides)
    ensures Sound(db.keys, db.overrides)
    ensures forall o :: KeepsTavilyElseBraveElseOldest(old(db.keys), db.keys, o)
    ensures forall o, w :: PinsTavilyElseBraveElseOldest(old(db.keys), old(db.overrides), db.overrides, o, w)
  {
    hide *;
    ghost var keys, rows := db.keys, db.overrides;
    SoundKeys(keys, rows);
    var defaults := DefaultsByOrganization(db);
    var todo := defaults.Keys;
    NothingMigrated(keys, rows);
    assert defaults.Keys - todo == {};
    while todo != {}
      invariant todo <= defaults.Keys
      invariant forall o :: o in defaults ==> defaults[o] == LiveDefaults(keys, (o, Search))
      invariant KeysMigrated(keys, db.keys, defaults.Keys - todo)
      invariant OverridesMigrated(keys, rows, db.overrides, defaults.Keys - todo)
      invariant Sound(db.keys, db.overrides)
      decreases |todo|
    {
      var o :| o in todo;
      ghost var current, currentRows, done := db.keys, db.overrides, defaults.Keys - todo;
      DefaultsStand(keys, current, done, o, defaults[o]);
      KeepOneDefault(db, o, defaults[o]);
      OrganizationDone(keys, rows, current, currentRows, db.keys, db.overrides, done, o);
      OneLess(defaults.Keys, todo, o);
      todo := todo - {o};
    }
    assert defaults.Keys - todo == defaults.Keys;
    AllOrganizationsDone(keys, rows, db.keys, db.overrides, defaults.Keys);
    forall o ensures KeepsTavilyElseBraveElseOldest(keys, db.keys, o) {
      TheDefaultLeft(keys, rows, db.keys, db.overrides, o);
    }
    forall o, w ensures PinsTavilyElseBraveElseOldest(keys, rows, db.overrides, o, w) {
      ThePinMade(keys, rows, db.keys, db.overrides, o, w);
    }
  }

  // ---- which default is left, provider by provider ----------------------------------------------

  predicate IsLiveDefault(keys: Keys, o: OrganizationId, k: KeyId) {
    k in keys && keys[k].organization == o && keys[k].isDefault && !keys[k].archived
  }

  /** One the workspace has not turned off. */
  predicate IsOnDefault(keys: Keys, overrides: Overrides, o: OrganizationId, w: WorkspaceId, k: KeyId) {
    IsLiveDefault(keys, o, k) && ((w, k) in overrides ==> !overrides[(w, k)].disabled)
  }

  ghost predicate HasOneOf(keys: Keys, among: set<KeyId>, provider: string) {
    exists j :: j in among && j in keys && keys[j].provider == provider
  }

  /** Of the given keys a tavily one if there is any, else a brave one, else any; and of those the oldest. */
  ghost predicate IsTavilyElseBraveElseOldest(keys: Keys, among: set<KeyId>, k: KeyId) {
    && among <= keys.Keys && k in among
    && (HasOneOf(keys, among, "tavily") ==> keys[k].provider == "tavily")
    && (!HasOneOf(keys, among, "tavily") && HasOneOf(keys, among, "brave") ==> keys[k].provider == "brave")
    && (forall j :: j in among && keys[j].provider == keys[k].provider ==> IsOlder(keys, k, j))
    && (keys[k].provider != "tavily" && keys[k].provider != "brave" ==> forall j :: j in among ==> IsOlder(keys, k, j))
  }

  /** An organization with several live defaults keeps one, a tavily one if it has any, else a brave one. */
  ghost predicate KeepsTavilyElseBraveElseOldest(before: Keys, after: Keys, o: OrganizationId) {
    var defaults := set k | k in before && IsLiveDefault(before, o, k);
    forall a, b :: a in defaults && b in defaults && a != b ==>
      exists k :: IsTavilyElseBraveElseOldest(before, defaults, k)
        && forall j :: IsLiveDefault(after, o, j) <==> j == k
  }

  /** A pin the migration makes is on the first, in the same order, of the defaults the workspace left on. */
  ghost predicate PinsTavilyElseBraveElseOldest(
      keys: Keys, before: Overrides, after: Overrides, o: OrganizationId, w: WorkspaceId) {
    var defaults := set k | k in keys && IsOnDefault(keys, before, o, w, k);
    forall k :: k in keys && keys[k].organization == o && HasPin(after, w, k) && !HasPin(before, w, k) ==>
      IsTavilyElseBraveElseOldest(keys, defaults, k)
  }

  lemma FirstInRankOrder(keys: Keys, among: set<KeyId>, k: KeyId)
    requires among <= keys.Keys && IsFirst(keys, true, among, k)
    ensures IsTavilyElseBraveElseOldest(keys, among, k)
  {
  }

  lemma TheDefaultLeft(before: Keys, beforeRows: Overrides, after: Keys, afterRows: Overrides, o: OrganizationId)
    requires AllSearch(before) && Migrated(before, beforeRows, after, afterRows)
    ensures KeepsTavilyElseBraveElseOldest(before, after, o)
  {
    var defaults := set k | k in before && IsLiveDefault(before, o, k);
    DefaultsAfter(before, beforeRows, after, afterRows, o);
    hide Precedes, Migrated, IsTavilyElseBraveElseOldest;
    assert defaults == LiveDefaults(before, (o, Search));
    if a, b :| a in defaults && b in defaults && a != b {
      AtLeastTwo(defaults, a, b);
      var k := RankedDefault(before, o).value;
      FirstInRankOrder(before, defaults, k);
      forall j ensures IsLiveDefault(after, o, j) <==> j == k {
        assert IsLiveDefault(after, o, j) <==> j in LiveDefaults(after, (o, Search));
      }
    }
  }

  lemma AtLeastTwo<T>(s: set<T>, a: T, b: T)
    requires a in s && b in s && a != b
    ensures |s| >= 2
  {
    assert {a, b} <= s;
    assert |s - {a}| == |s| - 1 && b in s - {a};
  }

  lemma ThePinMade(
      keys: Keys, before: Overrides, after: Keys, afterRows: Overrides, o: OrganizationId, w: WorkspaceId)
    requires Sound(keys, before) && Migrated(keys, before, after, afterRows)
    ensures PinsTavilyElseBraveElseOldest(keys, before, afterRows, o, w)
  {
    var defaults := set k | k in keys && IsOnDefault(keys, before, o, w, k);
    hide Precedes, IsFirst, ManyDefaults, RankedDefault, IsTavilyElseBraveElseOldest;
    assert defaults == KeptDefaults(keys, before, (o, Search), w);
    forall k | k in keys && keys[k].organization == o && HasPin(afterRows, w, k) && !HasPin(before, w, k)
      ensures IsTavilyElseBraveElseOldest(keys, defaults, k)
    {
      assert Lookup(afterRows, w, k) == OverrideAfter(keys, before, w, k);
      assert NextDefault(keys, before, o, w) == Some(k);
      FirstInRankOrder(keys, defaults, k);
    }
  }

  // ---- what the migration keeps ---------------------------------------------------------------

  /** An organization ends with the default a search tried first, and no other. */
  lemma DefaultsAfter(before: Keys, beforeRows: Overrides, after: Keys, afterRows: Overrides, o: OrganizationId)
    requires AllSearch(before) && Migrated(before, beforeRows, after, afterRows)
    ensures SameButDefaults(before, after)
    ensures Live(after, (o, Search)) == Live(before, (o, Search))
    ensures LiveDefaults(after, (o, Search)) ==
            if ManyDefaults(before, o) then {RankedDefault(before, o).value} else LiveDefaults(before, (o, Search))
  {
    hide Precedes, OverrideAfter;
    OrderIgnoresDefaults(before, after, true, {});
    forall k
      ensures k in LiveDefaults(after, (o, Search)) <==>
              k in LiveDefaults(before, (o, Search))
              && (ManyDefaults(before, o) ==> RankedDefault(before, o) == Some(k))
    {
      assert k in Live(before, (o, Search)) <==> k in Live(after, (o, Search));
    }
  }

  /** Nobody's key is turned on or off, and a stranded workspace ends with one kept-on pin. */
  lemma PinsAfter(
      before: Keys, beforeRows: Overrides, after: Keys, afterRows: Overrides, o: OrganizationId, w: WorkspaceId)
    requires Sound(before, beforeRows) && Migrated(before, beforeRows, after, afterRows)
    ensures KeptOn(after, afterRows, (o, Search), w) == KeptOn(before, beforeRows, (o, Search), w)
    ensures KeptPins(after, afterRows, (o, Search), w) ==
            if Stranded(before, beforeRows, o, w) then {NextDefault(before, beforeRows, o, w).value}
            else KeptPins(before, beforeRows, (o, Search), w)
  {
    hide Precedes, ManyDefaults, RankedDefault;
    var g := (o, Search);
    DefaultsAfter(before, beforeRows, after, afterRows, o);
    forall k | k in Live(before, g)
      ensures TurnedOff(afterRows, w, k) == TurnedOff(beforeRows, w, k)
      ensures k in KeptOn(before, beforeRows, g, w) ==>
        HasPin(afterRows, w, k) ==
        if Stranded(before, beforeRows, o, w) then NextDefault(before, beforeRows, o, w) == Some(k)
        else HasPin(beforeRows, w, k)
    {
      assert Lookup(afterRows, w, k) == OverrideAfter(before, beforeRows, w, k);
      assert Lookup(beforeRows, w, k).Some? <==> (w, k) in beforeRows;
      assert Lookup(afterRows, w, k).Some? <==> (w, k) in afterRows;
    }
    assert KeptOn(after, afterRows, g, w) == KeptOn(before, beforeRows, g, w);
  }

  /**
   The one case in which a workspace changes key: a pin it holds on a key it turned off hides, from the
   migration, that its searches went to another default, and that default is not the oldest key it kept on.
   */
  ghost predicate Masked(keys: Keys, overrides: Overrides, o: OrganizationId, w: WorkspaceId) {
    && ManyDefaults(keys, o)
    && RankedDefault(keys, o).Some? && TurnedOff(overrides, w, RankedDefault(keys, o).value)
    && HasLivePin(keys, overrides, o, w) && KeptPins(keys, overrides, (o, Search), w) == {}
    && KeptDefaults(keys, overrides, (o, Search), w) != {}
    && NextDefault(keys, overrides, o, w) != First(keys, false, KeptOn(keys, overrides, (o, Search), w))
  }

  /** A workspace keeps the key it searched with exactly when it is not masked. */
  lemma ChoiceKept(
      before: Keys, beforeRows: Overrides, after: Keys, afterRows: Overrides, o: OrganizationId, w: WorkspaceId)
    requires Sound(before, beforeRows) && Migrated(before, beforeRows, after, afterRows)
    ensures OldestChoice(after, afterRows, (o, Search), w) == RankedChoice(before, beforeRows, (o, Search), w)
            <==> !Masked(before, beforeRows, o, w)
  {
    hide Precedes, Migrated, Stranded, ManyDefaults, OverridesNameKeys, OneOrganizationEach;
    var g := (o, Search);
    DefaultsKeptOnAfter(before, beforeRows, after, afterRows, o, w);
    PinsAfter(before, beforeRows, after, afterRows, o, w);
    DefaultsAfter(before, beforeRows, after, afterRows, o);
    OrderIgnoresDefaults(before, after, false, KeptPins(before, beforeRows, g, w));
    OrderIgnoresDefaults(before, after, false, KeptOn(before, beforeRows, g, w));
    OrderIgnoresDefaults(before, after, false, KeptDefaults(after, afterRows, g, w));
    StrandedMeans(before, beforeRows, o, w);
  }

  /** The defaults a workspace keeps on, before and after. */
  lemma DefaultsKeptOnAfter(
      before: Keys, beforeRows: Overrides, after: Keys, afterRows: Overrides, o: OrganizationId, w: WorkspaceId)
    requires Sound(before, beforeRows) && Migrated(before, beforeRows, after, afterRows)
    ensures ManyDefaults(before, o) ==> RankedDefault(before, o).Some?
    ensures ManyDefaults(before, o) && TurnedOff(beforeRows, w, RankedDefault(before, o).value) ==>
              KeptDefaults(after, afterRows, (o, Search), w) == {}
    ensures ManyDefaults(before, o) && !TurnedOff(beforeRows, w, RankedDefault(before, o).value) ==>
              && KeptDefaults(after, afterRows, (o, Search), w) == {RankedDefault(before, o).value}
              && First(before, true, KeptDefaults(before, beforeRows, (o, Search), w)) == RankedDefault(before, o)
    ensures !ManyDefaults(before, o) ==>
              && KeptDefaults(after, afterRows, (o, Search), w) == KeptDefaults(before, beforeRows, (o, Search), w)
              && First(before, true, KeptDefaults(before, beforeRows, (o, Search), w))
                 == First(before, false, KeptDefaults(before, beforeRows, (o, Search), w))
  {
    hide Migrated, Stranded, OverridesNameKeys, OneOrganizationEach;
    var g := (o, Search);
    DefaultsAfter(before, beforeRows, after, afterRows, o);
    PinsAfter(before, beforeRows, after, afterRows, o, w);
    var kept := KeptDefaults(before, beforeRows, g, w);
    forall k ensures k in KeptDefaults(after, afterRows, g, w)
                     <==> k in KeptOn(before, beforeRows, g, w) && k in LiveDefaults(after, g) {}
    forall k ensures k in kept <==> k in KeptOn(before, beforeRows, g, w) && k in LiveDefaults(before, g) {}
    if ManyDefaults(before, o) {
      var first := RankedDefault(before, o).value;
      assert first in LiveDefaults(before, g);
      if !TurnedOff(beforeRows, w, first) {
        assert first in kept;
        var other := First(before, true, kept).value;
        assert Precedes(before, true, first, other) && Precedes(before, true, other, first);
      }
    } else {
      assert kept <= LiveDefaults(before, g);
      AtMostOne(LiveDefaults(before, g));
    }
  }

  lemma AtMostOne<T>(s: set<T>)
    requires |s| < 2
    ensures forall a, b :: a in s && b in s ==> a == b
  {
    forall a, b | a in s && b in s ensures a == b {
      assert |s - {a}| == |s| - 1;
      assert s - {a} == {};
      assert b !in s - {a};
    }
  }

  lemma StrandedMeans(keys: Keys, overrides: Overrides, o: OrganizationId, w: WorkspaceId)
    requires ManyDefaults(keys, o) ==> RankedDefault(keys, o).Some?
    ensures Stranded(keys, overrides, o, w) <==>
            && ManyDefaults(keys, o) && TurnedOff(overrides, w, RankedDefault(keys, o).value)
            && !HasLivePin(keys, overrides, o, w) && KeptDefaults(keys, overrides, (o, Search), w) != {}
    ensures !HasLivePin(keys, overrides, o, w) ==> KeptPins(keys, overrides, (o, Search), w) == {}
  {
  }

  /** Masking takes an override that both pins its key and turns it off. */
  lemma NoMaskWithoutAPinTurnedOff(keys: Keys, overrides: Overrides, o: OrganizationId, w: WorkspaceId)
    requires forall p :: p in overrides ==> !(overrides[p].isDefault && overrides[p].disabled)
    ensures !Masked(keys, overrides, o, w)
  {
    hide Precedes, IsFirst, ManyDefaults;
    if HasLivePin(keys, overrides, o, w) {
      var k :| k in Live(keys, (o, Search)) && HasPin(overrides, w, k);
      assert k in KeptPins(keys, overrides, (o, Search), w);
    }
  }

  /** Nothing in the schema rules the mask out: a workspace that pinned and turned off one key changes key. */
  lemma MaskedWorkspaceExists() returns (keys: Keys, overrides: Overrides)
    ensures Sound(keys, overrides)
    ensures Masked(keys, overrides, 0, 0)
  {
    keys := map[
      0 := Key(0, Search, "exa", "oldest", true, false, false, 0),
      1 := Key(0, Search, "tavily", "first", true, true, false, 1),
      2 := Key(0, Search, "brave", "next", true, true, false, 2)];
    overrides := map[(0, 1) := Override(0, true, true)];
    var g := (0, Search);
    assert LiveDefaults(keys, g) == {1, 2};
    assert IsFirst(keys, true, LiveDefaults(keys, g), 1);
    HeadIsFirst(keys, true, [1, 2], LiveDefaults(keys, g));
    assert 1 in Live(keys, g) && HasPin(overrides, 0, 1);
    assert KeptOn(keys, overrides, g, 0) == {0, 2};
    HeadIsFirst(keys, false, [0, 2], KeptOn(keys, overrides, g, 0));
    assert KeptDefaults(keys, overrides, g, 0) == {2};
    assert KeptPins(keys, overrides, g, 0) == {};
  }

  /** Such a workspace does change key, whatever tables the migration leaves. */
  lemma MaskedWorkspaceChangesKey() returns (keys: Keys, overrides: Overrides)
    ensures Sound(keys, overrides)
    ensures forall after, afterRows :: Migrated(keys, overrides, after, afterRows) ==>
      OldestChoice(after, afterRows, (0, Search), 0) != RankedChoice(keys, overrides, (0, Search), 0)
  {
    hide *;
    keys, overrides := MaskedWorkspaceExists();
    forall after, afterRows | Migrated(keys, overrides, after, afterRows)
      ensures OldestChoice(after, afterRows, (0, Search), 0) != RankedChoice(keys, overrides, (0, Search), 0)
    {
      ChoiceKept(keys, overrides, after, afterRows, 0, 0);
    }
  }

  /** One live default per organization and kind, so the new unique index can be built. */
  lemma OneDefaultAfter(before: Keys, beforeRows: Overrides, after: Keys, afterRows: Overrides)
    requires AllSearch(before) && Migrated(before, beforeRows, after, afterRows)
    ensures OneDefaultPerKind(after)
  {
    hide Precedes, IsFirst, Migrated;
    forall g: Group, a, b | a in LiveDefaults(after, g) && b in LiveDefaults(after, g) ensures a == b {
      DefaultsAfter(before, beforeRows, after, afterRows, g.0);
      assert g.1 == Search;
      if !ManyDefaults(before, g.0) {
        AtMostOne(LiveDefaults(before, g));
      }
    }
  }
}
