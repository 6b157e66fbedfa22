/**
 Revision 90b7e153c41f: set defaults and pins so that each workspace keeps its key once the oldest key
 no longer stands in for a missing default.
 */
module KeyOrderMigration {
  import opened Common
  import opened WebSearchKeys

  // ---- the state the migration leaves ---------------------------------------------------------

  /** The default a group ends with: the one it has, else its oldest live key. */
  ghost function StarredDefault(keys: Keys, g: Group): Option<KeyId> {
    First(keys, false, LiveDefaults(keys, g)).Or(First(keys, false, Live(keys, g)))
  }

  ghost predicate GainsDefault(keys: Keys, k: KeyId) {
    && k in keys
    && LiveDefaults(keys, GroupOf(keys[k])) == {}
    && StarredDefault(keys, GroupOf(keys[k])) == Some(k)
  }

  ghost function KeyAfter(keys: Keys, k: KeyId): Key
    requires k in keys
  {
    if GainsDefault(keys, k) then keys[k].(isDefault := true) else keys[k]
  }

  /** The default is off for the workspace, and none of its pins is on a key that is on. */
  ghost predicate NeedsPin(keys: Keys, overrides: Overrides, g: Group, w: WorkspaceId) {
    && KeptOn(keys, overrides, g, w) != {}
    && StarredDefault(keys, g).Some?
    && StarredDefault(keys, g).value !in KeptOn(keys, overrides, g, w)
    && KeptPins(keys, overrides, g, w) == {}
  }

  ghost function OverrideAfter(keys: Keys, overrides: Overrides, w: WorkspaceId, k: KeyId): Option<Override> {
    if k !in keys || !NeedsPin(keys, overrides, GroupOf(keys[k]), w) then Lookup(overrides, w, k)
    else if First(keys, false, KeptOn(keys, overrides, GroupOf(keys[k]), w)) == Some(k) then
      Some(Override(OrganizationOf(keys, overrides, w, k), true, false))
    else Unpinned(Lookup(overrides, w, k))
  }

  function OrganizationOf(keys: Keys, overrides: Overrides, w: WorkspaceId, k: KeyId): OrganizationId
    requires k in keys
  {
    if (w, k) in overrides then overrides[(w, k)].organization else keys[k].organization
  }

  /** `after` is what the migration makes of `before`, for the groups in `done`. */
  ghost predicate KeysMigrated(before: Keys, after: Keys, done: set<Group>) {
    && after.Keys == before.Keys
    && forall k :: k in before ==>
      after[k] == if GroupOf(before[k]) in done then KeyAfter(before, k) else before[k]
  }

  ghost predicate OverridesMigrated(keys: Keys, before: Overrides, after: Overrides, done: set<Group>) {
    forall w, k :: Lookup(after, w, k) ==
      if k in keys && GroupOf(keys[k]) in done then OverrideAfter(keys, before, w, k) else Lookup(before, w, k)
  }

  // ---- the migration --------------------------------------------------------------------------

  function KeptRows(live: seq<KeyId>, rows: map<KeyId, Override>): (kept: seq<KeyId>)
    ensures forall k :: k in kept <==> k in live && !(k in rows && rows[k].disabled)
  {
    if live == [] then []
    else
      var rest := KeptRows(live[1..], rows);
      if live[0] in rows && rows[live[0]].disabled then rest else [live[0]] + rest
  }

  lemma {:induction false} KeptRowsInOrder(keys: Keys, live: seq<KeyId>, rows: map<KeyId, Override>)
    requires InOrder(keys, false, live)
    ensures InOrder(keys, false, KeptRows(live, rows))
  {
    if live != [] {
      assert InOrder(keys, false, live[1..]);
      KeptRowsInOrder(keys, live[1..], rows);
      var rest := KeptRows(live[1..], rows);
      forall k | k in rest ensures k != live[0] && Precedes(keys, false, live[0], k) {
        var j :| 0 <= j < |live[1..]| && live[1..][j] == k;
        assert live[j + 1] == k;
      }
    }
  }

  /** The rows of one group, oldest first, that are live. */
  function LiveRows(keys: Keys, rows: seq<KeyId>): (live: seq<KeyId>)
    requires forall k :: k in rows ==> k in keys
    ensures forall k :: k in live <==> k in rows && !keys[k].archived
  {
    if rows == [] then []
    else if keys[rows[0]].archived then LiveRows(keys, rows[1..])
    else [rows[0]] + LiveRows(keys, rows[1..])
  }

  lemma {:induction false} LiveRowsInOrder(keys: Keys, rows: seq<KeyId>)
    requires InOrder(keys, false, rows)
    ensures InOrder(keys, false, LiveRows(keys, rows))
  {
    if rows != [] {
      assert InOrder(keys, false, rows[1..]);
      LiveRowsInOrder(keys, rows[1..]);
      var rest := LiveRows(keys, rows[1..]);
      forall k | k in rest ensures k != rows[0] && Precedes(keys, false, rows[0], k) {
        var j :| 0 <= j < |rows[1..]| && rows[1..][j] == k;
        assert rows[j + 1] == k;
      }
    }
  }

  /** The row of (v, k) once `keyId` is the one pin of `w` among `kindKeys`. */
  ghost function PinnedRow(
      before: Overrides, organization: OrganizationId, w: WorkspaceId, keyId: KeyId, kindKeys: set<KeyId>,
      v: WorkspaceId, k: KeyId): Option<Override> {
    var row := Lookup(before, v, k);
    if v != w || k !in kindKeys then row
    else if k == keyId then Some(Override(if row.Some? then row.value.organization else organization, true, false))
    else Unpinned(row)
  }

  /** Afterwards `keyId` is pinned and on, and no other key of `kindKeys` is pinned. */
  method Pin(db: Tables, organization: OrganizationId, w: WorkspaceId, keyId: KeyId, kindKeys: set<KeyId>)
    requires keyId in kindKeys
    modifies db`overrides
    ensures forall v, k :: Lookup(db.overrides, v, k) ==
                           PinnedRow(old(db.overrides), organization, w, keyId, kindKeys, v, k)
  {
    db.overrides := map p | p in db.overrides ::
      if p.0 == w && p.1 in kindKeys && db.overrides[p].isDefault
      then db.overrides[p].(isDefault := false) else db.overrides[p];
    if (w, keyId) in db.overrides {
      db.overrides := db.overrides[(w, keyId) := db.overrides[(w, keyId)].(isDefault := true, disabled := false)];
    } else {
      db.overrides := db.overrides[(w, keyId) := Override(organization, true, false)];
    }
  }

  /** `rows` are the keys of `g`, oldest first. */
  ghost predicate IsGroup(keys: Keys, g: Group, rows: seq<KeyId>) {
    && InOrder(keys, false, rows)
    && forall k :: k in rows <==> k in InGroup(keys, g)
  }

  /** `groups` holds the first rows of the table, grouped. */
  ghost predicate Grouped(keys: Keys, rows: seq<KeyId>, groups: map<Group, seq<KeyId>>) {
    && (forall g :: g in groups ==> g in Groups(keys) && InOrder(keys, false, groups[g]))
    && (forall k :: k in rows && k in keys ==> GroupOf(keys[k]) in groups && k in groups[GroupOf(keys[k])])
    && (forall g, k :: g in groups && k in groups[g] ==> k in rows && k in keys && GroupOf(keys[k]) == g)
  }

  lemma GroupedNone(keys: Keys)
    ensures Grouped(keys, [], map[])
  {
  }

  lemma GroupedOneMore(keys: Keys, rows: seq<KeyId>, k: KeyId, groups: map<Group, seq<KeyId>>)
    requires Grouped(keys, rows, groups) && k in keys
    requires forall j :: j in rows ==> j != k && Precedes(keys, false, j, k)
    ensures var g := GroupOf(keys[k]);
      var members := if g in groups then groups[g] else [];
      Grouped(keys, rows + [k], groups[g := members + [k]])
  {
    var g := GroupOf(keys[k]);
    var members := if g in groups then groups[g] else [];
    AppendInOrder(keys, false, members, k);
    assert g in Groups(keys);
  }

  lemma GroupedAll(keys: Keys, rows: seq<KeyId>, groups: map<Group, seq<KeyId>>)
    requires Grouped(keys, rows, groups) && (forall k :: k in keys ==> k in rows)
    ensures groups.Keys == Groups(keys)
    ensures forall g :: g in groups ==> IsGroup(keys, g, groups[g])
  {
  }

  /** One ordered list of rows for each organization and kind there is. */
  method KeysByOrganizationAndKind(db: Tables) returns (groups: map<Group, seq<KeyId>>)
    ensures groups.Keys == Groups(db.keys)
    ensures forall g :: g in groups ==> IsGroup(db.keys, g, groups[g])
  {
    hide Grouped, Groups, IsGroup;
    var keys := db.keys;
    var rows := db.SelectInOrder(db.keys.Keys, false);
    groups := map[];
    GroupedNone(keys);
    assert rows[..0] == [];
    for i := 0 to |rows|
      invariant Grouped(db.keys, rows[..i], groups)
    {
      var g := GroupOf(db.keys[rows[i]]);
      forall k | k in rows[..i] ensures k != rows[i] && Precedes(db.keys, false, k, rows[i]) {
        var j :| 0 <= j < i && rows[..i][j] == k;
        assert rows[j] == k;
      }
      GroupedOneMore(db.keys, rows[..i], rows[i], groups);
      assert rows[..i + 1] == rows[..i] + [rows[i]];
      groups := groups[g := (if g in groups then groups[g] else []) + [rows[i]]];
    }
    assert rows[..|rows|] == rows;
    GroupedAll(db.keys, rows, groups);
  }

  /** `after` differs from `before` in the rows of `g` alone, and there only for the workspaces in `done`. */
  ghost predicate WorkspacesMigrated(
      keys: Keys, before: Overrides, after: Overrides, g: Group, done: set<WorkspaceId>) {
    forall w, k :: Lookup(after, w, k) ==
                   if w in done && k in InGroup(keys, g) then OverrideAfter(keys, before, w, k)
                   else Lookup(before, w, k)
  }

  /** What becomes of a row depends on its own workspace's rows of its own group alone. */
  lemma OverrideAfterIsLocal(keys: Keys, a: Overrides, b: Overrides, g: Group, w: WorkspaceId)
    requires forall k :: k in InGroup(keys, g) ==> Lookup(a, w, k) == Lookup(b, w, k)
    ensures KeptOn(keys, a, g, w) == KeptOn(keys, b, g, w)
    ensures KeptPins(keys, a, g, w) == KeptPins(keys, b, g, w)
    ensures NeedsPin(keys, a, g, w) == NeedsPin(keys, b, g, w)
    ensures forall k :: k in InGroup(keys, g) ==> OverrideAfter(keys, a, w, k) == OverrideAfter(keys, b, w, k)
  {
    forall k | k in InGroup(keys, g)
      ensures TurnedOff(a, w, k) == TurnedOff(b, w, k) && HasPin(a, w, k) == HasPin(b, w, k)
    {
      assert Lookup(a, w, k) == Lookup(b, w, k);
    }
    forall k ensures k in KeptOn(keys, a, g, w) <==> k in KeptOn(keys, b, g, w) {
      assert k in Live(keys, g) ==> k in InGroup(keys, g);
    }
    assert KeptOn(keys, a, g, w) == KeptOn(keys, b, g, w);
    forall k ensures k in KeptPins(keys, a, g, w) <==> k in KeptPins(keys, b, g, w) {
      assert k in KeptOn(keys, a, g, w) ==> k in InGroup(keys, g);
    }
    assert KeptPins(keys, a, g, w) == KeptPins(keys, b, g, w);
    forall k | k in InGroup(keys, g) ensures OverrideAfter(keys, a, w, k) == OverrideAfter(keys, b, w, k) {
      assert Lookup(a, w, k) == Lookup(b, w, k);
    }
  }

  /** `rows` are the overrides `w` has of the keys in `kindKeys`. */
  ghost predicate RowsOf(overrides: Overrides, w: WorkspaceId, kindKeys: set<KeyId>, rows: map<KeyId, Override>) {
    forall k :: k in kindKeys ==> Lookup(overrides, w, k) == if k in rows then Some(rows[k]) else None
  }

  /** What the kept-on list of a workspace says, in terms of the tables. */
  lemma KeptRowsMeaning(
      keys: Keys, overrides: Overrides, g: Group, w: WorkspaceId, live: seq<KeyId>, rows: map<KeyId, Override>)
    requires InOrder(keys, false, live) && (forall k :: k in live <==> k in Live(keys, g))
    requires RowsOf(overrides, w, InGroup(keys, g), rows)
    ensures var kept := KeptRows(live, rows);
      && First(keys, false, KeptOn(keys, overrides, g, w)) == (if kept == [] then None else Some(kept[0]))
      && (forall k :: k in kept <==> k in KeptOn(keys, overrides, g, w))
      && ((exists k :: k in kept && k in rows && rows[k].isDefault) <==> KeptPins(keys, overrides, g, w) != {})
  {
    var kept := KeptRows(live, rows);
    KeptRowsInOrder(keys, live, rows);
    forall k | k in live
      ensures TurnedOff(overrides, w, k) == (k in rows && rows[k].disabled)
      ensures HasPin(overrides, w, k) == (k in rows && rows[k].isDefault)
    {
      assert k in Live(keys, g) && k in InGroup(keys, g);
      assert Lookup(overrides, w, k) == if k in rows then Some(rows[k]) else None;
    }
    HeadIsFirst(keys, false, kept, KeptOn(keys, overrides, g, w));
    forall k | k in KeptPins(keys, overrides, g, w) ensures k in kept && k in rows && rows[k].isDefault {}
    forall k | k in kept && k in rows && rows[k].isDefault ensures k in KeptPins(keys, overrides, g, w) {}
  }

  lemma PinMigratesTheWorkspace(
      keys: Keys, before: Overrides, after: Overrides, g: Group, w: WorkspaceId, keyId: KeyId)
    requires forall v, k :: Lookup(after, v, k) == PinnedRow(before, g.0, w, keyId, InGroup(keys, g), v, k)
    requires NeedsPin(keys, before, g, w)
    requires First(keys, false, KeptOn(keys, before, g, w)) == Some(keyId)
    requires OverridesNameKeys(keys, before)
    ensures WorkspacesMigrated(keys, before, after, g, {w})
    ensures OverridesNameKeys(keys, after)
  {
    assert keyId in KeptOn(keys, before, g, w) && keyId in InGroup(keys, g);
    forall v, k
      ensures Lookup(after, v, k) ==
              if v in {w} && k in InGroup(keys, g) then OverrideAfter(keys, before, v, k) else Lookup(before, v, k)
    {
      assert Lookup(after, v, k) == PinnedRow(before, g.0, w, keyId, InGroup(keys, g), v, k);
    }
    forall p | p in after
      ensures p.1 in keys && after[p].organization == keys[p.1].organization
    {
      assert Lookup(after, p.0, p.1) == PinnedRow(before, g.0, w, keyId, InGroup(keys, g), p.0, p.1);
      assert Lookup(before, p.0, p.1).Some? ==> p in before;
    }
  }

  lemma NothingToPin(keys: Keys, overrides: Overrides, g: Group, w: WorkspaceId)
    requires !NeedsPin(keys, overrides, g, w)
    ensures WorkspacesMigrated(keys, overrides, overrides, g, {w})
  {
  }

  /** One workspace's turn: a pin on its oldest key that is on, where neither the default nor a pin serves it. */
  method KeepTheWorkspacesKey(
      db: Tables, ghost keys: Keys, g: Group, live: seq<KeyId>, default: KeyId, kindKeys: set<KeyId>,
      w: WorkspaceId, rows: map<KeyId, Override>)
    requires InOrder(keys, false, live) && (forall k :: k in live <==> k in Live(keys, g))
    requires StarredDefault(keys, g) == Some(default)
    requires kindKeys == InGroup(keys, g) && RowsOf(db.overrides, w, kindKeys, rows)
    requires OverridesNameKeys(keys, db.overrides)
    modifies db`overrides
    ensures WorkspacesMigrated(keys, old(db.overrides), db.overrides, g, {w})
    ensures OverridesNameKeys(keys, db.overrides)
  {
    ghost var before := db.overrides;
    var keptOn := KeptRows(live, rows);
    KeptRowsMeaning(keys, before, g, w, live, rows);
    if keptOn == [] || default in keptOn || exists k :: k in keptOn && k in rows && rows[k].isDefault {
      NothingToPin(keys, before, g, w);
    } else {
      Pin(db, g.0, w, keptOn[0], kindKeys);
      PinMigratesTheWorkspace(keys, before, db.overrides, g, w, keptOn[0]);
    }
  }

  /** One more workspace done. */
  lemma WorkspaceDone(
      keys: Keys, before: Overrides, current: Overrides, after: Overrides, g: Group,
      done: set<WorkspaceId>, w: WorkspaceId)
    requires WorkspacesMigrated(keys, before, current, g, done) && w !in done
    requires WorkspacesMigrated(keys, current, after, g, {w})
    ensures WorkspacesMigrated(keys, before, after, g, done + {w})
  {
    forall k | k in InGroup(keys, g) ensures Lookup(before, w, k) == Lookup(current, w, k) {}
    OverrideAfterIsLocal(keys, before, current, g, w);
    forall v, k
      ensures Lookup(after, v, k) ==
              if v in done + {w} && k in InGroup(keys, g) then OverrideAfter(keys, before, v, k)
              else Lookup(before, v, k)
    {
      assert Lookup(after, v, k) == if v in {w} && k in InGroup(keys, g) then OverrideAfter(keys, current, v, k)
                                    else Lookup(current, v, k);
      assert Lookup(current, v, k) == if v in done && k in InGroup(keys, g) then OverrideAfter(keys, before, v, k)
                                      else Lookup(before, v, k);
    }
  }

  /** A workspace with no override in the group has nothing to migrate. */
  lemma AllWorkspacesDone(keys: Keys, before: Overrides, after: Overrides, g: Group, done: set<WorkspaceId>)
    requires WorkspacesMigrated(keys, before, after, g, done)
    requires forall w, k :: w !in done && k in InGroup(keys, g) ==> (w, k) !in before
    ensures OverridesMigrated(keys, before, after, {g})
  {
  }

  /** A group without a default gets one: the first of its live keys. */
  method StarTheDefault(db: Tables, g: Group, live: seq<KeyId>) returns (default: KeyId)
    requires InOrder(db.keys, false, live) && live != []
    requires forall k :: k in live <==> k in Live(db.keys, g)
    modifies db`keys
    ensures StarredDefault(old(db.keys), g) == Some(default)
    ensures KeysMigrated(old(db.keys), db.keys, {g})
  {
    var found := FirstDefault(db.keys, live, g);
    HeadIsFirst(db.keys, false, live, Live(db.keys, g));
    if found.Some? {
      return found.value;
    }
    default := live[0];
    db.keys := db.keys[default := db.keys[default].(isDefault := true)];
  }

  lemma NoWorkspaceYet(keys: Keys, overrides: Overrides, g: Group)
    ensures WorkspacesMigrated(keys, overrides, overrides, g, {})
  {
  }

  /** What was read of a workspace before the loop is still so when its turn comes. */
  lemma RowsAreCurrent(keys: Keys, before: Overrides, current: Overrides, g: Group, done: set<WorkspaceId>,
                       w: WorkspaceId,
                       kindKeys: set<KeyId>, rows: map<KeyId, Override>)
    requires WorkspacesMigrated(keys, before, current, g, done) && w !in done && RowsOf(before, w, kindKeys, rows)
    ensures RowsOf(current, w, kindKeys, rows)
  {
    assert forall k :: Lookup(current, w, k) == Lookup(before, w, k);
  }

  /** Decide for each workspace with overrides in the group, in whatever order they come. */
  method KeepEachWorkspace(db: Tables, ghost keys: Keys, g: Group, live: seq<KeyId>, default: KeyId,
                           kindKeys: set<KeyId>)
    requires InOrder(keys, false, live) && (forall k :: k in live <==> k in Live(keys, g))
    requires StarredDefault(keys, g) == Some(default)
    requires kindKeys == InGroup(keys, g)
    requires OverridesNameKeys(keys, db.overrides)
    modifies db`overrides
    ensures OverridesMigrated(keys, old(db.overrides), db.overrides, {g})
    ensures OverridesNameKeys(keys, db.overrides)
  {
    hide OverridesMigrated, WorkspacesMigrated, InOrder, StarredDefault, Live, InGroup;
    ghost var before := db.overrides;
    var byWorkspace := db.OverridesByWorkspace(kindKeys);
    NoWorkspaceYet(keys, before, g);
    assert byWorkspace.Keys - byWorkspace.Keys == {};
    var todo := byWorkspace.Keys;
    while todo != {}
      invariant todo <= byWorkspace.Keys
      invariant WorkspacesMigrated(keys, before, db.overrides, g, byWorkspace.Keys - todo)
      invariant OverridesNameKeys(keys, db.overrides)
      decreases |todo|
    {
      var w :| w in todo;
      ghost var current, done := db.overrides, byWorkspace.Keys - todo;
      RowsAreCurrent(keys, before, current, g, done, w, kindKeys, byWorkspace[w]);
      KeepTheWorkspacesKey(db, keys, g, live, default, kindKeys, w, byWorkspace[w]);
      WorkspaceDone(keys, before, current, db.overrides, g, done, w);
      OneLess(byWorkspace.Keys, todo, w);
      todo := todo - {w};
    }
    assert byWorkspace.Keys - todo == byWorkspace.Keys;
    AllWorkspacesDone(keys, before, db.overrides, g, byWorkspace.Keys);
  }

  /** One group's turn: its default, and then the pins its workspaces need. */
  method KeepTheWorkspacesKeys(db: Tables, g: Group, rows: seq<KeyId>)
    requires IsGroup(db.keys, g, rows)
    requires OverridesNameKeys(db.keys, db.overrides)
    modifies db
    ensures KeysMigrated(old(db.keys), db.keys, {g})
    ensures OverridesMigrated(old(db.keys), old(db.overrides), db.overrides, {g})
    ensures OverridesNameKeys(db.keys, db.overrides)
  {
    ghost var keys := db.keys;
    var live := LiveRows(db.keys, rows);
    LiveRowsInOrder(db.keys, rows);
    if live == [] {
      assert Live(keys, g) == {} by {
        forall k ensures k !in Live(keys, g) { assert k in InGroup(keys, g) ==> k in rows; }
      }
      return;
    }
    var kindKeys := set k | k in rows;
    var default := StarTheDefault(db, g, live);
    KeepEachWorkspace(db, keys, g, live, default, kindKeys);
  }

  /** The group's default, if it has one. */
  method FirstDefault(keys: Keys, live: seq<KeyId>, ghost g: Group) returns (default: Option<KeyId>)
    requires InOrder(keys, false, live)
    requires forall k :: k in live <==> k in Live(keys, g)
    ensures default == First(keys, false, LiveDefaults(keys, g))
  {
    for i := 0 to |live|
      invariant forall j :: 0 <= j < i ==> !keys[live[j]].isDefault
    {
      if keys[live[i]].isDefault {
        assert IsFirst(keys, false, LiveDefaults(keys, g), live[i]) by {
          forall k | k in LiveDefaults(keys, g) ensures Precedes(keys, false, live[i], k) {
            assert k in live;
            var j :| 0 <= j < |live| && live[j] == k;
          }
        }
        return Some(live[i]);
      }
    }
    assert LiveDefaults(keys, g) == {};
    return None;
  }

  /** Groups share no key, so what one group's step writes another's does not read. */
  lemma GroupDone(
      before: Keys, beforeRows: Overrides, current: Keys, currentRows: Overrides, after: Keys, afterRows: Overrides,
      done: set<Group>, g: Group)
    requires g !in done
    requires KeysMigrated(before, current, done) && OverridesMigrated(before, beforeRows, currentRows, done)
    requires KeysMigrated(current, after, {g}) && OverridesMigrated(current, currentRows, afterRows, {g})
    ensures KeysMigrated(before, after, done + {g}) && OverridesMigrated(before, beforeRows, afterRows, done + {g})
  {
    GroupUntouched(before, current, done, g);
    forall k | k in before
      ensures after[k] == if GroupOf(before[k]) in done + {g} then KeyAfter(before, k) else before[k]
    {
      assert GroupOf(current[k]) == GroupOf(before[k]);
    }
    forall w, k
      ensures Lookup(afterRows, w, k) ==
              if k in before && GroupOf(before[k]) in done + {g} then OverrideAfter(before, beforeRows, w, k)
              else Lookup(beforeRows, w, k)
    {
      assert k in before ==> GroupOf(current[k]) == GroupOf(before[k]);
      assert Lookup(currentRows, w, k) ==
             if k in before && GroupOf(before[k]) in done then OverrideAfter(before, beforeRows, w, k)
             else Lookup(beforeRows, w, k);
      if k in InGroup(before, g) {
        RowsUntouched(before, beforeRows, current, currentRows, done, g, w, k);
      }
    }
  }

  lemma GroupUntouched(before: Keys, current: Keys, done: set<Group>, g: Group)
    requires KeysMigrated(before, current, done) && g !in done
    ensures SameButDefaults(before, current)
    ensures Live(current, g) == Live(before, g) && LiveDefaults(current, g) == LiveDefaults(before, g)
    ensures InGroup(current, g) == InGroup(before, g)
    ensures StarredDefault(current, g) == StarredDefault(before, g)
    ensures forall k :: k in InGroup(before, g) ==>
      current[k] == before[k] && KeyAfter(current, k) == KeyAfter(before, k)
  {
    forall k | k in before ensures GroupOf(current[k]) == GroupOf(before[k]) {}
    OrderIgnoresDefaults(before, current, false, Live(before, g));
    forall k ensures k in LiveDefaults(current, g) <==> k in LiveDefaults(before, g) {
      assert k in Live(before, g) ==> GroupOf(before[k]) == g;
    }
    assert LiveDefaults(current, g) == LiveDefaults(before, g);
    OrderIgnoresDefaults(before, current, false, LiveDefaults(before, g));
  }

  lemma RowsUntouched(
      before: Keys, beforeRows: Overrides, current: Keys, currentRows: Overrides, done: set<Group>, g: Group,
      w: WorkspaceId, k: KeyId)
    requires KeysMigrated(before, current, done) && OverridesMigrated(before, beforeRows, currentRows, done)
    requires g !in done && k in InGroup(before, g)
    ensures OverrideAfter(current, currentRows, w, k) == OverrideAfter(before, beforeRows, w, k)
  {
    GroupUntouched(before, current, done, g);
    forall j | j in InGroup(before, g) ensures Lookup(currentRows, w, j) == Lookup(beforeRows, w, j) {}
    OverrideAfterIsLocal(before, beforeRows, currentRows, g, w);
    assert KeptOn(current, currentRows, g, w) == KeptOn(before, currentRows, g, w);
    assert KeptPins(current, currentRows, g, w) == KeptPins(before, currentRows, g, w);
    OrderIgnoresDefaults(before, current, false, KeptOn(before, currentRows, g, w));
  }

  lemma GroupStands(before: Keys, current: Keys, done: set<Group>, g: Group, rows: seq<KeyId>)
    requires KeysMigrated(before, current, done) && g !in done
    requires IsGroup(before, g, rows)
    ensures IsGroup(current, g, rows)
  {
  }

  lemma NothingMigrated(keys: Keys, rows: Overrides)
    ensures KeysMigrated(keys, keys, {}) && OverridesMigrated(keys, rows, rows, {})
  {
  }

  ghost predicate Migrated(before: Keys, beforeRows: Overrides, after: Keys, afterRows: Overrides) {
    && KeysMigrated(before, after, Groups(before))
    && OverridesMigrated(before, beforeRows, afterRows, Groups(before))
  }

  lemma AllGroupsDone(before: Keys, beforeRows: Overrides, after: Keys, afterRows: Overrides)
    requires KeysMigrated(before, after, Groups(before))
    requires OverridesMigrated(before, beforeRows, afterRows, Groups(before))
    ensures Migrated(before, beforeRows, after, afterRows)
  {
  }

  method Upgrade(db: Tables)
    requires OverridesNameKeys(db.keys, db.overrides)
    modifies db
    ensures Migrated(old(db.keys), old(db.overrides), db.keys, db.overrides)
    ensures forall o, kind :: StarsTheOldest(old(db.keys), db.keys, o, kind)
    ensures forall o, kind, w :: PinsTheOldest(old(db.keys), old(db.overrides), db.overrides, o, kind, w)
  {
    hide *;
    ghost var keys, rows := db.keys, db.overrides;
    var groups := KeysByOrganizationAndKind(db);
    var todo := groups.Keys;
    NothingMigrated(keys, rows);
    assert groups.Keys - todo == {};
    while todo != {}
      invariant todo <= groups.Keys
      invariant forall g :: g in groups ==> IsGroup(keys, g, groups[g])
      invariant KeysMigrated(keys, db.keys, groups.Keys - todo)
      invariant OverridesMigrated(keys, rows, db.overrides, groups.Keys - todo)
      invariant OverridesNameKeys(db.keys, db.overrides)
      decreases |todo|
    {
      var g :| g in todo;
      assert IsGroup(keys, g, groups[g]);
      ghost var current, currentRows, done := db.keys, db.overrides, groups.Keys - todo;
      GroupStands(keys, current, done, g, groups[g]);
      KeepTheWorkspacesKeys(db, g, groups[g]);
      GroupDone(keys, rows, current, currentRows, db.keys, db.overrides, done, g);
      OneLess(groups.Keys, todo, g);
      todo := todo - {g};
    }
    assert groups.Keys - todo == groups.Keys;
    AllGroupsDone(keys, rows, db.keys, db.overrides);
    forall o, kind ensures StarsTheOldest(keys, db.keys, o, kind) {
      TheDefaultAfter(keys, rows, db.keys, db.overrides, o, kind);
    }
    forall o, kind, w ensures PinsTheOldest(keys, rows, db.overrides, o, kind, w) {
      ThePinMade(keys, rows, db.keys, db.overrides, o, kind, w);
    }
  }

  // ---- which default is set and which pin is made, key by key -------------------------------------

  predicate IsLive(keys: Keys, o: OrganizationId, kind: Kind, k: KeyId) {
    k in keys && keys[k].organization == o && keys[k].kind == kind && !keys[k].archived
  }

  predicate IsOnFor(keys: Keys, overrides: Overrides, o: OrganizationId, kind: Kind, w: WorkspaceId, k: KeyId) {
    IsLive(keys, o, kind, k) && ((w, k) in overrides ==> !overrides[(w, k)].disabled)
  }

  ghost predicate IsOldest(keys: Keys, among: set<KeyId>, k: KeyId) {
    among <= keys.Keys && k in among && forall j :: j in among ==> IsOlder(keys, k, j)
  }

  /** Live keys without a default among them: the oldest becomes it. Otherwise the defaults stay. */
  ghost predicate StarsTheOldest(before: Keys, after: Keys, o: OrganizationId, kind: Kind) {
    var live := set k | k in before && IsLive(before, o, kind, k);
    && live <= after.Keys
    && (if NoDefault(before, live)
        then live != {} ==> exists k :: IsOldest(before, live, k) && OnlyDefault(after, live, k)
        else forall j :: j in live ==> after[j].isDefault == before[j].isDefault)
  }

  predicate NoDefault(keys: Keys, among: set<KeyId>)
    requires among <= keys.Keys
  {
    forall j :: j in among ==> !keys[j].isDefault
  }

  predicate OnlyDefault(keys: Keys, among: set<KeyId>, k: KeyId)
    requires among <= keys.Keys
  {
    forall j :: j in among ==> (keys[j].isDefault <==> j == k)
  }

  predicate GainsPin(before: Overrides, after: Overrides, w: WorkspaceId, k: KeyId) {
    HasPin(after, w, k) && !HasPin(before, w, k)
  }

  /** A pin the migration makes is on the oldest of the live keys the workspace left on. */
  ghost predicate PinsTheOldest(
      keys: Keys, before: Overrides, after: Overrides, o: OrganizationId, kind: Kind, w: WorkspaceId) {
    var on := set k | k in keys && IsOnFor(keys, before, o, kind, w, k);
    forall k :: k in keys && keys[k].organization == o && keys[k].kind == kind && GainsPin(before, after, w, k) ==>
      IsOldest(keys, on, k)
  }

  lemma FirstIsOldest(keys: Keys, among: set<KeyId>, k: KeyId)
    requires among <= keys.Keys && IsFirst(keys, false, among, k)
    ensures IsOldest(keys, among, k)
  {
  }

  lemma TheDefaultAfter(
      before: Keys, beforeRows: Overrides, after: Keys, afterRows: Overrides, o: OrganizationId, kind: Kind)
    requires Migrated(before, beforeRows, after, afterRows)
    ensures StarsTheOldest(before, after, o, kind)
  {
    var g, live := (o, kind), set k | k in before && IsLive(before, o, kind, k);
    DefaultsAfter(before, beforeRows, after, afterRows, g);
    hide Migrated, Precedes, IsFirst, IsOldest;
    assert live == Live(before, g) == Live(after, g);
    hide Live;
    assert NoDefault(before, live) <==> LiveDefaults(before, g) == {} by {
      forall j | j in live ensures before[j].isDefault <==> j in LiveDefaults(before, g) {}
    }
    if NoDefault(before, live) && live != {} {
      var k := StarredDefault(before, g).value;
      FirstIsOldest(before, live, k);
      OnlyOneIsDefault(after, g, k);
    } else {
      forall j | j in live ensures after[j].isDefault == before[j].isDefault {
        assert j in LiveDefaults(after, g) <==> j in LiveDefaults(before, g);
      }
    }
  }

  lemma OnlyOneIsDefault(keys: Keys, g: Group, k: KeyId)
    requires LiveDefaults(keys, g) == {k}
    ensures OnlyDefault(keys, Live(keys, g), k)
  {
    forall j | j in Live(keys, g) ensures keys[j].isDefault <==> j == k {
      assert j in LiveDefaults(keys, g) <==> j in {k};
    }
  }

  lemma ThePinMade(
      keys: Keys, before: Overrides, after: Keys, afterRows: Overrides, o: OrganizationId, kind: Kind, w: WorkspaceId)
    requires Migrated(keys, before, after, afterRows)
    ensures PinsTheOldest(keys, before, afterRows, o, kind, w)
  {
    var on := set k | k in keys && IsOnFor(keys, before, o, kind, w, k);
    hide Migrated, Precedes, IsFirst, IsOldest;
    assert on == KeptOn(keys, before, (o, kind), w);
    forall k | k in keys && keys[k].organization == o && keys[k].kind == kind && GainsPin(before, afterRows, w, k)
      ensures IsOldest(keys, on, k)
    {
      KeyMigrated(keys, before, after, afterRows, k);
      assert Lookup(afterRows, w, k) == OverrideAfter(keys, before, w, k);
      FirstIsOldest(keys, on, k);
    }
  }

  // ---- what the migration keeps ---------------------------------------------------------------

  lemma KeyMigrated(before: Keys, beforeRows: Overrides, after: Keys, afterRows: Overrides, k: KeyId)
    requires Migrated(before, beforeRows, after, afterRows)
    ensures after.Keys == before.Keys && (k in before ==> after[k] == KeyAfter(before, k))
    ensures forall w :: Lookup(afterRows, w, k) == OverrideAfter(before, beforeRows, w, k)
  {
  }

  /** A group with a live key ends with one default, the one it had if it had one. */
  lemma DefaultsAfter(before: Keys, beforeRows: Overrides, after: Keys, afterRows: Overrides, g: Group)
    requires Migrated(before, beforeRows, after, afterRows)
    ensures SameButDefaults(before, after)
    ensures Live(after, g) == Live(before, g)
    ensures LiveDefaults(after, g) ==
            if LiveDefaults(before, g) != {} || Live(before, g) == {} then LiveDefaults(before, g)
            else {StarredDefault(before, g).value}
  {
    forall k | k in before ensures after[k] == before[k].(isDefault := after[k].isDefault) {
      KeyMigrated(before, beforeRows, after, afterRows, k);
    }
    OrderIgnoresDefaults(before, after, false, Live(before, g));
    forall k | k in Live(before, g)
      ensures k in LiveDefaults(after, g) <==> k in LiveDefaults(before, g) || GainsDefault(before, k)
    {
      KeyMigrated(before, beforeRows, after, afterRows, k);
    }
  }

  /** A workspace that gains a pin keeps on the key it is pinned to, and has no other pin of the kind. */
  lemma PinsAfter(before: Keys, beforeRows: Overrides, after: Keys, afterRows: Overrides, g: Group, w: WorkspaceId)
    requires Migrated(before, beforeRows, after, afterRows)
    ensures if NeedsPin(before, beforeRows, g, w)
            then KeptPins(after, afterRows, g, w) == {First(before, false, KeptOn(before, beforeRows, g, w)).value}
            else KeptPins(after, afterRows, g, w) == KeptPins(before, beforeRows, g, w)
    ensures KeptOn(after, afterRows, g, w) == KeptOn(before, beforeRows, g, w)
  {
    hide Migrated, KeysMigrated, OverridesMigrated, Precedes, LiveDefaults, StarredDefault;
    DefaultsAfter(before, beforeRows, after, afterRows, g);
    forall k | k in Live(before, g)
      ensures Lookup(afterRows, w, k) == OverrideAfter(before, beforeRows, w, k)
      ensures TurnedOff(afterRows, w, k) == TurnedOff(beforeRows, w, k)
    {
      KeyMigrated(before, beforeRows, after, afterRows, k);
      assert Lookup(beforeRows, w, k).Some? <==> (w, k) in beforeRows;
      assert Lookup(afterRows, w, k).Some? <==> (w, k) in afterRows;
    }
    assert KeptOn(after, afterRows, g, w) == KeptOn(before, beforeRows, g, w);
    var pin := First(before, false, KeptOn(before, beforeRows, g, w));
    forall k | k in KeptOn(before, beforeRows, g, w)
      ensures HasPin(afterRows, w, k) ==
              if NeedsPin(before, beforeRows, g, w) then pin == Some(k) else HasPin(beforeRows, w, k)
    {
      assert GroupOf(before[k]) == g;
      assert Lookup(afterRows, w, k) == OverrideAfter(before, beforeRows, w, k);
      assert Lookup(beforeRows, w, k).Some? <==> (w, k) in beforeRows;
    }
  }

  /** Every workspace keeps, for each kind, the key it used: today's rule picks what the old rule picked before. */
  lemma ChoiceKept(before: Keys, beforeRows: Overrides, after: Keys, afterRows: Overrides, g: Group, w: WorkspaceId)
    requires OneDefaultPerKind(before)
    requires Migrated(before, beforeRows, after, afterRows)
    ensures StarredChoice(after, afterRows, g, w) == OldestChoice(before, beforeRows, g, w)
  {
    hide Migrated, KeysMigrated, OverridesMigrated, Precedes, SameButDefaults;
    DefaultsAfter(before, beforeRows, after, afterRows, g);
    PinsAfter(before, beforeRows, after, afterRows, g, w);
    var kept := KeptOn(before, beforeRows, g, w);
    OrderIgnoresDefaults(before, after, false, KeptPins(before, beforeRows, g, w));
    OrderIgnoresDefaults(before, after, false, kept);
    var starred := StarredDefault(before, g);
    if kept == {} {
      assert KeptPins(after, afterRows, g, w) == {} && KeptDefaults(after, afterRows, g, w) == {};
    } else {
      forall k | k in kept ensures k in Live(before, g) {}
      assert starred.Some?;
      forall k ensures k in KeptDefaults(after, afterRows, g, w) <==> k in kept && k == starred.value {
        assert k in KeptDefaults(after, afterRows, g, w) <==> k in kept && k in LiveDefaults(after, g);
      }
      if starred.value in kept {
        assert KeptDefaults(after, afterRows, g, w) == {starred.value};
        DefaultKept(before, beforeRows, g, w);
      } else {
        assert KeptDefaults(before, beforeRows, g, w) == {} by {
          forall k ensures k !in KeptDefaults(before, beforeRows, g, w) {
            assert k in KeptDefaults(before, beforeRows, g, w) ==> k in LiveDefaults(before, g);
          }
        }
      }
    }
  }

  /** Where the starred default is kept on, it is the default, or the oldest key kept on. */
  lemma DefaultKept(keys: Keys, overrides: Overrides, g: Group, w: WorkspaceId)
    requires OneDefaultPerKind(keys) && StarredDefault(keys, g).Some?
    requires StarredDefault(keys, g).value in KeptOn(keys, overrides, g, w)
    ensures First(keys, false, KeptDefaults(keys, overrides, g, w))
              .Or(First(keys, false, KeptOn(keys, overrides, g, w))) == StarredDefault(keys, g)
  {
    var starred := StarredDefault(keys, g).value;
    var kept := KeptOn(keys, overrides, g, w);
    if LiveDefaults(keys, g) == {} {
      assert KeptDefaults(keys, overrides, g, w) == {};
      assert First(keys, false, kept).value == starred by {
        var oldest := First(keys, false, kept).value;
        assert oldest in Live(keys, g);
        assert Precedes(keys, false, oldest, starred) && Precedes(keys, false, starred, oldest);
      }
    } else {
      assert starred in KeptDefaults(keys, overrides, g, w);
      forall k | k in KeptDefaults(keys, overrides, g, w) ensures k == starred {
        assert k in LiveDefaults(keys, g) && starred in LiveDefaults(keys, g);
      }
    }
  }

  /** The rules the schema enforces still hold, and every group with a live key now has a default. */
  lemma SchemaKept(before: Keys, beforeRows: Overrides, after: Keys, afterRows: Overrides)
    requires OneDefaultPerKind(before) && OverridesNameKeys(before, beforeRows)
    requires Migrated(before, beforeRows, after, afterRows)
    ensures OneDefaultPerKind(after) && OverridesNameKeys(after, afterRows)
    ensures forall g :: Live(after, g) != {} ==> exists k :: LiveDefaults(after, g) == {k}
  {
    hide Migrated, KeysMigrated, OverridesMigrated, Precedes, IsFirst, NeedsPin;
    forall g
      ensures forall a, b :: a in LiveDefaults(after, g) && b in LiveDefaults(after, g) ==> a == b
      ensures Live(after, g) != {} ==> exists k :: LiveDefaults(after, g) == {k}
    {
      DefaultsAfter(before, beforeRows, after, afterRows, g);
      if Live(after, g) != {} {
        var k :| k in LiveDefaults(after, g);
        assert LiveDefaults(after, g) == {k};
      }
    }
    forall p | p in afterRows ensures p.1 in after && afterRows[p].organization == after[p.1].organization {
      assert Lookup(afterRows, p.0, p.1).Some?;
      KeyMigrated(before, beforeRows, after, afterRows, p.1);
      assert Lookup(beforeRows, p.0, p.1).Some? <==> p in beforeRows;
    }
  }

  /** A second upgrade finds nothing to do. */
  lemma SecondUpgradeAddsNothing(
      before: Keys, beforeRows: Overrides, once: Keys, onceRows: Overrides, twice: Keys, twiceRows: Overrides)
    requires OneDefaultPerKind(before) && OverridesNameKeys(before, beforeRows)
    requires Migrated(before, beforeRows, once, onceRows) && Migrated(once, onceRows, twice, twiceRows)
    ensures twice == once && twiceRows == onceRows
  {
    hide Migrated, KeysMigrated, OverridesMigrated, Precedes, IsFirst, NeedsPin;
    SchemaKept(before, beforeRows, once, onceRows);
    assert twice.Keys == once.Keys by { KeyMigrated(once, onceRows, twice, twiceRows, 0); }
    forall k | k in once ensures twice[k] == once[k] {
      KeyMigrated(once, onceRows, twice, twiceRows, k);
    }
    forall w, k ensures Lookup(twiceRows, w, k) == Lookup(onceRows, w, k) {
      KeyMigrated(once, onceRows, twice, twiceRows, k);
      if k in once {
        NothingLeftToPin(before, beforeRows, once, onceRows, GroupOf(once[k]), w);
      }
    }
    forall p ensures p in twiceRows <==> p in onceRows
             ensures p in onceRows ==> twiceRows[p] == onceRows[p]
    {
      assert Lookup(twiceRows, p.0, p.1) == Lookup(onceRows, p.0, p.1);
    }
  }

  lemma NothingLeftToPin(
      before: Keys, beforeRows: Overrides, after: Keys, afterRows: Overrides, g: Group, w: WorkspaceId)
    requires Migrated(before, beforeRows, after, afterRows)
    ensures !NeedsPin(after, afterRows, g, w)
  {
    hide Migrated, KeysMigrated, OverridesMigrated, Precedes, SameButDefaults;
    PinsAfter(before, beforeRows, after, afterRows, g, w);
    DefaultsAfter(before, beforeRows, after, afterRows, g);
    OrderIgnoresDefaults(before, after, false, LiveDefaults(before, g));
    assert StarredDefault(after, g) == StarredDefault(before, g);
  }
}
