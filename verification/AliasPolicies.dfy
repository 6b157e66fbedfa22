/** Revision b5d7f9a1c3e6: stored aliases become one-target routing policies, and back. */
module AliasPolicies {
  import opened Common

  type RowId = nat
  /** None is the scope every caller sees; a user's own scope is theirs alone. */
  type User = Option<string>

  datatype Entry =
    | Default(target: string)
    | Conditional(condition: string, target: string)
    | Router(backend: string, candidates: seq<string>)

  /** A policy document; its version is always 1. */
  datatype Spec = Spec(select: seq<Entry>, onFailure: seq<string>, guardrails: seq<string>)

  datatype Alias = Alias(name: string, target: string, user: User, createdAt: int, updatedAt: int)
  datatype Policy = Policy(name: string, spec: Spec, user: User, createdAt: int, updatedAt: int)

  type Aliases = map<RowId, Alias>
  type Policies = map<RowId, Policy>

  function SpecFor(target: string): Spec {
    Spec([Default(target)], [], [])
  }

  function PolicyOf(alias: Alias): Policy {
    Policy(alias.name, SpecFor(alias.target), alias.user, alias.createdAt, alias.updatedAt)
  }

  predicate OneTarget(spec: Spec) {
    |spec.select| == 1 && spec.select[0].Default? && spec.onFailure == [] && spec.guardrails == []
  }

  /** A policy an alias can represent. */
  predicate HasAliasForm(policy: Policy) {
    OneTarget(policy.spec)
  }

  function AliasOf(policy: Policy): Alias
    requires HasAliasForm(policy)
  {
    Alias(policy.name, policy.spec.select[0].target, policy.user, policy.createdAt, policy.updatedAt)
  }

  /** The ids of the policies a downgrade moves. */
  function Representable(policies: Policies): set<RowId> {
    set p | p in policies && HasAliasForm(policies[p])
  }

  // ---- names and scopes --------------------------------------------------------------------------

  predicate IsAliasAt(aliases: Aliases, a: RowId, name: string, user: User) {
    a in aliases && aliases[a].name == name && aliases[a].user == user
  }

  predicate IsPolicyAt(policies: Policies, p: RowId, name: string, user: User) {
    p in policies && policies[p].name == name && policies[p].user == user
  }

  ghost predicate HasAlias(aliases: Aliases, name: string, user: User) {
    exists a :: IsAliasAt(aliases, a, name, user)
  }

  ghost predicate HasPolicy(policies: Policies, name: string, user: User) {
    exists p :: IsPolicyAt(policies, p, name, user)
  }

  /** One alias of `among` per name and scope, the scope every caller sees included. */
  ghost predicate DistinctAliases(aliases: Aliases, among: set<RowId>) {
    forall a, b ::
      a in among && a in aliases && b in among && IsAliasAt(aliases, b, aliases[a].name, aliases[a].user) ==>
        a == b
  }

  ghost predicate DistinctPolicies(policies: Policies, among: set<RowId>) {
    forall p, q ::
      p in among && p in policies && q in among && IsPolicyAt(policies, q, policies[p].name, policies[p].user) ==>
        p == q
  }

  ghost predicate UniqueAliases(aliases: Aliases) {
    DistinctAliases(aliases, aliases.Keys)
  }

  ghost predicate UniquePolicies(policies: Policies) {
    DistinctPolicies(policies, policies.Keys)
  }

  /** No alias of `among` has the name and scope of a policy. */
  ghost predicate AliasesClear(aliases: Aliases, among: set<RowId>, policies: Policies) {
    forall a :: a in among && a in aliases ==> !HasPolicy(policies, aliases[a].name, aliases[a].user)
  }

  /** No policy of `among` has the name and scope of an alias. */
  ghost predicate PoliciesClear(policies: Policies, among: set<RowId>, aliases: Aliases) {
    forall p :: p in among && p in policies ==> !HasAlias(aliases, policies[p].name, policies[p].user)
  }

  /** An upgrade that has moved `done` has met no clash. */
  ghost predicate ClearSoFar(aliases: Aliases, done: set<RowId>, policies: Policies) {
    DistinctAliases(aliases, done) && AliasesClear(aliases, done, policies)
  }

  /** A downgrade that has moved `done` back has met no clash. */
  ghost predicate ClearBackSoFar(policies: Policies, done: set<RowId>, aliases: Aliases) {
    DistinctPolicies(policies, done) && PoliciesClear(policies, done, aliases)
  }

  // ---- what the moves leave ---------------------------------------------------------------------

  ghost predicate Injective(m: map<RowId, RowId>) {
    forall a, b :: a in m && b in m && m[a] == m[b] ==> a == b
  }

  ghost predicate NewPolicy(moved: map<RowId, RowId>, p: RowId) {
    exists a :: a in moved && moved[a] == p
  }

  /** `after` is `before` and, under new ids, the policies of the aliases that `moved` names. */
  ghost predicate PoliciesInserted(aliases: Aliases, before: Policies, after: Policies, moved: map<RowId, RowId>) {
    && moved.Keys <= aliases.Keys && Injective(moved)
    && (forall p :: p in before ==> p in after && after[p] == before[p])
    && (forall a :: a in moved ==> moved[a] !in before && moved[a] in after && after[moved[a]] == PolicyOf(aliases[a]))
    && (forall p :: p in after && p !in before ==> NewPolicy(moved, p))
  }

  /** `after` is `before` and, under new ids, the aliases of the policies that `moved` names. */
  ghost predicate AliasesInserted(policies: Policies, before: Aliases, after: Aliases, moved: map<RowId, RowId>) {
    && moved.Keys <= Representable(policies) && Injective(moved)
    && (forall a :: a in before ==> a in after && after[a] == before[a])
    && (forall p :: p in moved ==> moved[p] !in before && moved[p] in after && after[moved[p]] == AliasOf(policies[p]))
    && (forall a :: a in after && a !in before ==> exists p :: p in moved && moved[p] == a)
  }

  class Stores {
    var aliases: Aliases
    var policies: Policies
    /** Ids are never handed out twice. */
    var nextId: RowId

    ghost predicate Valid()
      reads this
    {
      (forall a :: a in aliases ==> a < nextId) && (forall p :: p in policies ==> p < nextId)
    }

    /** Move one alias, unless a policy has its name and scope. */
    method MoveToPolicies(a: RowId, ghost before: Policies, ghost moved: map<RowId, RowId>)
      returns (clash: bool, ghost grown: map<RowId, RowId>)
      requires Valid() && a in aliases && a !in moved
      requires PoliciesInserted(aliases, before, policies, moved)
      requires ClearSoFar(aliases, moved.Keys, before)
      modifies `policies, `nextId
      ensures Valid()
      ensures clash <==> HasPolicy(old(policies), aliases[a].name, aliases[a].user)
      ensures clash ==> grown == moved && !ClearSoFar(aliases, aliases.Keys, before)
      ensures !clash ==> grown.Keys == moved.Keys + {a} && ClearSoFar(aliases, grown.Keys, before)
      ensures PoliciesInserted(aliases, before, policies, grown)
    {
      hide PoliciesInserted, ClearSoFar;
      clash := exists p :: p in policies && IsPolicyAt(policies, p, aliases[a].name, aliases[a].user);
      if clash {
        ClashIsReal(aliases, before, policies, moved, a);
        return clash, moved;
      }
      StillClear(aliases, before, policies, moved, a);
      MoveAlias(aliases, before, policies, moved, a, nextId);
      policies, grown, nextId := policies[nextId := PolicyOf(aliases[a])], moved[a := nextId], nextId + 1;
    }

    /**
     Move every alias into the policies, and refuse at the first whose name and scope a policy has. What was
     inserted before a refusal is the surrounding transaction's to undo; no alias is deleted.
     */
    method Upgrade() returns (result: Result<(), RowId>, ghost moved: map<RowId, RowId>)
      requires Valid()
      modifies this
      ensures Valid()
      ensures result.Ok? <==>
        UniqueAliases(old(aliases)) && AliasesClear(old(aliases), old(aliases).Keys, old(policies))
      ensures PoliciesInserted(old(aliases), old(policies), policies, moved)
      ensures result.Ok? ==> aliases == map[] && moved.Keys == old(aliases).Keys
      ensures result.Ok? ==> forall a :: a in old(aliases) ==>
        moved[a] in policies && SendsAllTo(policies[moved[a]], old(aliases)[a])
      ensures result.Err? ==> aliases == old(aliases) && result.error in aliases
    {
      hide PoliciesInserted, ClearSoFar, UniqueAliases, AliasesClear, HasPolicy;
      AllClear(aliases, policies);
      ghost var before := policies;
      var todo := aliases.Keys;
      moved := map[];
      assert moved.Keys == {};
      NothingMovedYet(aliases, policies);
      while todo != {}
        invariant Valid() && todo <= aliases.Keys && aliases == old(aliases)
        invariant moved.Keys == aliases.Keys - todo
        invariant PoliciesInserted(aliases, before, policies, moved)
        invariant ClearSoFar(aliases, moved.Keys, before)
        decreases |todo|
      {
        var a :| a in todo;
        var clash;
        clash, moved := MoveToPolicies(a, before, moved);
        if clash {
          return Err(a), moved;
        }
        OneLess(aliases.Keys, todo, a);
        todo := todo - {a};
      }
      assert moved.Keys == aliases.Keys;
      MovedAliasesSendAll(aliases, before, policies, moved);
      aliases := map[];
      return Ok(()), moved;
    }

    /** Move one policy that has an alias form back, unless an alias has its name and scope. */
    method MoveToAliases(p: RowId, ghost rows: Policies, ghost before: Aliases, ghost moved: map<RowId, RowId>)
      returns (clash: bool, ghost grown: map<RowId, RowId>)
      requires Valid() && p in policies && HasAliasForm(policies[p]) && policies == rows - moved.Keys
      requires AliasesInserted(rows, before, aliases, moved)
      requires ClearBackSoFar(rows, moved.Keys, before)
      modifies this
      ensures Valid()
      ensures clash <==> HasAlias(old(aliases), rows[p].name, rows[p].user)
      ensures clash ==> grown == moved && !ClearBackSoFar(rows, Representable(rows), before)
      ensures !clash ==> grown.Keys == moved.Keys + {p} && ClearBackSoFar(rows, grown.Keys, before)
      ensures AliasesInserted(rows, before, aliases, grown) && policies == rows - grown.Keys
    {
      hide AliasesInserted, ClearBackSoFar;
      assert p !in moved && policies[p] == rows[p];
      clash := exists a :: a in aliases && IsAliasAt(aliases, a, policies[p].name, policies[p].user);
      if clash {
        AliasClashIsReal(rows, before, aliases, moved, p);
        return clash, moved;
      }
      StillClearBack(rows, before, aliases, moved, p);
      MovePolicy(rows, before, aliases, moved, p, nextId);
      OneMoreGone(rows, moved, p, nextId);
      aliases, grown, nextId := aliases[nextId := AliasOf(policies[p])], moved[p := nextId], nextId + 1;
      policies := policies - {p};
    }

    /** Move back every policy an alias can represent, and refuse at the first whose name and scope an alias has. */
    method Downgrade() returns (result: Result<(), RowId>, ghost moved: map<RowId, RowId>)
      requires Valid()
      modifies this
      ensures Valid()
      ensures result.Ok? <==>
        DistinctPolicies(old(policies), Representable(old(policies)))
        && PoliciesClear(old(policies), Representable(old(policies)), old(aliases))
      ensures AliasesInserted(old(policies), old(aliases), aliases, moved)
      ensures policies == old(policies) - moved.Keys
      ensures result.Ok? ==> moved.Keys == Representable(old(policies))
      ensures result.Ok? ==> forall p :: p in old(policies) ==>
        (p !in policies <==> exists alias :: SendsAllTo(old(policies)[p], alias))
      ensures forall p :: p in moved ==>
        p in old(policies) && moved[p] in aliases && SendsAllTo(old(policies)[p], aliases[moved[p]])
      ensures result.Err? ==> result.error in policies
    {
      hide AliasesInserted, DistinctPolicies, PoliciesClear, HasAliasForm, Representable;
      ghost var before := aliases;
      var rows := policies;
      var todo := rows.Keys;
      moved := map[];
      NothingMovedBackYet(rows, aliases);
      assert moved.Keys == {};
      while todo != {}
        invariant Valid() && todo <= rows.Keys && rows == old(policies)
        invariant policies == rows - moved.Keys
        invariant moved.Keys == Representable(rows) - todo
        invariant AliasesInserted(rows, before, aliases, moved)
        invariant ClearBackSoFar(rows, moved.Keys, before)
        decreases |todo|
      {
        var p :| p in todo;
        OneFewer(rows, todo, p);
        if HasAliasForm(rows[p]) {
          var clash;
          clash, moved := MoveToAliases(p, rows, before, moved);
          if clash {
            MovedPoliciesSendAll(rows, before, aliases, moved);
            return Err(p), moved;
          }
        }
        todo := todo - {p};
      }
      MovedPoliciesSendAll(rows, before, aliases, moved);
      return Ok(()), moved;
    }
  }

  // ---- what is moved, field by field ------------------------------------------------------------------

  /** The policy says of its name and scope what the alias says, since the same times, and nothing else. */
  ghost predicate SendsAllTo(policy: Policy, alias: Alias) {
    && policy.spec == Spec([Default(alias.target)], [], [])
    && policy.name == alias.name && policy.user == alias.user
    && policy.createdAt == alias.createdAt && policy.updatedAt == alias.updatedAt
  }

  lemma MovedAliasesSendAll(aliases: Aliases, before: Policies, after: Policies, moved: map<RowId, RowId>)
    requires PoliciesInserted(aliases, before, after, moved)
    ensures forall a :: a in moved ==> moved[a] in after && SendsAllTo(after[moved[a]], aliases[a])
  {
  }

  /** A policy has the form of an alias exactly when it says what some alias says. */
  lemma MovedPoliciesSendAll(policies: Policies, before: Aliases, after: Aliases, moved: map<RowId, RowId>)
    requires AliasesInserted(policies, before, after, moved)
    ensures forall p :: p in policies ==>
      (p in Representable(policies) <==> exists alias :: SendsAllTo(policies[p], alias))
    ensures forall p :: p in moved ==>
      p in policies && moved[p] in after && SendsAllTo(policies[p], after[moved[p]])
  {
    forall p | p in policies ensures p in Representable(policies) <==> exists alias :: SendsAllTo(policies[p], alias) {
      if HasAliasForm(policies[p]) {
        assert policies[p].spec.select == [policies[p].spec.select[0]];
        assert SendsAllTo(policies[p], AliasOf(policies[p]));
      }
    }
    forall p | p in moved ensures SendsAllTo(policies[p], after[moved[p]]) {
      assert policies[p].spec.select == [policies[p].spec.select[0]];
    }
  }

  // ---- the steps of the two loops ----------------------------------------------------------------

  lemma AllClear(aliases: Aliases, policies: Policies)
    ensures ClearSoFar(aliases, aliases.Keys, policies) <==>
      UniqueAliases(aliases) && AliasesClear(aliases, aliases.Keys, policies)
  {
  }

  lemma NothingMovedYet(aliases: Aliases, policies: Policies)
    ensures PoliciesInserted(aliases, policies, policies, map[])
    ensures ClearSoFar(aliases, {}, policies)
  {
  }

  lemma ClashIsReal(aliases: Aliases, before: Policies, after: Policies, moved: map<RowId, RowId>, a: RowId)
    requires PoliciesInserted(aliases, before, after, moved) && a in aliases && a !in moved
    requires HasPolicy(after, aliases[a].name, aliases[a].user)
    ensures !ClearSoFar(aliases, aliases.Keys, before)
  {
    var p :| IsPolicyAt(after, p, aliases[a].name, aliases[a].user);
    if p in before {
      assert IsPolicyAt(before, p, aliases[a].name, aliases[a].user);
    } else {
      assert NewPolicy(moved, p);
      var b :| b in moved && moved[b] == p;
      assert IsAliasAt(aliases, b, aliases[a].name, aliases[a].user) && a != b;
    }
  }

  lemma StillClear(aliases: Aliases, before: Policies, after: Policies, moved: map<RowId, RowId>, a: RowId)
    requires PoliciesInserted(aliases, before, after, moved) && a in aliases && a !in moved
    requires ClearSoFar(aliases, moved.Keys, before)
    requires !HasPolicy(after, aliases[a].name, aliases[a].user)
    ensures ClearSoFar(aliases, moved.Keys + {a}, before)
  {
    forall b | b in moved ensures !IsAliasAt(aliases, b, aliases[a].name, aliases[a].user) {
      assert !IsPolicyAt(after, moved[b], aliases[a].name, aliases[a].user);
    }
    forall p ensures !IsPolicyAt(before, p, aliases[a].name, aliases[a].user) {
      assert !IsPolicyAt(after, p, aliases[a].name, aliases[a].user);
    }
  }

  lemma MoveAlias(aliases: Aliases, before: Policies, after: Policies, moved: map<RowId, RowId>, a: RowId, id: RowId)
    requires PoliciesInserted(aliases, before, after, moved) && a in aliases && a !in moved && id !in after
    ensures PoliciesInserted(aliases, before, after[id := PolicyOf(aliases[a])], moved[a := id])
    ensures moved[a := id].Keys == moved.Keys + {a}
  {
    var grown := after[id := PolicyOf(aliases[a])];
    var names := moved[a := id];
    forall p | p in grown && p !in before ensures NewPolicy(names, p) {
      if p == id {
        assert a in names && names[a] == p;
      } else {
        assert NewPolicy(moved, p);
        var b :| b in moved && moved[b] == p;
        assert b in names && names[b] == p;
      }
    }
  }

  lemma NothingMovedBackYet(policies: Policies, aliases: Aliases)
    ensures AliasesInserted(policies, aliases, aliases, map[])
    ensures ClearBackSoFar(policies, {}, aliases)
    ensures Representable(policies) - policies.Keys == {}
  {
  }

  /** Looking at one more row adds it to those looked at if an alias can represent it. */
  lemma OneFewer(rows: Policies, todo: set<RowId>, p: RowId)
    requires p in todo && p in rows
    ensures Representable(rows) - (todo - {p})
      == (Representable(rows) - todo) + (if HasAliasForm(rows[p]) then {p} else {})
    ensures Representable(rows) - {} == Representable(rows)
  {
  }

  lemma AliasClashIsReal(policies: Policies, before: Aliases, after: Aliases, moved: map<RowId, RowId>, p: RowId)
    requires AliasesInserted(policies, before, after, moved) && p in Representable(policies) && p !in moved
    requires HasAlias(after, policies[p].name, policies[p].user)
    ensures !ClearBackSoFar(policies, Representable(policies), before)
  {
    var a :| IsAliasAt(after, a, policies[p].name, policies[p].user);
    if a in before {
      assert IsAliasAt(before, a, policies[p].name, policies[p].user);
    } else {
      var q :| q in moved && moved[q] == a;
      assert IsPolicyAt(policies, q, policies[p].name, policies[p].user) && p != q;
    }
  }

  lemma StillClearBack(policies: Policies, before: Aliases, after: Aliases, moved: map<RowId, RowId>, p: RowId)
    requires AliasesInserted(policies, before, after, moved) && p in policies && p !in moved
    requires ClearBackSoFar(policies, moved.Keys, before)
    requires !HasAlias(after, policies[p].name, policies[p].user)
    ensures ClearBackSoFar(policies, moved.Keys + {p}, before)
  {
    forall q | q in moved ensures !IsPolicyAt(policies, q, policies[p].name, policies[p].user) {
      assert !IsAliasAt(after, moved[q], policies[p].name, policies[p].user);
    }
    forall a ensures !IsAliasAt(before, a, policies[p].name, policies[p].user) {
      assert !IsAliasAt(after, a, policies[p].name, policies[p].user);
    }
  }

  lemma OneMoreGone(policies: Policies, moved: map<RowId, RowId>, p: RowId, id: RowId)
    ensures policies - moved[p := id].Keys == (policies - moved.Keys) - {p}
  {
  }

  lemma MovePolicy(policies: Policies, before: Aliases, after: Aliases, moved: map<RowId, RowId>, p: RowId, id: RowId)
    requires AliasesInserted(policies, before, after, moved) && p in Representable(policies) && p !in moved
    requires id !in after
    ensures AliasesInserted(policies, before, after[id := AliasOf(policies[p])], moved[p := id])
    ensures moved[p := id].Keys == moved.Keys + {p}
  {
    hide AliasOf, OneTarget;
    var grown := after[id := AliasOf(policies[p])];
    var names := moved[p := id];
    forall a | a in grown && a !in before ensures exists q :: q in names && names[q] == a {
      if a == id {
        assert p in names && names[p] == a;
      } else {
        var q :| q in moved && moved[q] == a;
        assert q in names && names[q] == a;
      }
    }
  }

  // ---- what a name serves ------------------------------------------------------------------------

  /** What the alias of exactly this name and scope serves, as the policy document it stands for. */
  ghost function AliasAt(aliases: Aliases, name: string, user: User): Option<Spec> {
    if HasAlias(aliases, name, user) then
      var a :| IsAliasAt(aliases, a, name, user);
      Some(SpecFor(aliases[a].target))
    else None
  }

  ghost function PolicyAt(policies: Policies, name: string, user: User): Option<Spec> {
    if HasPolicy(policies, name, user) then
      var p :| IsPolicyAt(policies, p, name, user);
      Some(policies[p].spec)
    else None
  }

  /** One exact name and scope: its alias comes before its policy. */
  ghost function ServedAt(aliases: Aliases, policies: Policies, name: string, user: User): Option<Spec> {
    AliasAt(aliases, name, user).Or(PolicyAt(policies, name, user))
  }

  /** A caller: any alias in sight comes before any policy, and within each the caller's own before everyone's. */
  ghost function Served(aliases: Aliases, policies: Policies, name: string, caller: User): Option<Spec> {
    AliasAt(aliases, name, caller).Or(AliasAt(aliases, name, None))
    .Or(PolicyAt(policies, name, caller).Or(PolicyAt(policies, name, None)))
  }

  lemma AliasFound(aliases: Aliases, a: RowId)
    requires UniqueAliases(aliases) && a in aliases
    ensures AliasAt(aliases, aliases[a].name, aliases[a].user) == Some(SpecFor(aliases[a].target))
  {
    assert IsAliasAt(aliases, a, aliases[a].name, aliases[a].user);
  }

  lemma PolicyFound(policies: Policies, p: RowId)
    requires UniquePolicies(policies) && p in policies
    ensures PolicyAt(policies, policies[p].name, policies[p].user) == Some(policies[p].spec)
  {
    assert IsPolicyAt(policies, p, policies[p].name, policies[p].user);
  }

  /** The stores as both migrations find and leave them: unique names per scope, and never the same in both. */
  ghost predicate Consistent(aliases: Aliases, policies: Policies) {
    UniqueAliases(aliases) && UniquePolicies(policies) && AliasesClear(aliases, aliases.Keys, policies)
  }

  ghost predicate Upgraded(aliases: Aliases, before: Policies, after: Policies, moved: map<RowId, RowId>) {
    PoliciesInserted(aliases, before, after, moved) && moved.Keys == aliases.Keys
  }

  ghost predicate Downgraded(policies: Policies, before: Aliases, after: Aliases, moved: map<RowId, RowId>) {
    AliasesInserted(policies, before, after, moved) && moved.Keys == Representable(policies)
  }

  /** The unique constraint on the policies holds after an upgrade that does not refuse. */
  lemma PoliciesStayUnique(aliases: Aliases, before: Policies, after: Policies, moved: map<RowId, RowId>)
    requires Consistent(aliases, before) && Upgraded(aliases, before, after, moved)
    ensures UniquePolicies(after)
  {
    forall p, q | p in after && IsPolicyAt(after, q, after[p].name, after[p].user) ensures p == q {
      OnePolicyPerScope(aliases, before, after, moved, p, q);
    }
  }

  lemma OnePolicyPerScope(aliases: Aliases, before: Policies, after: Policies, moved: map<RowId, RowId>, p: RowId,
                          q: RowId)
    requires Consistent(aliases, before) && Upgraded(aliases, before, after, moved)
    requires p in after && IsPolicyAt(after, q, after[p].name, after[p].user)
    ensures p == q
  {
    if p in before && q in before {
      assert IsPolicyAt(before, q, before[p].name, before[p].user);
    } else if p in before {
      assert NewPolicy(moved, q);
      var b :| b in moved && moved[b] == q;
      assert IsPolicyAt(before, p, aliases[b].name, aliases[b].user);
      assert false;
    } else if q in before {
      assert NewPolicy(moved, p);
      var a :| a in moved && moved[a] == p;
      assert IsPolicyAt(before, q, aliases[a].name, aliases[a].user);
      assert false;
    } else {
      assert NewPolicy(moved, p) && NewPolicy(moved, q);
      var a :| a in moved && moved[a] == p;
      var b :| b in moved && moved[b] == q;
      assert IsAliasAt(aliases, b, aliases[a].name, aliases[a].user);
    }
  }

  /** Every exact name and scope serves after the upgrade what it served before. */
  lemma ScopeServedAlike(aliases: Aliases, before: Policies, after: Policies, moved: map<RowId, RowId>, name: string,
                         user: User)
    requires Consistent(aliases, before) && Upgraded(aliases, before, after, moved)
    ensures PolicyAt(after, name, user) == ServedAt(aliases, before, name, user)
  {
    PoliciesStayUnique(aliases, before, after, moved);
    if HasAlias(aliases, name, user) {
      var a :| IsAliasAt(aliases, a, name, user);
      AliasFound(aliases, a);
      PolicyFound(after, moved[a]);
    } else if HasPolicy(before, name, user) {
      var p :| IsPolicyAt(before, p, name, user);
      PolicyFound(before, p);
      PolicyFound(after, p);
    } else {
      forall p ensures !IsPolicyAt(after, p, name, user) {
        if IsPolicyAt(after, p, name, user) {
          NoPolicyFromNowhere(aliases, before, after, moved, p);
        }
      }
    }
  }

  lemma NoPolicyFromNowhere(aliases: Aliases, before: Policies, after: Policies, moved: map<RowId, RowId>, p: RowId)
    requires Upgraded(aliases, before, after, moved) && p in after
    ensures HasAlias(aliases, after[p].name, after[p].user) || HasPolicy(before, after[p].name, after[p].user)
  {
    if p in before {
      assert IsPolicyAt(before, p, after[p].name, after[p].user);
    } else {
      assert NewPolicy(moved, p);
      var a :| a in moved && moved[a] == p;
      assert IsAliasAt(aliases, a, after[p].name, after[p].user);
    }
  }

  /** A caller's own policy that an alias of everyone's kept out of sight, and that serves something else. */
  ghost predicate OwnPolicyWasHidden(aliases: Aliases, policies: Policies, name: string, caller: User) {
    var own, shared := PolicyAt(policies, name, caller), AliasAt(aliases, name, None);
    AliasAt(aliases, name, caller).None? && shared.Some? && own.Some? && own != shared
  }

  /**
   A caller is served after the upgrade what they were served before, except that their own policy now comes
   before what was everyone's alias of that name.
   */
  lemma CallerServedAlike(aliases: Aliases, before: Policies, after: Policies, moved: map<RowId, RowId>, name: string,
                          caller: User)
    requires Consistent(aliases, before) && Upgraded(aliases, before, after, moved)
    ensures Served(map[], after, name, caller) == Served(aliases, before, name, caller)
      <==> !OwnPolicyWasHidden(aliases, before, name, caller)
  {
    hide AliasAt, PolicyAt;
    ScopeServedAlike(aliases, before, after, moved, name, caller);
    ScopeServedAlike(aliases, before, after, moved, name, None);
    NoAliasAt(name, caller);
    NoAliasAt(name, None);
    OneOfTheTwo(aliases, before, name, caller);
    OneOfTheTwo(aliases, before, name, None);
  }

  lemma NoAliasAt(name: string, user: User)
    ensures AliasAt(map[], name, user) == None
  {
  }

  lemma OneOfTheTwo(aliases: Aliases, policies: Policies, name: string, user: User)
    requires AliasesClear(aliases, aliases.Keys, policies)
    ensures AliasAt(aliases, name, user).None? || PolicyAt(policies, name, user).None?
  {
  }

  /** No exact name and scope clashes, and still a caller is moved from one model to another. */
  lemma HiddenPolicyComesForward()
    ensures exists aliases, before, after, moved, name, caller ::
      Consistent(aliases, before) && Upgraded(aliases, before, after, moved)
      && Served(map[], after, name, caller) != Served(aliases, before, name, caller)
  {
    var caller: User := Some("ada");
    var aliases: Aliases := map[0 := Alias("fast", "openai:gpt", None, 1, 1)];
    var before: Policies := map[1 := Policy("fast", SpecFor("mistral:large"), caller, 2, 2)];
    var after := before[2 := PolicyOf(aliases[0])];
    var moved := map[0 := 2];
    NothingMovedYet(aliases, before);
    MoveAlias(aliases, before, before, map[], 0, 2);
    assert map[][0 := 2] == moved;
    assert Consistent(aliases, before);
    AliasFound(aliases, 0);
    PolicyFound(before, 1);
    assert AliasAt(aliases, "fast", caller) == None;
    assert SpecFor("mistral:large").select[0] != SpecFor("openai:gpt").select[0];
    CallerServedAlike(aliases, before, after, moved, "fast", caller);
  }

  // ---- the way back ------------------------------------------------------------------------------

  lemma NewAliasHasAPolicy(policies: Policies, before: Aliases, after: Aliases, moved: map<RowId, RowId>, a: RowId)
    returns (p: RowId)
    requires Downgraded(policies, before, after, moved) && a in after && a !in before
    ensures p in moved && moved[p] == a && IsPolicyAt(policies, p, after[a].name, after[a].user)
    ensures after[a] == AliasOf(policies[p])
  {
    p :| p in moved && moved[p] == a;
  }

  lemma AliasesStayUnique(policies: Policies, before: Aliases, after: Aliases, moved: map<RowId, RowId>)
    requires Consistent(before, policies) && Downgraded(policies, before, after, moved)
    ensures UniqueAliases(after)
  {
    forall a, b | a in after && IsAliasAt(after, b, after[a].name, after[a].user) ensures a == b {
      OneAliasPerScope(policies, before, after, moved, a, b);
    }
  }

  lemma OneAliasPerScope(policies: Policies, before: Aliases, after: Aliases, moved: map<RowId, RowId>, a: RowId,
                         b: RowId)
    requires Consistent(before, policies) && Downgraded(policies, before, after, moved)
    requires a in after && IsAliasAt(after, b, after[a].name, after[a].user)
    ensures a == b
  {
    if a in before && b in before {
      assert IsAliasAt(before, b, before[a].name, before[a].user);
    } else if a in before {
      var q := NewAliasHasAPolicy(policies, before, after, moved, b);
      assert false;
    } else if b in before {
      var p := NewAliasHasAPolicy(policies, before, after, moved, a);
      assert false;
    } else {
      var p := NewAliasHasAPolicy(policies, before, after, moved, a);
      var q := NewAliasHasAPolicy(policies, before, after, moved, b);
      assert IsPolicyAt(policies, q, policies[p].name, policies[p].user);
    }
  }

  /** Exactly the one-target policy of a name and scope becomes its alias; any other policy stays where it was. */
  lemma ScopeAfterDowngrade(policies: Policies, before: Aliases, after: Aliases, moved: map<RowId, RowId>,
                            name: string, user: User)
    requires Consistent(before, policies) && Downgraded(policies, before, after, moved)
    ensures var policy := PolicyAt(policies, name, user);
      if policy.Some? && OneTarget(policy.value)
        then AliasAt(after, name, user) == policy && PolicyAt(policies - moved.Keys, name, user) == None
        else
          AliasAt(after, name, user) == AliasAt(before, name, user)
          && PolicyAt(policies - moved.Keys, name, user) == policy
  {
    AliasesStayUnique(policies, before, after, moved);
    if HasPolicy(policies, name, user) {
      var p :| IsPolicyAt(policies, p, name, user);
      ScopeOfAPolicy(policies, before, after, moved, p);
    } else {
      ScopeWithoutAPolicy(policies, before, after, moved, name, user);
    }
  }

  lemma ScopeOfAPolicy(policies: Policies, before: Aliases, after: Aliases, moved: map<RowId, RowId>, p: RowId)
    requires Consistent(before, policies) && Downgraded(policies, before, after, moved) && UniqueAliases(after)
    requires p in policies
    ensures PolicyAt(policies, policies[p].name, policies[p].user) == Some(policies[p].spec)
    ensures HasAliasForm(policies[p]) ==> AliasAt(after, policies[p].name, policies[p].user) == Some(policies[p].spec)
    ensures HasAliasForm(policies[p]) ==> PolicyAt(policies - moved.Keys, policies[p].name, policies[p].user) == None
    ensures !HasAliasForm(policies[p]) ==> AliasAt(after, policies[p].name, policies[p].user) == None
    ensures !HasAliasForm(policies[p]) ==> AliasAt(before, policies[p].name, policies[p].user) == None
    ensures !HasAliasForm(policies[p]) ==>
      PolicyAt(policies - moved.Keys, policies[p].name, policies[p].user) == Some(policies[p].spec)
  {
    var name, user := policies[p].name, policies[p].user;
    PolicyFound(policies, p);
    if HasAliasForm(policies[p]) {
      AliasFound(after, moved[p]);
      assert SpecFor(policies[p].spec.select[0].target) == policies[p].spec;
      forall q ensures !IsPolicyAt(policies - moved.Keys, q, name, user) {
        assert IsPolicyAt(policies, q, name, user) ==> q == p;
      }
    } else {
      assert IsPolicyAt(policies - moved.Keys, p, name, user);
      forall q | IsPolicyAt(policies - moved.Keys, q, name, user) ensures q == p {
        assert IsPolicyAt(policies, q, name, user);
      }
      forall a ensures !IsAliasAt(before, a, name, user) && !IsAliasAt(after, a, name, user) {
        if IsAliasAt(before, a, name, user) {
          assert false;
        } else if IsAliasAt(after, a, name, user) {
          var q := NewAliasHasAPolicy(policies, before, after, moved, a);
          assert false;
        }
      }
    }
  }

  lemma ScopeWithoutAPolicy(policies: Policies, before: Aliases, after: Aliases, moved: map<RowId, RowId>,
                            name: string, user: User)
    requires Consistent(before, policies) && Downgraded(policies, before, after, moved) && UniqueAliases(after)
    requires !HasPolicy(policies, name, user)
    ensures AliasAt(after, name, user) == AliasAt(before, name, user)
    ensures PolicyAt(policies, name, user) == PolicyAt(policies - moved.Keys, name, user) == None
  {
    forall q ensures !IsPolicyAt(policies - moved.Keys, q, name, user) {
      assert !IsPolicyAt(policies, q, name, user);
    }
    if HasAlias(before, name, user) {
      var a :| IsAliasAt(before, a, name, user);
      AliasFound(before, a);
      AliasFound(after, a);
    } else {
      forall a ensures !IsAliasAt(after, a, name, user) {
        if IsAliasAt(after, a, name, user) {
          assert !IsAliasAt(before, a, name, user);
          var q := NewAliasHasAPolicy(policies, before, after, moved, a);
          assert false;
        }
      }
    }
  }

  /** A downgrade turns round which of two stored rows a caller meets first. */
  ghost predicate Reordered(aliases: Aliases, policies: Policies, name: string, caller: User) {
    var own, shared := PolicyAt(policies, name, caller), PolicyAt(policies, name, None);
    AliasAt(aliases, name, caller).None? && own.Some?
    && if OneTarget(own.value)
       then AliasAt(aliases, name, None).Some? && AliasAt(aliases, name, None) != own
       else AliasAt(aliases, name, None).None? && shared.Some? && OneTarget(shared.value)
  }

  /**
   After a downgrade each exact name and scope serves what it did, and so does each caller, unless their own
   policy has come before everyone's alias or everyone's one-target policy before their own larger one.
   */
  lemma DowngradeServesAlike(policies: Policies, before: Aliases, after: Aliases, moved: map<RowId, RowId>,
                             name: string, caller: User)
    requires Consistent(before, policies) && Downgraded(policies, before, after, moved)
    ensures ServedAt(after, policies - moved.Keys, name, caller) == ServedAt(before, policies, name, caller)
    ensures Served(after, policies - moved.Keys, name, caller) == Served(before, policies, name, caller)
      <==> !Reordered(before, policies, name, caller)
  {
    hide AliasAt, PolicyAt, Consistent, Downgraded;
    ScopeAfterDowngrade(policies, before, after, moved, name, caller);
    ScopeAfterDowngrade(policies, before, after, moved, name, None);
    ClearOfConsistent(before, policies);
    OneOfTheTwo(before, policies, name, caller);
    OneOfTheTwo(before, policies, name, None);
  }

  /** The downgrade brings a caller's own policy before everyone's alias, and moves the caller to another model. */
  lemma OwnPolicyOvertakes()
    ensures exists policies, before, after, moved, name, caller ::
      Consistent(before, policies) && Downgraded(policies, before, after, moved)
      && Served(after, policies - moved.Keys, name, caller) != Served(before, policies, name, caller)
  {
    var caller: User := Some("ada");
    var before: Aliases := map[0 := Alias("fast", "openai:gpt", None, 1, 1)];
    var policies: Policies := map[1 := Policy("fast", SpecFor("mistral:large"), caller, 2, 2)];
    var after := before[2 := AliasOf(policies[1])];
    var moved := map[1 := 2];
    NothingMovedBackYet(policies, before);
    MovePolicy(policies, before, before, map[], 1, 2);
    assert map[][1 := 2] == moved && Representable(policies) == {1};
    assert Consistent(before, policies);
    AliasFound(before, 0);
    PolicyFound(policies, 1);
    assert AliasAt(before, "fast", caller) == None;
    assert SpecFor("mistral:large").select[0] != SpecFor("openai:gpt").select[0];
    DowngradeServesAlike(policies, before, after, moved, "fast", caller);
  }

  lemma ClearOfConsistent(aliases: Aliases, policies: Policies)
    requires Consistent(aliases, policies)
    ensures AliasesClear(aliases, aliases.Keys, policies)
  {
  }

  /** The policy `p` became `alias`. */
  ghost predicate IsBack(p: RowId, back: map<RowId, RowId>, aliases: Aliases, alias: Alias) {
    p in back && back[p] in aliases && aliases[back[p]] == alias
  }

  /** An alias after both moves was an alias before them, or a one-target policy. */
  ghost predicate ComesFrom(a: RowId, there: map<RowId, RowId>, back: map<RowId, RowId>, policies: Policies) {
    exists p :: p in back && back[p] == a && (p in Representable(policies) || NewPolicy(there, p))
  }

  /**
   Upgrade, then downgrade: it never refuses, every alias is back with its name, target, scope and times, every
   other alias is a one-target policy there was, and exactly the larger policies are left, each with its own id.
   */
  method RoundTrip(stores: Stores)
    returns (result: Result<(), RowId>, ghost there: map<RowId, RowId>, ghost back: map<RowId, RowId>)
    requires stores.Valid() && Consistent(stores.aliases, stores.policies)
    modifies stores
    ensures result.Ok?
    ensures there.Keys == old(stores.aliases).Keys
    ensures forall a :: a in there ==> IsBack(there[a], back, stores.aliases, old(stores.aliases)[a])
    ensures forall p :: p in Representable(old(stores.policies)) ==>
      IsBack(p, back, stores.aliases, AliasOf(old(stores.policies)[p]))
    ensures forall a :: a in stores.aliases ==> ComesFrom(a, there, back, old(stores.policies))
    ensures Injective(there) && Injective(back)
    ensures stores.policies == old(stores.policies) - Representable(old(stores.policies))
  {
    ghost var aliases, policies := stores.aliases, stores.policies;
    result, there := stores.Upgrade();
    assert result.Ok?;
    ghost var mid := stores.policies;
    PoliciesStayUnique(aliases, policies, mid, there);
    NothingInTheWay(mid);
    result, back := stores.Downgrade();
    assert result.Ok?;
    ThereAndBack(aliases, policies, mid, there, stores.aliases, back);
  }

  lemma NothingInTheWay(policies: Policies)
    requires UniquePolicies(policies)
    ensures DistinctPolicies(policies, Representable(policies))
    ensures PoliciesClear(policies, Representable(policies), map[])
  {
  }

  lemma ThereAndBack(aliases: Aliases, policies: Policies, mid: Policies, there: map<RowId, RowId>, final: Aliases,
                     back: map<RowId, RowId>)
    requires Upgraded(aliases, policies, mid, there) && Downgraded(mid, map[], final, back)
    ensures forall a :: a in there ==> IsBack(there[a], back, final, aliases[a])
    ensures forall p :: p in Representable(policies) ==> IsBack(p, back, final, AliasOf(policies[p]))
    ensures forall a :: a in final ==> ComesFrom(a, there, back, policies)
    ensures mid - back.Keys == policies - Representable(policies)
  {
    forall a | a in there ensures IsBack(there[a], back, final, aliases[a]) {
      assert HasAliasForm(mid[there[a]]);
    }
    forall a | a in final ensures ComesFrom(a, there, back, policies) {
      var p :| p in back && back[p] == a;
      assert p in policies || NewPolicy(there, p);
    }
    forall p ensures p in mid - back.Keys <==> p in policies - Representable(policies) {
      if p in mid && p !in policies {
        assert NewPolicy(there, p);
        var a :| a in there && there[a] == p;
        assert HasAliasForm(mid[there[a]]);
      }
    }
  }
}
