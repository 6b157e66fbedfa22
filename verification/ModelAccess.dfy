/** The architecture checker's ratchets: what uses a thing is exactly what is on record as using it. */
module ModelAccess {
  import opened Common

  /** The repository that may use a model, if it has one, and the modules that still do. */
  datatype Access = Access(repository: Option<string>, baseline: seq<string>)

  datatype Violation =
    | OutsideRepositories(repository: string)
    | NoSuchRepository(repository: string)
    | RepositoryDoesNotUseIt(repository: string)
    | RepositoryOnBaseline(repository: string)
    | Uses(mod: string, line: nat)
    | NoLongerUses(mod: string)

  /** What the check asks of the source tree about a repository's path. */
  datatype Place = Outside | Missing | Present

  /** The repository is a file of the repositories layer that uses the model. */
  predicate IsUsableRepository(repository: string, place: Place, users: map<string, nat>) {
    place == Present && repository in users
  }

  /** The record is right: the named repository and the baseline, and nothing else, use the model. */
  ghost predicate OnRecord(access: Access, place: Place, users: map<string, nat>) {
    && (access.repository.Some? ==>
          IsUsableRepository(access.repository.value, place, users) && access.repository.value !in access.baseline)
    && users.Keys
       == (set m | m in access.baseline) + (if access.repository.Some? then {access.repository.value} else {})
  }

  function RepositoryViolations(access: Access, place: Place, users: map<string, nat>): seq<Violation> {
    if access.repository.None? then []
    else
      var repository := access.repository.value;
      (match place
       case Outside => [OutsideRepositories(repository)]
       case Missing => [NoSuchRepository(repository)]
       case Present => if repository in users then [] else [RepositoryDoesNotUseIt(repository)])
      + (if repository in access.baseline then [RepositoryOnBaseline(repository)] else [])
  }

  predicate IsUnrecorded(access: Access, mod: string) {
    access.repository != Some(mod) && mod !in access.baseline
  }

  predicate IsStale(access: Access, users: map<string, nat>, mod: string) {
    mod !in users && access.repository != Some(mod)
  }

  /** One model's entry against the modules that use it; `order` is those modules, sorted. */
  method CheckModel(access: Access, place: Place, users: map<string, nat>, order: seq<string>)
    returns (violations: seq<Violation>)
    requires forall m :: m in order <==> m in users
    ensures violations == [] <==> OnRecord(access, place, users)
    ensures forall v :: v in violations <==> IsDue(access, place, users, v)
  {
    hide RepositoryViolations, IsUnrecorded, IsStale, OnRecord, IsDue;
    var first := RepositoryViolations(access, place, users);
    violations := first;
    var i := 0;
    while i < |order|
      invariant 0 <= i <= |order|
      invariant forall v :: v in violations <==>
        v in first || (v.Uses? && v.mod in order[..i] && users[v.mod] == v.line && IsUnrecorded(access, v.mod))
    {
      assert order[..i + 1] == order[..i] + [order[i]];
      if IsUnrecorded(access, order[i]) {
        violations := violations + [Uses(order[i], users[order[i]])];
      }
      i := i + 1;
    }
    assert order[..i] == order;
    var second := violations;
    i := 0;
    while i < |access.baseline|
      invariant 0 <= i <= |access.baseline|
      invariant forall v :: v in violations <==>
        v in second || (v.NoLongerUses? && v.mod in access.baseline[..i] && IsStale(access, users, v.mod))
    {
      assert access.baseline[..i + 1] == access.baseline[..i] + [access.baseline[i]];
      if IsStale(access, users, access.baseline[i]) {
        violations := violations + [NoLongerUses(access.baseline[i])];
      }
      i := i + 1;
    }
    assert access.baseline[..i] == access.baseline;
    SilentOnRecord(access, place, users, violations);
    forall v ensures IsViolation(access, place, users, v) <==> IsDue(access, place, users, v) {
      DueWhenViolation(access, place, users, v);
    }
  }

  /** When there is a violation, kind by kind. */
  ghost predicate IsDue(access: Access, place: Place, users: map<string, nat>, v: Violation) {
    match v
    case OutsideRepositories(r) => access.repository == Some(r) && place == Outside
    case NoSuchRepository(r) => access.repository == Some(r) && place == Missing
    case RepositoryDoesNotUseIt(r) => access.repository == Some(r) && place == Present && r !in users
    case RepositoryOnBaseline(r) => access.repository == Some(r) && r in access.baseline
    case Uses(m, line) => m in users && users[m] == line && access.repository != Some(m) && m !in access.baseline
    case NoLongerUses(m) => m in access.baseline && m !in users && access.repository != Some(m)
  }

  lemma DueWhenViolation(access: Access, place: Place, users: map<string, nat>, v: Violation)
    ensures IsViolation(access, place, users, v) <==> IsDue(access, place, users, v)
  {
  }

  predicate IsViolation(access: Access, place: Place, users: map<string, nat>, v: Violation) {
    || v in RepositoryViolations(access, place, users)
    || (v.Uses? && v.mod in users && users[v.mod] == v.line && IsUnrecorded(access, v.mod))
    || (v.NoLongerUses? && v.mod in access.baseline && IsStale(access, users, v.mod))
  }

  lemma NoneInEmpty(first: seq<Violation>, violations: seq<Violation>)
    requires forall v :: v in first ==> v in violations
    ensures first == [] || violations != []
  {
    if |first| > 0 {
      assert first[0] in violations;
    }
  }

  lemma SilentOnRecord(access: Access, place: Place, users: map<string, nat>, violations: seq<Violation>)
    requires forall v :: v in violations <==> IsViolation(access, place, users, v)
    ensures violations == [] <==> OnRecord(access, place, users)
  {
    var first := RepositoryViolations(access, place, users);
    if violations == [] {
      NoneInEmpty(first, violations);
      forall m | m in users ensures !IsUnrecorded(access, m) {
        assert Uses(m, users[m]) !in violations;
      }
      forall m | m in access.baseline ensures !IsStale(access, users, m) {
        assert NoLongerUses(m) !in violations;
      }
    } else {
      assert violations[0] in violations;
    }
  }

  // ---- the checks with a baseline alone ---------------------------------------------------------------------------

  datatype BaselineViolation = Offends(mod: string, line: nat) | Stale(mod: string)

  function Offenders(modules: seq<string>, found: map<string, seq<nat>>): set<string>
    requires forall m :: m in modules ==> m in found
  {
    set m | m in modules && found[m] != []
  }

  /** A line of a module off the baseline. */
  ghost predicate IsOffence(modules: seq<string>, found: map<string, seq<nat>>, baseline: set<string>,
                            v: BaselineViolation) {
    v.Offends? && v.mod in modules && v.mod in found && v.line in found[v.mod] && v.mod !in baseline
  }

  lemma OffencesOf(mod: string, lines: seq<nat>)
    ensures var offences := seq(|lines|, k requires 0 <= k < |lines| => Offends(mod, lines[k]));
      forall v :: v in offences <==> v.Offends? && v.mod == mod && v.line in lines
  {
    var offences := seq(|lines|, k requires 0 <= k < |lines| => Offends(mod, lines[k]));
    forall line | line in lines ensures Offends(mod, line) in offences {
      var k :| 0 <= k < |lines| && lines[k] == line;
      assert offences[k] == Offends(mod, line);
    }
  }

  /** The modules with an offending line, and a violation for each line of one that is not on record. */
  method FindOffenders(modules: seq<string>, found: map<string, seq<nat>>, baseline: set<string>)
    returns (offending: set<string>, violations: seq<BaselineViolation>)
    requires forall m :: m in modules ==> m in found
    ensures offending == Offenders(modules, found)
    ensures violations == [] <==> offending <= baseline
    ensures forall v :: v in violations <==> IsOffence(modules, found, baseline, v)
  {
    offending, violations := {}, [];
    var i := 0;
    while i < |modules|
      invariant 0 <= i <= |modules|
      invariant forall m :: m in offending <==> m in modules[..i] && found[m] != []
      invariant violations == [] <==> offending <= baseline
      invariant forall v :: v in violations <==> IsOffence(modules[..i], found, baseline, v)
    {
      assert modules[..i + 1] == modules[..i] + [modules[i]];
      if found[modules[i]] != [] {
        var mod := modules[i];
        offending := offending + {mod};
        if mod !in baseline {
          OffencesOf(mod, found[mod]);
          violations := violations + seq(|found[mod]|, k requires 0 <= k < |found[mod]| => Offends(mod, found[mod][k]));
        }
      }
      i := i + 1;
    }
    assert modules[..i] == modules;
  }

  /**
   The database import, transaction and listener checks: `found` gives each module's offending lines, and a module
   without any is left out of the count. Silent exactly when the offenders are the baseline.
   */
  method CheckBaseline(modules: seq<string>, found: map<string, seq<nat>>, baseline: set<string>)
    returns (violations: seq<BaselineViolation>)
    requires forall m :: m in modules ==> m in found
    ensures violations == [] <==> Offenders(modules, found) == baseline
    ensures forall m, line :: Offends(m, line) in violations <==>
      m in modules && line in found[m] && m !in baseline
    ensures forall m :: Stale(m) in violations <==> m in baseline && (m in modules ==> found[m] == [])
  {
    assert forall m :: m in Offenders(modules, found) <==> m in modules && found[m] != [];
    hide Offenders;
    var offending;
    offending, violations := FindOffenders(modules, found, baseline);
    var stale := baseline - offending;
    ghost var silent := violations == [] && stale == {};
    assert stale == {} <==> baseline <= offending by {
      if stale == {} {
        forall m | m in baseline ensures m in offending {
          assert m !in stale;
        }
      }
    }
    assert silent <==> offending == baseline;
    while stale != {}
      invariant silent <==> violations == [] && stale == {}
      invariant stale <= baseline - offending
      invariant forall m, line :: Offends(m, line) in violations <==>
        IsOffence(modules, found, baseline, Offends(m, line))
      invariant forall m :: Stale(m) in violations <==> m in baseline - offending && m !in stale
      decreases |stale|
    {
      var m :| m in stale;
      violations := violations + [Stale(m)];
      stale := stale - {m};
    }
  }
}
