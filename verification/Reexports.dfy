/** The architecture checker follows a name through the modules that re-export it. */
module Reexports {
  import opened Common

  /** A dotted name, split at its dots. */
  type Path = seq<string>
  /** Where a module's own name for something leads: `package.name` to what the package imported it from. */
  type Targets = map<Path, Path>

  // ---- one rewrite ---------------------------------------------------------------------------------------

  /** The longest part of the front of the path, at most `end` long, that is re-exported. */
  function LongestKey(path: Path, targets: Targets, end: nat): (found: Option<nat>)
    requires end <= |path|
    ensures found.Some? ==> 1 <= found.value <= end && path[..found.value] in targets
    ensures found.Some? ==> forall e :: found.value < e <= end ==> path[..e] !in targets
    ensures found.None? ==> forall e :: 1 <= e <= end ==> path[..e] !in targets
  {
    if end == 0 then None
    else if path[..end] in targets then Some(end)
    else LongestKey(path, targets, end - 1)
  }

  function Rewrite(path: Path, targets: Targets): Option<Path> {
    var end := LongestKey(path, targets, |path|);
    if end.None? then None else Some(targets[path[..end.value]] + path[end.value..])
  }

  /** Nothing at the front of the path is re-exported. */
  predicate IsDefinition(path: Path, targets: Targets) {
    forall e :: 1 <= e <= |path| ==> path[..e] !in targets
  }

  lemma DefinitionStays(path: Path, targets: Targets)
    ensures Rewrite(path, targets).None? <==> IsDefinition(path, targets)
  {
  }

  /** The path after `n` rewrites; a path that cannot be rewritten stays. */
  function After(path: Path, targets: Targets, n: nat): Path {
    if n == 0 then path
    else
      var before := After(path, targets, n - 1);
      Rewrite(before, targets).Or(Some(before)).value
  }

  lemma {:induction false} AfterSum(path: Path, targets: Targets, m: nat, n: nat)
    ensures After(After(path, targets, m), targets, n) == After(path, targets, m + n)
  {
    if n > 0 {
      AfterSum(path, targets, m, n - 1);
    }
  }

  // ---- what the loop stops at ----------------------------------------------------------------------------

  /** The first `n` paths are all different, and each is rewritten. */
  ghost predicate GoesOn(path: Path, targets: Targets, n: nat) {
    && (forall i, j :: 0 <= i < j < n ==> After(path, targets, i) != After(path, targets, j))
    && (forall i :: 0 <= i < n ==> !IsDefinition(After(path, targets, i), targets))
  }

  /** The path after them is a definition, or one of them. */
  ghost predicate StopsAfter(path: Path, targets: Targets, n: nat) {
    GoesOn(path, targets, n) && (IsDefinition(After(path, targets, n), targets) || Returns(path, targets, n))
  }

  ghost predicate Returns(path: Path, targets: Targets, n: nat) {
    exists m :: 0 <= m < n && After(path, targets, m) == After(path, targets, n)
  }

  ghost predicate Stops(path: Path, targets: Targets) {
    exists n: nat :: StopsAfter(path, targets, n)
  }

  lemma StopsOnce(path: Path, targets: Targets, m: nat, n: nat)
    requires StopsAfter(path, targets, m) && StopsAfter(path, targets, n)
    ensures m == n
  {
  }

  // ---- it stops exactly when the path does not grow for ever ------------------------------------------------

  ghost predicate StaysWithin(path: Path, targets: Targets, length: nat) {
    forall n: nat :: |After(path, targets, n)| <= length
  }

  ghost predicate IsBounded(path: Path, targets: Targets) {
    exists length: nat :: StaysWithin(path, targets, length)
  }

  function Names(path: Path, targets: Targets): set<string> {
    (set i | 0 <= i < |path| :: path[i]) + (set k, i | k in targets && 0 <= i < |targets[k]| :: targets[k][i])
  }

  predicate UsesOnly(path: Path, names: set<string>) {
    forall i :: 0 <= i < |path| ==> path[i] in names
  }

  function Paths(names: set<string>, length: nat): set<Path> {
    if length == 0 then {[]}
    else {[]} + set name, rest | name in names && rest in Paths(names, length - 1) :: [name] + rest
  }

  lemma {:induction false} InPaths(path: Path, names: set<string>, length: nat)
    requires UsesOnly(path, names) && |path| <= length
    ensures path in Paths(names, length)
  {
    if path != [] {
      InPaths(path[1..], names, length - 1);
      assert path == [path[0]] + path[1..];
    }
  }

  lemma {:induction false} AfterUsesOnly(path: Path, targets: Targets, n: nat)
    ensures UsesOnly(After(path, targets, n), Names(path, targets))
  {
    if n > 0 {
      AfterUsesOnly(path, targets, n - 1);
    }
  }

  /** The first `n` paths. */
  ghost function Met(path: Path, targets: Targets, n: nat): set<Path> {
    set i | 0 <= i < n :: After(path, targets, i)
  }

  lemma OneMoreMet(path: Path, targets: Targets, n: nat)
    ensures Met(path, targets, n + 1) == Met(path, targets, n) + {After(path, targets, n)}
    ensures After(path, targets, n) in Met(path, targets, n) <==> Returns(path, targets, n)
    ensures var now := After(path, targets, n);
      GoesOn(path, targets, n) && now !in Met(path, targets, n) && !IsDefinition(now, targets) ==>
        GoesOn(path, targets, n + 1)
  {
    hide After;
  }

  lemma NothingMet(path: Path, targets: Targets)
    ensures Met(path, targets, 0) == {} && GoesOn(path, targets, 0) && After(path, targets, 0) == path
  {
  }

  lemma OneMoreRewrite(path: Path, targets: Targets, n: nat)
    ensures After(path, targets, n + 1)
      == Rewrite(After(path, targets, n), targets).Or(Some(After(path, targets, n))).value
  {
  }

  lemma {:induction false} StaysAtDefinition(path: Path, targets: Targets, n: nat)
    requires IsDefinition(path, targets)
    ensures After(path, targets, n) == path
  {
    if n > 0 {
      StaysAtDefinition(path, targets, n - 1);
    }
  }

  function Longest(path: Path, targets: Targets, count: nat): (length: nat)
    ensures forall i :: 0 <= i < count ==> |After(path, targets, i)| <= length
  {
    if count == 0 then 0
    else
      var rest, here := Longest(path, targets, count - 1), |After(path, targets, count - 1)|;
      if here > rest then here else rest
  }

  /** Every later path is one of the first `n + 1`. */
  lemma {:induction false} ComesBack(path: Path, targets: Targets, n: nat, k: nat) returns (i: nat)
    requires StopsAfter(path, targets, n)
    ensures i <= n && After(path, targets, k) == After(path, targets, i)
    decreases k
  {
    hide After, IsDefinition, GoesOn;
    if k <= n {
      i := k;
    } else if IsDefinition(After(path, targets, n), targets) {
      i := n;
      StaysAtDefinition(After(path, targets, n), targets, k - n);
      AfterSum(path, targets, n, k - n);
    } else {
      var m :| 0 <= m < n && After(path, targets, m) == After(path, targets, n);
      AfterSum(path, targets, n, k - n);
      AfterSum(path, targets, m, k - n);
      i := ComesBack(path, targets, n, m + (k - n));
    }
  }

  lemma {:induction false} StopsIfWithin(path: Path, targets: Targets, length: nat, n: nat)
    requires StaysWithin(path, targets, length) && !Stops(path, targets)
    ensures GoesOn(path, targets, n)
  {
    if n > 0 {
      StopsIfWithin(path, targets, length, n - 1);
      assert !StopsAfter(path, targets, n - 1);
    }
  }

  lemma {:induction false} DistinctFit(paths: seq<Path>, all: set<Path>)
    requires forall i, j :: 0 <= i < j < |paths| ==> paths[i] != paths[j]
    requires forall i :: 0 <= i < |paths| ==> paths[i] in all
    ensures |paths| <= |all|
  {
    if paths != [] {
      var last := paths[|paths| - 1];
      DistinctFit(paths[..|paths| - 1], all - {last});
    }
  }

  /** The loop stops exactly when the paths it meets do not grow for ever. */
  lemma StopsWhenBounded(path: Path, targets: Targets)
    ensures Stops(path, targets) <==> IsBounded(path, targets)
  {
    if n: nat :| StopsAfter(path, targets, n) {
      var length := Longest(path, targets, n + 1);
      forall k: nat ensures |After(path, targets, k)| <= length {
        var i := ComesBack(path, targets, n, k);
      }
      assert StaysWithin(path, targets, length);
    } else if length: nat :| StaysWithin(path, targets, length) {
      var all := Paths(Names(path, targets), length);
      var n := |all| + 1;
      StopsIfWithin(path, targets, length, n);
      forall i: nat | i < n ensures After(path, targets, i) in all {
        AfterUsesOnly(path, targets, i);
        InPaths(After(path, targets, i), Names(path, targets), length);
      }
      DistinctFit(seq(n, i requires 0 <= i < n => After(path, targets, i)), all);
      assert false;
    }
  }

  // ---- what the result is ----------------------------------------------------------------------------------

  ghost predicate Resolves(path: Path, targets: Targets, result: Path) {
    exists n: nat :: StopsAfter(path, targets, n) && result == After(path, targets, n)
  }

  /** Resolving twice is resolving once, whether it ended at a definition or went round a cycle. */
  lemma ResolveTwice(path: Path, targets: Targets, once: Path)
    requires Resolves(path, targets, once)
    ensures Resolves(once, targets, once)
    ensures forall twice :: Resolves(once, targets, twice) ==> twice == once
  {
    var n: nat :| StopsAfter(path, targets, n) && once == After(path, targets, n);
    var k := RoundTheCycle(path, targets, n);
    forall twice | Resolves(once, targets, twice) ensures twice == once {
      var m: nat :| StopsAfter(once, targets, m) && twice == After(once, targets, m);
      StopsOnce(once, targets, k, m);
    }
  }

  lemma RoundTheCycle(path: Path, targets: Targets, n: nat) returns (k: nat)
    requires StopsAfter(path, targets, n)
    ensures StopsAfter(After(path, targets, n), targets, k)
    ensures After(After(path, targets, n), targets, k) == After(path, targets, n)
  {
    var once := After(path, targets, n);
    if IsDefinition(once, targets) {
      k := 0;
    } else {
      var m :| 0 <= m < n && After(path, targets, m) == once;
      k := n - m;
      forall i: nat ensures After(once, targets, i) == After(path, targets, m + i) {
        AfterSum(path, targets, m, i);
      }
      assert After(once, targets, 0) == After(once, targets, k);
      assert Returns(once, targets, k);
    }
  }

  lemma StopsFromOnTheWay(path: Path, targets: Targets, n: nat, m: nat)
    requires GoesOn(path, targets, n) && m <= n
    ensures GoesOn(After(path, targets, m), targets, n - m)
    ensures After(After(path, targets, m), targets, n - m) == After(path, targets, n)
  {
    hide After, IsDefinition;
    var start := After(path, targets, m);
    AfterSum(path, targets, m, n - m);
    forall i, j | 0 <= i < j < n - m ensures After(start, targets, i) != After(start, targets, j) {
      AfterSum(path, targets, m, i);
      AfterSum(path, targets, m, j);
    }
    forall i | 0 <= i < n - m ensures !IsDefinition(After(start, targets, i), targets) {
      AfterSum(path, targets, m, i);
    }
  }

  lemma StopsAtOnce(path: Path, targets: Targets)
    requires IsDefinition(path, targets)
    ensures Resolves(path, targets, path)
  {
    assert After(path, targets, 0) == path;
    assert StopsAfter(path, targets, 0);
  }

  lemma ResolvesFromOnTheWay(path: Path, targets: Targets, n: nat, m: nat)
    requires StopsAfter(path, targets, n) && IsDefinition(After(path, targets, n), targets) && m <= n
    ensures Resolves(After(path, targets, m), targets, After(path, targets, n))
  {
    hide After, IsDefinition, GoesOn;
    StopsFromOnTheWay(path, targets, n, m);
    assert StopsAfter(After(path, targets, m), targets, n - m);
  }

  /** A name that ends at a definition ends at the same one from every path on the way. */
  lemma SameFromOnTheWay(path: Path, targets: Targets, result: Path, m: nat)
    requires Resolves(path, targets, result) && IsDefinition(result, targets)
    ensures Resolves(After(path, targets, m), targets, result)
  {
    hide After, IsDefinition, StopsAfter;
    var n: nat :| StopsAfter(path, targets, n) && result == After(path, targets, n);
    hide Resolves;
    if m <= n {
      ResolvesFromOnTheWay(path, targets, n, m);
    } else {
      AfterSum(path, targets, n, m - n);
      StaysAtDefinition(result, targets, m - n);
      StopsAtOnce(result, targets);
    }
  }

  // ---- maps on which it always ends at a definition ----------------------------------------------------------

  predicate Comparable(a: Path, b: Path) {
    a <= b || b <= a
  }

  /** Every key a target could be rewritten by next has a smaller rank than its own. */
  ghost predicate IsRanked(targets: Targets, rank: map<Path, nat>) {
    targets.Keys <= rank.Keys
    && forall k, next :: k in targets && next in targets && Comparable(targets[k], next) ==> rank[next] < rank[k]
  }

  ghost predicate RankedBelow(path: Path, targets: Targets, rank: map<Path, nat>, height: nat)
    requires targets.Keys <= rank.Keys
  {
    forall e :: 1 <= e <= |path| && path[..e] in targets ==> rank[path[..e]] < height
  }

  lemma RewriteGoesDown(path: Path, targets: Targets, rank: map<Path, nat>, height: nat) returns (lower: nat)
    requires IsRanked(targets, rank) && RankedBelow(path, targets, rank, height) && !IsDefinition(path, targets)
    ensures Rewrite(path, targets).Some?
    ensures lower < height && RankedBelow(Rewrite(path, targets).value, targets, rank, lower)
  {
    var end := LongestKey(path, targets, |path|).value;
    var key, rest := path[..end], path[end..];
    lower := rank[key];
    var next := targets[key] + rest;
    forall e | 1 <= e <= |next| && next[..e] in targets ensures rank[next[..e]] < lower {
      PrefixesOfOne(targets[key], rest, e);
    }
  }

  lemma PrefixesOfOne(a: Path, b: Path, e: nat)
    requires e <= |a + b|
    ensures Comparable(a, (a + b)[..e])
  {
  }

  lemma {:induction false} DefinitionWithin(path: Path, targets: Targets, rank: map<Path, nat>, height: nat)
    returns (n: nat)
    requires IsRanked(targets, rank) && RankedBelow(path, targets, rank, height)
    ensures n <= height && IsDefinition(After(path, targets, n), targets)
    ensures forall i :: 0 <= i < n ==> !IsDefinition(After(path, targets, i), targets)
    decreases height
  {
    hide RankedBelow, IsDefinition, IsRanked, Rewrite;
    if IsDefinition(path, targets) {
      n := 0;
    } else {
      var lower := RewriteGoesDown(path, targets, rank, height);
      var next := Rewrite(path, targets).value;
      var k := DefinitionWithin(next, targets, rank, lower);
      n := k + 1;
      assert After(path, targets, 1) == next;
      AfterSum(path, targets, 1, k);
      forall i | 0 < i < n ensures !IsDefinition(After(path, targets, i), targets) {
        AfterSum(path, targets, 1, i - 1);
      }
    }
  }

  ghost function Highest(rank: map<Path, nat>, keys: set<Path>): (height: nat)
    requires keys <= rank.Keys
    ensures forall k :: k in keys ==> rank[k] < height
  {
    if keys == {} then 0
    else
      var k :| k in keys;
      var rest := Highest(rank, keys - {k});
      if rank[k] < rest then rest else rank[k] + 1
  }

  /** Where re-exports go round no circle, every name is followed to its definition. */
  lemma RankedResolves(path: Path, targets: Targets, rank: map<Path, nat>)
    requires IsRanked(targets, rank)
    ensures IsBounded(path, targets)
    ensures exists n: nat :: StopsAfter(path, targets, n) && IsDefinition(After(path, targets, n), targets)
  {
    var height := Highest(rank, targets.Keys);
    var n := DefinitionWithin(path, targets, rank, height);
    FirstDefinition(path, targets, n);
    hide StopsAfter, IsBounded, IsDefinition, After, IsRanked;
    StopsWhenBounded(path, targets);
  }

  lemma FirstDefinition(path: Path, targets: Targets, n: nat)
    requires IsDefinition(After(path, targets, n), targets)
    requires forall i :: 0 <= i < n ==> !IsDefinition(After(path, targets, i), targets)
    ensures StopsAfter(path, targets, n)
  {
    hide After, IsDefinition;
    forall i, j | 0 <= i < j < n ensures After(path, targets, i) != After(path, targets, j) {
      AfterSum(path, targets, i, n - j);
      AfterSum(path, targets, j, n - j);
    }
  }

  /** Where no target is longer than its key, the loop stops, cycles included. */
  lemma NoLongerTargets(path: Path, targets: Targets)
    requires forall k :: k in targets ==> |targets[k]| <= |k|
    ensures IsBounded(path, targets)
  {
    forall n: nat ensures |After(path, targets, n)| <= |path| {
      NeverLonger(path, targets, n);
    }
    assert StaysWithin(path, targets, |path|);
  }

  lemma {:induction false} NeverLonger(path: Path, targets: Targets, n: nat)
    requires forall k :: k in targets ==> |targets[k]| <= |k|
    ensures |After(path, targets, n)| <= |path|
  {
    if n > 0 {
      NeverLonger(path, targets, n - 1);
    }
  }

  // ---- maps on which it does not end -------------------------------------------------------------------------

  /** A key that leads to something under itself, and that no longer key takes over from. */
  ghost predicate ExtendsItself(key: Path, more: Path, rest: Path, targets: Targets) {
    && key != [] && more != [] && key in targets && targets[key] == key + more
    && forall k :: k in targets && key < k ==> !Comparable(k, key + more) && !(k <= key + rest)
  }

  /** Every path through such a key grows without end. */
  lemma SelfExtendingNeverStops(key: Path, more: Path, rest: Path, targets: Targets)
    requires ExtendsItself(key, more, rest, targets)
    ensures !Stops(key + rest, targets)
  {
    hide ExtendsItself, After, Stops;
    forall length: nat ensures !StaysWithin(key + rest, targets, length) {
      GrowsEveryTime(key, more, rest, targets, length + 1);
    }
    StopsWhenBounded(key + rest, targets);
  }

  lemma {:induction false} GrowsEveryTime(key: Path, more: Path, rest: Path, targets: Targets, n: nat)
    requires ExtendsItself(key, more, rest, targets)
    ensures key <= After(key + rest, targets, n) && |After(key + rest, targets, n)| >= |key| + n
    ensures if n == 0 then After(key + rest, targets, n) == key + rest else key + more <= After(key + rest, targets, n)
  {
    if n > 0 {
      GrowsEveryTime(key, more, rest, targets, n - 1);
      MatchesItself(key, more, rest, targets, After(key + rest, targets, n - 1));
    }
  }

  lemma MatchesItself(key: Path, more: Path, rest: Path, targets: Targets, path: Path)
    requires ExtendsItself(key, more, rest, targets) && key <= path && (path == key + rest || key + more <= path)
    ensures Rewrite(path, targets) == Some(key + more + path[|key|..])
  {
    assert path[..|key|] == key;
    forall e | |key| < e <= |path| ensures path[..e] !in targets {
      var k := path[..e];
      assert key < k && k <= path;
      if key + more <= path {
        BothPrefixes(k, key + more, path);
      }
    }
    assert LongestKey(path, targets, |path|) == Some(|key|);
  }

  lemma BothPrefixes(a: Path, b: Path, c: Path)
    requires a <= c && b <= c
    ensures Comparable(a, b)
  {
  }

  // ---- the map the checker builds ------------------------------------------------------------------------------

  /** What each module's names are bound to. */
  type Bindings = map<Path, map<string, set<Path>>>

  /** A name bound to one thing, and not to itself. */
  predicate IsReexport(bindings: Bindings, mod: Path, name: string, target: Path) {
    mod in bindings && name in bindings[mod] && bindings[mod][name] == {target} && target != mod + [name]
  }

  /** The map holds every re-export and nothing else. */
  ghost predicate Built(bindings: Bindings, targets: Targets) {
    && (forall mod, name, target :: IsReexport(bindings, mod, name, target) ==> Leads(targets, mod + [name], target))
    && (forall k :: k in targets ==> k != [] && IsReexport(bindings, k[..|k| - 1], k[|k| - 1], targets[k]))
  }

  predicate Leads(targets: Targets, key: Path, target: Path) {
    key in targets && targets[key] == target
  }

  lemma UnderTheSubmodule(key: Path, mod: Path, name: string)
    requires mod + [name] < key
    ensures mod + [name, name] <= key ==>
      (key[..|key| - 1] == mod + [name] && key[|key| - 1] == name) || mod + [name, name] <= key[..|key| - 1]
  {
  }

  /**
   `from .name import name` in a package's own module, where that submodule binds the name to nothing else: the
   one condition on a binding does not leave it out, and resolving the name never ends.
   */
  lemma SubmoduleOfItsOwnNameNeverStops(bindings: Bindings, targets: Targets, mod: Path, name: string)
    requires Built(bindings, targets)
    requires IsReexport(bindings, mod, name, mod + [name, name])
    requires mod + [name] in bindings ==> forall t :: !IsReexport(bindings, mod + [name], name, t)
    requires forall m :: m in bindings ==> !(mod + [name, name] <= m)
    ensures !Stops(mod + [name], targets)
  {
    var key := mod + [name];
    assert Leads(targets, key, mod + [name, name]);
    assert mod + [name, name] == key + [name];
    forall k | k in targets && key < k ensures !Comparable(k, key + [name]) {
      UnderTheSubmodule(k, mod, name);
    }
    assert key + [] == key;
    SelfExtendingNeverStops(key, [name], [], targets);
  }
}
