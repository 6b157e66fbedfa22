/** How far the loop that follows re-exports has to be watched to know whether it ever ends. */
module ReexportLoop {
  import opened Common
  import opened Reexports

  // ---- a bound to watch for ------------------------------------------------------------------------------

  predicate IsGreatest(lengths: set<nat>, m: nat) {
    m in lengths && forall x: nat :: x in lengths ==> x <= m
  }

  lemma {:induction false} GreatestExists(lengths: set<nat>, x: nat)
    requires x in lengths
    ensures exists m: nat :: IsGreatest(lengths, m)
    decreases lengths
  {
    if y: nat :| y in lengths && y > x {
      var rest := lengths - {x};
      GreatestExists(rest, y);
      var m: nat :| IsGreatest(rest, m);
      assert m in rest && y in rest && y <= m;
      forall z: nat | z in lengths ensures z <= m {
        assert z == x || z in rest;
      }
      assert IsGreatest(lengths, m);
    } else {
      assert IsGreatest(lengths, x);
    }
  }

  function Greatest(lengths: set<nat>): (greatest: nat)
    ensures forall x: nat :: x in lengths ==> x <= greatest
  {
    if x: nat :| x in lengths then
      GreatestExists(lengths, x);
      var m: nat :| IsGreatest(lengths, m);
      m
    else 0
  }

  function KeyLength(targets: Targets): (length: nat)
    ensures forall k :: k in targets ==> |k| <= length
  {
    var lengths: set<nat> := set k | k in targets :: |k|;
    assert forall k :: k in targets ==> |k| in lengths;
    Greatest(lengths)
  }

  /** More names than one rewrite can add. */
  function Growth(targets: Targets): (growth: nat)
    ensures growth > 0 && forall k :: k in targets ==> |targets[k]| < growth
  {
    var lengths: set<nat> := set k | k in targets :: |targets[k]|;
    assert forall k :: k in targets ==> |targets[k]| in lengths;
    Greatest(lengths) + 1
  }

  /** A path that outgrows this never stops growing. */
  function Bound(path: Path, targets: Targets): nat {
    |path| + KeyLength(targets) + (|Paths(Names(path, targets), KeyLength(targets))| + 1) * Growth(targets)
  }

  // ---- what a rewrite does not touch ---------------------------------------------------------------------

  /** A rewrite looks no further than the longest key. */
  lemma SameKey(a: Path, b: Path, targets: Targets)
    requires KeyLength(targets) <= |a|
    ensures LongestKey(a + b, targets, |a + b|) == LongestKey(a, targets, |a|)
  {
    var whole, front := LongestKey(a + b, targets, |a + b|), LongestKey(a, targets, |a|);
    if whole.Some? {
      assert |(a + b)[..whole.value]| <= KeyLength(targets);
      assert (a + b)[..whole.value] == a[..whole.value];
    }
    if front.Some? {
      assert (a + b)[..front.value] == a[..front.value];
    }
  }

  lemma LocalRewrite(a: Path, b: Path, targets: Targets)
    requires KeyLength(targets) <= |a|
    ensures After(a + b, targets, 1) == After(a, targets, 1) + b
  {
    SameKey(a, b, targets);
    var end := LongestKey(a, targets, |a|);
    assert After(a, targets, 0) == a && After(a + b, targets, 0) == a + b;
    if end.Some? {
      assert (a + b)[..end.value] == a[..end.value] && (a + b)[end.value..] == a[end.value..] + b;
    }
  }

  lemma {:induction false} Local(a: Path, b: Path, targets: Targets, n: nat)
    requires forall k :: 0 <= k < n ==> KeyLength(targets) <= |After(a, targets, k)|
    ensures After(a + b, targets, n) == After(a, targets, n) + b
  {
    if n > 0 {
      Local(a, b, targets, n - 1);
      LocalRewrite(After(a, targets, n - 1), b, targets);
      AfterSum(a + b, targets, n - 1, 1);
      AfterSum(a, targets, n - 1, 1);
    }
  }

  /** While the whole path stays at least as long as it was, what is behind its front is not touched. */
  lemma {:induction false} Untouched(a: Path, b: Path, targets: Targets, n: nat)
    requires KeyLength(targets) <= |a|
    requires forall k :: 0 <= k <= n ==> |After(a + b, targets, k)| >= |a + b|
    ensures forall k :: 0 <= k <= n ==> |After(a, targets, k)| >= |a|
    ensures After(a + b, targets, n) == After(a, targets, n) + b
  {
    hide After;
    if n == 0 {
      Local(a, b, targets, 0);
    } else {
      Untouched(a, b, targets, n - 1);
      Local(a, b, targets, n);
      assert |After(a + b, targets, n)| >= |a + b|;
    }
  }

  /** A front that comes back with more behind it comes back again and again. */
  lemma {:induction false} Pump(a: Path, more: Path, b: Path, targets: Targets, n: nat, times: nat) returns (steps: nat)
    requires more != [] && After(a, targets, n) == a + more
    requires forall k :: 0 <= k < n ==> KeyLength(targets) <= |After(a, targets, k)|
    ensures |After(a + b, targets, steps)| >= |a + b| + times
    decreases times
  {
    hide After, KeyLength;
    if times == 0 {
      steps := 0;
      AfterNone(a + b, targets);
    } else {
      Local(a, b, targets, n);
      assert a + more + b == a + (more + b);
      var rest := Pump(a, more, more + b, targets, n, times - 1);
      AfterSum(a + b, targets, n, rest);
      steps := n + rest;
    }
  }

  lemma AfterNone(path: Path, targets: Targets)
    ensures After(path, targets, 0) == path
  {
  }

  /** Two paths of a run with the same front, the later one longer and none between shorter: the front comes back. */
  lemma FrontComesBack(path: Path, targets: Targets, i: nat, j: nat) returns (a: Path, b: Path, more: Path)
    requires i < j && KeyLength(targets) <= |After(path, targets, i)| < |After(path, targets, j)|
    requires forall k :: i <= k <= j ==> |After(path, targets, k)| >= |After(path, targets, i)|
    requires After(path, targets, i)[..KeyLength(targets)] == After(path, targets, j)[..KeyLength(targets)]
    ensures a + b == After(path, targets, i) && more != [] && After(a, targets, j - i) == a + more
    ensures forall k :: 0 <= k < j - i ==> KeyLength(targets) <= |After(a, targets, k)|
  {
    hide After, KeyLength;
    var first := After(path, targets, i);
    a, b := first[..KeyLength(targets)], first[KeyLength(targets)..];
    assert a + b == first;
    forall k | 0 <= k <= j - i ensures |After(a + b, targets, k)| >= |a + b| {
      AfterSum(path, targets, i, k);
    }
    Untouched(a, b, targets, j - i);
    AfterSum(path, targets, i, j - i);
    more := Behind(a, b, After(a, targets, j - i));
  }

  lemma Behind(a: Path, b: Path, front: Path) returns (more: Path)
    requires |a| < |front| && (front + b)[..|a|] == a
    ensures more != [] && front == a + more
  {
    assert (front + b)[..|a|] == front[..|a|];
    more := front[|a|..];
  }

  lemma RepeatedFront(path: Path, targets: Targets, i: nat, j: nat)
    requires i < j && KeyLength(targets) <= |After(path, targets, i)| < |After(path, targets, j)|
    requires forall k :: i <= k <= j ==> |After(path, targets, k)| >= |After(path, targets, i)|
    requires After(path, targets, i)[..KeyLength(targets)] == After(path, targets, j)[..KeyLength(targets)]
    ensures !IsBounded(path, targets)
  {
    var a, b, more := FrontComesBack(path, targets, i, j);
    hide After, KeyLength;
    forall length: nat ensures !StaysWithin(path, targets, length) {
      var steps := Pump(a, more, b, targets, j - i, length + 1);
      AfterSum(path, targets, i, steps);
      assert |After(path, targets, i + steps)| > length;
    }
  }

  // ---- the last time the path is no longer than a level --------------------------------------------------

  ghost predicate IsLastLow(path: Path, targets: Targets, end: nat, level: nat, n: nat) {
    n < end && |After(path, targets, n)| <= level && forall k :: n < k <= end ==> |After(path, targets, k)| > level
  }

  lemma {:induction false} LastLow(path: Path, targets: Targets, end: nat, from: nat, level: nat) returns (n: nat)
    requires |path| <= level && from <= end
    requires forall k :: from <= k <= end ==> |After(path, targets, k)| > level
    ensures IsLastLow(path, targets, end, level, n)
    decreases from
  {
    AfterNone(path, targets);
    hide After;
    if |After(path, targets, from - 1)| <= level {
      n := from - 1;
    } else {
      n := LastLow(path, targets, end, from - 1, level);
    }
  }

  lemma OneRewriteAdds(path: Path, targets: Targets, n: nat)
    ensures |After(path, targets, n + 1)| <= |After(path, targets, n)| + Growth(targets)
  {
    hide Growth;
    OneMoreRewrite(path, targets, n);
    var before := After(path, targets, n);
    var end := LongestKey(before, targets, |before|);
    if end.Some? {
      assert |targets[before[..end.value]]| < Growth(targets);
    }
  }

  function Level(path: Path, targets: Targets, j: nat): nat {
    |path| + KeyLength(targets) + j * Growth(targets)
  }

  lemma LevelsRise(path: Path, targets: Targets, i: nat, j: nat)
    requires i <= j
    ensures Level(path, targets, i) <= Level(path, targets, j)
    ensures i < j ==> Level(path, targets, i) + Growth(targets) <= Level(path, targets, j)
  {
    var growth := Growth(targets);
    hide Growth, KeyLength;
    assert j * growth == i * growth + (j - i) * growth;
    if i < j {
      assert (j - i) * growth == growth + (j - i - 1) * growth;
      ProductIsNatural(j - i - 1, growth);
    }
  }

  lemma ProductIsNatural(a: nat, b: nat)
    ensures a * b >= 0
  {
  }

  /** The last time at most each of the levels from the first to the last. */
  lemma {:induction false} LastLows(path: Path, targets: Targets, end: nat, count: nat) returns (times: seq<nat>)
    requires |After(path, targets, end)| > Level(path, targets, count)
    ensures |times| == count
    ensures forall j :: 0 <= j < count ==> IsLastLow(path, targets, end, Level(path, targets, j + 1), times[j])
    decreases count
  {
    hide After, Level, IsLastLow;
    if count == 0 {
      times := [];
    } else {
      LevelsRise(path, targets, count - 1, count);
      LevelHoldsThePath(path, targets, count);
      times := LastLows(path, targets, end, count - 1);
      var n := LastLow(path, targets, end, end, Level(path, targets, count));
      times := times + [n];
    }
  }

  lemma LevelHoldsThePath(path: Path, targets: Targets, j: nat)
    ensures |path| + KeyLength(targets) <= Level(path, targets, j)
  {
    ProductIsNatural(j, Growth(targets));
  }

  lemma JustBelow(path: Path, targets: Targets, end: nat, level: nat, n: nat)
    requires IsLastLow(path, targets, end, level, n)
    ensures |After(path, targets, n)| + Growth(targets) > level
  {
    OneRewriteAdds(path, targets, n);
  }

  lemma LaterAndLonger(path: Path, targets: Targets, end: nat, low: nat, high: nat, m: nat, n: nat)
    requires IsLastLow(path, targets, end, low, m) && IsLastLow(path, targets, end, high, n)
    requires low < |After(path, targets, n)| && low <= high
    ensures m < n && |After(path, targets, m)| < |After(path, targets, n)|
    ensures forall k :: m <= k <= n ==> |After(path, targets, k)| >= |After(path, targets, m)|
  {
    hide After;
  }

  /** Of two such times the one of the higher level is later, and the path is longer. */
  lemma HigherIsLater(path: Path, targets: Targets, end: nat, i: nat, j: nat, m: nat, n: nat)
    requires i < j && IsLastLow(path, targets, end, Level(path, targets, i + 1), m)
    requires IsLastLow(path, targets, end, Level(path, targets, j + 1), n)
    ensures m < n && |After(path, targets, m)| < |After(path, targets, n)|
    ensures forall k :: m <= k <= n ==> |After(path, targets, k)| >= |After(path, targets, m)|
  {
    hide After, Level, KeyLength, Growth, IsLastLow;
    JustBelow(path, targets, end, Level(path, targets, j + 1), n);
    LevelsRise(path, targets, i + 1, j + 1);
    LaterAndLonger(path, targets, end, Level(path, targets, i + 1), Level(path, targets, j + 1), m, n);
  }

  // ---- two of those times share their front --------------------------------------------------------------

  lemma FrontsRepeat(fronts: seq<Path>, all: set<Path>) returns (i: nat, j: nat)
    requires |fronts| > |all| && forall i :: 0 <= i < |fronts| ==> fronts[i] in all
    ensures i < j < |fronts| && fronts[i] == fronts[j]
  {
    if forall i, j :: 0 <= i < j < |fronts| ==> fronts[i] != fronts[j] {
      DistinctFit(fronts, all);
    }
    i, j :| 0 <= i < j < |fronts| && fronts[i] == fronts[j];
  }

  lemma FrontIsAPath(path: Path, targets: Targets, n: nat, length: nat)
    requires length <= |After(path, targets, n)|
    ensures After(path, targets, n)[..length] in Paths(Names(path, targets), length)
  {
    AfterUsesOnly(path, targets, n);
    InPaths(After(path, targets, n)[..length], Names(path, targets), length);
  }

  /** A path that once outgrows the bound outgrows every length. */
  lemma GrowsForEver(path: Path, targets: Targets, end: nat)
    requires |After(path, targets, end)| > Bound(path, targets)
    ensures !IsBounded(path, targets)
  {
    var length := KeyLength(targets);
    var all := Paths(Names(path, targets), length);
    assert Bound(path, targets) == Level(path, targets, |all| + 1);
    hide After, Level, IsLastLow, Names, Paths, KeyLength, Growth, Bound, IsBounded;
    var times := LastLows(path, targets, end, |all| + 1);
    forall j | 0 <= j < |times| ensures length <= |After(path, targets, times[j])| {
      LongEnough(path, targets, end, j, times[j]);
    }
    var fronts := FrontsAt(path, targets, times, length);
    forall j | 0 <= j < |fronts| ensures fronts[j] in all {
      FrontIsAPath(path, targets, times[j], length);
    }
    var i, j := FrontsRepeat(fronts, all);
    HigherIsLater(path, targets, end, i, j, times[i], times[j]);
    RepeatedFront(path, targets, times[i], times[j]);
  }

  lemma LongEnough(path: Path, targets: Targets, end: nat, j: nat, n: nat)
    requires IsLastLow(path, targets, end, Level(path, targets, j + 1), n)
    ensures KeyLength(targets) <= |After(path, targets, n)|
  {
    JustBelow(path, targets, end, Level(path, targets, j + 1), n);
    LevelsRise(path, targets, j, j + 1);
    LevelHoldsThePath(path, targets, j);
  }

  function FrontsAt(path: Path, targets: Targets, times: seq<nat>, length: nat): (fronts: seq<Path>)
    requires forall j :: 0 <= j < |times| ==> length <= |After(path, targets, times[j])|
    ensures |fronts| == |times|
    ensures forall j :: 0 <= j < |times| ==> fronts[j] == After(path, targets, times[j])[..length]
  {
    seq(|times|, j requires 0 <= j < |times| => After(path, targets, times[j])[..length])
  }

  // ---- the loop ------------------------------------------------------------------------------------------

  /** The loop ends exactly when no path it meets outgrows the bound. */
  lemma StopsWithinBound(path: Path, targets: Targets)
    ensures Stops(path, targets) <==> StaysWithin(path, targets, Bound(path, targets))
  {
    hide Stops, After, Bound;
    StopsWhenBounded(path, targets);
    if IsBounded(path, targets) {
      forall n: nat ensures |After(path, targets, n)| <= Bound(path, targets) {
        if |After(path, targets, n)| > Bound(path, targets) {
          GrowsForEver(path, targets, n);
        }
      }
    }
  }

  /**
   The loop, watched: it gives what the unwatched loop gives, and nothing exactly when that one never ends.
   */
  method Resolve(path: Path, targets: Targets) returns (result: Option<Path>)
    ensures result.Some? ==> Resolves(path, targets, result.value)
    ensures result.None? <==> !Stops(path, targets)
  {
    hide After, GoesOn, IsDefinition, Met, Names, Paths, Returns, Bound;
    var bound := Bound(path, targets);
    StopsWithinBound(path, targets);
    ghost var all := Paths(Names(path, targets), bound);
    ghost var n: nat := 0;
    var seen: set<Path> := {};
    var now := path;
    NothingMet(path, targets);
    while now !in seen
      invariant now == After(path, targets, n) && seen == Met(path, targets, n) <= all
      invariant GoesOn(path, targets, n)
      decreases |all - seen|
    {
      if |now| > bound {
        return None;
      }
      AfterUsesOnly(path, targets, n);
      InPaths(now, Names(path, targets), bound);
      OneMoreMet(path, targets, n);
      OneMoreRewrite(path, targets, n);
      DefinitionStays(now, targets);
      assert all - seen == (all - (seen + {now})) + {now};
      seen := seen + {now};
      var end := LongestKey(now, targets, |now|);
      if end.None? {
        assert StopsAfter(path, targets, n);
        return Some(now);
      }
      now := targets[now[..end.value]] + now[end.value..];
      n := n + 1;
    }
    OneMoreMet(path, targets, n);
    assert StopsAfter(path, targets, n);
    return Some(now);
  }

  // ---- a circle that grows -------------------------------------------------------------------------------

  /** Two keys that lead to each other, the first to something under the second, and no key under either. */
  ghost predicate IsCircle(targets: Targets, first: Path, second: Path, more: Path) {
    && Leads(targets, first, second + more) && Leads(targets, second, first)
    && first != [] && second != [] && more != []
    && forall k :: k in targets ==> !(first < k) && !(second < k)
  }

  lemma KeyAtTheFront(key: Path, rest: Path, targets: Targets)
    requires key != [] && key in targets && forall k :: k in targets ==> !(key < k)
    ensures Rewrite(key + rest, targets) == Some(targets[key] + rest)
  {
    var path := key + rest;
    assert path[..|key|] == key && path[|key|..] == rest;
    forall e | |key| < e <= |path| ensures path[..e] !in targets {
      assert key < path[..e];
    }
  }

  lemma OnceRound(targets: Targets, first: Path, second: Path, more: Path, rest: Path)
    requires IsCircle(targets, first, second, more)
    ensures After(first + rest, targets, 2) == first + (more + rest)
  {
    hide Rewrite;
    KeyAtTheFront(first, rest, targets);
    KeyAtTheFront(second, more + rest, targets);
    AfterNone(first + rest, targets);
    assert second + more + rest == second + (more + rest);
    OneMoreRewrite(first + rest, targets, 0);
    OneMoreRewrite(first + rest, targets, 1);
  }

  lemma {:induction false} RoundAndRound(targets: Targets, first: Path, second: Path, more: Path, rest: Path, n: nat)
    returns (left: Path)
    requires IsCircle(targets, first, second, more)
    ensures After(first + rest, targets, 2 * n) == first + left && |left| >= n
  {
    AfterNone(first + rest, targets);
    hide After;
    left := rest;
    if n > 0 {
      left := RoundAndRound(targets, first, second, more, rest, n - 1);
      OnceRound(targets, first, second, more, left);
      AfterSum(first + rest, targets, 2 * (n - 1), 2);
      left := more + left;
    }
  }

  /** No key leads to something under itself here, and the path still grows each time round. */
  lemma CircleNeverStops(targets: Targets, first: Path, second: Path, more: Path, rest: Path)
    requires IsCircle(targets, first, second, more)
    ensures !Stops(first + rest, targets)
  {
    hide After, Stops, IsCircle;
    forall length: nat ensures !StaysWithin(first + rest, targets, length) {
      var left := RoundAndRound(targets, first, second, more, rest, length + 1);
    }
    StopsWhenBounded(first + rest, targets);
  }

  /** Two modules, each importing a name from the other, make such a circle of the map. */
  lemma ImportsInACircleNeverStop(bindings: Bindings, targets: Targets, first: Path, a: string, second: Path,
                                  b: string, more: Path, rest: Path)
    requires Built(bindings, targets) && more != []
    requires IsReexport(bindings, first, a, second + [b] + more) && IsReexport(bindings, second, b, first + [a])
    requires forall mod :: mod in bindings && bindings[mod] != map[] ==>
      !(first + [a] <= mod) && !(second + [b] <= mod)
    ensures !Stops(first + [a] + rest, targets)
  {
    hide Stops;
    forall k | k in targets ensures !(first + [a] < k) && !(second + [b] < k) {
      var mod := k[..|k| - 1];
      assert mod in bindings && k[|k| - 1] in bindings[mod];
      UnderAKey(first + [a], k);
      UnderAKey(second + [b], k);
    }
    assert Leads(targets, first + [a], second + [b] + more) && Leads(targets, second + [b], first + [a]);
    CircleNeverStops(targets, first + [a], second + [b], more, rest);
  }

  lemma UnderAKey(key: Path, k: Path)
    ensures key < k ==> key <= k[..|k| - 1]
  {
  }

  /** `from n.y import z as x` in `m` and `from m import x as y` in `n`: the map, and a name that is never resolved. */
  lemma TwoImportsNeverStop() returns (bindings: Bindings, targets: Targets)
    ensures Built(bindings, targets) && !Stops(["m", "x"], targets)
    ensures forall k :: k in targets ==> !(k <= targets[k])
  {
    var ofM: map<string, set<Path>> := map["x" := {["n", "y", "z"]}];
    var ofN: map<string, set<Path>> := map["y" := {["m", "x"]}];
    bindings := map[["m"] := ofM, ["n"] := ofN];
    targets := map[["m", "x"] := ["n", "y", "z"], ["n", "y"] := ["m", "x"]];
    assert ["m", "x"] == ["m"] + ["x"] && ["n", "y"] == ["n"] + ["y"];
    assert ["m", "x"][0] == "m" && ["n", "y"][0] == "n" && "m"[0] == 'm' && "n"[0] == 'n';
    hide Stops;
    assert ["n", "y", "z"] == ["n"] + ["y"] + ["z"] && ["m"] + ["x"] + [] == ["m", "x"];
    ImportsInACircleNeverStop(bindings, targets, ["m"], "x", ["n"], "y", ["z"], []);
  }
}
