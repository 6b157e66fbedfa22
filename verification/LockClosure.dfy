/** The packages a Homebrew formula lists: the closure of one package's dependencies in `uv.lock`. */
module LockClosure {
  import opened Common
  import opened Weaving

  datatype Package = Package(name: string, version: string, dependencies: seq<string>)

  datatype FormulaError =
    | NotInLock(name: string)
    | SeveralVersions(name: string, entries: nat)

  // ---- names ------------------------------------------------------------------------------------

  predicate IsSeparator(c: char) {
    c == '-' || c == '_' || c == '.'
  }

  function LowerChar(c: char): char {
    if 'A' <= c <= 'Z' then ('a' as int + (c as int - 'A' as int)) as char else c
  }

  /** Runs of separators become one `-` and letters lower-case; `inRun` says a separator came just before. */
  function NormalizeFrom(name: string, inRun: bool): string {
    if name == "" then ""
    else if IsSeparator(name[0]) then (if inRun then "" else "-") + NormalizeFrom(name[1..], true)
    else [LowerChar(name[0])] + NormalizeFrom(name[1..], false)
  }

  /** PEP 503, "Normalized Names". */
  function Normalize(name: string): string {
    NormalizeFrom(name, false)
  }

  /** The names normalization leaves alone: no capital, and no separator but `-`, never two in a row. */
  predicate IsNormal(name: string) {
    && (forall i :: 0 <= i < |name| ==> name[i] != '_' && name[i] != '.' && !('A' <= name[i] <= 'Z'))
    && (forall i :: 0 < i < |name| ==> !(name[i - 1] == '-' && name[i] == '-'))
  }

  lemma OneMoreNormal(c: char, rest: string)
    requires IsNormal(rest) && c != '_' && c != '.' && !('A' <= c <= 'Z')
    requires c == '-' && rest != "" ==> rest[0] != '-'
    ensures IsNormal([c] + rest)
  {
  }

  lemma {:induction false} NormalizedIsNormal(name: string, inRun: bool)
    ensures IsNormal(NormalizeFrom(name, inRun))
    ensures inRun && NormalizeFrom(name, inRun) != "" ==> NormalizeFrom(name, inRun)[0] != '-'
  {
    if name != "" {
      var rest := NormalizeFrom(name[1..], IsSeparator(name[0]));
      NormalizedIsNormal(name[1..], IsSeparator(name[0]));
      hide IsNormal;
      OneMoreNormal(if IsSeparator(name[0]) then '-' else LowerChar(name[0]), rest);
      assert "" + rest == rest;
    }
  }

  lemma {:induction false} NormalStays(name: string, inRun: bool)
    requires IsNormal(name) && (inRun && name != "" ==> name[0] != '-')
    ensures NormalizeFrom(name, inRun) == name
  {
    if name != "" {
      forall i | 0 < i < |name[1..]| ensures !(name[1..][i - 1] == '-' && name[1..][i] == '-') {
        assert name[1..][i - 1] == name[i] && name[1..][i] == name[i + 1];
      }
      assert |name| > 1 ==> !(name[0] == '-' && name[1] == '-');
      NormalStays(name[1..], IsSeparator(name[0]));
      assert name == [name[0]] + name[1..];
    }
  }

  /** Normalizing twice is normalizing once, and a name is its own normal form exactly when it is normal. */
  lemma NormalizeIsIdempotent(name: string)
    ensures Normalize(Normalize(name)) == Normalize(name)
    ensures Normalize(name) == name <==> IsNormal(name)
  {
    NormalizedIsNormal(name, false);
    NormalStays(Normalize(name), false);
    if IsNormal(name) {
      NormalStays(name, false);
    }
  }

  // ---- what normalizing does to a name ------------------------------------------------------------

  const PLAIN_CHARACTERS: Alphabet := c => c != '-' && c != '_' && c != '.'

  /** Letter by letter the same, in lower case. */
  predicate IsLowered(text: string, lowered: string) {
    |lowered| == |text| && forall i :: 0 <= i < |text| ==>
      if 'A' <= text[i] <= 'Z' then lowered[i] as int - text[i] as int == 'a' as int - 'A' as int
      else lowered[i] == text[i]
  }

  predicate AreLowered(pieces: seq<string>, lowered: seq<string>) {
    |lowered| == |pieces| && forall i :: 0 <= i < |pieces| ==> IsLowered(pieces[i], lowered[i])
  }

  lemma {:induction false} NormalizedGap(gap: string, rest: string)
    requires forall c :: c in gap ==> !PLAIN_CHARACTERS(c)
    ensures NormalizeFrom(gap + rest, true) == NormalizeFrom(rest, true)
  {
    if gap == "" {
      assert gap + rest == rest;
    } else {
      TailOf(gap, rest);
      NormalizedGap(gap[1..], rest);
    }
  }

  lemma NormalizedLetter(piece: string, rest: string, inRun: bool)
    requires piece != "" && PLAIN_CHARACTERS(piece[0])
    ensures NormalizeFrom(piece + rest, inRun) == [LowerChar(piece[0])] + NormalizeFrom(piece[1..] + rest, false)
  {
    assert (piece + rest)[1..] == piece[1..] + rest;
  }

  lemma OneMoreLowered(piece: string, others: string)
    requires piece != "" && IsLowered(piece[1..], others)
    ensures IsLowered(piece, [LowerChar(piece[0])] + others)
  {
    assert forall i :: 0 < i < |piece| ==> piece[i] == piece[1..][i - 1];
  }

  lemma {:induction false} NormalizedPiece(piece: string, rest: string, inRun: bool) returns (lowered: string)
    requires IsPiece(piece, PLAIN_CHARACTERS)
    ensures NormalizeFrom(piece + rest, inRun) == lowered + NormalizeFrom(rest, if piece == "" then inRun else false)
    ensures IsLowered(piece, lowered)
  {
    if piece == "" {
      assert piece + rest == rest;
      lowered := "";
    } else {
      TailOf(piece, rest);
      var others := NormalizedPiece(piece[1..], rest, false);
      NormalizedLetter(piece, rest, inRun);
      lowered := [LowerChar(piece[0])] + others;
      hide NormalizeFrom;
      OneMoreLowered(piece, others);
    }
  }

  lemma {:induction false} WovenNormalized(name: string, pieces: seq<string>, gaps: seq<string>, inRun: bool)
    returns (lowered: seq<string>)
    requires IsWoven(name, PLAIN_CHARACTERS, pieces, gaps) && (inRun && |gaps| > 0 ==> pieces[0] != "")
    ensures AreLowered(pieces, lowered) && NormalizeFrom(name, inRun) == Woven(lowered, Dashes(|gaps|))
    decreases |gaps|
  {
    if gaps == [] {
      var first := NormalizedPiece(name, "", inRun);
      assert name + "" == name;
      lowered := [first];
    } else {
      var gap, rest := gaps[0], Woven(pieces[1..], gaps[1..]);
      RestIsWoven(name, PLAIN_CHARACTERS, pieces, gaps);
      var first := NormalizedPiece(pieces[0], gap + rest, inRun);
      TailOf(gap, rest);
      NormalizedGap(gap[1..], rest);
      var others := WovenNormalized(rest, pieces[1..], gaps[1..], true);
      lowered := [first] + others;
      assert Dashes(|gaps|)[1..] == Dashes(|gaps| - 1) && lowered[1..] == others;
    }
  }

  /** Whatever stands between two separators stays, in lower case, and each run of separators is one dash. */
  lemma NormalizeMakes(name: string) returns (pieces: seq<string>, gaps: seq<string>, lowered: seq<string>)
    ensures IsWoven(name, PLAIN_CHARACTERS, pieces, gaps) && AreLowered(pieces, lowered)
    ensures Normalize(name) == Woven(lowered, Dashes(|gaps|))
  {
    pieces, gaps := Weave(name, PLAIN_CHARACTERS);
    lowered := WovenNormalized(name, pieces, gaps, false);
  }

  // ---- the lock as a graph ------------------------------------------------------------------------

  /** The entries of one normalized name, in the lock's order. */
  function Entries(lock: seq<Package>, n: string): seq<Package> {
    if lock == [] then []
    else
      var rest := Entries(lock[..|lock| - 1], n);
      if Normalize(lock[|lock| - 1].name) == n then rest + [lock[|lock| - 1]] else rest
  }

  /** Some entry of `a` depends on `b`. */
  ghost predicate DependsOn(lock: seq<Package>, a: string, b: string) {
    exists e, d :: e in Entries(lock, a) && d in e.dependencies && Normalize(d) == b
  }

  ghost predicate IsPath(lock: seq<Package>, p: seq<string>) {
    && p != []
    && forall i :: 0 < i < |p| ==> DependsOn(lock, p[i - 1], p[i])
  }

  /** A chain of dependencies leads from `root` to `n`. */
  ghost predicate Reachable(lock: seq<Package>, root: string, n: string) {
    exists p :: IsPath(lock, p) && p[0] == root && p[|p| - 1] == n
  }

  lemma StepIsReachable(lock: seq<Package>, root: string, a: string, b: string)
    requires Reachable(lock, root, a) && DependsOn(lock, a, b)
    ensures Reachable(lock, root, b)
  {
    var p :| IsPath(lock, p) && p[0] == root && p[|p| - 1] == a;
    var longer := p + [b];
    forall i | 0 < i < |longer| ensures DependsOn(lock, longer[i - 1], longer[i]) {
      if i < |p| { assert DependsOn(lock, p[i - 1], p[i]); }
    }
    assert IsPath(lock, longer);
  }

  /** A set of names closed under dependencies holds everything reachable from its members. */
  lemma {:induction false} ClosedHoldsPath(lock: seq<Package>, names: set<string>, p: seq<string>)
    requires forall a, b :: a in names && DependsOn(lock, a, b) ==> b in names
    requires IsPath(lock, p) && p[0] in names
    ensures p[|p| - 1] in names
    decreases |p|
  {
    if |p| > 1 {
      var shorter := p[..|p| - 1];
      forall i | 0 < i < |shorter| ensures DependsOn(lock, shorter[i - 1], shorter[i]) {
        assert DependsOn(lock, p[i - 1], p[i]);
      }
      ClosedHoldsPath(lock, names, shorter);
      assert DependsOn(lock, p[|p| - 1 - 1], p[|p| - 1]);
    }
  }

  /** Every name reachable from `root` has exactly one entry. */
  ghost predicate Resolvable(lock: seq<Package>, root: string) {
    forall n :: Reachable(lock, root, n) ==> |Entries(lock, n)| == 1
  }

  // ---- the closure --------------------------------------------------------------------------------

  /** Every entry of the lock, by normalized name. */
  method EntriesByName(lock: seq<Package>) returns (byName: map<string, seq<Package>>)
    ensures forall n :: Entries(lock, n) == if n in byName then byName[n] else []
    ensures forall n :: n in byName ==> byName[n] != []
  {
    byName := map[];
    for i := 0 to |lock|
      invariant forall n :: Entries(lock[..i], n) == if n in byName then byName[n] else []
      invariant forall n :: n in byName ==> byName[n] != []
    {
      var name := Normalize(lock[i].name);
      assert lock[..i + 1][..i] == lock[..i];
      byName := byName[name := (if name in byName then byName[name] else []) + [lock[i]]];
    }
    assert lock[..|lock|] == lock;
  }

  function NormalizeAll(names: seq<string>): seq<string> {
    seq(|names|, i requires 0 <= i < |names| => Normalize(names[i]))
  }

  /** What the walk has found so far is reachable, and lacks only what is still pending. */
  ghost predicate WalkInv(
      lock: seq<Package>, root: string, resolved: map<string, Package>, pending: seq<string>) {
    && (root in resolved || root in pending)
    && (forall n :: n in resolved || n in pending ==> Reachable(lock, root, n))
    && (forall n :: n in resolved ==> Entries(lock, n) == [resolved[n]])
    && (forall a, b :: a in resolved && DependsOn(lock, a, b) ==> b in resolved || b in pending)
  }

  lemma WalkStep(lock: seq<Package>, root: string, resolved: map<string, Package>, rest: seq<string>, name: string,
                 entry: Package)
    requires WalkInv(lock, root, resolved, rest + [name])
    requires name !in resolved && Entries(lock, name) == [entry]
    ensures WalkInv(lock, root, resolved[name := entry], rest + NormalizeAll(entry.dependencies))
  {
    var pending := rest + [name];
    assert name in pending;
    var added := NormalizeAll(entry.dependencies);
    forall n | n in resolved[name := entry] || n in rest + added ensures Reachable(lock, root, n) {
      if n in added {
        var i :| 0 <= i < |added| && added[i] == n;
        assert entry in Entries(lock, name) && entry.dependencies[i] in entry.dependencies;
        assert DependsOn(lock, name, n);
        StepIsReachable(lock, root, name, n);
      } else if n != name {
        assert n in resolved || n in pending;
      }
    }
    forall a, b | a in resolved[name := entry] && DependsOn(lock, a, b)
      ensures b in resolved[name := entry] || b in rest + added
    {
      if a == name {
        var e, d :| e in Entries(lock, a) && d in e.dependencies && Normalize(d) == b;
        var i :| 0 <= i < |entry.dependencies| && entry.dependencies[i] == d;
        assert added[i] == b;
      } else {
        assert b in resolved || b in pending;
      }
    }
  }

  lemma WalkSkip(lock: seq<Package>, root: string, resolved: map<string, Package>, rest: seq<string>, name: string)
    requires WalkInv(lock, root, resolved, rest + [name]) && name in resolved
    ensures WalkInv(lock, root, resolved, rest)
  {
  }

  /** With nothing pending, what was found is everything reachable. */
  lemma WalkDone(lock: seq<Package>, root: string, resolved: map<string, Package>)
    requires WalkInv(lock, root, resolved, [])
    ensures forall n :: n in resolved <==> Reachable(lock, root, n)
    ensures Resolvable(lock, root)
  {
    forall n | Reachable(lock, root, n) ensures n in resolved {
      var p :| IsPath(lock, p) && p[0] == root && p[|p| - 1] == n;
      ClosedHoldsPath(lock, resolved.Keys, p);
    }
  }

  /** A reachable name the lock has no one entry for. */
  ghost predicate Unresolvable(lock: seq<Package>, root: string, error: FormulaError) {
    && Reachable(lock, root, error.name)
    && match error
       case NotInLock(name) => Entries(lock, name) == []
       case SeveralVersions(name, entries) => |Entries(lock, name)| == entries > 1
  }

  lemma PendingIsReachable(
      lock: seq<Package>, root: string, resolved: map<string, Package>, rest: seq<string>, name: string)
    requires WalkInv(lock, root, resolved, rest + [name])
    ensures Reachable(lock, root, name)
  {
  }

  lemma NothingFoundYet(lock: seq<Package>, root: string)
    ensures WalkInv(lock, root, map[], [root])
  {
  }

  /** Take pending names, newest first, until none is left or one has no single entry. */
  method Walk(lock: seq<Package>, root: string) returns (result: Result<map<string, Package>, FormulaError>)
    ensures result.Ok? ==> WalkInv(lock, root, result.value, [])
    ensures result.Err? ==> Unresolvable(lock, root, result.error)
  {
    hide Entries, Normalize, WalkInv, Reachable;
    var byName := EntriesByName(lock);
    var resolved: map<string, Package> := map[];
    var pending := [root];
    NothingFoundYet(lock, root);
    while pending != []
      invariant WalkInv(lock, root, resolved, pending)
      decreases byName.Keys - resolved.Keys, |pending|
    {
      var rest, name := pending[..|pending| - 1], pending[|pending| - 1];
      assert pending == rest + [name];
      if name in resolved {
        WalkSkip(lock, root, resolved, rest, name);
        pending := rest;
      } else {
        PendingIsReachable(lock, root, resolved, rest, name);
        if name !in byName {
          return Err(NotInLock(name));
        }
        var entries := byName[name];
        assert entries == Entries(lock, name);
        if |entries| > 1 {
          return Err(SeveralVersions(name, |entries|));
        }
        assert entries == [entries[0]];
        WalkStep(lock, root, resolved, rest, name, entries[0]);
        assert name in byName.Keys - resolved.Keys;
        resolved, pending := resolved[name := entries[0]], rest + NormalizeAll(entries[0].dependencies);
      }
    }
    return Ok(resolved);
  }

  /**
   Every package `package` depends on, by normalized name, itself left out. It succeeds exactly when every
   reachable name has one entry, and otherwise names a reachable one that has not.
   */
  method Closure(lock: seq<Package>, package: string) returns (result: Result<map<string, Package>, FormulaError>)
    ensures result.Ok? <==> Resolvable(lock, Normalize(package))
    ensures result.Ok? ==>
      forall n :: n in result.value <==> n != Normalize(package) && Reachable(lock, Normalize(package), n)
    ensures result.Ok? ==> forall n :: n in result.value ==> Entries(lock, n) == [result.value[n]]
    ensures result.Err? ==> Unresolvable(lock, Normalize(package), result.error)
  {
    hide Entries, Normalize, Reachable;
    var root := Normalize(package);
    var walked := Walk(lock, root);
    if walked.Err? {
      assert Reachable(lock, root, walked.error.name) && |Entries(lock, walked.error.name)| != 1;
      return Err(walked.error);
    }
    WalkDone(lock, root, walked.value);
    return Ok(walked.value - {root});
  }
}
