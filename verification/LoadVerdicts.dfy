/** The load test: how a route is judged from each build's turns, and how the turns alternate. */
module LoadVerdicts {
  import opened Common

  datatype Verdict = Regression | Improvement | Unchanged
  datatype Judgement = Judgement(verdict: Verdict, base: real, head: real)

  // ---- least, greatest and middle ----------------------------------------------------------------------------

  function Least(turns: seq<real>): (least: real)
    requires turns != []
    ensures least in turns && forall x :: x in turns ==> least <= x
  {
    var last := turns[|turns| - 1];
    if |turns| == 1 then last
    else
      var rest := Least(turns[..|turns| - 1]);
      assert turns == turns[..|turns| - 1] + [last];
      if last < rest then last else rest
  }

  function Greatest(turns: seq<real>): (greatest: real)
    requires turns != []
    ensures greatest in turns && forall x :: x in turns ==> x <= greatest
  {
    var last := turns[|turns| - 1];
    if |turns| == 1 then last
    else
      var rest := Greatest(turns[..|turns| - 1]);
      assert turns == turns[..|turns| - 1] + [last];
      if last > rest then last else rest
  }

  function Insert(sorted: seq<real>, x: real): (r: seq<real>)
    ensures multiset(r) == multiset(sorted) + multiset{x}
  {
    if sorted == [] || x <= sorted[0] then [x] + sorted
    else
      assert sorted == [sorted[0]] + sorted[1..];
      [sorted[0]] + Insert(sorted[1..], x)
  }

  function Sorted(turns: seq<real>): (r: seq<real>)
    ensures multiset(r) == multiset(turns)
  {
    if turns == [] then []
    else
      assert turns == turns[..|turns| - 1] + [turns[|turns| - 1]];
      Insert(Sorted(turns[..|turns| - 1]), turns[|turns| - 1])
  }

  predicate IsSorted(turns: seq<real>) {
    forall i, j :: 0 <= i < j < |turns| ==> turns[i] <= turns[j]
  }

  lemma {:induction false} InsertKeepsSorted(sorted: seq<real>, x: real)
    requires IsSorted(sorted)
    ensures IsSorted(Insert(sorted, x))
  {
    if sorted != [] && x > sorted[0] {
      InsertKeepsSorted(sorted[1..], x);
      var rest := Insert(sorted[1..], x);
      forall k | 0 <= k < |rest| ensures sorted[0] <= rest[k] {
        assert rest[k] in multiset(rest);
        assert rest[k] in sorted[1..] || rest[k] == x;
      }
    }
  }

  lemma {:induction false} SortedIsSorted(turns: seq<real>)
    ensures IsSorted(Sorted(turns)) && |Sorted(turns)| == |turns|
  {
    assert |multiset(Sorted(turns))| == |multiset(turns)|;
    if turns != [] {
      SortedIsSorted(turns[..|turns| - 1]);
      InsertKeepsSorted(Sorted(turns[..|turns| - 1]), turns[|turns| - 1]);
    }
  }

  /** The middle turn, or half way between the two middle ones. */
  function Median(turns: seq<real>): real
    requires turns != []
  {
    var sorted := Sorted(turns);
    assert |multiset(sorted)| == |multiset(turns)|;
    var middle := |sorted| / 2;
    if |sorted| % 2 == 1 then sorted[middle] else (sorted[middle - 1] + sorted[middle]) / 2.0
  }

  lemma MedianIsBetween(turns: seq<real>)
    requires turns != []
    ensures Least(turns) <= Median(turns) <= Greatest(turns)
  {
    hide Sorted, Least, Greatest;
    SortedIsSorted(turns);
    var sorted := Sorted(turns);
    forall k | 0 <= k < |sorted| ensures Least(turns) <= sorted[k] <= Greatest(turns) {
      assert sorted[k] in multiset(sorted);
      assert sorted[k] in turns;
    }
    var middle := |sorted| / 2;
    if |sorted| % 2 == 0 {
      HalfWayIsBetween(Least(turns), sorted[middle - 1], sorted[middle], Greatest(turns));
    }
  }

  lemma HalfWayIsBetween(low: real, a: real, b: real, high: real)
    requires low <= a <= high && low <= b <= high
    ensures low <= (a + b) / 2.0 <= high
  {
  }

  // ---- the verdict -------------------------------------------------------------------------------------------

  const MIN_EFFECT_MS := 1.0
  const MIN_EFFECT_PCT := 10.0

  /** The smallest change reported. */
  function Threshold(base: seq<real>): real
    requires base != []
  {
    var share := Least(base) * MIN_EFFECT_PCT / 100.0;
    if share > MIN_EFFECT_MS then share else MIN_EFFECT_MS
  }

  /** Every turn of the one is slower than every turn of the other, by more than `gap`. */
  ghost predicate Slower(slow: seq<real>, fast: seq<real>, gap: real) {
    forall s, f :: s in slow && f in fast ==> s - f > gap
  }

  /** By more than a millisecond, and by more than a tenth of the fastest base turn. */
  ghost predicate AllSlower(slow: seq<real>, fast: seq<real>, base: seq<real>) {
    forall s, f :: s in slow && f in fast ==> s - f > 1.0 && exists b :: b in base && 10.0 * (s - f) > b
  }

  lemma SlowerIsAllSlower(slow: seq<real>, fast: seq<real>, base: seq<real>)
    requires base != []
    ensures Slower(slow, fast, Threshold(base)) <==> AllSlower(slow, fast, base)
  {
    assert Least(base) in base;
    hide Least;
    assert Threshold(base) == if Least(base) / 10.0 > 1.0 then Least(base) / 10.0 else 1.0;
    forall s, f | s in slow && f in fast
      ensures s - f > Threshold(base) <==> s - f > 1.0 && exists b :: b in base && 10.0 * (s - f) > b
    {
      if b :| b in base && 10.0 * (s - f) > b {
        assert 10.0 * (s - f) > Least(base);
      }
    }
  }

  /** In order the same turns. */
  ghost predicate IsInOrder(turns: seq<real>, inOrder: seq<real>) {
    && multiset(inOrder) == multiset(turns) && |inOrder| == |turns|
    && forall i :: 0 < i < |inOrder| ==> inOrder[i - 1] <= inOrder[i]
  }

  /** The middle of the turns in order, or half way between the two in the middle. */
  ghost predicate IsMiddle(turns: seq<real>, middle: real)
    requires turns != []
  {
    exists inOrder :: IsInOrder(turns, inOrder)
      && if |turns| % 2 == 1 then middle == inOrder[|turns| / 2]
         else 2.0 * middle == inOrder[|turns| / 2 - 1] + inOrder[|turns| / 2]
  }

  lemma SortedIsInOrder(turns: seq<real>)
    ensures IsInOrder(turns, Sorted(turns))
  {
    hide Sorted, Insert;
    SortedIsSorted(turns);
  }

  lemma MedianIsMiddle(turns: seq<real>)
    requires turns != []
    ensures IsMiddle(turns, Median(turns))
  {
    SortedIsInOrder(turns);
    hide Sorted;
    var inOrder := Sorted(turns);
    assert IsInOrder(turns, inOrder) && |inOrder| == |turns|;
    hide IsInOrder;
  }

  /** What the verdict on two builds says, as the gaps between their ends and turn by turn. */
  ghost predicate IsVerdict(verdict: Verdict, base: seq<real>, head: seq<real>)
    requires base != [] && head != []
  {
    && (verdict == Regression <==> Slower(head, base, Threshold(base)))
    && (verdict == Regression <==> AllSlower(head, base, base))
    && (verdict == Improvement <==> Slower(base, head, Threshold(base)))
    && (verdict == Improvement <==> AllSlower(base, head, base))
  }

  function VerdictOn(base: seq<real>, head: seq<real>): Verdict
    requires base != [] && head != []
  {
    if Least(head) - Greatest(base) > Threshold(base) then Regression
    else if Least(base) - Greatest(head) > Threshold(base) then Improvement
    else Unchanged
  }

  lemma VerdictIs(base: seq<real>, head: seq<real>)
    requires base != [] && head != []
    ensures IsVerdict(VerdictOn(base, head), base, head)
  {
    hide Least, Greatest, Slower, AllSlower, Threshold;
    SlowerIsAllSlower(head, base, base);
    SlowerIsAllSlower(base, head, base);
    NotBothSlower(head, base, Threshold(base));
    GapBetweenEnds(head, base, Threshold(base));
    GapBetweenEnds(base, head, Threshold(base));
  }

  /** Judged by each build's per-turn medians, and not at all while either build has none. */
  method Judge(base: seq<real>, head: seq<real>) returns (judgement: Option<Judgement>)
    ensures judgement.None? <==> base == [] || head == []
    ensures judgement.Some? ==> judgement.value.base == Median(base) && judgement.value.head == Median(head)
    ensures judgement.Some? ==> IsVerdict(judgement.value.verdict, base, head)
    ensures judgement.Some? ==> IsMiddle(base, judgement.value.base) && IsMiddle(head, judgement.value.head)
  {
    if base == [] || head == [] {
      return None;
    }
    MedianIsMiddle(base);
    MedianIsMiddle(head);
    VerdictIs(base, head);
    hide Least, Greatest, Median, IsMiddle, IsVerdict, Threshold;
    var threshold := Threshold(base);
    var verdict := if Least(head) - Greatest(base) > threshold then Regression
                   else if Least(base) - Greatest(head) > threshold then Improvement else Unchanged;
    return Some(Judgement(verdict, Median(base), Median(head)));
  }

  lemma NotBothSlower(head: seq<real>, base: seq<real>, gap: real)
    requires base != [] && head != [] && gap == Threshold(base)
    ensures !(Slower(head, base, gap) && Slower(base, head, gap))
  {
    hide Least, Greatest;
    assert gap > 0.0;
    var h, b := head[0], base[0];
    assert h in head && b in base;
    assert h - b > gap ==> !(b - h > gap);
  }

  lemma GapBetweenEnds(slow: seq<real>, fast: seq<real>, gap: real)
    requires slow != [] && fast != []
    ensures Least(slow) - Greatest(fast) > gap <==> Slower(slow, fast, gap)
  {
  }

  /** A regression shows in the medians too, in both of them at once. */
  lemma RegressionShowsInTheMedians(base: seq<real>, head: seq<real>)
    requires base != [] && head != [] && Slower(head, base, Threshold(base))
    ensures Median(head) - Median(base) > Threshold(base)
  {
    hide Least, Greatest, Median, Slower;
    GapBetweenEnds(head, base, Threshold(base));
    MedianIsBetween(base);
    MedianIsBetween(head);
  }

  ghost predicate IsUnchanged(base: seq<real>, head: seq<real>) {
    base != [] && !Slower(head, base, Threshold(base)) && !Slower(base, head, Threshold(base))
  }

  /** More turns of the head only blur the two apart: what is unchanged stays unchanged. */
  lemma MoreHeadTurnsKeepUnchanged(base: seq<real>, head: seq<real>, more: seq<real>)
    requires IsUnchanged(base, head)
    ensures IsUnchanged(base, head + more)
  {
    var s, f :| s in head && f in base && !(s - f > Threshold(base));
    assert s in head + more;
    var b, h :| b in base && h in head && !(b - h > Threshold(base));
    assert h in head + more;
  }

  lemma EndsOfMore(turns: seq<real>, more: seq<real>)
    requires turns != []
    ensures Least(turns + more) <= Least(turns) && Greatest(turns) <= Greatest(turns + more)
  {
    hide Least, Greatest;
    assert Least(turns) in turns + more && Greatest(turns) in turns + more;
  }

  /** How far the fastest base turn stands out never grows by more than the threshold does. */
  lemma MoreNeverImprove(base: seq<real>, head: seq<real>, more: seq<real>)
    requires IsUnchanged(base, head)
    ensures !Slower(base + more, head, Threshold(base + more))
  {
    hide Least, Greatest, Slower;
    HeadHasTurns(base, head);
    EndsOfMore(base, more);
    GapBetweenEnds(base, head, Threshold(base));
    GapBetweenEnds(base + more, head, Threshold(base + more));
  }

  lemma HeadHasTurns(base: seq<real>, head: seq<real>)
    requires IsUnchanged(base, head)
    ensures base != [] && head != []
  {
  }

  /**
   More turns of the base never make an improvement of an unchanged route, and make a regression of it exactly
   when the fastest head turn exceeds the slowest base turn by more than the threshold the new turns leave.
   */
  lemma MoreBaseTurns(base: seq<real>, head: seq<real>, more: seq<real>)
    requires IsUnchanged(base, head)
    ensures head != []
    ensures IsUnchanged(base + more, head) <==> !(Least(head) - Greatest(base + more) > Threshold(base + more))
  {
    hide Least, Greatest, Slower;
    HeadHasTurns(base, head);
    MoreNeverImprove(base, head, more);
    GapBetweenEnds(head, base + more, Threshold(base + more));
  }

  function Larger(a: real, b: real): real {
    if a > b then a else b
  }

  /**
   One more base turn changes an unchanged verdict exactly when it is faster than all there were and the head
   stood out by more than the threshold it sets.
   */
  lemma OneMoreBaseTurn(base: seq<real>, head: seq<real>, turn: real)
    requires IsUnchanged(base, head)
    ensures head != []
    ensures IsUnchanged(base + [turn], head) <==>
      !(turn < Least(base) && Least(head) - Greatest(base) > Larger(MIN_EFFECT_MS, turn * MIN_EFFECT_PCT / 100.0))
  {
    HeadHasTurns(base, head);
    MoreBaseTurns(base, head, [turn]);
    GapBetweenEnds(head, base, Threshold(base));
    EndsOfOneMore(base, turn);
    hide Least, Greatest, Slower;
  }

  lemma EndsOfOneMore(turns: seq<real>, turn: real)
    requires turns != []
    ensures Least(turns + [turn]) == if turn < Least(turns) then turn else Least(turns)
    ensures Greatest(turns + [turn]) == Larger(turn, Greatest(turns))
    ensures Least(turns) <= Greatest(turns)
  {
    assert (turns + [turn])[..|turns|] == turns;
    assert Least(turns) in turns;
  }

  /** One fast turn of the base turns an unchanged route into a regression. */
  lemma AFastBaseTurnMakesARegression()
    ensures exists base, head, turn :: IsUnchanged(base, head) && Slower(head, base + [turn], Threshold(base + [turn]))
  {
    var base, head, turn := [100.0], [107.0], 60.0;
    assert base + [turn] == [100.0, 60.0];
    assert head[0] in head && base[0] in base;
    assert IsUnchanged(base, head);
    OneMoreBaseTurn(base, head, turn);
    MoreNeverImprove(base, head, [turn]);
  }

  // ---- turns that something else slows --------------------------------------------------------------------

  predicate Slowed(turns: seq<real>, slowed: seq<real>) {
    |turns| == |slowed| && forall i :: 0 <= i < |turns| ==> turns[i] <= slowed[i]
  }

  /** Some turn is as it was. */
  predicate SparesOne(turns: seq<real>, slowed: seq<real>) {
    exists i :: 0 <= i < |turns| && i < |slowed| && slowed[i] == turns[i]
  }

  /** A head turn that is slower than all of the base by more than the threshold, on its own. */
  predicate HeadStandsOut(base: seq<real>, turn: real)
    requires base != []
  {
    turn - Greatest(base) > Threshold(base)
  }

  /** A base turn that is slower than all of the head by more than it would make the threshold, on its own. */
  predicate BaseStandsOut(head: seq<real>, turn: real)
    requires head != []
  {
    turn - Greatest(head) > Threshold([turn])
  }

  ghost predicate NoneStandsOut(base: seq<real>, head: seq<real>)
    requires base != [] && head != []
  {
    && (forall i :: 0 <= i < |head| ==> !HeadStandsOut(base, head[i]))
    && (forall i :: 0 <= i < |base| ==> !BaseStandsOut(head, base[i]))
  }

  /** Slowing some turns of both builds, but not all of either, leaves the verdict unchanged. */
  ghost predicate OnlyBlurs(base: seq<real>, head: seq<real>) {
    forall base', head' ::
      Slowed(base, base') && SparesOne(base, base') && Slowed(head, head') && SparesOne(head, head') ==>
        IsUnchanged(base', head')
  }

  lemma ThresholdGrows(low: real, high: real)
    requires low <= high
    ensures Threshold([low]) <= Threshold([high])
    ensures high - low >= Threshold([high]) - Threshold([low])
  {
  }

  lemma ThresholdOfLeast(base: seq<real>)
    requires base != []
    ensures Threshold(base) == Threshold([Least(base)])
  {
  }

  /** A regression asks the same of each head turn, an improvement of each base turn. */
  lemma VerdictTurnByTurn(base: seq<real>, head: seq<real>)
    requires base != [] && head != []
    ensures Slower(head, base, Threshold(base)) <==> forall i :: 0 <= i < |head| ==> HeadStandsOut(base, head[i])
    ensures Slower(base, head, Threshold(base)) <==> forall i :: 0 <= i < |base| ==> BaseStandsOut(head, base[i])
  {
    hide Least, Greatest, Threshold;
    GapBetweenEnds(head, base, Threshold(base));
    GapBetweenEnds(base, head, Threshold(base));
    ThresholdOfLeast(base);
    forall i | 0 <= i < |base| ensures BaseStandsOut(head, Least(base)) ==> BaseStandsOut(head, base[i]) {
      assert base[i] in base;
      ThresholdGrows(Least(base), base[i]);
    }
    var i :| 0 <= i < |head| && head[i] == Least(head);
    var j :| 0 <= j < |base| && base[j] == Least(base);
    assert forall k :: 0 <= k < |head| ==> head[k] in head;
  }

  lemma SlowedEnds(turns: seq<real>, slowed: seq<real>)
    requires turns != [] && Slowed(turns, slowed)
    ensures slowed != []
    ensures Least(turns) <= Least(slowed) && Greatest(turns) <= Greatest(slowed)
  {
    hide Least, Greatest;
    var i :| 0 <= i < |slowed| && slowed[i] == Least(slowed);
    var j :| 0 <= j < |turns| && turns[j] == Greatest(turns);
    assert turns[i] in turns && slowed[j] in slowed;
  }

  /** What was spared stands out no more than it did. */
  lemma SparedStandsOutNoMore(base: seq<real>, head: seq<real>, base': seq<real>, head': seq<real>)
    requires base != [] && head != [] && NoneStandsOut(base, head)
    requires Slowed(base, base') && SparesOne(base, base') && Slowed(head, head') && SparesOne(head, head')
    ensures IsUnchanged(base', head')
  {
    hide Least, Greatest;
    SlowedEnds(base, base');
    SlowedEnds(head, head');
    VerdictTurnByTurn(base', head');
    ThresholdOfLeast(base);
    ThresholdOfLeast(base');
    ThresholdGrows(Least(base), Least(base'));
    var h :| 0 <= h < |head| && head'[h] == head[h];
    var b :| 0 <= b < |base| && base'[b] == base[b];
    assert !HeadStandsOut(base, head[h]) && !BaseStandsOut(head, base[b]);
    assert !HeadStandsOut(base', head'[h]) && !BaseStandsOut(head', base'[b]);
    hide Threshold, Slower;
  }

  function SlowHead(base: seq<real>, head: seq<real>): (slowed: seq<real>)
    requires base != []
    ensures |slowed| == |head|
    ensures forall i :: 0 <= i < |head| ==>
      slowed[i] == if HeadStandsOut(base, head[i]) then head[i] else Greatest(base) + Threshold(base) + 1.0
  {
    seq(|head|, i requires 0 <= i < |head| =>
      if HeadStandsOut(base, head[i]) then head[i] else Greatest(base) + Threshold(base) + 1.0)
  }

  /** A turn of the base no head turn comes near. */
  function FarBeyond(head: seq<real>): real
    requires head != []
  {
    var slowest := Greatest(head);
    if slowest < 0.0 then 10.0 else 2.0 * slowest + 10.0
  }

  function SlowBase(base: seq<real>, head: seq<real>): (slowed: seq<real>)
    requires head != []
    ensures |slowed| == |base|
    ensures forall i :: 0 <= i < |base| ==>
      slowed[i] == if BaseStandsOut(head, base[i]) then base[i] else FarBeyond(head)
  {
    seq(|base|, i requires 0 <= i < |base| => if BaseStandsOut(head, base[i]) then base[i] else FarBeyond(head))
  }

  lemma SlowingTheHeadShows(base: seq<real>, head: seq<real>, h: nat)
    requires IsUnchanged(base, head) && h < |head| && HeadStandsOut(base, head[h])
    ensures !OnlyBlurs(base, head)
  {
    var head' := SlowHead(base, head);
    assert Slowed(head, head') && SparesOne(head, head') by {
      assert head'[h] == head[h];
    }
    assert Slowed(base, base) && SparesOne(base, base) by {
      assert base[0] == base[0];
    }
    hide Least, Greatest, Slower;
    VerdictTurnByTurn(base, head');
    assert !IsUnchanged(base, head');
  }

  lemma FarBeyondStandsOut(head: seq<real>, turn: real)
    requires head != []
    ensures BaseStandsOut(head, FarBeyond(head))
    ensures !BaseStandsOut(head, turn) ==> turn <= FarBeyond(head)
  {
    hide Greatest;
    if turn > FarBeyond(head) {
      ThresholdGrows(FarBeyond(head), turn);
    }
  }

  lemma SlowingTheBaseShows(base: seq<real>, head: seq<real>, b: nat)
    requires IsUnchanged(base, head) && head != [] && b < |base| && BaseStandsOut(head, base[b])
    ensures !OnlyBlurs(base, head)
  {
    var base' := SlowBase(base, head);
    hide Least, Greatest, Slower, Threshold, BaseStandsOut, FarBeyond;
    forall i | 0 <= i < |base| ensures base[i] <= base'[i] && BaseStandsOut(head, base'[i]) {
      FarBeyondStandsOut(head, base[i]);
    }
    assert SparesOne(base, base') by {
      assert base'[b] == base[b];
    }
    assert Slowed(head, head) && SparesOne(head, head) by {
      assert head[0] == head[0];
    }
    VerdictTurnByTurn(base', head);
    assert !IsUnchanged(base', head);
  }

  /**
   Load during some turns, but not all of either build's, can only blur an unchanged route, exactly when no turn
   of either build already stood out on its own.
   */
  lemma SlowingOnlyBlurs(base: seq<real>, head: seq<real>)
    requires IsUnchanged(base, head)
    ensures head != []
    ensures OnlyBlurs(base, head) <==> NoneStandsOut(base, head)
  {
    HeadHasTurns(base, head);
    hide Slower, Threshold, HeadStandsOut, BaseStandsOut, Least, Greatest, IsUnchanged, Slowed, SparesOne;
    if NoneStandsOut(base, head) {
      forall base', head' |
        Slowed(base, base') && SparesOne(base, base') && Slowed(head, head') && SparesOne(head, head')
        ensures IsUnchanged(base', head')
      {
        SparedStandsOutNoMore(base, head, base', head');
      }
    } else if h :| 0 <= h < |head| && HeadStandsOut(base, head[h]) {
      SlowingTheHeadShows(base, head, h);
    } else {
      var b :| 0 <= b < |base| && BaseStandsOut(head, base[b]);
      SlowingTheBaseShows(base, head, b);
    }
  }

  /** Slowing one of two head turns, the one that did not stand out, makes a regression. */
  lemma OneSlowedTurnMakesARegression()
    ensures exists base, head, head' ::
      IsUnchanged(base, head) && Slowed(head, head') && SparesOne(head, head') && Slower(head', base, Threshold(base))
  {
    var base, head, head' := [100.0], [105.0, 120.0], [125.0, 120.0];
    assert base[0] in base && head[0] in head;
    assert IsUnchanged(base, head);
    assert head'[1] == head[1];
    assert Slowed(head, head') && SparesOne(head, head') && Slower(head', base, Threshold(base));
  }

  // ---- the order of the turns ----------------------------------------------------------------------------------

  /** base head, head base, base head, and so on: whether each turn is the base's. */
  function Order(rounds: nat): (order: seq<bool>)
    ensures |order| == 2 * rounds
  {
    if rounds == 0 then [] else Order(rounds - 1) + (if rounds % 2 == 1 then [true, false] else [false, true])
  }

  function Turns(order: seq<bool>, base: bool): nat {
    if order == [] then 0 else Turns(order[..|order| - 1], base) + (if order[|order| - 1] == base then 1 else 0)
  }

  /** The sum of the places a build's turns have in the order. */
  function Places(order: seq<bool>, base: bool): nat {
    if order == [] then 0
    else Places(order[..|order| - 1], base) + (if order[|order| - 1] == base then |order| - 1 else 0)
  }

  lemma TwoMore(order: seq<bool>, first: bool, build: bool)
    ensures Turns(order + [first, !first], build) == Turns(order, build) + 1
    ensures Places(order + [first, !first], build) == Places(order, build) + |order| + (if first == build then 0 else 1)
  {
    var two := order + [first, !first];
    assert two[..|two| - 1] == order + [first] && (order + [first])[..|order|] == order;
  }

  /** Both builds take every round once, and in an even number of rounds their places add up to the same. */
  lemma {:induction false} OrderIsFair(rounds: nat)
    ensures Turns(Order(rounds), true) == Turns(Order(rounds), false) == rounds
    ensures rounds % 2 == 0 <==> Places(Order(rounds), true) == Places(Order(rounds), false)
    ensures rounds % 2 == 1 ==> Places(Order(rounds), true) + 1 == Places(Order(rounds), false)
  {
    if rounds > 0 {
      OrderIsFair(rounds - 1);
      TwoMore(Order(rounds - 1), rounds % 2 == 1, true);
      TwoMore(Order(rounds - 1), rounds % 2 == 1, false);
    }
  }
}
