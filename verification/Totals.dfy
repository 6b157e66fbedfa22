/** What usage rows add up to, and sums over finite sets that do not depend on the order taken. */
module Totals {
  import opened Common

  /**
   The measures of usage rows, every one of which sums. A measure no row recorded is absent, as SQL's SUM
   leaves it; the latencies are every latency recorded, and the two times are the first and the last.
   */
  datatype Sums = Sums(
    rows: nat,
    cost: Option<int>,
    tokens: Option<int>,
    latencies: multiset<int>,
    firstAt: Option<int>,
    lastAt: Option<int>)

  const NOTHING := Sums(0, None, None, multiset{}, None, None)

  function AddOption(a: Option<int>, b: Option<int>): Option<int> {
    if a.None? then b else if b.None? then a else Some(a.value + b.value)
  }

  function Earlier(a: Option<int>, b: Option<int>): Option<int> {
    if a.None? then b else if b.None? then a else Some(if a.value <= b.value then a.value else b.value)
  }

  function Later(a: Option<int>, b: Option<int>): Option<int> {
    if a.None? then b else if b.None? then a else Some(if a.value <= b.value then b.value else a.value)
  }

  function Add(a: Sums, b: Sums): Sums {
    Sums(a.rows + b.rows, AddOption(a.cost, b.cost), AddOption(a.tokens, b.tokens), a.latencies + b.latencies,
         Earlier(a.firstAt, b.firstAt), Later(a.lastAt, b.lastAt))
  }

  lemma AddLaws(a: Sums, b: Sums, c: Sums)
    ensures Add(a, b) == Add(b, a)
    ensures Add(a, Add(b, c)) == Add(Add(a, b), c)
    ensures Add(NOTHING, a) == a
  {
  }

  ghost function SumOver<T>(s: set<T>, f: T -> Sums): Sums {
    if s == {} then NOTHING
    else
      var x :| x in s;
      Add(f(x), SumOver(s - {x}, f))
  }

  lemma SumOfNone<T>(f: T -> Sums)
    ensures SumOver({}, f) == NOTHING
  {
  }

  /** Any element may be taken first. */
  lemma {:induction false} SumFrom<T>(s: set<T>, f: T -> Sums, x: T)
    requires x in s
    ensures SumOver(s, f) == Add(f(x), SumOver(s - {x}, f))
    decreases |s|
  {
    var y :| y in s && SumOver(s, f) == Add(f(y), SumOver(s - {y}, f));
    if y != x {
      SumFrom(s - {y}, f, x);
      SumFrom(s - {x}, f, y);
      assert s - {y} - {x} == s - {x} - {y};
      var rest := SumOver(s - {x} - {y}, f);
      AddLaws(f(y), f(x), rest);
      AddLaws(f(x), f(y), rest);
    }
  }

  lemma {:induction false} SumUnion<T>(a: set<T>, b: set<T>, f: T -> Sums)
    requires a !! b
    ensures SumOver(a + b, f) == Add(SumOver(a, f), SumOver(b, f))
    decreases |a|
  {
    if a == {} {
      assert a + b == b;
      AddLaws(SumOver(b, f), NOTHING, NOTHING);
    } else {
      var x :| x in a;
      SumFrom(a, f, x);
      SumFrom(a + b, f, x);
      assert (a + b) - {x} == (a - {x}) + b;
      SumUnion(a - {x}, b, f);
      AddLaws(f(x), SumOver(a - {x}, f), SumOver(b, f));
    }
  }

  lemma {:induction false} SumAgrees<T>(s: set<T>, f: T -> Sums, g: T -> Sums)
    requires forall x :: x in s ==> f(x) == g(x)
    ensures SumOver(s, f) == SumOver(s, g)
    decreases |s|
  {
    if s != {} {
      var x :| x in s;
      SumFrom(s, f, x);
      SumFrom(s, g, x);
      SumAgrees(s - {x}, f, g);
    }
  }

  /** The elements of `s` that fall in group `u`. */
  ghost function Fibre<T, U>(s: set<T>, group: T -> U, u: U): set<T> {
    set x | x in s && group(x) == u
  }

  ghost function FibreSum<T, U>(s: set<T>, group: T -> U, f: T -> Sums): U -> Sums {
    u => SumOver(Fibre(s, group, u), f)
  }

  /** Summing within groups and then over the groups sums everything once. */
  lemma {:induction false} SumByGroups<T, U>(s: set<T>, group: T -> U, groups: set<U>, f: T -> Sums)
    requires forall x :: x in s ==> group(x) in groups
    ensures SumOver(s, f) == SumOver(groups, FibreSum(s, group, f))
    decreases |groups|
  {
    if groups == {} {
      assert s == {};
    } else {
      hide SumOver;
      var u :| u in groups;
      var inside, outside := Fibre(s, group, u), s - Fibre(s, group, u);
      var rest := groups - {u};
      SumByGroups(outside, group, rest, f);
      assert SumOver(groups, FibreSum(s, group, f))
        == Add(SumOver(inside, f), SumOver(rest, FibreSum(s, group, f))) by {
        SumFrom(groups, FibreSum(s, group, f), u);
      }
      assert SumOver(s, f) == Add(SumOver(inside, f), SumOver(outside, f)) by {
        SumUnion(inside, outside, f);
        assert inside + outside == s;
      }
      OtherFibres(s, group, u, rest, f);
    }
  }

  /** Taking one group's elements away leaves the other groups' sums. */
  lemma OtherFibres<T, U>(s: set<T>, group: T -> U, u: U, rest: set<U>, f: T -> Sums)
    requires u !in rest
    ensures SumOver(rest, FibreSum(s, group, f))
            == SumOver(rest, FibreSum(s - Fibre(s, group, u), group, f))
  {
    var outside := s - Fibre(s, group, u);
    forall v | v in rest ensures FibreSum(s, group, f)(v) == FibreSum(outside, group, f)(v) {
      assert Fibre(s, group, v) == Fibre(outside, group, v);
    }
    SumAgrees(rest, FibreSum(s, group, f), FibreSum(outside, group, f));
  }
}
