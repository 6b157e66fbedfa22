/** Revision b3e7d1a9c5f2, second half: the rates of a provider follow the keys that got a name of their own. */
module ProviderRates {
  import opened Common
  import opened ProviderSlugs

  /** When a rate holds, whose it is and what it is; the steps below only compare starts. */
  datatype Period = Period(kind: string, start: int, end: Option<int>, byOperator: bool, terms: string)
  datatype Rate = Rate(organization: nat, modelKey: string, period: Period)
  datatype Target = Target(organization: nat, provider: string, model: string)

  type Rates = seq<Rate>
  /** The models each key offers, by the key's id; a key with none serves every model. */
  type Offers = map<nat, set<string>>

  function Offered(offers: Offers, id: nat): set<string> {
    if id in offers then offers[id] else {}
  }

  function Current(name: string, model: string): string {
    name + ":" + model
  }

  function Legacy(name: string, model: string): string {
    name + "/" + model
  }

  predicate Matches(target: Target, rate: Rate) {
    rate.organization == target.organization
    && (rate.modelKey == Current(target.provider, target.model)
        || rate.modelKey == Legacy(target.provider, target.model))
  }

  // ---- a model key is split at its first separator ---------------------------------------------------

  function Join(name: string, separator: char, model: string): string {
    name + [separator] + model
  }

  lemma SplitsOnce(a: string, s: char, m: string, b: string, t: char, n: string)
    requires IsPlain(a) && IsPlain(b) && s in ":/" && t in ":/"
    requires Join(a, s, m) == Join(b, t, n)
    ensures a == b && s == t && m == n
  {
    var key := Join(a, s, m);
    assert key[|a|] == s && key[|b|] == t;
    if |a| < |b| {
      assert false;
    } else if |b| < |a| {
      assert false;
    }
    assert key[..|a|] == a && key[..|b|] == b;
    assert key[|a| + 1..] == m && key[|b| + 1..] == n;
  }

  /** No two targets match the same rate, and no name of another kind reads as a provider's key. */
  lemma KeysReadOneWay(a: string, m: string, b: string, n: string)
    requires IsPlain(a) && IsPlain(b)
    ensures Current(a, m) != Legacy(b, n)
    ensures Current(a, m) == Current(b, n) ==> a == b && m == n
    ensures Legacy(a, m) == Legacy(b, n) ==> a == b && m == n
  {
    assert Current(a, m) == Join(a, ':', m) && Current(b, n) == Join(b, ':', n);
    assert Legacy(a, m) == Join(a, '/', m) && Legacy(b, n) == Join(b, '/', n);
    if Current(a, m) == Legacy(b, n) {
      SplitsOnce(a, ':', m, b, '/', n);
    }
    if Current(a, m) == Current(b, n) {
      SplitsOnce(a, ':', m, b, ':', n);
    }
    if Legacy(a, m) == Legacy(b, n) {
      SplitsOnce(a, '/', m, b, '/', n);
    }
  }

  // ---- the statements over the rates, as functions ---------------------------------------------------

  function Count(rates: Rates, rate: Rate): nat {
    multiset(rates)[rate]
  }

  function Matching(rates: Rates, target: Target): Rates {
    if rates == [] then []
    else
      var front, last := rates[..|rates| - 1], rates[|rates| - 1];
      Matching(front, target) + (if Matches(target, last) then [last] else [])
  }

  function Without(rates: Rates, target: Target): Rates {
    if rates == [] then []
    else
      var front, last := rates[..|rates| - 1], rates[|rates| - 1];
      Without(front, target) + (if Matches(target, last) then [] else [last])
  }

  /** One row copied to each name. */
  function RowCopies(row: Rate, slugs: seq<string>, model: string): Rates {
    if slugs == [] then []
    else RowCopies(row, slugs[..|slugs| - 1], model) + [row.(modelKey := Current(slugs[|slugs| - 1], model))]
  }

  function Copies(rows: Rates, slugs: seq<string>, model: string): Rates {
    if rows == [] then []
    else Copies(rows[..|rows| - 1], slugs, model) + RowCopies(rows[|rows| - 1], slugs, model)
  }

  predicate NamedBy(slugs: seq<string>, model: string, modelKey: string) {
    exists s :: s in slugs && modelKey == Current(s, model)
  }

  predicate NoRepeats(slugs: seq<string>) {
    forall i, j :: 0 <= i < j < |slugs| ==> slugs[i] != slugs[j]
  }

  function OneIf(holds: bool): nat {
    if holds then 1 else 0
  }

  predicate IsInPeriod(row: Rate, organization: nat, period: Period) {
    row.organization == organization && row.period == period
  }

  function InPeriod(rows: Rates, organization: nat, period: Period): nat {
    if rows == [] then 0
    else InPeriod(rows[..|rows| - 1], organization, period) + OneIf(IsInPeriod(rows[|rows| - 1], organization, period))
  }

  /** The rates of a target in one period, under either spelling. */
  function Both(rates: Rates, target: Target, period: Period): nat {
    Count(rates, Rate(target.organization, Current(target.provider, target.model), period))
    + Count(rates, Rate(target.organization, Legacy(target.provider, target.model), period))
  }

  lemma LastApart<T>(s: seq<T>)
    requires s != []
    ensures s == s[..|s| - 1] + [s[|s| - 1]]
  {
  }

  lemma {:induction false} CountMatching(rates: Rates, target: Target, rate: Rate)
    ensures Count(Matching(rates, target), rate) == (if Matches(target, rate) then Count(rates, rate) else 0)
    ensures Count(Without(rates, target), rate) == (if Matches(target, rate) then 0 else Count(rates, rate))
  {
    if rates != [] {
      LastApart(rates);
      CountMatching(rates[..|rates| - 1], target, rate);
    }
  }

  lemma SameSuffix(a: string, b: string, model: string)
    requires Current(a, model) == Current(b, model)
    ensures a == b
  {
    assert |a| == |b|;
    assert Current(a, model)[..|a|] == a && Current(b, model)[..|b|] == b;
  }

  lemma {:induction false} CountRowCopies(row: Rate, slugs: seq<string>, model: string, rate: Rate)
    requires NoRepeats(slugs)
    ensures Count(RowCopies(row, slugs, model), rate)
      == OneIf(IsInPeriod(rate, row.organization, row.period) && NamedBy(slugs, model, rate.modelKey))
  {
    if slugs != [] {
      var front, last := slugs[..|slugs| - 1], slugs[|slugs| - 1];
      LastApart(slugs);
      CountRowCopies(row, front, model, rate);
      if rate.modelKey == Current(last, model) {
        assert last in slugs;
        if NamedBy(front, model, rate.modelKey) {
          var s :| s in front && rate.modelKey == Current(s, model);
          SameSuffix(s, last, model);
          assert false;
        }
      } else if NamedBy(slugs, model, rate.modelKey) {
        var s :| s in slugs && rate.modelKey == Current(s, model);
        assert s in front;
      }
    }
  }

  lemma {:induction false} CountCopies(rows: Rates, slugs: seq<string>, model: string, rate: Rate)
    requires NoRepeats(slugs)
    ensures Count(Copies(rows, slugs, model), rate)
      == (if NamedBy(slugs, model, rate.modelKey) then InPeriod(rows, rate.organization, rate.period) else 0)
  {
    if rows != [] {
      CountCopies(rows[..|rows| - 1], slugs, model, rate);
      CountRowCopies(rows[|rows| - 1], slugs, model, rate);
    }
  }

  lemma InPeriodOneMore(rows: Rates, row: Rate, organization: nat, period: Period)
    ensures InPeriod(rows + [row], organization, period)
      == InPeriod(rows, organization, period) + OneIf(IsInPeriod(row, organization, period))
  {
  }

  lemma BothOneMore(rates: Rates, row: Rate, target: Target, period: Period)
    ensures Both(rates + [row], target, period)
      == Both(rates, target, period) + OneIf(Matches(target, row) && row.period == period)
  {
    TheSpellingsDiffer(target);
  }

  lemma {:induction false} InPeriodOfMatching(rates: Rates, target: Target, organization: nat, period: Period)
    ensures InPeriod(Matching(rates, target), organization, period)
      == (if organization == target.organization then Both(rates, target, period) else 0)
  {
    hide Both;
    if rates == [] {
      BothOfNone(target, period);
    } else {
      var front, last := rates[..|rates| - 1], rates[|rates| - 1];
      LastApart(rates);
      InPeriodOfMatching(front, target, organization, period);
      InPeriodOneMore(Matching(front, target), last, organization, period);
      BothOneMore(front, last, target, period);
      assert Matching(rates, target)
        == if Matches(target, last) then Matching(front, target) + [last] else Matching(front, target);
    }
  }

  lemma BothOfNone(target: Target, period: Period)
    ensures Both([], target, period) == 0
  {
  }

  lemma TheSpellingsDiffer(target: Target)
    ensures Current(target.provider, target.model) != Legacy(target.provider, target.model)
  {
    assert Current(target.provider, target.model)[|target.provider|] == ':';
  }

  // ---- which keys ask for which rates ----------------------------------------------------------------

  predicate Wants(key: Key, offers: Offers, target: Target) {
    key.slug.Some? && key.organization == target.organization && key.provider == target.provider
    && target.model in Offered(offers, key.id)
  }

  function SlugIf(key: Key, wanted: bool): seq<string> {
    if wanted && key.slug.Some? then [key.slug.value] else []
  }

  /** The names that need a target's rates, oldest key first. */
  function SlugsFor(keys: seq<Key>, offers: Offers, target: Target): seq<string> {
    if keys == [] then []
    else
      var front, last := keys[..|keys| - 1], keys[|keys| - 1];
      SlugsFor(front, offers, target) + SlugIf(last, Wants(last, offers, target))
  }

  predicate IsTarget(keys: seq<Key>, offers: Offers, target: Target) {
    SlugsFor(keys, offers, target) != []
  }

  /** A live key of the bare provider that serves the model: it offers it, or offers nothing. */
  predicate Serves(key: Key, offers: Offers, target: Target) {
    key.slug.None? && !key.archived && key.organization == target.organization && key.provider == target.provider
    && (Offered(offers, key.id) == {} || target.model in Offered(offers, key.id))
  }

  predicate Kept(keys: seq<Key>, offers: Offers, target: Target) {
    exists i :: 0 <= i < |keys| && Serves(keys[i], offers, target)
  }

  /** Names can be told apart: each is plain, an organization's are distinct, and none is one of its providers. */
  ghost predicate WellNamed(keys: seq<Key>) {
    && (forall i :: 0 <= i < |keys| ==>
          IsPlain(keys[i].provider) && (keys[i].slug.Some? ==> IsPlain(keys[i].slug.value)))
    && (forall i, j :: 0 <= i < j < |keys| ==> NamesApart(keys[i], keys[j]))
    && NoNameIsAProvider(keys)
  }

  ghost predicate NoNameIsAProvider(keys: seq<Key>) {
    forall i, j :: 0 <= i < |keys| && 0 <= j < |keys| ==> NoProvidersName(keys[i], keys[j])
  }

  predicate NamesApart(a: Key, b: Key) {
    a.organization == b.organization && a.slug.Some? ==> a.slug != b.slug
  }

  predicate NoProvidersName(a: Key, b: Key) {
    a.organization == b.organization ==> a.slug != Some(b.provider)
  }

  lemma {:induction false} SlugHasAKey(keys: seq<Key>, offers: Offers, target: Target, slug: string) returns (i: nat)
    requires slug in SlugsFor(keys, offers, target)
    ensures i < |keys| && Wants(keys[i], offers, target) && keys[i].slug.value == slug
  {
    var front := keys[..|keys| - 1];
    if slug in SlugsFor(front, offers, target) {
      i := SlugHasAKey(front, offers, target, slug);
    } else {
      i := |keys| - 1;
    }
  }

  lemma {:induction false} WantedSlug(keys: seq<Key>, offers: Offers, target: Target, i: nat)
    requires i < |keys| && Wants(keys[i], offers, target)
    ensures keys[i].slug.value in SlugsFor(keys, offers, target)
  {
    if i < |keys| - 1 {
      WantedSlug(keys[..|keys| - 1], offers, target, i);
    }
  }

  lemma {:induction false} SlugsAreDistinct(keys: seq<Key>, offers: Offers, target: Target)
    requires forall i, j :: 0 <= i < j < |keys| ==> NamesApart(keys[i], keys[j])
    ensures NoRepeats(SlugsFor(keys, offers, target))
  {
    if keys != [] {
      var front, last := keys[..|keys| - 1], keys[|keys| - 1];
      SlugsAreDistinct(front, offers, target);
      if Wants(last, offers, target) && last.slug.value in SlugsFor(front, offers, target) {
        var i := SlugHasAKey(front, offers, target, last.slug.value);
        assert false;
      }
    }
  }

  // ---- the rates after the targets in `done` ---------------------------------------------------------

  predicate Gives(keys: seq<Key>, offers: Offers, target: Target, rate: Rate) {
    rate.organization == target.organization && NamedBy(SlugsFor(keys, offers, target), target.model, rate.modelKey)
  }

  ghost predicate IsDropped(keys: seq<Key>, offers: Offers, done: set<Target>, rate: Rate) {
    exists t :: t in done && Matches(t, rate) && !Kept(keys, offers, t)
  }

  ghost function Left(keys: seq<Key>, offers: Offers, before: Rates, done: set<Target>, rate: Rate): nat {
    if IsDropped(keys, offers, done, rate) then 0 else Count(before, rate)
  }

  ghost function Given(keys: seq<Key>, offers: Offers, before: Rates, done: set<Target>, rate: Rate): nat {
    if exists t :: t in done && Gives(keys, offers, t, rate) then
      var t :| t in done && Gives(keys, offers, t, rate);
      Both(before, t, rate.period)
    else 0
  }

  ghost predicate IsSettled(keys: seq<Key>, offers: Offers, before: Rates, done: set<Target>, now: Rates) {
    forall r :: Count(now, r) == Left(keys, offers, before, done, r) + Given(keys, offers, before, done, r)
  }

  ghost predicate AllTargets(keys: seq<Key>, offers: Offers, done: set<Target>) {
    forall t :: t in done ==> IsTarget(keys, offers, t)
  }

  /** One target's turn in the loop. */
  function Turn(rates: Rates, target: Target, slugs: seq<string>, kept: bool): Rates {
    var grown := rates + Copies(Matching(rates, target), slugs, target.model);
    if kept then grown else Without(grown, target)
  }

  lemma TargetIsPlain(keys: seq<Key>, offers: Offers, target: Target) returns (i: nat)
    requires WellNamed(keys) && IsTarget(keys, offers, target)
    ensures IsPlain(target.provider)
    ensures i < |keys| && keys[i].organization == target.organization && keys[i].provider == target.provider
  {
    i := SlugHasAKey(keys, offers, target, SlugsFor(keys, offers, target)[0]);
  }

  lemma OneMatch(keys: seq<Key>, offers: Offers, s: Target, t: Target, rate: Rate)
    requires WellNamed(keys) && IsTarget(keys, offers, s) && IsTarget(keys, offers, t)
    requires Matches(s, rate) && Matches(t, rate)
    ensures s == t
  {
    var i := TargetIsPlain(keys, offers, s);
    var j := TargetIsPlain(keys, offers, t);
    KeysReadOneWay(s.provider, s.model, t.provider, t.model);
    KeysReadOneWay(t.provider, t.model, s.provider, s.model);
  }

  lemma OneGiver(keys: seq<Key>, offers: Offers, s: Target, t: Target, rate: Rate)
    requires WellNamed(keys) && Gives(keys, offers, s, rate) && Gives(keys, offers, t, rate)
    ensures s == t
  {
    var a :| a in SlugsFor(keys, offers, s) && rate.modelKey == Current(a, s.model);
    var b :| b in SlugsFor(keys, offers, t) && rate.modelKey == Current(b, t.model);
    var i := SlugHasAKey(keys, offers, s, a);
    var j := SlugHasAKey(keys, offers, t, b);
    KeysReadOneWay(a, s.model, b, t.model);
  }

  /** No row written for one target is read, or deleted, for another. */
  lemma NothingGivenToAProvider(keys: seq<Key>, offers: Offers, s: Target, t: Target, rate: Rate)
    requires WellNamed(keys) && IsTarget(keys, offers, t) && Matches(t, rate)
    ensures !Gives(keys, offers, s, rate)
  {
    if Gives(keys, offers, s, rate) {
      var a :| a in SlugsFor(keys, offers, s) && rate.modelKey == Current(a, s.model);
      var i := SlugHasAKey(keys, offers, s, a);
      var j := TargetIsPlain(keys, offers, t);
      KeysReadOneWay(a, s.model, t.provider, t.model);
      assert false;
    }
  }

  lemma CountTurn(rates: Rates, target: Target, slugs: seq<string>, kept: bool, rate: Rate)
    requires NoRepeats(slugs) && !(Matches(target, rate) && NamedBy(slugs, target.model, rate.modelKey))
    ensures Count(Turn(rates, target, slugs, kept), rate)
      == (if !kept && Matches(target, rate) then 0
          else if rate.organization == target.organization && NamedBy(slugs, target.model, rate.modelKey)
          then Count(rates, rate) + Both(rates, target, rate.period)
          else Count(rates, rate))
  {
    hide Copies, Matching, Without, InPeriod, Matches, NamedBy, Both;
    var copies := Copies(Matching(rates, target), slugs, target.model);
    CountCopies(Matching(rates, target), slugs, target.model, rate);
    InPeriodOfMatching(rates, target, rate.organization, rate.period);
    CountMatching(rates + copies, target, rate);
    assert Count(rates + copies, rate) == Count(rates, rate) + Count(copies, rate);
  }

  /** What a turn reads is what the table held before the first of them. */
  lemma TurnReadsTheOriginal(keys: seq<Key>, offers: Offers, before: Rates, done: set<Target>, now: Rates,
                             target: Target, period: Period)
    requires WellNamed(keys) && AllTargets(keys, offers, done) && IsTarget(keys, offers, target) && target !in done
    requires IsSettled(keys, offers, before, done, now)
    ensures Both(now, target, period) == Both(before, target, period)
  {
    hide WellNamed, IsTarget, Kept, SlugsFor, Gives;
    forall rate | Matches(target, rate) ensures Count(now, rate) == Count(before, rate) {
      forall t | t in done ensures !Matches(t, rate) && !Gives(keys, offers, t, rate) {
        NothingGivenToAProvider(keys, offers, t, target, rate);
        if Matches(t, rate) {
          OneMatch(keys, offers, t, target, rate);
        }
      }
    }
  }

  lemma TurnSettles(keys: seq<Key>, offers: Offers, before: Rates, done: set<Target>, now: Rates, target: Target)
    requires WellNamed(keys) && AllTargets(keys, offers, done) && IsTarget(keys, offers, target) && target !in done
    requires IsSettled(keys, offers, before, done, now)
    ensures IsSettled(keys, offers, before, done + {target},
                      Turn(now, target, SlugsFor(keys, offers, target), Kept(keys, offers, target)))
  {
    hide WellNamed, AllTargets, Turn, SlugsFor, IsTarget, Kept, Left, Given;
    forall rate ensures Count(Turn(now, target, SlugsFor(keys, offers, target), Kept(keys, offers, target)), rate)
      == Left(keys, offers, before, done + {target}, rate) + Given(keys, offers, before, done + {target}, rate)
    {
      TurnSettlesOne(keys, offers, before, done, now, target, rate);
    }
  }

  lemma TurnSettlesOne(keys: seq<Key>, offers: Offers, before: Rates, done: set<Target>, now: Rates, target: Target,
                       rate: Rate)
    requires WellNamed(keys) && AllTargets(keys, offers, done) && IsTarget(keys, offers, target) && target !in done
    requires IsSettled(keys, offers, before, done, now)
    ensures Count(Turn(now, target, SlugsFor(keys, offers, target), Kept(keys, offers, target)), rate)
      == Left(keys, offers, before, done + {target}, rate) + Given(keys, offers, before, done + {target}, rate)
  {
    hide WellNamed, AllTargets, Turn, SlugsFor, IsTarget, Kept, Matches, NamedBy, Both, NoRepeats, Left, Given;
    DistinctOf(keys, offers, target);
    if Matches(target, rate) {
      NothingGivenToAProvider(keys, offers, target, target, rate);
      OrganizationOfMatch(target, rate);
    }
    CountTurn(now, target, SlugsFor(keys, offers, target), Kept(keys, offers, target), rate);
    TurnReadsTheOriginal(keys, offers, before, done, now, target, rate.period);
    LeftAfter(keys, offers, before, done, target, rate);
    GivenAfter(keys, offers, before, done, target, rate);
  }

  lemma OrganizationOfMatch(target: Target, rate: Rate)
    requires Matches(target, rate)
    ensures rate.organization == target.organization
  {
  }

  lemma DistinctOf(keys: seq<Key>, offers: Offers, target: Target)
    requires WellNamed(keys)
    ensures NoRepeats(SlugsFor(keys, offers, target))
  {
    SlugsAreDistinct(keys, offers, target);
  }

  lemma LeftAfter(keys: seq<Key>, offers: Offers, before: Rates, done: set<Target>, target: Target, rate: Rate)
    ensures Left(keys, offers, before, done + {target}, rate)
      == if Matches(target, rate) && !Kept(keys, offers, target) then 0 else Left(keys, offers, before, done, rate)
  {
  }

  lemma GivenAfter(keys: seq<Key>, offers: Offers, before: Rates, done: set<Target>, target: Target, rate: Rate)
    requires WellNamed(keys) && AllTargets(keys, offers, done) && IsTarget(keys, offers, target) && target !in done
    ensures Given(keys, offers, before, done + {target}, rate)
      == Given(keys, offers, before, done, rate)
        + (if Gives(keys, offers, target, rate) then Both(before, target, rate.period) else 0)
    ensures Matches(target, rate) ==> Given(keys, offers, before, done + {target}, rate) == 0
  {
    hide WellNamed, IsTarget, Kept, SlugsFor, Gives, Both;
    forall s, t | Gives(keys, offers, s, rate) && Gives(keys, offers, t, rate) ensures s == t {
      OneGiver(keys, offers, s, t, rate);
    }
    if Matches(target, rate) {
      forall t ensures !Gives(keys, offers, t, rate) {
        NothingGivenToAProvider(keys, offers, t, target, rate);
      }
    }
    if Gives(keys, offers, target, rate) {
      assert target in done + {target};
    }
  }

  // ---- the loops -------------------------------------------------------------------------------------

  function SlugsIn(targets: map<Target, seq<string>>, target: Target): seq<string> {
    if target in targets then targets[target] else []
  }

  ghost predicate Collects(targets: map<Target, seq<string>>, keys: seq<Key>, offers: Offers) {
    forall t :: SlugsIn(targets, t) == SlugsFor(keys, offers, t)
  }

  /** Which names need each target's rates. */
  method CollectTargets(keys: seq<Key>, offers: Offers) returns (targets: map<Target, seq<string>>)
    ensures Collects(targets, keys, offers)
    ensures forall t :: t in targets <==> IsTarget(keys, offers, t)
  {
    hide SlugsFor, Wants;
    targets := map[];
    NobodyAsks(offers);
    var i := 0;
    while i < |keys|
      invariant 0 <= i <= |keys|
      invariant Collects(targets, keys[..i], offers)
      invariant forall t :: t in targets ==> targets[t] != []
    {
      if keys[i].slug.Some? {
        targets := AddOffered(targets, keys[i], offers);
      }
      OneMoreKey(keys, offers, i);
      i := i + 1;
    }
    assert keys[..i] == keys;
    assert forall t :: t in targets <==> SlugsIn(targets, t) != [];
  }

  lemma NobodyAsks(offers: Offers)
    ensures forall t :: SlugsFor([], offers, t) == []
  {
  }

  lemma OneMoreKey(keys: seq<Key>, offers: Offers, i: nat)
    requires i < |keys|
    ensures forall t ::
      SlugsFor(keys[..i + 1], offers, t) == SlugsFor(keys[..i], offers, t) + SlugIf(keys[i], Wants(keys[i], offers, t))
    ensures keys[i].slug.None? ==> forall t :: !Wants(keys[i], offers, t)
  {
    assert keys[..i + 1][..i] == keys[..i];
  }

  method AddOffered(was: map<Target, seq<string>>, key: Key, offers: Offers) returns (targets: map<Target, seq<string>>)
    requires key.slug.Some? && forall t :: t in was ==> was[t] != []
    ensures forall t :: SlugsIn(targets, t) == SlugsIn(was, t) + SlugIf(key, Wants(key, offers, t))
    ensures forall t :: t in targets ==> targets[t] != []
  {
    targets := was;
    var todo := Offered(offers, key.id);
    while todo != {}
      invariant todo <= Offered(offers, key.id)
      invariant forall t ::
        SlugsIn(targets, t) == SlugsIn(was, t) + SlugIf(key, Wants(key, offers, t) && t.model !in todo)
      invariant forall t :: t in targets ==> targets[t] != []
      decreases |todo|
    {
      var model :| model in todo;
      var target := Target(key.organization, key.provider, model);
      targets := targets[target := SlugsIn(targets, target) + [key.slug.value]];
      todo := todo - {model};
    }
  }

  /** A model is still served under the provider's own name. */
  predicate StillServed(bareOffers: set<Target>, unnarrowed: set<(nat, string)>, target: Target) {
    target in bareOffers || (target.organization, target.provider) in unnarrowed
  }

  method CollectBare(keys: seq<Key>, offers: Offers) returns (bareOffers: set<Target>, unnarrowed: set<(nat, string)>)
    ensures forall t :: StillServed(bareOffers, unnarrowed, t) <==> Kept(keys, offers, t)
  {
    bareOffers, unnarrowed := {}, {};
    var i := 0;
    while i < |keys|
      invariant 0 <= i <= |keys|
      invariant forall t :: StillServed(bareOffers, unnarrowed, t) <==> Kept(keys[..i], offers, t)
    {
      ghost var was, wasUnnarrowed := bareOffers, unnarrowed;
      var key := keys[i];
      if key.slug.None? && !key.archived {
        var models := Offered(offers, key.id);
        if models == {} {
          unnarrowed := unnarrowed + {(key.organization, key.provider)};
        }
        bareOffers := bareOffers + (set m | m in models :: Target(key.organization, key.provider, m));
      }
      KeptByOneMore(keys, offers, i);
      assert forall t ::
        StillServed(bareOffers, unnarrowed, t) <==> StillServed(was, wasUnnarrowed, t) || Serves(key, offers, t);
      i := i + 1;
    }
    assert keys[..i] == keys;
  }

  lemma KeptByOneMore(keys: seq<Key>, offers: Offers, i: nat)
    requires i < |keys|
    ensures forall t :: Kept(keys[..i + 1], offers, t) <==> Kept(keys[..i], offers, t) || Serves(keys[i], offers, t)
  {
  }

  lemma NothingCopied(rows: Rates, slugs: seq<string>, model: string)
    ensures Copies(rows[..0], slugs, model) == []
    ensures forall row :: RowCopies(row, slugs[..0], model) == []
  {
  }

  lemma OneMoreCopy(row: Rate, slugs: seq<string>, model: string, j: nat)
    requires j < |slugs|
    ensures RowCopies(row, slugs[..j + 1], model)
      == RowCopies(row, slugs[..j], model) + [row.(modelKey := Current(slugs[j], model))]
  {
    assert slugs[..j + 1][..j] == slugs[..j];
  }

  lemma OneMoreCopied(rows: Rates, slugs: seq<string>, model: string, i: nat)
    requires i < |rows|
    ensures Copies(rows[..i + 1], slugs, model) == Copies(rows[..i], slugs, model) + RowCopies(rows[i], slugs, model)
  {
    assert rows[..i + 1][..i] == rows[..i];
  }

  class RateTable {
    var rates: Rates

    /** Every matching rate, copied once to every name. */
    method CopyRates(target: Target, slugs: seq<string>)
      modifies this
      ensures rates == old(rates) + Copies(Matching(old(rates), target), slugs, target.model)
    {
      var rows := Matching(rates, target);
      hide Matching, Copies, RowCopies, Current;
      NothingCopied(rows, slugs, target.model);
      var i := 0;
      while i < |rows|
        invariant 0 <= i <= |rows|
        invariant rates == old(rates) + Copies(rows[..i], slugs, target.model)
      {
        ghost var before := rates;
        var j := 0;
        while j < |slugs|
          invariant 0 <= j <= |slugs|
          invariant rates == before + RowCopies(rows[i], slugs[..j], target.model)
        {
          OneMoreCopy(rows[i], slugs, target.model, j);
          rates := rates + [rows[i].(modelKey := Current(slugs[j], target.model))];
          j := j + 1;
        }
        assert slugs[..j] == slugs;
        OneMoreCopied(rows, slugs, target.model, i);
        i := i + 1;
      }
      assert rows[..i] == rows;
    }

    /**
     The rates of every target go to its names, and leave the provider unless a live bare key serves the model:
     one turn after another, and where names can be told apart, each reading the table as it was at first.
     */
    method Move(keys: seq<Key>, offers: Offers) returns (ghost order: seq<Target>)
      modifies this
      ensures IsOrder(keys, offers, order)
      ensures rates == Turns(keys, offers, old(rates), order)
      ensures WellNamed(keys) ==> IsSettled(keys, offers, old(rates), Done(order), rates)
    {
      hide WellNamed, IsSettled, IsTarget, Kept, Copies, Matching, Without, Turns, IsOrder, Done;
      var targets := CollectTargets(keys, offers);
      var bareOffers, unnarrowed := CollectBare(keys, offers);
      var todo := targets.Keys;
      order := [];
      NoTurnsYet(keys, offers, rates);
      assert targets.Keys - todo == {};
      while todo != {}
        invariant todo <= targets.Keys && Done(order) == targets.Keys - todo && IsDistinct(order)
        invariant rates == Turns(keys, offers, old(rates), order)
        decreases |todo|
      {
        var target :| target in todo;
        var slugs := targets[target];
        assert slugs == SlugsIn(targets, target) == SlugsFor(keys, offers, target);
        ghost var was := rates;
        CopyRates(target, slugs);
        if !StillServed(bareOffers, unnarrowed, target) {
          rates := Without(rates, target);
        }
        assert rates == Turn(was, target, slugs, Kept(keys, offers, target));
        OneMoreTurn(keys, offers, old(rates), order, target);
        OneLess(targets.Keys, todo, target);
        order := order + [target];
        todo := todo - {target};
      }
      assert Done(order) == targets.Keys;
      OrderOfAll(keys, offers, order);
      if WellNamed(keys) {
        TurnsSettle(keys, offers, old(rates), order);
      }
    }
  }

  /** The turns of the targets, one after another. */
  function Turns(keys: seq<Key>, offers: Offers, rates: Rates, order: seq<Target>): Rates {
    if order == [] then rates
    else
      var last := order[|order| - 1];
      var before := Turns(keys, offers, rates, order[..|order| - 1]);
      Turn(before, last, SlugsFor(keys, offers, last), Kept(keys, offers, last))
  }

  ghost function Done(order: seq<Target>): set<Target> {
    set t | t in order
  }

  ghost predicate IsDistinct(order: seq<Target>) {
    forall i, j :: 0 <= i < j < |order| ==> order[i] != order[j]
  }

  /** Every target once. */
  ghost predicate IsOrder(keys: seq<Key>, offers: Offers, order: seq<Target>) {
    IsDistinct(order) && forall t :: t in order <==> IsTarget(keys, offers, t)
  }

  lemma NoTurnsYet(keys: seq<Key>, offers: Offers, rates: Rates)
    ensures Turns(keys, offers, rates, []) == rates && Done([]) == {} && IsDistinct([])
  {
  }

  lemma OneMoreTurn(keys: seq<Key>, offers: Offers, rates: Rates, order: seq<Target>, target: Target)
    requires target !in Done(order) && IsDistinct(order)
    ensures Done(order + [target]) == Done(order) + {target} && IsDistinct(order + [target])
    ensures Turns(keys, offers, rates, order + [target])
      == Turn(Turns(keys, offers, rates, order), target, SlugsFor(keys, offers, target), Kept(keys, offers, target))
  {
    assert (order + [target])[..|order|] == order;
  }

  lemma OrderOfAll(keys: seq<Key>, offers: Offers, order: seq<Target>)
    requires IsDistinct(order) && forall t :: t in Done(order) <==> IsTarget(keys, offers, t)
    ensures IsOrder(keys, offers, order) && forall t :: t in order ==> IsTarget(keys, offers, t)
  {
    hide IsTarget;
    assert forall t :: t in order <==> t in Done(order);
  }

  /** Whatever the order, each turn reads what the table held at first, and the outcome is the same. */
  lemma {:induction false} TurnsSettle(keys: seq<Key>, offers: Offers, rates: Rates, order: seq<Target>)
    requires WellNamed(keys) && IsDistinct(order) && forall t :: t in order ==> IsTarget(keys, offers, t)
    ensures IsSettled(keys, offers, rates, Done(order), Turns(keys, offers, rates, order))
  {
    hide WellNamed, IsTarget, IsSettled, Kept, SlugsFor, Turn;
    if order == [] {
      NothingSettledYet(keys, offers, rates);
      NoTurnsYet(keys, offers, rates);
    } else {
      var front, last := order[..|order| - 1], order[|order| - 1];
      assert order == front + [last];
      TurnsSettle(keys, offers, rates, front);
      OneMoreTurn(keys, offers, rates, front, last);
      TurnSettles(keys, offers, rates, Done(front), Turns(keys, offers, rates, front), last);
    }
  }

  lemma NothingSettledYet(keys: seq<Key>, offers: Offers, rates: Rates)
    ensures IsSettled(keys, offers, rates, {}, rates)
  {
  }

  // ---- what every key is charged afterwards ----------------------------------------------------------

  /** The rates as the migration leaves them. */
  ghost predicate Moved(keys: seq<Key>, offers: Offers, before: Rates, done: set<Target>, after: Rates) {
    && WellNamed(keys)
    && (forall t :: t in done <==> IsTarget(keys, offers, t))
    && IsSettled(keys, offers, before, done, after)
  }

  /**
   Under its own name a key has, for a model it offers, exactly the rates its provider had under either spelling,
   besides any there were already; for a model it does not offer by name it gets none.
   */
  lemma KeyHasItsRates(keys: seq<Key>, offers: Offers, before: Rates, done: set<Target>, after: Rates, i: nat,
                       model: string, period: Period)
    requires Moved(keys, offers, before, done, after) && i < |keys| && keys[i].slug.Some?
    ensures var (organization, name, provider) := (keys[i].organization, keys[i].slug.value, keys[i].provider);
      Count(after, Rate(organization, name + ":" + model, period))
      == Count(before, Rate(organization, name + ":" + model, period))
         + if keys[i].id in offers && model in offers[keys[i].id]
           then Count(before, Rate(organization, provider + ":" + model, period))
                + Count(before, Rate(organization, provider + "/" + model, period))
           else 0
  {
    hide Moved;
    NameHasBothSpellings(keys, offers, before, done, after, i, model, period);
  }

  lemma NameHasBothSpellings(keys: seq<Key>, offers: Offers, before: Rates, done: set<Target>, after: Rates, i: nat,
                       model: string, period: Period)
    requires Moved(keys, offers, before, done, after) && i < |keys| && keys[i].slug.Some?
    ensures var rate := Rate(keys[i].organization, Current(keys[i].slug.value, model), period);
      Count(after, rate) == Count(before, rate)
        + (if model in Offered(offers, keys[i].id)
           then Both(before, Target(keys[i].organization, keys[i].provider, model), period) else 0)
  {
    hide SlugsFor, Kept, Both;
    var key := keys[i];
    var rate := Rate(key.organization, Current(key.slug.value, model), period);
    var target := Target(key.organization, key.provider, model);
    forall t | IsTarget(keys, offers, t) ensures !Matches(t, rate) {
      var j := TargetIsPlain(keys, offers, t);
      KeysReadOneWay(key.slug.value, model, t.provider, t.model);
      assert NoProvidersName(key, keys[j]);
    }
    forall t | Gives(keys, offers, t, rate) ensures t == target && model in Offered(offers, key.id) {
      var a :| a in SlugsFor(keys, offers, t) && rate.modelKey == Current(a, t.model);
      var j := SlugHasAKey(keys, offers, t, a);
      KeysReadOneWay(key.slug.value, model, a, t.model);
      SameNameSameKey(keys, i, j);
    }
    if model in Offered(offers, key.id) {
      WantedSlug(keys, offers, target, i);
      assert Gives(keys, offers, target, rate);
    }
  }

  lemma SameNameSameKey(keys: seq<Key>, i: nat, j: nat)
    requires WellNamed(keys) && i < |keys| && j < |keys|
    requires keys[i].organization == keys[j].organization && keys[i].slug.Some? && keys[i].slug == keys[j].slug
    ensures i == j
  {
  }

  /** A provider's rate survives unless a named key took it and no live bare key serves the model. */
  lemma ProviderKeepsItsRates(keys: seq<Key>, offers: Offers, before: Rates, done: set<Target>, after: Rates, j: nat,
                              model: string, rate: Rate)
    requires Moved(keys, offers, before, done, after) && j < |keys|
    requires rate.organization == keys[j].organization
    requires rate.modelKey == keys[j].provider + ":" + model || rate.modelKey == keys[j].provider + "/" + model
    ensures var target := Target(keys[j].organization, keys[j].provider, model);
      Count(after, rate)
        == if IsTarget(keys, offers, target) && !Kept(keys, offers, target) then 0 else Count(before, rate)
  {
    hide SlugsFor, Kept, IsTarget;
    var target := Target(keys[j].organization, keys[j].provider, model);
    forall t ensures !Gives(keys, offers, t, rate) {
      if Gives(keys, offers, t, rate) {
        var a :| a in SlugsFor(keys, offers, t) && rate.modelKey == Current(a, t.model);
        var i := SlugHasAKey(keys, offers, t, a);
        KeysReadOneWay(a, t.model, target.provider, model);
        assert false;
      }
    }
    forall t | IsTarget(keys, offers, t) && Matches(t, rate) ensures t == target {
      var i := TargetIsPlain(keys, offers, t);
      KeysReadOneWay(t.provider, t.model, target.provider, model);
      KeysReadOneWay(target.provider, model, t.provider, t.model);
    }
  }

  /** Every other rate is untouched, another organization's and another spelling's among them. */
  lemma OtherRatesAreUntouched(keys: seq<Key>, offers: Offers, before: Rates, done: set<Target>, after: Rates,
                               rate: Rate)
    requires Moved(keys, offers, before, done, after)
    requires forall t :: IsTarget(keys, offers, t) ==> !Matches(t, rate) && !Gives(keys, offers, t, rate)
    ensures Count(after, rate) == Count(before, rate)
  {
  }

  // ---- the unique index on the start of a period ------------------------------------------------------

  predicate SameStart(a: Rate, b: Rate) {
    a.organization == b.organization && a.modelKey == b.modelKey && StartTogether(a.period, b.period)
  }

  predicate StartTogether(a: Period, b: Period) {
    a.kind == b.kind && a.start == b.start
  }

  ghost predicate UniqueStarts(rates: Rates) {
    (forall r :: Count(rates, r) <= 1) && (forall r, s :: r in rates && s in rates && SameStart(r, s) ==> r == s)
  }

  /** Two rates that would start together under one name: both spellings, or one and the name's own. */
  ghost predicate Collide(keys: seq<Key>, offers: Offers, target: Target, a: Rate, b: Rate) {
    IsTarget(keys, offers, target) && Matches(target, a) && StartTogether(a.period, b.period)
    && ((Matches(target, b) && a.modelKey != b.modelKey) || Gives(keys, offers, target, b))
  }

  ghost predicate AnyCollide(keys: seq<Key>, offers: Offers, rates: Rates) {
    exists t, a, b :: a in rates && b in rates && Collide(keys, offers, t, a, b)
  }

  /** A copy in `after` has the row it was copied from. */
  lemma RowComesFrom(keys: seq<Key>, offers: Offers, before: Rates, done: set<Target>, after: Rates, target: Target,
                     rate: Rate)
    returns (from: Rate)
    requires Moved(keys, offers, before, done, after) && target in done && Gives(keys, offers, target, rate)
    requires rate in after
    ensures from in before && from.period == rate.period
    ensures from == rate || Matches(target, from)
  {
    hide WellNamed, SlugsFor, Kept, IsTarget;
    forall t | Gives(keys, offers, t, rate) ensures t == target {
      OneGiver(keys, offers, t, target, rate);
    }
    if rate in before {
      from := rate;
    } else {
      assert Count(after, rate) > 0 && Count(before, rate) == 0;
      assert Both(before, target, rate.period) > 0;
      var current := Rate(target.organization, Current(target.provider, target.model), rate.period);
      var legacy := Rate(target.organization, Legacy(target.provider, target.model), rate.period);
      from := if current in before then current else legacy;
    }
  }

  lemma CountOfGiven(keys: seq<Key>, offers: Offers, before: Rates, done: set<Target>, after: Rates, target: Target,
                     rate: Rate)
    requires Moved(keys, offers, before, done, after) && IsTarget(keys, offers, target)
    requires Gives(keys, offers, target, rate)
    ensures Count(after, rate) == Count(before, rate) + Both(before, target, rate.period)
  {
    hide WellNamed, SlugsFor, Kept, IsTarget, Gives, Both, Matches;
    forall t | Gives(keys, offers, t, rate) ensures t == target {
      OneGiver(keys, offers, t, target, rate);
    }
    forall t | t in done ensures !Matches(t, rate) {
      if Matches(t, rate) {
        NothingGivenToAProvider(keys, offers, target, t, rate);
      }
    }
  }

  lemma SharedByGivers(keys: seq<Key>, offers: Offers, target: Target, a: Rate, b: Rate)
    requires Gives(keys, offers, target, a) && SameStart(a, b)
    ensures Gives(keys, offers, target, b)
  {
  }

  lemma CollisionShows(keys: seq<Key>, offers: Offers, before: Rates, done: set<Target>, after: Rates, target: Target,
                       a: Rate, b: Rate)
    requires Moved(keys, offers, before, done, after)
    requires a in before && b in before && Collide(keys, offers, target, a, b)
    ensures !UniqueStarts(after)
  {
    hide WellNamed, Kept, SlugsFor;
    var slugs := SlugsFor(keys, offers, target);
    var modelKey := if Gives(keys, offers, target, b) then b.modelKey else Current(slugs[0], target.model);
    assert NamedBy(slugs, target.model, modelKey) by {
      assert slugs[0] in slugs;
    }
    var first := Rate(target.organization, modelKey, a.period);
    CountOfGiven(keys, offers, before, done, after, target, first);
    TheSpellingsDiffer(target);
    assert Both(before, target, a.period) >= 1;
    if Gives(keys, offers, target, b) {
      CountOfGiven(keys, offers, before, done, after, target, b);
      assert SameStart(first, b);
      assert Count(after, first) > 0 && Count(after, b) > 0;
    } else {
      var second := first.(period := b.period);
      CountOfGiven(keys, offers, before, done, after, target, second);
      assert SameStart(first, second);
      assert Both(before, target, b.period) >= 1;
      assert Count(after, first) > 0 && Count(after, second) > 0;
      assert a.period == b.period ==> Both(before, target, a.period) >= 2;
    }
  }

  lemma GivenRateIsSingle(keys: seq<Key>, offers: Offers, before: Rates, done: set<Target>, after: Rates,
                          target: Target, rate: Rate)
    requires Moved(keys, offers, before, done, after) && IsTarget(keys, offers, target)
    requires Gives(keys, offers, target, rate)
    requires UniqueStarts(before) && !AnyCollide(keys, offers, before)
    ensures Count(after, rate) <= 1
  {
    hide WellNamed, Kept, SlugsFor, IsTarget;
    CountOfGiven(keys, offers, before, done, after, target, rate);
    TheSpellingsDiffer(target);
    var current := Rate(target.organization, Current(target.provider, target.model), rate.period);
    var legacy := Rate(target.organization, Legacy(target.provider, target.model), rate.period);
    assert Count(before, rate) <= 1 && Count(before, current) <= 1 && Count(before, legacy) <= 1;
    assert !Collide(keys, offers, target, current, legacy) || current !in before || legacy !in before;
    assert !Collide(keys, offers, target, current, rate) || current !in before || rate !in before;
    assert !Collide(keys, offers, target, legacy, rate) || legacy !in before || rate !in before;
  }

  lemma GivenRatesAreOne(keys: seq<Key>, offers: Offers, before: Rates, done: set<Target>, after: Rates,
                         target: Target, a: Rate, b: Rate)
    requires Moved(keys, offers, before, done, after) && IsTarget(keys, offers, target)
    requires Gives(keys, offers, target, a)
    requires UniqueStarts(before) && !AnyCollide(keys, offers, before)
    requires a in after && b in after && SameStart(a, b)
    ensures a == b
  {
    SharedByGivers(keys, offers, target, a, b);
    hide WellNamed, Kept, SlugsFor, IsTarget, Gives;
    var x := RowComesFrom(keys, offers, before, done, after, target, a);
    var y := RowComesFrom(keys, offers, before, done, after, target, b);
    assert !Collide(keys, offers, target, x, y) && !Collide(keys, offers, target, y, x);
    assert SameStart(x, y) ==> x == y;
  }

  /**
   The index on the start of a period refuses the migration exactly when a rate would start together with one of
   the other spelling, or with one already stored under the new name.
   */
  lemma StartsStayUnique(keys: seq<Key>, offers: Offers, before: Rates, done: set<Target>, after: Rates)
    requires Moved(keys, offers, before, done, after) && UniqueStarts(before)
    ensures UniqueStarts(after) <==> !AnyCollide(keys, offers, before)
  {
    hide WellNamed, Kept, SlugsFor, IsTarget, Gives, Collide, SameStart, Both;
    if AnyCollide(keys, offers, before) {
      var t, a, b :| a in before && b in before && Collide(keys, offers, t, a, b);
      CollisionShows(keys, offers, before, done, after, t, a, b);
    } else {
      forall r ensures Count(after, r) <= 1 {
        if t :| t in done && Gives(keys, offers, t, r) {
          GivenRateIsSingle(keys, offers, before, done, after, t, r);
        } else {
          assert Count(after, r) <= Count(before, r);
        }
      }
      forall r, s | r in after && s in after && SameStart(r, s) ensures r == s {
        StartsOnce(keys, offers, before, done, after, r, s);
      }
    }
  }

  lemma StartsOnce(keys: seq<Key>, offers: Offers, before: Rates, done: set<Target>, after: Rates, r: Rate, s: Rate)
    requires Moved(keys, offers, before, done, after) && UniqueStarts(before) && !AnyCollide(keys, offers, before)
    requires r in after && s in after && SameStart(r, s)
    ensures r == s
  {
    hide WellNamed, Kept, SlugsFor, IsTarget, Gives, Collide, Both;
    if t :| t in done && Gives(keys, offers, t, r) {
      GivenRatesAreOne(keys, offers, before, done, after, t, r, s);
    } else if t :| t in done && Gives(keys, offers, t, s) {
      GivenRatesAreOne(keys, offers, before, done, after, t, s, r);
    } else {
      assert Count(after, r) <= Count(before, r) && Count(after, s) <= Count(before, s);
      assert Count(after, r) > 0 && Count(after, s) > 0;
    }
  }

  /** A key of one name that offers one model. */
  lemma OneNamedKey() returns (keys: seq<Key>, offers: Offers, target: Target)
    ensures WellNamed(keys) && |keys| == 1 && Wants(keys[0], offers, target) && IsOrder(keys, offers, [target])
  {
    var key := Key(0, 0, "openai", "x", true, false, false, Some("x"));
    keys, offers, target := [key], map[0 := {"m"}], Target(0, "openai", "m");
    assert key.provider[0] != key.slug.value[0];
    forall t ensures IsTarget(keys, offers, t) <==> t == target {
      assert keys[..0] == [];
      assert SlugsFor(keys, offers, t) == SlugsFor([], offers, t) + SlugIf(key, Wants(key, offers, t));
    }
  }

  /** Rates of both spellings in one period, and a named key that offers the model: no outcome fits the index. */
  lemma BothSpellingsCollide() returns (keys: seq<Key>, offers: Offers, rates: Rates)
    ensures WellNamed(keys) && UniqueStarts(rates)
    ensures exists done, after :: Moved(keys, offers, rates, done, after)
    ensures forall done, after :: Moved(keys, offers, rates, done, after) ==> !UniqueStarts(after)
  {
    var target;
    keys, offers, target := OneNamedKey();
    var period := Period("model", 0, None, false, "");
    var a := Rate(target.organization, Current(target.provider, target.model), period);
    var b := a.(modelKey := Legacy(target.provider, target.model));
    rates := [a, b];
    TheSpellingsDiffer(target);
    hide WellNamed, SlugsFor;
    assert a in rates && b in rates && Collide(keys, offers, target, a, b);
    AnyOutcomeBreaks(keys, offers, rates);
    SomeOutcome(keys, offers, rates, [target]);
  }

  lemma AnyOutcomeBreaks(keys: seq<Key>, offers: Offers, rates: Rates)
    requires UniqueStarts(rates) && AnyCollide(keys, offers, rates)
    ensures forall done, after :: Moved(keys, offers, rates, done, after) ==> !UniqueStarts(after)
  {
    hide Moved, UniqueStarts, AnyCollide;
    forall done, after | Moved(keys, offers, rates, done, after) ensures !UniqueStarts(after) {
      StartsStayUnique(keys, offers, rates, done, after);
    }
  }

  lemma SomeOutcome(keys: seq<Key>, offers: Offers, rates: Rates, order: seq<Target>)
    requires WellNamed(keys) && IsOrder(keys, offers, order)
    ensures Moved(keys, offers, rates, Done(order), Turns(keys, offers, rates, order))
  {
    hide WellNamed, IsTarget, IsSettled;
    TurnsSettle(keys, offers, rates, order);
  }

  // ---- the names the first half hands out ------------------------------------------------------------

  /** No name tried for a key is a provider of its organization's keys. */
  ghost predicate NeverAProvider(keys: seq<Key>, taken: set<string>) {
    forall i, j :: 0 <= i < |keys| && 0 <= j < |keys| ==> MissesProvider(keys[i], keys[j], taken)
  }

  ghost predicate MissesProvider(a: Key, b: Key, taken: set<string>) {
    a.organization == b.organization && a.custom ==>
      forall n: nat :: n >= 1 ==> Candidate(Start(a.lowered, a.provider, taken), n) != b.provider
  }

  /**
   The keys the first half leaves can be told apart exactly when no name it handed out is a provider of the
   organization, which holds when none of the names tried is; a name that is only a stored instance's does no harm
   to the rates.
   */
  lemma NamedKeysAreWellNamed(before: seq<Key>, after: seq<Key>, taken: set<string>)
    requires |before| == |after| && forall i :: 0 <= i < |before| ==>
      before[i].slug == None && IsNamed(before, after, taken, i)
    requires forall i :: 0 <= i < |before| ==> IsPlain(before[i].provider)
    ensures WellNamed(after) <==> NoNameIsAProvider(after)
    ensures NeverAProvider(before, taken) ==> WellNamed(after)
  {
    hide Start, FirstFree, UsedBefore, MissesProvider, IsPlain, NamesApart, NoProvidersName;
    forall i | 0 <= i < |after|
      ensures IsPlain(after[i].provider) && (after[i].slug.Some? ==> IsPlain(after[i].slug.value))
    {
      assert IsNamed(before, after, taken, i);
      if before[i].custom {
        SlugOfANamedKey(before[i], after[i], before[i], taken, UsedBefore(after, i, before[i].organization));
      }
    }
    forall i, j | 0 <= i < j < |after| ensures NamesApart(after[i], after[j]) {
      ApartWhenNamed(before, after, taken, i, j);
    }
    if NeverAProvider(before, taken) {
      forall i, j | 0 <= i < |after| && 0 <= j < |after| ensures NoProvidersName(after[i], after[j]) {
        assert IsNamed(before, after, taken, i) && IsNamed(before, after, taken, j);
        NeverItsProvider(before[i], after[i], before[j], after[j], taken, UsedBefore(after, i, before[i].organization));
      }
    }
  }

  lemma ApartWhenNamed(before: seq<Key>, after: seq<Key>, taken: set<string>, i: nat, j: nat)
    requires |before| == |after| && forall k :: 0 <= k < |before| ==>
      before[k].slug == None && IsNamed(before, after, taken, k)
    requires i < j < |after|
    ensures NamesApart(after[i], after[j])
  {
    if after[i].organization == after[j].organization && after[i].slug.Some? && after[j].slug.Some? {
      NamesAreDistinct(before, after, taken, i, j);
    }
  }

  lemma NeverItsProvider(was: Key, now: Key, other: Key, otherNow: Key, taken: set<string>, used: set<string>)
    requires was.slug == None && IsNamedRow(was, now, taken, used) && IsPlain(was.provider)
    requires otherNow.organization == other.organization && otherNow.provider == other.provider
    requires MissesProvider(was, other, taken)
    ensures NoProvidersName(now, otherNow)
  {
    if was.custom {
      SlugOfANamedKey(was, now, other, taken, used);
    }
  }

  lemma SlugOfANamedKey(was: Key, now: Key, other: Key, taken: set<string>, used: set<string>)
    requires was.custom && IsNamedRow(was, now, taken, used) && IsPlain(was.provider)
    ensures IsPlain(now.slug.value)
    ensures was.organization == other.organization && MissesProvider(was, other, taken) ==>
      now.slug.value != other.provider
  {
    hide Start, IsPlain;
    var n: nat :| IsFirstFree(Start(was.lowered, was.provider, taken), used, now.slug.value, n);
    SlugIsPlain(was.lowered, was.provider, taken, n);
  }
}
