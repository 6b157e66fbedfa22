/** Revision b3e7d1a9c5f2: what a request for a named key's model costs before and after its rates are copied. */
module ProviderPrices {
  import opened Common
  import opened ProviderSlugs
  import opened ProviderRates

  /** When a price is asked for, and whether only the operator's rates count. */
  datatype Lookup = Lookup(at: int, operatorOnly: bool)

  /** From its start on, and up to its end but not at it. */
  predicate Applies(period: Period, lookup: Lookup) {
    && period.kind == "model"
    && period.start <= lookup.at
    && (period.end.None? || lookup.at < period.end.value)
    && (lookup.operatorOnly ==> period.byOperator)
  }

  predicate Stands(rates: Rates, organization: nat, modelKey: string, lookup: Lookup, period: Period) {
    Rate(organization, modelKey, period) in rates && Applies(period, lookup)
  }

  predicate IsNewer(period: Period, than: Option<Period>) {
    than.None? || than.value.start <= period.start
  }

  /** The newest period that stands under one spelling. */
  function Newest(rates: Rates, organization: nat, modelKey: string, lookup: Lookup): (newest: Option<Period>)
    ensures newest.Some? ==> Stands(rates, organization, modelKey, lookup, newest.value)
    ensures forall p ::
      Stands(rates, organization, modelKey, lookup, p) ==> newest.Some? && p.start <= newest.value.start
  {
    if rates == [] then None
    else
      var front, last := rates[..|rates| - 1], rates[|rates| - 1];
      var rest := Newest(front, organization, modelKey, lookup);
      assert forall r :: r in rates <==> r in front || r == last;
      if last.organization == organization && last.modelKey == modelKey && Applies(last.period, lookup)
         && IsNewer(last.period, rest)
      then Some(last.period)
      else rest
  }

  /** The current spelling first: an older one counts only where that has nothing. */
  function Paid(rates: Rates, organization: nat, name: string, model: string, lookup: Lookup): Option<Period> {
    Newest(rates, organization, Current(name, model), lookup)
      .Or(Newest(rates, organization, Legacy(name, model), lookup))
  }

  /** A rate of the organization's under this key that holds at the moment asked about. */
  ghost predicate Holds(rates: Rates, organization: nat, modelKey: string, lookup: Lookup, p: Period) {
    && Rate(organization, modelKey, p) in rates && p.kind == "model"
    && p.start <= lookup.at && (p.end.Some? ==> lookup.at < p.end.value)
    && (lookup.operatorOnly ==> p.byOperator)
  }

  ghost predicate NoneHolds(rates: Rates, organization: nat, modelKey: string, lookup: Lookup) {
    forall p :: !Holds(rates, organization, modelKey, lookup, p)
  }

  ghost predicate IsLatestToHold(rates: Rates, organization: nat, modelKey: string, lookup: Lookup, p: Period) {
    && Holds(rates, organization, modelKey, lookup, p)
    && forall q :: Holds(rates, organization, modelKey, lookup, q) ==> q.start <= p.start
  }

  /** What is paid is the latest rate that holds as `name:model`, or as `name/model` where no other does. */
  lemma PaidIs(rates: Rates, organization: nat, name: string, model: string, lookup: Lookup)
    ensures match Paid(rates, organization, name, model, lookup)
      case None =>
        NoneHolds(rates, organization, name + ":" + model, lookup)
        && NoneHolds(rates, organization, name + "/" + model, lookup)
      case Some(p) =>
        IsLatestToHold(rates, organization, name + ":" + model, lookup, p)
        || (NoneHolds(rates, organization, name + ":" + model, lookup)
            && IsLatestToHold(rates, organization, name + "/" + model, lookup, p))
  {
    forall modelKey, p
      ensures Holds(rates, organization, modelKey, lookup, p) <==> Stands(rates, organization, modelKey, lookup, p)
    {
    }
  }

  /** What the copies leave under a key's current spelling: its own periods and both of its provider's. */
  lemma StandsUnderTheName(keys: seq<Key>, offers: Offers, before: Rates, done: set<Target>, after: Rates, i: nat,
                           model: string, lookup: Lookup, period: Period)
    requires Moved(keys, offers, before, done, after) && i < |keys| && keys[i].slug.Some?
    requires model in Offered(offers, keys[i].id)
    ensures var (organization, name, provider) := (keys[i].organization, keys[i].slug.value, keys[i].provider);
      Stands(after, organization, Current(name, model), lookup, period)
      <==> Stands(before, organization, Current(name, model), lookup, period)
           || Stands(before, organization, Current(provider, model), lookup, period)
           || Stands(before, organization, Legacy(provider, model), lookup, period)
  {
    hide Moved;
    NameHasBothSpellings(keys, offers, before, done, after, i, model, period);
  }

  lemma OlderSpellingIsUntouched(keys: seq<Key>, offers: Offers, before: Rates, done: set<Target>, after: Rates,
                                 i: nat, model: string, period: Period)
    requires Moved(keys, offers, before, done, after) && i < |keys| && keys[i].slug.Some?
    ensures var rate := Rate(keys[i].organization, Legacy(keys[i].slug.value, model), period);
      rate in after <==> rate in before
  {
    hide SlugsFor, Kept, IsSettled;
    var name := keys[i].slug.value;
    var rate := Rate(keys[i].organization, Legacy(name, model), period);
    forall t | IsTarget(keys, offers, t) ensures !Matches(t, rate) && !Gives(keys, offers, t, rate) {
      var j := TargetIsPlain(keys, offers, t);
      KeysReadOneWay(name, model, t.provider, t.model);
      KeysReadOneWay(t.provider, t.model, name, model);
      assert NoProvidersName(keys[i], keys[j]);
      if Gives(keys, offers, t, rate) {
        var a :| a in SlugsFor(keys, offers, t) && rate.modelKey == Current(a, t.model);
        var k := SlugHasAKey(keys, offers, t, a);
        KeysReadOneWay(a, t.model, name, model);
        assert false;
      }
    }
    OtherRatesAreUntouched(keys, offers, before, done, after, rate);
  }

  /** Stands under the older spelling, or under the key's name already. */
  predicate IsBeside(before: Rates, key: Key, model: string, lookup: Lookup, period: Period) {
    || Stands(before, key.organization, Legacy(key.provider, model), lookup, period)
    || (key.slug.Some? && Stands(before, key.organization, Current(key.slug.value, model), lookup, period))
  }

  /** None of those started after what was paid. */
  ghost predicate StaysNewest(before: Rates, key: Key, model: string, lookup: Lookup, paid: Period) {
    forall p :: IsBeside(before, key, model, lookup, p) ==> p.start <= paid.start
  }

  lemma SameStartIsSame(rates: Rates, organization: nat, modelKey: string, lookup: Lookup, p: Period, q: Period)
    requires UniqueStarts(rates) && p.start == q.start
    requires Stands(rates, organization, modelKey, lookup, p) && Stands(rates, organization, modelKey, lookup, q)
    ensures p == q
  {
    assert SameStart(Rate(organization, modelKey, p), Rate(organization, modelKey, q));
  }

  lemma PaidStands(rates: Rates, organization: nat, name: string, model: string, lookup: Lookup)
    ensures var paid := Paid(rates, organization, name, model, lookup);
      && (paid.None? ==> forall p :: !Stands(rates, organization, Current(name, model), lookup, p)
                                     && !Stands(rates, organization, Legacy(name, model), lookup, p))
      && (paid.Some? ==> Stands(rates, organization, Current(name, model), lookup, paid.value)
                         || Stands(rates, organization, Legacy(name, model), lookup, paid.value))
      && (paid.Some? ==> forall p :: Stands(rates, organization, Current(name, model), lookup, p) ==>
            p.start <= paid.value.start)
  {
    hide Stands;
  }

  /** Of the periods brought together the one paid before is the newest exactly when none of the others is newer. */
  lemma Brought(key: Key, before: Rates, after: Rates, model: string, lookup: Lookup, was: Period)
    requires UniqueStarts(after) && key.slug.Some?
    requires Paid(before, key.organization, key.provider, model, lookup) == Some(was)
    requires forall p :: Stands(after, key.organization, Current(key.slug.value, model), lookup, p) <==>
      Stands(before, key.organization, Current(key.provider, model), lookup, p)
      || IsBeside(before, key, model, lookup, p)
    ensures Paid(after, key.organization, key.slug.value, model, lookup) == Some(was)
      <==> StaysNewest(before, key, model, lookup, was)
  {
    var organization, name := key.organization, key.slug.value;
    PaidStands(before, organization, key.provider, model, lookup);
    var now := Newest(after, organization, Current(name, model), lookup);
    assert Stands(after, organization, Current(name, model), lookup, was);
    hide Newest, UniqueStarts;
    if StaysNewest(before, key, model, lookup, was) {
      hide Stands, IsBeside;
      SameStartIsSame(after, organization, Current(name, model), lookup, now.value, was);
    }
  }

  /**
   A key that offers a model pays under its name what its provider paid for the model exactly when no period of
   the older spelling, or of the name's own, started after the one paid; and where the provider paid nothing,
   exactly when the name had no rate of its own.
   */
  lemma PaysAsBefore(keys: seq<Key>, offers: Offers, before: Rates, done: set<Target>, after: Rates, i: nat,
                     model: string, lookup: Lookup)
    requires Moved(keys, offers, before, done, after) && UniqueStarts(before) && !AnyCollide(keys, offers, before)
    requires i < |keys| && keys[i].slug.Some? && model in Offered(offers, keys[i].id)
    ensures var was := Paid(before, keys[i].organization, keys[i].provider, model, lookup);
      Paid(after, keys[i].organization, keys[i].slug.value, model, lookup) == was
      <==> if was.Some? then StaysNewest(before, keys[i], model, lookup, was.value)
           else Paid(before, keys[i].organization, keys[i].slug.value, model, lookup).None?
  {
    StartsStayUnique(keys, offers, before, done, after);
    hide Moved, AnyCollide, Newest, UniqueStarts;
    var organization, name, provider := keys[i].organization, keys[i].slug.value, keys[i].provider;
    forall p ensures Stands(after, organization, Current(name, model), lookup, p)
      <==> Stands(before, organization, Current(provider, model), lookup, p)
           || IsBeside(before, keys[i], model, lookup, p)
    {
      StandsUnderTheName(keys, offers, before, done, after, i, model, lookup, p);
    }
    forall p ensures Stands(after, organization, Legacy(name, model), lookup, p)
      <==> Stands(before, organization, Legacy(name, model), lookup, p)
    {
      OlderSpellingIsUntouched(keys, offers, before, done, after, i, model, p);
    }
    var was := Paid(before, organization, provider, model, lookup);
    PaidStands(before, organization, provider, model, lookup);
    PaidStands(before, organization, name, model, lookup);
    PaidStands(after, organization, name, model, lookup);
    hide Stands, IsBeside;
    if was.Some? {
      Brought(keys[i], before, after, model, lookup, was.value);
    }
  }

  /** The indexes accept this outcome, and the key is charged another period than its provider was. */
  ghost predicate ChargesAnother(keys: seq<Key>, offers: Offers, before: Rates, done: set<Target>, after: Rates,
                                 target: Target, lookup: Lookup) {
    && Moved(keys, offers, before, done, after) && UniqueStarts(before) && UniqueStarts(after)
    && |keys| == 1 && Wants(keys[0], offers, target)
    && Paid(after, target.organization, keys[0].slug.value, target.model, lookup)
       != Paid(before, target.organization, target.provider, target.model, lookup)
  }

  /** A period of the older spelling that started after the current one's: nobody was charged it, and now it stands. */
  lemma OlderSpellingComesForward(lookup: Lookup)
    requires !lookup.operatorOnly
    ensures exists keys, offers, before, done, after, target ::
      ChargesAnother(keys, offers, before, done, after, target, lookup)
  {
    var keys, offers, target := OneNamedKey();
    var older := Period("model", lookup.at, None, false, "older spelling");
    var current := Period("model", lookup.at - 1, None, false, "current spelling");
    var a := Rate(target.organization, Current(target.provider, target.model), current);
    var b := Rate(target.organization, Legacy(target.provider, target.model), older);
    var before := [a, b];
    TheSpellingsDiffer(target);
    assert a in before && b in before && forall r :: r in before ==> r == a || r == b;
    hide WellNamed, SlugsFor, IsTarget, Wants;
    assert UniqueStarts(before);
    forall t, r, s | r in before && s in before ensures !Collide(keys, offers, t, r, s) {
      if Collide(keys, offers, t, r, s) && Gives(keys, offers, t, s) {
        NothingGivenToAProvider(keys, offers, t, target, s);
      }
    }
    SomeOutcome(keys, offers, before, [target]);
    var after := Turns(keys, offers, before, [target]);
    hide Moved, Turns, IsOrder, UniqueStarts;
    StartsStayUnique(keys, offers, before, Done([target]), after);
    AnotherIsCharged(keys, offers, before, Done([target]), after, target, lookup, older, current);
  }

  lemma AnotherIsCharged(keys: seq<Key>, offers: Offers, before: Rates, done: set<Target>, after: Rates,
                         target: Target, lookup: Lookup, older: Period, current: Period)
    requires Moved(keys, offers, before, done, after) && UniqueStarts(before) && UniqueStarts(after)
    requires !AnyCollide(keys, offers, before) && |keys| == 1 && Wants(keys[0], offers, target)
    requires before == [Rate(target.organization, Current(target.provider, target.model), current),
                        Rate(target.organization, Legacy(target.provider, target.model), older)]
    requires Applies(older, lookup) && Applies(current, lookup) && current.start < older.start
    ensures ChargesAnother(keys, offers, before, done, after, target, lookup)
  {
    hide Moved, AnyCollide, UniqueStarts, Applies;
    TheSpellingsDiffer(target);
    assert Stands(before, target.organization, Current(target.provider, target.model), lookup, current) by {
      assert before[0] in before;
    }
    assert IsBeside(before, keys[0], target.model, lookup, older) by {
      assert before[1] in before;
    }
    PaidStands(before, target.organization, target.provider, target.model, lookup);
    PaysAsBefore(keys, offers, before, done, after, 0, target.model, lookup);
  }
}
