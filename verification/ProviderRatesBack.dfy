/** The downgrade of revision b3e7d1a9c5f2: the rates under a key's own name go back to its provider. */
module ProviderRatesBack {
  import opened Common
  import opened ProviderSlugs
  import opened ProviderRates

  // ---- the way back: one key at a time ---------------------------------------------------------------

  predicate IsUnder(key: Key, rate: Rate)
    requires key.slug.Some?
  {
    rate.organization == key.organization && key.slug.value + ":" <= rate.modelKey
  }

  /** The rate under the provider's name again. */
  function Returned(key: Key, rate: Rate): Rate
    requires key.slug.Some? && IsUnder(key, rate)
  {
    rate.(modelKey := Current(key.provider, rate.modelKey[|key.slug.value| + 1..]))
  }

  predicate IsPriced(rates: Rates, organization: nat, modelKey: string) {
    exists i :: 0 <= i < |rates| && rates[i].organization == organization && rates[i].modelKey == modelKey
  }

  /** A rate that goes back, unless its provider is priced. */
  function GivenBack(front: Rates, rest: Rates, back: Rate): Rates {
    if IsPriced(front + rest, back.organization, back.modelKey) then front else front + [back]
  }

  /** One key's turn: `front` has been looked at, `rest` has not. A rate whose provider is priced is dropped. */
  function GiveBack(key: Key, front: Rates, rest: Rates): Rates
    requires key.slug.Some?
    decreases |rest|
  {
    if rest == [] then front
    else if !IsUnder(key, rest[0]) then GiveBack(key, front + [rest[0]], rest[1..])
    else
      var back := Returned(key, rest[0]);
      GiveBack(key, GivenBack(front, rest, back), rest[1..])
  }

  method GiveBackOne(key: Key, rates: Rates) returns (now: Rates)
    requires key.slug.Some?
    ensures now == GiveBack(key, [], rates)
  {
    now := rates;
    var j := 0;
    while j < |now|
      invariant 0 <= j <= |now|
      invariant GiveBack(key, now[..j], now[j..]) == GiveBack(key, [], rates)
      decreases |now| - j
    {
      var row := now[j];
      var front, rest := now[..j], now[j..];
      assert rest[0] == row && rest[1..] == now[j + 1..] && front + rest == now;
      if !IsUnder(key, row) {
        assert front + [row] == now[..j + 1];
        j := j + 1;
      } else {
        var back := Returned(key, row);
        if exists i :: 0 <= i < |now| && now[i].organization == back.organization && now[i].modelKey == back.modelKey {
          assert IsPriced(now, back.organization, back.modelKey);
          now := now[..j] + now[j + 1..];
          assert now[..j] == front && now[j..] == rest[1..];
        } else {
          now := now[j := back];
          assert now[..j + 1] == front + [back] && now[j + 1..] == rest[1..];
          j := j + 1;
        }
      }
    }
    assert now[..j] == now && now[j..] == [];
  }

  lemma PricedParts(a: Rates, b: Rates, organization: nat, modelKey: string)
    ensures IsPriced(a + b, organization, modelKey) <==>
      IsPriced(a, organization, modelKey) || IsPriced(b, organization, modelKey)
  {
    if i :| 0 <= i < |a| && a[i].organization == organization && a[i].modelKey == modelKey {
      assert (a + b)[i] == a[i];
    }
    if i :| 0 <= i < |b| && b[i].organization == organization && b[i].modelKey == modelKey {
      assert (a + b)[|a| + i] == b[i];
    }
  }

  lemma PricedOne(row: Rate, organization: nat, modelKey: string)
    ensures IsPriced([row], organization, modelKey) <==> row.organization == organization && row.modelKey == modelKey
  {
    assert [row][0] == row;
  }

  predicate IsOwn(key: Key, rate: Rate, model: string)
    requires key.slug.Some?
  {
    rate.organization == key.organization && rate.modelKey == Current(key.slug.value, model)
  }

  /** When the first of a key's own rates for a model holds. */
  function FirstOwn(key: Key, rates: Rates, model: string): Option<Period>
    requires key.slug.Some?
  {
    if rates == [] then None
    else if IsOwn(key, rates[0], model) then Some(rates[0].period)
    else FirstOwn(key, rates[1..], model)
  }

  ghost predicate CanReturn(key: Key) {
    key.slug.Some? && IsPlain(key.slug.value) && IsPlain(key.provider) && key.slug.value != key.provider
  }

  lemma UnderItsName(key: Key, rate: Rate) returns (model: string)
    requires CanReturn(key) && IsUnder(key, rate)
    ensures rate.modelKey == Current(key.slug.value, model)
    ensures Returned(key, rate) == Rate(key.organization, Current(key.provider, model), rate.period)
  {
    model := rate.modelKey[|key.slug.value| + 1..];
  }

  lemma NotUnder(key: Key, rate: Rate, model: string)
    requires CanReturn(key) && rate.modelKey == Current(key.provider, model)
    ensures !IsUnder(key, rate)
  {
    if IsUnder(key, rate) {
      var m := UnderItsName(key, rate);
      KeysReadOneWay(key.slug.value, m, key.provider, model);
      assert false;
    }
  }

  predicate IsProviders(key: Key, rate: Rate, model: string) {
    rate.organization == key.organization && rate.modelKey == Current(key.provider, model)
  }

  lemma CountFirst(rates: Rates, rate: Rate)
    requires rates != []
    ensures Count(rates, rate) == OneIf(rates[0] == rate) + Count(rates[1..], rate)
  {
    assert rates == [rates[0]] + rates[1..];
  }

  lemma CountLast(rates: Rates, row: Rate, rate: Rate)
    ensures Count(rates + [row], rate) == Count(rates, rate) + OneIf(row == rate)
  {
  }

  /** Nothing stays under the key's name. */
  lemma {:induction false} NothingStaysUnder(key: Key, front: Rates, rest: Rates, rate: Rate)
    requires CanReturn(key) && IsUnder(key, rate)
    ensures Count(GiveBack(key, front, rest), rate) == Count(front, rate)
    decreases |rest|
  {
    hide IsUnder, Count, IsPriced, Returned, Current;
    if rest != [] {
      if !IsUnder(key, rest[0]) {
        CountLast(front, rest[0], rate);
        NothingStaysUnder(key, front + [rest[0]], rest[1..], rate);
      } else {
        var model := UnderItsName(key, rest[0]);
        var back := Returned(key, rest[0]);
        NamedNotUnder(key, back, model);
        CountLast(front, back, rate);
        NothingStaysUnder(key, GivenBack(front, rest, back), rest[1..], rate);
      }
    }
  }

  lemma NamedNotUnder(key: Key, rate: Rate, model: string)
    requires CanReturn(key)
    requires rate == Rate(key.organization, Current(key.provider, model), rate.period)
    ensures !IsUnder(key, rate) && IsProviders(key, rate, model)
  {
    NotUnder(key, rate, model);
  }

  /** A rate that is neither the key's nor its provider's is untouched. */
  lemma {:induction false} OthersStay(key: Key, front: Rates, rest: Rates, rate: Rate)
    requires CanReturn(key) && !IsUnder(key, rate) && forall m :: !IsProviders(key, rate, m)
    ensures Count(GiveBack(key, front, rest), rate) == Count(front, rate) + Count(rest, rate)
    decreases |rest|
  {
    hide IsUnder, Count, IsPriced, Returned, Current, IsProviders;
    if rest == [] {
      CountNone(rate);
    } else {
      CountFirst(rest, rate);
      if !IsUnder(key, rest[0]) {
        CountLast(front, rest[0], rate);
        OthersStay(key, front + [rest[0]], rest[1..], rate);
      } else {
        var model := UnderItsName(key, rest[0]);
        var back := Returned(key, rest[0]);
        NamedNotUnder(key, back, model);
        CountLast(front, back, rate);
        OthersStay(key, GivenBack(front, rest, back), rest[1..], rate);
      }
    }
  }

  lemma CountNone(rate: Rate)
    ensures Count([], rate) == 0
  {
  }

  /** The provider's rates are as they were, and one of the key's is added where there was none. */
  lemma {:induction false} ProviderGets(key: Key, front: Rates, rest: Rates, rate: Rate, model: string)
    requires CanReturn(key) && IsProviders(key, rate, model)
    ensures Count(GiveBack(key, front, rest), rate) == Count(front, rate) + Count(rest, rate)
      + OneIf(!IsPriced(front + rest, rate.organization, rate.modelKey)
              && FirstOwn(key, rest, model) == Some(rate.period))
    decreases |rest|
  {
    hide IsUnder, Count, IsPriced, Returned, Current, IsProviders;
    if rest == [] {
      CountNone(rate);
    } else {
      var row := rest[0];
      CountFirst(rest, rate);
      CountLast(front, row, rate);
      FirstOwnStep(key, rest, model);
      assert (front + [row]) + rest[1..] == front + rest;
      if !IsUnder(key, row) {
        ProviderGets(key, front + [row], rest[1..], rate, model);
      } else {
        GetsFromARow(key, front, rest, rate, model);
      }
    }
  }

  lemma FirstOwnStep(key: Key, rates: Rates, model: string)
    requires CanReturn(key) && rates != []
    ensures FirstOwn(key, rates, model)
      == (if IsOwn(key, rates[0], model) then Some(rates[0].period) else FirstOwn(key, rates[1..], model))
    ensures IsOwn(key, rates[0], model) ==> IsUnder(key, rates[0])
  {
  }

  lemma GetsFromARow(key: Key, front: Rates, rest: Rates, rate: Rate, model: string)
    requires CanReturn(key) && IsProviders(key, rate, model) && rest != [] && IsUnder(key, rest[0])
    ensures Count(GiveBack(key, front, rest), rate) == Count(front, rate) + Count(rest, rate)
      + OneIf(!IsPriced(front + rest, rate.organization, rate.modelKey)
              && FirstOwn(key, rest, model) == Some(rate.period))
    decreases |rest|, 0
  {
    hide IsUnder, Count, IsPriced, Returned, Current;
    var row := rest[0];
    var own := UnderItsName(key, row);
    var back := Returned(key, row);
    CountFirst(rest, rate);
    CountLast(front, back, rate);
    FirstOwnStep(key, rest, model);
    TakesTheRowOut(key, front, rest, model, own);
    if IsPriced(front + rest, back.organization, back.modelKey) {
      ProviderGets(key, front, rest[1..], rate, model);
    } else {
      ProviderGets(key, front + [back], rest[1..], rate, model);
    }
  }

  /** Taking one of the key's rows out prices nothing less; putting it back under the provider prices one model more. */
  lemma TakesTheRowOut(key: Key, front: Rates, rest: Rates, model: string, own: string)
    requires CanReturn(key) && rest != [] && IsUnder(key, rest[0]) && rest[0].modelKey == Current(key.slug.value, own)
    ensures IsPriced(front + rest[1..], key.organization, Current(key.provider, model)) <==>
      IsPriced(front + rest, key.organization, Current(key.provider, model))
    ensures IsPriced((front + [Returned(key, rest[0])]) + rest[1..], key.organization, Current(key.provider, model))
      <==> IsPriced(front + rest, key.organization, Current(key.provider, model)) || own == model
    ensures IsOwn(key, rest[0], model) <==> own == model
    ensures Returned(key, rest[0]).organization == key.organization && Returned(key, rest[0]).period == rest[0].period
    ensures Returned(key, rest[0]).modelKey == Current(key.provider, model) <==> own == model
    ensures rest[0] != Rate(key.organization, Current(key.provider, model), rest[0].period)
  {
    hide IsPriced;
    var row, modelKey := rest[0], Current(key.provider, model);
    var back := Returned(key, row);
    var m := UnderItsName(key, row);
    KeysReadOneWay(key.slug.value, m, key.slug.value, own);
    KeysReadOneWay(key.slug.value, own, key.slug.value, model);
    KeysReadOneWay(key.slug.value, own, key.provider, model);
    KeysReadOneWay(key.provider, own, key.provider, model);
    PricedOne(row, key.organization, modelKey);
    PricedOne(back, key.organization, modelKey);
    assert front + rest == front + ([row] + rest[1..]);
    PricedParts(front, [row] + rest[1..], key.organization, modelKey);
    PricedParts([row], rest[1..], key.organization, modelKey);
    PricedParts(front, rest[1..], key.organization, modelKey);
    PricedParts(front + [back], rest[1..], key.organization, modelKey);
    PricedParts(front, [back], key.organization, modelKey);
  }

  // ---- every key in turn -----------------------------------------------------------------------------

  function GiveBackAll(keys: seq<Key>, rates: Rates): Rates {
    if keys == [] then rates
    else GiveBackAll(keys[1..], if keys[0].slug.Some? then GiveBack(keys[0], [], rates) else rates)
  }

  method Downgrade(keys: seq<Key>, rates: Rates) returns (now: Rates)
    ensures now == GiveBackAll(keys, rates)
  {
    now := rates;
    var i := 0;
    while i < |keys|
      invariant 0 <= i <= |keys|
      invariant GiveBackAll(keys[i..], now) == GiveBackAll(keys, rates)
    {
      if keys[i].slug.Some? {
        now := GiveBackOne(keys[i], now);
      }
      assert keys[i..][1..] == keys[i + 1..] && keys[i..][0] == keys[i];
      i := i + 1;
    }
  }

  /** A provider none of the keys of an organization is named after. */
  ghost predicate IsNobodysName(keys: seq<Key>, organization: nat, provider: string) {
    && IsPlain(provider)
    && forall i :: 0 <= i < |keys| && keys[i].organization == organization ==> keys[i].slug != Some(provider)
  }

  predicate IsOf(key: Key, organization: nat, provider: string) {
    key.slug.Some? && key.organization == organization && key.provider == provider
  }

  /** The period a model gets back from the first key of its provider that has a rate for it. */
  function FirstReturned(keys: seq<Key>, rates: Rates, organization: nat, provider: string,
                         model: string): Option<Period> {
    if keys == [] then None
    else if IsOf(keys[0], organization, provider) && FirstOwn(keys[0], rates, model).Some?
    then FirstOwn(keys[0], rates, model)
    else FirstReturned(keys[1..], rates, organization, provider, model)
  }

  lemma WellNamedRest(keys: seq<Key>)
    requires WellNamed(keys) && keys != []
    ensures WellNamed(keys[1..])
    ensures keys[0].slug.Some? ==> CanReturn(keys[0])
  {
  }

  lemma PricedIsCounted(rates: Rates, organization: nat, modelKey: string)
    ensures IsPriced(rates, organization, modelKey) <==> exists p :: Count(rates, Rate(organization, modelKey, p)) > 0
  {
  }

  /** Another key's rates keep their order. */
  lemma {:induction false} OthersFirstStays(key: Key, front: Rates, rest: Rates, other: Key, model: string)
    requires CanReturn(key) && CanReturn(other) && NamesApart(key, other) && NoProvidersName(other, key)
    ensures FirstOwn(other, GiveBack(key, front, rest), model)
      == FirstOwn(other, front, model).Or(FirstOwn(other, rest, model))
    decreases |rest|
  {
    hide IsUnder, IsPriced, Returned, Current;
    if rest != [] {
      var row := rest[0];
      FirstOwnJoin(other, front, row, model);
      if !IsUnder(key, row) {
        OthersFirstStays(key, front + [row], rest[1..], other, model);
      } else {
        var back := Returned(key, row);
        FirstOwnJoin(other, front, back, model);
        NotTheOthers(key, row, other, model);
        OthersFirstStays(key, GivenBack(front, rest, back), rest[1..], other, model);
      }
    }
  }

  lemma {:induction false} FirstOwnJoin(key: Key, front: Rates, row: Rate, model: string)
    requires key.slug.Some?
    ensures FirstOwn(key, front + [row], model)
      == FirstOwn(key, front, model).Or(if IsOwn(key, row, model) then Some(row.period) else None)
  {
    if front != [] {
      assert (front + [row])[1..] == front[1..] + [row];
      FirstOwnJoin(key, front[1..], row, model);
    }
  }

  lemma NotTheOthers(key: Key, row: Rate, other: Key, model: string)
    requires CanReturn(key) && CanReturn(other) && NamesApart(key, other) && NoProvidersName(other, key)
    requires IsUnder(key, row)
    ensures !IsOwn(other, row, model) && !IsOwn(other, Returned(key, row), model)
  {
    var m := UnderItsName(key, row);
    KeysReadOneWay(key.slug.value, m, other.slug.value, model);
    KeysReadOneWay(key.provider, m, other.slug.value, model);
  }

  lemma {:induction false} FirstReturnedStays(key: Key, keys: seq<Key>, rates: Rates, organization: nat,
                                              provider: string, model: string)
    requires WellNamed([key] + keys) && key.slug.Some?
    ensures FirstReturned(keys, GiveBack(key, [], rates), organization, provider, model)
      == FirstReturned(keys, rates, organization, provider, model)
  {
    if keys != [] {
      var all := [key] + keys;
      assert NamesApart(all[0], all[1]) && NoProvidersName(all[1], all[0]);
      assert NoProvidersName(all[0], all[0]) && NoProvidersName(all[1], all[1]);
      assert all[0] == key && all[1] == keys[0];
      if keys[0].slug.Some? {
        OthersFirstStays(key, [], rates, keys[0], model);
      }
      WithoutTheSecond(all);
      assert all[..1] + all[2..] == [key] + keys[1..];
      FirstReturnedStays(key, keys[1..], rates, organization, provider, model);
    }
  }

  lemma WithoutTheSecond(keys: seq<Key>)
    requires WellNamed(keys) && |keys| >= 2
    ensures WellNamed(keys[..1] + keys[2..])
  {
  }

  /** One key's turn, seen from a provider's model. */
  lemma ProviderAfterOne(key: Key, rates: Rates, organization: nat, provider: string, model: string, period: Period)
    requires CanReturn(key) && IsPlain(provider) && (key.organization == organization ==> key.slug != Some(provider))
    ensures var rate := Rate(organization, Current(provider, model), period);
      Count(GiveBack(key, [], rates), rate) == Count(rates, rate)
        + OneIf(IsOf(key, organization, provider) && !IsPriced(rates, organization, rate.modelKey)
                && FirstOwn(key, rates, model) == Some(period))
  {
    hide Count, IsPriced, FirstOwn;
    var rate := Rate(organization, Current(provider, model), period);
    CountNone(rate);
    assert [] + rates == rates;
    if IsOf(key, organization, provider) {
      ProviderGets(key, [], rates, rate, model);
    } else {
      if IsUnder(key, rate) {
        var m := UnderItsName(key, rate);
        KeysReadOneWay(key.slug.value, m, provider, model);
        assert false;
      }
      forall m ensures !IsProviders(key, rate, m) {
        KeysReadOneWay(key.provider, m, provider, model);
      }
      OthersStay(key, [], rates, rate);
    }
  }

  lemma PricedAfterOne(key: Key, rates: Rates, organization: nat, provider: string, model: string)
    requires CanReturn(key) && IsPlain(provider) && (key.organization == organization ==> key.slug != Some(provider))
    ensures IsPriced(GiveBack(key, [], rates), organization, Current(provider, model))
      <==> IsPriced(rates, organization, Current(provider, model))
           || (IsOf(key, organization, provider) && FirstOwn(key, rates, model).Some?)
  {
    hide IsPriced, FirstOwn, Current, GiveBack, IsPlain;
    var modelKey, now := Current(provider, model), GiveBack(key, [], rates);
    PricedIsCounted(rates, organization, modelKey);
    PricedIsCounted(now, organization, modelKey);
    forall p ensures Count(now, Rate(organization, modelKey, p)) == Count(rates, Rate(organization, modelKey, p))
      + OneIf(IsOf(key, organization, provider) && !IsPriced(rates, organization, modelKey)
              && FirstOwn(key, rates, model) == Some(p))
    {
      ProviderAfterOne(key, rates, organization, provider, model, p);
    }
    if IsOf(key, organization, provider) && FirstOwn(key, rates, model).Some?
       && !IsPriced(rates, organization, modelKey) {
      assert Count(now, Rate(organization, modelKey, FirstOwn(key, rates, model).value)) > 0;
    }
    if IsPriced(rates, organization, modelKey) {
      var p :| Count(rates, Rate(organization, modelKey, p)) > 0;
      assert Count(now, Rate(organization, modelKey, p)) > 0;
    }
  }

  /**
   A model its provider prices keeps exactly those rates. One it does not price gets exactly one rate back, the
   first of the first key that has any, and none if no key has one.
   */
  lemma {:induction false} ProviderAfterDowngrade(keys: seq<Key>, rates: Rates, organization: nat, provider: string,
                                                  model: string, period: Period)
    requires WellNamed(keys) && IsNobodysName(keys, organization, provider)
    ensures var rate := Rate(organization, Current(provider, model), period);
      Count(GiveBackAll(keys, rates), rate)
        == if IsPriced(rates, organization, rate.modelKey) then Count(rates, rate)
           else OneIf(FirstReturned(keys, rates, organization, provider, model) == Some(period))
  {
    hide WellNamed, IsPriced, GiveBack, Count, FirstOwn, Current;
    var rate := Rate(organization, Current(provider, model), period);
    if keys == [] {
      UnpricedIsUncounted(rates, rate);
    } else {
      WellNamedRest(keys);
      assert keys == [keys[0]] + keys[1..];
      assert IsNobodysName(keys[1..], organization, provider);
      if keys[0].slug.Some? {
        var now := GiveBack(keys[0], [], rates);
        ProviderAfterDowngrade(keys[1..], now, organization, provider, model, period);
        FirstReturnedStays(keys[0], keys[1..], rates, organization, provider, model);
        ProviderAfterOne(keys[0], rates, organization, provider, model, period);
        PricedAfterOne(keys[0], rates, organization, provider, model);
        UnpricedIsUncounted(rates, rate);
      } else {
        ProviderAfterDowngrade(keys[1..], rates, organization, provider, model, period);
      }
    }
  }

  lemma UnpricedIsUncounted(rates: Rates, rate: Rate)
    ensures !IsPriced(rates, rate.organization, rate.modelKey) ==> Count(rates, rate) == 0
  {
  }

  /** Nothing is left under any key's name. */
  lemma {:induction false} NothingUnderAnyName(keys: seq<Key>, rates: Rates, i: nat, rate: Rate)
    requires WellNamed(keys) && i < |keys| && keys[i].slug.Some? && IsUnder(keys[i], rate)
    ensures rate !in GiveBackAll(keys, rates)
  {
    hide GiveBack, IsUnder;
    WellNamedRest(keys);
    if i > 0 {
      NothingUnderAnyName(keys[1..], if keys[0].slug.Some? then GiveBack(keys[0], [], rates) else rates, i - 1, rate);
    } else {
      NothingStaysUnder(keys[0], [], rates, rate);
      var now := GiveBack(keys[0], [], rates);
      assert Count(now, rate) == 0;
      assert keys == [keys[0]] + keys[1..];
      NoneComesBack(keys[0], keys[1..], now, rate);
    }
  }

  lemma {:induction false} NoneComesBack(key: Key, keys: seq<Key>, rates: Rates, rate: Rate)
    requires WellNamed([key] + keys) && key.slug.Some? && IsUnder(key, rate) && rate !in rates
    ensures rate !in GiveBackAll(keys, rates)
  {
    hide GiveBack, IsUnder;
    if keys != [] {
      var all := [key] + keys;
      WellNamedRest(all);
      assert all[1..] == keys;
      WellNamedRest(keys);
      WithoutTheSecond(all);
      assert all[..1] + all[2..] == [key] + keys[1..];
      if keys[0].slug.Some? {
        assert NamesApart(all[0], all[1]) && NoProvidersName(all[0], all[1]);
        assert all[0] == key && all[1] == keys[0];
        NotGivenBack(key, keys[0], rates, rate);
        NoneComesBack(key, keys[1..], GiveBack(keys[0], [], rates), rate);
      } else {
        NoneComesBack(key, keys[1..], rates, rate);
      }
    }
  }

  lemma NotGivenBack(key: Key, other: Key, rates: Rates, rate: Rate)
    requires CanReturn(key) && CanReturn(other) && NamesApart(key, other) && NoProvidersName(key, other)
    requires IsUnder(key, rate) && rate !in rates
    ensures rate !in GiveBack(other, [], rates)
  {
    var model := UnderItsName(key, rate);
    assert Count(rates, rate) == 0;
    if IsUnder(other, rate) {
      var m := UnderItsName(other, rate);
      KeysReadOneWay(key.slug.value, model, other.slug.value, m);
      assert false;
    }
    forall m ensures !IsProviders(other, rate, m) {
      KeysReadOneWay(key.slug.value, model, other.provider, m);
    }
    OthersStay(other, [], rates, rate);
    assert Count(GiveBack(other, [], rates), rate) == 0;
  }

  /** A rate under no key's name, and not a named key's provider's current spelling. */
  ghost predicate IsNobodys(keys: seq<Key>, rate: Rate) {
    forall i :: 0 <= i < |keys| && keys[i].slug.Some? ==> IsAnothers(keys[i], rate)
  }

  ghost predicate IsAnothers(key: Key, rate: Rate)
    requires key.slug.Some?
  {
    !IsUnder(key, rate) && forall m :: !IsProviders(key, rate, m)
  }

  /** Such a rate is as it was after every key's turn, the older spelling's rates among them. */
  lemma {:induction false} OthersAfterDowngrade(keys: seq<Key>, rates: Rates, rate: Rate)
    requires WellNamed(keys) && IsNobodys(keys, rate)
    ensures Count(GiveBackAll(keys, rates), rate) == Count(rates, rate)
  {
    hide WellNamed, GiveBack, IsAnothers, Count;
    if keys != [] {
      WellNamedRest(keys);
      assert IsNobodys(keys[1..], rate);
      if keys[0].slug.Some? {
        assert IsAnothers(keys[0], rate);
        StaysForOne(keys[0], rates, rate);
        OthersAfterDowngrade(keys[1..], GiveBack(keys[0], [], rates), rate);
      } else {
        OthersAfterDowngrade(keys[1..], rates, rate);
      }
    }
  }

  lemma StaysForOne(key: Key, rates: Rates, rate: Rate)
    requires CanReturn(key) && IsAnothers(key, rate)
    ensures Count(GiveBack(key, [], rates), rate) == Count(rates, rate)
  {
    OthersStay(key, [], rates, rate);
  }

  lemma LegacyIsNobodys(keys: seq<Key>, rate: Rate, provider: string, model: string)
    requires WellNamed(keys) && IsPlain(provider) && rate.modelKey == Legacy(provider, model)
    ensures IsNobodys(keys, rate)
  {
    hide IsPlain;
    forall i | 0 <= i < |keys| && keys[i].slug.Some? ensures IsAnothers(keys[i], rate) {
      assert NoProvidersName(keys[i], keys[i]);
      if IsUnder(keys[i], rate) {
        var m := UnderItsName(keys[i], rate);
        KeysReadOneWay(keys[i].slug.value, m, provider, model);
        assert false;
      }
      forall m ensures !IsProviders(keys[i], rate, m) {
        KeysReadOneWay(keys[i].provider, m, provider, model);
      }
    }
  }

  // ---- there and back --------------------------------------------------------------------------------

  lemma {:induction false} AKeyGivesBack(keys: seq<Key>, rates: Rates, organization: nat, provider: string,
                                         model: string, i: nat)
    requires i < |keys| && IsOf(keys[i], organization, provider) && FirstOwn(keys[i], rates, model).Some?
    ensures FirstReturned(keys, rates, organization, provider, model).Some?
  {
    if i > 0 {
      AKeyGivesBack(keys[1..], rates, organization, provider, model, i - 1);
    }
  }

  lemma {:induction false} OwnIsFound(key: Key, rates: Rates, model: string, period: Period)
    requires key.slug.Some? && Rate(key.organization, Current(key.slug.value, model), period) in rates
    ensures FirstOwn(key, rates, model).Some?
  {
    if !IsOwn(key, rates[0], model) {
      OwnIsFound(key, rates[1..], model, period);
    }
  }

  ghost predicate HadRate(rates: Rates, target: Target) {
    exists p :: Both(rates, target, p) > 0
  }

  /** The model is still served under its provider's name, and was priced under the current spelling. */
  ghost predicate KeepsItsRates(keys: seq<Key>, offers: Offers, before: Rates, target: Target) {
    Kept(keys, offers, target) && IsPriced(before, target.organization, Current(target.provider, target.model))
  }

  /**
   Upgrade, then downgrade. Under the current spelling a model has the very rates it had, if it was still served
   and priced there, and else one single rate, the first that any of its keys has: a history of prices is not
   kept. Under the older spelling it has the rates it had if it was still served, and else none. A model that had
   a rate under either spelling is priced again under the current one.
   */
  lemma ThereAndBack(keys: seq<Key>, offers: Offers, before: Rates, done: set<Target>, middle: Rates, target: Target)
    requires Moved(keys, offers, before, done, middle) && IsTarget(keys, offers, target)
    ensures HadRate(before, target) ==>
      IsPriced(GiveBackAll(keys, middle), target.organization, Current(target.provider, target.model))
    ensures forall p :: CurrentIsBack(keys, offers, before, middle, target, p)
    ensures forall p :: LegacyIsBack(keys, offers, before, middle, target, p)
  {
    var organization, modelKey := target.organization, Current(target.provider, target.model);
    var after := GiveBackAll(keys, middle);
    hide WellNamed, Kept, IsTarget, SlugsFor, GiveBackAll, FirstReturned, Both, IsPriced, Current, Moved;
    hide CurrentIsBack, LegacyIsBack;
    forall p
      ensures CurrentIsBack(keys, offers, before, middle, target, p)
      ensures LegacyIsBack(keys, offers, before, middle, target, p)
    {
      CurrentComesBack(keys, offers, before, done, middle, target, p);
      LegacyComesBack(keys, offers, before, done, middle, target, p);
    }
    if HadRate(before, target) {
      PricedAgain(keys, offers, before, done, middle, target);
    }
  }

  ghost predicate CurrentIsBack(keys: seq<Key>, offers: Offers, before: Rates, middle: Rates, target: Target,
                                period: Period) {
    var rate := Rate(target.organization, Current(target.provider, target.model), period);
    var first := FirstReturned(keys, middle, target.organization, target.provider, target.model);
    Count(GiveBackAll(keys, middle), rate)
      == if KeepsItsRates(keys, offers, before, target) then Count(before, rate) else OneIf(first == Some(period))
  }

  ghost predicate LegacyIsBack(keys: seq<Key>, offers: Offers, before: Rates, middle: Rates, target: Target,
                               period: Period) {
    var rate := Rate(target.organization, Legacy(target.provider, target.model), period);
    Count(GiveBackAll(keys, middle), rate) == if Kept(keys, offers, target) then Count(before, rate) else 0
  }

  lemma CurrentComesBack(keys: seq<Key>, offers: Offers, before: Rates, done: set<Target>, middle: Rates,
                         target: Target, period: Period)
    requires Moved(keys, offers, before, done, middle) && IsTarget(keys, offers, target)
    ensures CurrentIsBack(keys, offers, before, middle, target, period)
  {
    var organization, provider, model := target.organization, target.provider, target.model;
    NamedByMoved(keys, offers, before, done, middle);
    var j := TargetIsPlain(keys, offers, target);
    NobodyIsNamedLike(keys, j);
    hide WellNamed, Kept, IsTarget, SlugsFor, IsNobodysName, GiveBackAll, FirstReturned, IsPriced, Current, Moved;
    ProviderAfterDowngrade(keys, middle, organization, provider, model, period);
    PricedInTheMiddle(keys, offers, before, done, middle, target, j);
    ProviderInTheMiddle(keys, offers, before, done, middle, target, j, Current(provider, model), period);
  }

  lemma NobodyIsNamedLike(keys: seq<Key>, j: nat)
    requires WellNamed(keys) && j < |keys|
    ensures IsNobodysName(keys, keys[j].organization, keys[j].provider)
  {
    assert forall i :: 0 <= i < |keys| ==> NoProvidersName(keys[i], keys[j]);
  }

  lemma PricedInTheMiddle(keys: seq<Key>, offers: Offers, before: Rates, done: set<Target>, middle: Rates,
                          target: Target, j: nat)
    requires Moved(keys, offers, before, done, middle) && IsTarget(keys, offers, target)
    requires j < |keys| && keys[j].organization == target.organization && keys[j].provider == target.provider
    ensures IsPriced(middle, target.organization, Current(target.provider, target.model)) <==>
      KeepsItsRates(keys, offers, before, target)
  {
    var organization, modelKey := target.organization, Current(target.provider, target.model);
    hide WellNamed, Kept, IsTarget, SlugsFor, IsPriced, Current, Moved, Count;
    PricedIsCounted(middle, organization, modelKey);
    PricedIsCounted(before, organization, modelKey);
    forall p ensures Count(middle, Rate(organization, modelKey, p))
      == if Kept(keys, offers, target) then Count(before, Rate(organization, modelKey, p)) else 0
    {
      ProviderInTheMiddle(keys, offers, before, done, middle, target, j, modelKey, p);
    }
  }

  lemma LegacyComesBack(keys: seq<Key>, offers: Offers, before: Rates, done: set<Target>, middle: Rates,
                        target: Target, period: Period)
    requires Moved(keys, offers, before, done, middle) && IsTarget(keys, offers, target)
    ensures LegacyIsBack(keys, offers, before, middle, target, period)
  {
    var modelKey := Legacy(target.provider, target.model);
    NamedByMoved(keys, offers, before, done, middle);
    var j := TargetIsPlain(keys, offers, target);
    hide WellNamed, Kept, IsTarget, SlugsFor, IsNobodys, GiveBackAll, Moved, Legacy, IsPlain;
    LegacyIsNobodys(keys, Rate(target.organization, modelKey, period), target.provider, target.model);
    OthersAfterDowngrade(keys, middle, Rate(target.organization, modelKey, period));
    ProviderInTheMiddle(keys, offers, before, done, middle, target, j, modelKey, period);
  }

  lemma PricedAgain(keys: seq<Key>, offers: Offers, before: Rates, done: set<Target>, middle: Rates, target: Target)
    requires Moved(keys, offers, before, done, middle) && IsTarget(keys, offers, target) && HadRate(before, target)
    ensures IsPriced(GiveBackAll(keys, middle), target.organization, Current(target.provider, target.model))
  {
    var organization, modelKey := target.organization, Current(target.provider, target.model);
    var after := GiveBackAll(keys, middle);
    var first := FirstReturned(keys, middle, organization, target.provider, target.model);
    PricedIsCounted(after, organization, modelKey);
    PricedIsCounted(before, organization, modelKey);
    SomeKeyHasIt(keys, offers, before, done, middle, target);
    hide WellNamed, Kept, IsTarget, SlugsFor, GiveBackAll, FirstReturned, Both, IsPriced, Current, Moved;
    if KeepsItsRates(keys, offers, before, target) {
      var p :| Count(before, Rate(organization, modelKey, p)) > 0;
      CurrentComesBack(keys, offers, before, done, middle, target, p);
      assert Count(after, Rate(organization, modelKey, p)) > 0;
    } else {
      CurrentComesBack(keys, offers, before, done, middle, target, first.value);
      assert Count(after, Rate(organization, modelKey, first.value)) > 0;
    }
  }

  lemma NamedByMoved(keys: seq<Key>, offers: Offers, before: Rates, done: set<Target>, middle: Rates)
    requires Moved(keys, offers, before, done, middle)
    ensures WellNamed(keys)
  {
  }

  lemma ProviderInTheMiddle(keys: seq<Key>, offers: Offers, before: Rates, done: set<Target>, middle: Rates,
                            target: Target, j: nat, modelKey: string,
                            period: Period)
    requires Moved(keys, offers, before, done, middle) && IsTarget(keys, offers, target)
    requires j < |keys| && keys[j].organization == target.organization && keys[j].provider == target.provider
    requires modelKey == Current(target.provider, target.model) || modelKey == Legacy(target.provider, target.model)
    ensures var rate := Rate(target.organization, modelKey, period);
      Count(middle, rate) == if Kept(keys, offers, target) then Count(before, rate) else 0
  {
    hide WellNamed, Kept, IsTarget;
    assert Target(keys[j].organization, keys[j].provider, target.model) == target;
    var rate := Rate(target.organization, modelKey, period);
    ProviderKeepsItsRates(keys, offers, before, done, middle, j, target.model, rate);
  }

  lemma SomeKeyHasIt(keys: seq<Key>, offers: Offers, before: Rates, done: set<Target>, middle: Rates, target: Target)
    requires Moved(keys, offers, before, done, middle) && IsTarget(keys, offers, target) && HadRate(before, target)
    ensures FirstReturned(keys, middle, target.organization, target.provider, target.model).Some?
  {
    var p :| Both(before, target, p) > 0;
    var i := SlugHasAKey(keys, offers, target, SlugsFor(keys, offers, target)[0]);
    hide WellNamed, Kept, IsTarget, Both, SlugsFor, Current, Moved;
    var key := keys[i];
    assert Target(key.organization, key.provider, target.model) == target;
    KeyHasItsRates(keys, offers, before, done, middle, i, target.model, p);
    assert Count(middle, Rate(key.organization, Current(key.slug.value, target.model), p)) > 0;
    OwnIsFound(key, middle, target.model, p);
    AKeyGivesBack(keys, middle, target.organization, target.provider, target.model, i);
  }
}
