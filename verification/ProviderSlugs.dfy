/** Revision b3e7d1a9c5f2, first half: each organization key with its own endpoint gets a name of its own. */
module ProviderSlugs {
  import opened Common
  import opened Spelling
  import opened Weaving

  // ---- the name a key asks for ---------------------------------------------------------------------

  predicate IsAllowed(c: char) {
    'a' <= c <= 'z' || '0' <= c <= '9' || c in "._-"
  }

  /** Every longest run of other characters becomes one dash. */
  function Dashed(text: string, inRun: bool := false): string {
    if text == "" then ""
    else if IsAllowed(text[0]) then [text[0]] + Dashed(text[1..], false)
    else (if inRun then "" else "-") + Dashed(text[1..], true)
  }

  function StripFront(text: string): string {
    if text != "" && text[0] in "-._" then StripFront(text[1..]) else text
  }

  function StripBack(text: string): string {
    if text != "" && text[|text| - 1] in "-._" then StripBack(text[..|text| - 1]) else text
  }

  const BASE_LENGTH := 56

  /**
   The name in lower case, made safe. Spaces around it need no step of their own: they become dashes, and those
   are stripped.
   */
  function Base(lowered: string, provider: string): string {
    var clean := StripBack(StripFront(Dashed(lowered)));
    var cut := if |clean| > BASE_LENGTH then clean[..BASE_LENGTH] else clean;
    if cut == "" then provider else cut
  }

  function Start(lowered: string, provider: string, taken: set<string>): string {
    var base := Base(lowered, provider);
    if base in taken then base + "-custom" else base
  }

  /** The names tried, in order: the start, then the start with -2, -3 and so on. */
  function Candidate(start: string, n: nat): string
    requires n >= 1
  {
    if n == 1 then start else start + "-" + ShowNat(n)
  }

  /** A selector reads up to its first separator, so a name must hold neither. */
  predicate IsPlain(name: string) {
    ':' !in name && '/' !in name
  }

  lemma CandidatesDiffer(start: string, m: nat, n: nat)
    requires 1 <= m < n
    ensures Candidate(start, m) != Candidate(start, n)
  {
    ReadShow(m);
    ReadShow(n);
    if m == 1 {
      assert |Candidate(start, n)| > |start|;
    } else {
      var front := start + "-";
      assert Candidate(start, m) == front + ShowNat(m) && Candidate(start, n) == front + ShowNat(n);
      assert (front + ShowNat(m))[|front|..] == ShowNat(m);
      assert (front + ShowNat(n))[|front|..] == ShowNat(n);
    }
  }

  /** No more candidates can be used than names are. */
  lemma {:induction false} CandidatesFit(start: string, used: set<string>, count: nat)
    requires forall j :: 1 <= j <= count ==> Candidate(start, j) in used
    ensures count <= |used|
  {
    if count > 0 {
      var last := Candidate(start, count);
      forall j | 1 <= j <= count - 1 ensures Candidate(start, j) in used - {last} {
        CandidatesDiffer(start, j, count);
      }
      CandidatesFit(start, used - {last}, count - 1);
    }
  }

  /** The first candidate nobody in the organization has. */
  ghost predicate FirstFree(start: string, used: set<string>, slug: string) {
    exists n :: IsFirstFree(start, used, slug, n)
  }

  ghost predicate IsFirstFree(start: string, used: set<string>, slug: string, n: nat) {
    1 <= n <= |used| + 1 && slug == Candidate(start, n) && slug !in used
    && forall j :: 1 <= j < n ==> Candidate(start, j) in used
  }

  method Slug(lowered: string, provider: string, taken: set<string>, used: set<string>)
    returns (slug: string, used': set<string>)
    ensures FirstFree(Start(lowered, provider, taken), used, slug)
    ensures IsNameFor(lowered, provider, taken, used, slug)
    ensures used' == used + {slug}
  {
    var start := Start(lowered, provider, taken);
    var n := 2;
    slug := start;
    while slug in used
      invariant n >= 2 && slug == Candidate(start, n - 1)
      invariant forall j :: 1 <= j < n - 1 ==> Candidate(start, j) in used
      decreases |used| + 3 - n
    {
      CandidatesFit(start, used, n - 1);
      slug, n := start + "-" + ShowNat(n), n + 1;
    }
    CandidatesFit(start, used, n - 2);
    assert IsFirstFree(start, used, slug, n - 1);
    FirstFreeIsTheName(lowered, provider, taken, used, slug);
    used' := used + {slug};
  }

  // ---- names that steer clear of the providers ------------------------------------------------------

  function Candidates(start: string, count: nat): (names: set<string>)
    ensures forall j :: 1 <= j <= count ==> Candidate(start, j) in names
    ensures forall name :: name in names ==> exists j :: 1 <= j <= count && name == Candidate(start, j)
    ensures |names| == count
  {
    if count == 0 then {}
    else
      assert forall j :: 1 <= j < count ==> Candidate(start, j) != Candidate(start, count) by {
        forall j | 1 <= j < count ensures Candidate(start, j) != Candidate(start, count) {
          CandidatesDiffer(start, j, count);
        }
      }
      Candidates(start, count - 1) + {Candidate(start, count)}
  }

  /** Whatever names were handed out before, the next one is no provider's and no stored instance's. */
  ghost predicate AlwaysClear(start: string, taken: set<string>) {
    forall used, slug :: FirstFree(start, used, slug) ==> slug !in taken
  }

  /**
   Only the name itself is compared with the taken ones, once, so the names handed out steer clear of those
   exactly when no candidate after that comparison is one of them.
   */
  lemma ClearOfTheTaken(lowered: string, provider: string, taken: set<string>)
    ensures AlwaysClear(Start(lowered, provider, taken), taken)
      <==> forall n :: n >= 1 ==> Candidate(Start(lowered, provider, taken), n) !in taken
  {
    var start := Start(lowered, provider, taken);
    if AlwaysClear(start, taken) {
      forall n | n >= 1 ensures Candidate(start, n) !in taken {
        CandidateIsReached(start, n);
      }
    }
  }

  lemma CandidateIsReached(start: string, n: nat)
    requires n >= 1
    ensures FirstFree(start, Candidates(start, n - 1), Candidate(start, n))
  {
    var used := Candidates(start, n - 1);
    if Candidate(start, n) in used {
      var j :| 1 <= j <= n - 1 && Candidate(start, n) == Candidate(start, j);
      CandidatesDiffer(start, j, n);
      assert false;
    }
    assert IsFirstFree(start, used, Candidate(start, n), n);
  }

  /**
   A key named like a provider steps aside, and when the deployment has stored an instance under exactly the name
   it steps aside to, the key is given that instance's name.
   */
  lemma StoredInstanceIsShadowed(name: string, provider: string, taken: set<string>)
    requires IsSafe(name) && name in taken && name + "-custom" in taken
    ensures FirstFree(Start(name, provider, taken), {}, name + "-custom")
    ensures !AlwaysClear(Start(name, provider, taken), taken)
  {
    hide Base;
    SafeNameIsKept(name, provider);
    CandidateIsReached(name + "-custom", 1);
  }

  // ---- what a name is made into ------------------------------------------------------------------------

  predicate IsLetterOrDigit(c: char) {
    'a' <= c <= 'z' || '0' <= c <= '9'
  }

  predicate IsSeparator(c: char) {
    c == '-' || c == '.' || c == '_'
  }

  /** What a selector name may hold. */
  const NAME_CHARACTERS: Alphabet := c => IsLetterOrDigit(c) || IsSeparator(c)

  predicate AreSeparators(text: string) {
    forall c :: c in text ==> IsSeparator(c)
  }

  /** What is left of `text` when the separators around it are gone. */
  ghost predicate IsTrimmed(text: string, front: string, clean: string, back: string) {
    && text == front + clean + back && AreSeparators(front) && AreSeparators(back)
    && (clean != "" ==> !IsSeparator(clean[0]) && !IsSeparator(clean[|clean| - 1]))
  }

  lemma {:induction false} DashedGap(gap: string, rest: string)
    requires forall c :: c in gap ==> !NAME_CHARACTERS(c)
    ensures Dashed(gap + rest, true) == Dashed(rest, true)
  {
    if gap == "" {
      assert gap + rest == rest;
    } else {
      TailOf(gap, rest);
      DashedGap(gap[1..], rest);
    }
  }

  lemma {:induction false} DashedPiece(piece: string, rest: string, inRun: bool)
    requires IsPiece(piece, NAME_CHARACTERS)
    ensures Dashed(piece + rest, inRun) == piece + Dashed(rest, if piece == "" then inRun else false)
  {
    if piece == "" {
      assert piece + rest == rest;
    } else {
      TailOf(piece, rest);
      DashedPiece(piece[1..], rest, false);
    }
  }

  /** Each gap becomes one dash. */
  lemma {:induction false} WovenDashes(text: string, pieces: seq<string>, gaps: seq<string>, inRun: bool)
    requires IsWoven(text, NAME_CHARACTERS, pieces, gaps) && (inRun && |gaps| > 0 ==> pieces[0] != "")
    ensures Dashed(text, inRun) == Woven(pieces, Dashes(|gaps|))
    decreases |gaps|
  {
    if gaps == [] {
      DashedPiece(text, "", inRun);
      assert text + "" == text;
    } else {
      var gap, rest := gaps[0], Woven(pieces[1..], gaps[1..]);
      RestIsWoven(text, NAME_CHARACTERS, pieces, gaps);
      DashedPiece(pieces[0], gap + rest, inRun);
      TailOf(gap, rest);
      DashedGap(gap[1..], rest);
      WovenDashes(rest, pieces[1..], gaps[1..], true);
      assert Dashes(|gaps|)[1..] == Dashes(|gaps| - 1);
    }
  }

  lemma {:induction false} TrimFront(text: string) returns (front: string)
    ensures text == front + StripFront(text) && AreSeparators(front)
  {
    if text != "" && text[0] in "-._" {
      var rest := TrimFront(text[1..]);
      front := [text[0]] + rest;
    } else {
      front := "";
    }
  }

  lemma {:induction false} TrimBack(text: string) returns (back: string)
    ensures text == StripBack(text) + back && AreSeparators(back)
    ensures StripBack(text) != "" ==> !IsSeparator(StripBack(text)[|StripBack(text)| - 1])
  {
    if text != "" && text[|text| - 1] in "-._" {
      var rest := TrimBack(text[..|text| - 1]);
      back := rest + [text[|text| - 1]];
      assert text == text[..|text| - 1] + [text[|text| - 1]];
    } else {
      back := "";
    }
  }

  /** The pieces of a name stand unchanged with one dash for each gap, without the separators around them. */
  ghost predicate IsMadeOf(lowered: string, clean: string) {
    exists pieces, gaps, front, back ::
      IsWoven(lowered, NAME_CHARACTERS, pieces, gaps) && IsTrimmed(Woven(pieces, Dashes(|gaps|)), front, clean, back)
  }

  /**
   The name a selector starts from: what a name is made into, cut to its first 56 characters, or the provider
   where a name has no letter and no digit.
   */
  ghost predicate IsBaseOf(lowered: string, provider: string, base: string) {
    exists clean :: IsMadeOf(lowered, clean)
      && (clean == "" <==> forall c :: c in lowered ==> !IsLetterOrDigit(c))
      && base == if clean == "" then provider else if |clean| <= 56 then clean else clean[..56]
  }

  lemma CleanIsMadeOf(lowered: string)
    ensures IsMadeOf(lowered, StripBack(StripFront(Dashed(lowered))))
  {
    var dashed := Dashed(lowered);
    var pieces, gaps := Weave(lowered, NAME_CHARACTERS);
    WovenDashes(lowered, pieces, gaps, false);
    var front := TrimFront(dashed);
    var back := TrimBack(StripFront(dashed));
    FrontIsPart(dashed);
    BackIsPart(StripFront(dashed));
    var clean := StripBack(StripFront(dashed));
    assert dashed == front + clean + back;
    assert clean != "" ==> clean[0] == StripFront(dashed)[0];
    assert IsTrimmed(Woven(pieces, Dashes(|gaps|)), front, clean, back);
  }

  lemma {:induction false} DashedKeepsLetters(text: string, inRun: bool)
    ensures forall c :: IsLetterOrDigit(c) ==> (c in Dashed(text, inRun) <==> c in text)
  {
    if text != "" {
      DashedKeepsLetters(text[1..], !IsAllowed(text[0]));
    }
  }

  /** The name is gone exactly when it had no letter and no digit. */
  lemma CleanIsEmpty(lowered: string)
    ensures StripBack(StripFront(Dashed(lowered))) == "" <==> forall c :: c in lowered ==> !IsLetterOrDigit(c)
  {
    var dashed := Dashed(lowered);
    DashedKeepsLetters(lowered, false);
    DashedIsAllowed(lowered, false);
    var front := TrimFront(dashed);
    var back := TrimBack(StripFront(dashed));
    FrontIsPart(dashed);
    BackIsPart(StripFront(dashed));
    var clean := StripBack(StripFront(dashed));
    assert dashed == front + clean + back;
    if clean != "" {
      assert clean[0] in dashed && clean[0] == StripFront(dashed)[0];
      assert exists i :: 0 <= i < |dashed| && dashed[i] == clean[0];
      assert IsLetterOrDigit(clean[0]);
      assert clean[0] in lowered;
    }
  }

  lemma BaseIsOf(lowered: string, provider: string)
    ensures IsBaseOf(lowered, provider, Base(lowered, provider))
  {
    CleanIsMadeOf(lowered);
    CleanIsEmpty(lowered);
    hide IsMadeOf, Dashed, StripFront, StripBack;
  }

  /** `name` is the start itself, or from the second on the start, a dash and the number in decimal digits. */
  ghost predicate IsNumbered(start: string, n: nat, name: string) {
    if n == 1 then name == start
    else exists digits :: IsDecimal(digits, n) && name == start + "-" + digits
  }

  /** The number in decimal digits, without a zero in front. */
  predicate IsDecimal(digits: string, n: nat) {
    AllDigits(digits) && ReadNat(digits) == n && (|digits| > 1 ==> digits[0] != '0')
  }

  ghost predicate IsTaken(start: string, n: nat, used: set<string>) {
    exists name :: name in used && IsNumbered(start, n, name)
  }

  /**
   What a key is named: what its own name is made into, with `-custom` where that is taken, and the first number
   nobody in the organization has.
   */
  ghost predicate IsNameFor(lowered: string, provider: string, taken: set<string>, used: set<string>, slug: string) {
    exists base :: IsBaseOf(lowered, provider, base)
      && HasNextName(if base in taken then base + "-custom" else base, used, slug)
  }

  ghost predicate HasNextName(start: string, used: set<string>, slug: string) {
    slug !in used
    && exists n: nat :: n >= 1 && IsNumbered(start, n, slug) && forall j :: 1 <= j < n ==> IsTaken(start, j, used)
  }

  lemma CandidateIsNumbered(start: string, n: nat)
    requires n >= 1
    ensures IsNumbered(start, n, Candidate(start, n))
  {
    ReadShow(n);
  }

  lemma FirstFreeIsTheName(lowered: string, provider: string, taken: set<string>, used: set<string>, slug: string)
    requires FirstFree(Start(lowered, provider, taken), used, slug)
    ensures IsNameFor(lowered, provider, taken, used, slug)
  {
    var start := Start(lowered, provider, taken);
    var n: nat :| IsFirstFree(start, used, slug, n);
    BaseIsOf(lowered, provider);
    hide IsBaseOf, Base, IsNumbered, Candidate;
    CandidateIsNumbered(start, n);
    forall j | 1 <= j < n ensures IsTaken(start, j, used) {
      CandidateIsNumbered(start, j);
      assert Candidate(start, j) in used;
    }
    assert HasNextName(start, used, slug);
  }

  // ---- the width of the column -------------------------------------------------------------------------

  const SLUG_LENGTH := 64

  /** With at most `count` names given out in the organization the next one fits, whichever they are. */
  ghost predicate AlwaysFits(start: string, count: nat) {
    forall used, slug :: |used| <= count && FirstFree(start, used, slug) ==> |slug| <= SLUG_LENGTH
  }

  lemma {:induction false} LongerNumber(m: nat, n: nat)
    requires m <= n
    ensures |ShowNat(m)| <= |ShowNat(n)|
  {
    if m >= 10 {
      LongerNumber(m / 10, n / 10);
    }
  }

  lemma LaterIsNoShorter(start: string, m: nat, n: nat)
    requires 1 <= m <= n
    ensures |Candidate(start, m)| <= |Candidate(start, n)|
  {
    LongerNumber(m, n);
  }

  /** Names fit exactly when the last candidate they can push a key to does. */
  lemma NamesFit(start: string, count: nat)
    ensures AlwaysFits(start, count) <==> |Candidate(start, count + 1)| <= SLUG_LENGTH
  {
    if AlwaysFits(start, count) {
      CandidateIsReached(start, count + 1);
    } else {
      var used, slug :| |used| <= count && FirstFree(start, used, slug) && |slug| > SLUG_LENGTH;
      var n :| IsFirstFree(start, used, slug, n);
      LaterIsNoShorter(start, n, count + 1);
    }
  }

  /** A name that does not step aside fits for the first 9,999,999 keys of an organization. */
  lemma NameOfItsOwnFits(lowered: string, provider: string, taken: set<string>, count: nat)
    requires Base(lowered, provider) !in taken && count < 9_999_999
    requires Base(lowered, provider) == provider ==> |provider| <= BASE_LENGTH
    ensures AlwaysFits(Start(lowered, provider, taken), count)
  {
    var start := Start(lowered, provider, taken);
    hide Base;
    BaseIsShort(lowered, provider);
    LongerNumber(count + 1, 9_999_999);
    NamesFit(start, count);
  }

  lemma BaseIsShort(lowered: string, provider: string)
    ensures Base(lowered, provider) != provider ==> |Base(lowered, provider)| <= BASE_LENGTH
  {
  }

  /** One that steps aside fits as the first of its name, and as the second exactly when it is below the cut. */
  lemma NameThatStepsAsideFits(lowered: string, provider: string, taken: set<string>)
    requires Base(lowered, provider) in taken && (Base(lowered, provider) == provider ==> |provider| <= BASE_LENGTH)
    ensures AlwaysFits(Start(lowered, provider, taken), 0)
    ensures AlwaysFits(Start(lowered, provider, taken), 1) <==> |Base(lowered, provider)| < BASE_LENGTH
  {
    var start := Start(lowered, provider, taken);
    hide Base;
    BaseIsShort(lowered, provider);
    NamesFit(start, 0);
    NamesFit(start, 1);
  }

  /** Two keys named like a stored instance of 56 letters: the second one's name is a character too long. */
  lemma LongNameOverflows(provider: string) returns (name: string, used: set<string>, slug: string)
    ensures |name| == BASE_LENGTH && FirstFree(Start(name, provider, {name}), {}, name + "-custom")
    ensures used == {name + "-custom"} && FirstFree(Start(name, provider, {name}), used, slug)
    ensures |slug| == SLUG_LENGTH + 1
  {
    name := seq(BASE_LENGTH, _ => 'a');
    hide Base;
    SafeNameIsKept(name, provider);
    var start := name + "-custom";
    assert Start(name, provider, {name}) == start;
    CandidateIsReached(start, 1);
    used, slug := {start}, Candidate(start, 2);
    CandidatesDiffer(start, 1, 2);
    assert IsFirstFree(start, used, slug, 2);
  }

  predicate IsSafe(text: string) {
    0 < |text| <= BASE_LENGTH && (forall i :: 0 <= i < |text| ==> IsAllowed(text[i]))
    && text[0] !in "-._" && text[|text| - 1] !in "-._"
  }

  lemma {:induction false} NothingToDash(text: string, inRun: bool)
    requires forall i :: 0 <= i < |text| ==> IsAllowed(text[i])
    ensures Dashed(text, inRun) == text
  {
    if text != "" {
      NothingToDash(text[1..], false);
    }
  }

  lemma SafeNameIsKept(text: string, provider: string)
    requires IsSafe(text)
    ensures Base(text, provider) == text
  {
    NothingToDash(text, false);
  }

  lemma {:induction false} DashedIsAllowed(text: string, inRun: bool)
    ensures forall i :: 0 <= i < |Dashed(text, inRun)| ==> IsAllowed(Dashed(text, inRun)[i])
  {
    if text != "" {
      DashedIsAllowed(text[1..], !IsAllowed(text[0]));
    }
  }

  lemma {:induction false} FrontIsPart(text: string)
    ensures forall c :: c in StripFront(text) ==> c in text
    ensures StripFront(text) != "" ==> StripFront(text)[0] !in "-._"
  {
    if text != "" && text[0] in "-._" {
      FrontIsPart(text[1..]);
    }
  }

  lemma {:induction false} BackIsPart(text: string)
    ensures StripBack(text) <= text
  {
    if text != "" && text[|text| - 1] in "-._" {
      BackIsPart(text[..|text| - 1]);
    }
  }

  /** Any name at all, in any script, gives a slug a selector can be read back from. */
  lemma SlugIsPlain(lowered: string, provider: string, taken: set<string>, n: nat)
    requires IsPlain(provider) && n >= 1
    ensures IsPlain(Candidate(Start(lowered, provider, taken), n))
  {
    BaseIsPlain(lowered, provider);
    var start := Start(lowered, provider, taken);
    assert IsPlain(start);
    assert forall i :: 0 <= i < |ShowNat(n)| ==> IsDigit(ShowNat(n)[i]);
  }

  lemma BaseIsPlain(lowered: string, provider: string)
    requires IsPlain(provider)
    ensures IsPlain(Base(lowered, provider))
  {
    var dashed := Dashed(lowered);
    DashedIsAllowed(lowered, false);
    assert forall c :: c in dashed ==> IsAllowed(c);
    FrontIsPart(dashed);
    BackIsPart(StripFront(dashed));
    var clean := StripBack(StripFront(dashed));
    assert forall c :: c in clean ==> c in dashed;
    assert forall i :: 0 <= i < |clean| ==> clean[i] in clean;
  }

  // ---- every key of every organization ---------------------------------------------------------------

  /** The columns the migration reads and writes, in the order the keys were made; `lowered` is the key's name. */
  datatype Key = Key(id: nat, organization: nat, provider: string, lowered: string, custom: bool, archived: bool,
                     isDefault: bool, slug: Option<string>)

  /** The names the first `count` keys have in an organization. */
  function UsedBefore(keys: seq<Key>, count: nat, organization: nat): set<string>
    requires count <= |keys|
  {
    set i | 0 <= i < count && keys[i].organization == organization && keys[i].slug.Some? :: keys[i].slug.value
  }

  /** What naming does to one key, given the names of those before it. */
  ghost predicate IsNamedRow(was: Key, now: Key, taken: set<string>, used: set<string>) {
    if was.custom then
      && now.slug.Some?
      && now == was.(slug := now.slug, isDefault := false)
      && FirstFree(Start(was.lowered, was.provider, taken), used, now.slug.value)
    else
      now == was
  }

  ghost predicate IsNamed(before: seq<Key>, after: seq<Key>, taken: set<string>, i: nat)
    requires i < |before| == |after|
  {
    IsNamedRow(before[i], after[i], taken, UsedBefore(after, i, before[i].organization))
  }

  class KeyTable {
    var keys: seq<Key>

    method NameKeys(taken: set<string>)
      requires forall i :: 0 <= i < |keys| ==> keys[i].slug == None
      modifies this
      ensures |keys| == |old(keys)|
      ensures forall i :: 0 <= i < |keys| ==> IsNamed(old(keys), keys, taken, i)
      ensures forall i :: 0 <= i < |keys| && old(keys)[i].custom ==> HasItsName(keys, taken, i)
    {
      hide IsNamed, FirstFree, UsedBefore, Start;
      ghost var before := keys;
      var used: map<nat, set<string>> := map[];
      var i := 0;
      NobodyYet(keys);
      while i < |keys|
        invariant 0 <= i <= |keys| == |before|
        invariant keys[i..] == before[i..]
        invariant forall k :: 0 <= k < i ==> IsNamed(before, keys, taken, k)
        invariant forall o :: UsedIn(used, o) == UsedBefore(keys, i, o)
      {
        ghost var prior, was := keys, used;
        var key := keys[i];
        assert key == prior[i..][0] == before[i..][0] && key.slug == None;
        if key.custom {
          var slug, inUse := Slug(key.lowered, key.provider, taken, UsedIn(used, key.organization));
          keys := keys[i := key.(slug := Some(slug), isDefault := false)];
          used := used[key.organization := inUse];
        }
        assert keys == prior[i := keys[i]];
        OneMoreNamed(before, prior, keys, taken, i);
        OneMoreUsed(prior, keys, i);
        assert forall o :: UsedIn(used, o) == UsedIn(was, o) + NameOf(keys[i], o);
        i := i + 1;
      }
      forall i | 0 <= i < |keys| && before[i].custom ensures HasItsName(keys, taken, i) {
        NamedHasItsName(before, keys, taken, i);
      }
    }
  }

  /** Named for its own name, given the names of the keys before it in its organization. */
  ghost predicate HasItsName(keys: seq<Key>, taken: set<string>, i: nat)
    requires i < |keys|
  {
    var used := set j | 0 <= j < i && keys[j].organization == keys[i].organization && keys[j].slug.Some? ::
      keys[j].slug.value;
    keys[i].slug.Some? && IsNameFor(keys[i].lowered, keys[i].provider, taken, used, keys[i].slug.value)
  }

  lemma NamedHasItsName(before: seq<Key>, keys: seq<Key>, taken: set<string>, i: nat)
    requires i < |before| == |keys| && before[i].custom && IsNamed(before, keys, taken, i)
    ensures HasItsName(keys, taken, i)
  {
    hide FirstFree, IsNameFor, Start;
    FirstFreeIsTheName(before[i].lowered, before[i].provider, taken, UsedBefore(keys, i, before[i].organization),
                       keys[i].slug.value);
    assert UsedBefore(keys, i, keys[i].organization) ==
      set j | 0 <= j < i && keys[j].organization == keys[i].organization && keys[j].slug.Some? :: keys[j].slug.value;
  }

  function UsedIn(used: map<nat, set<string>>, organization: nat): set<string> {
    if organization in used then used[organization] else {}
  }

  lemma NobodyYet(keys: seq<Key>)
    ensures forall o :: UsedBefore(keys, 0, o) == {}
  {
  }

  lemma UsedByTheSame(a: seq<Key>, b: seq<Key>, count: nat, organization: nat)
    requires count <= |a| && count <= |b| && a[..count] == b[..count]
    ensures UsedBefore(a, count, organization) == UsedBefore(b, count, organization)
  {
  }

  lemma OneMoreUsed(prior: seq<Key>, now: seq<Key>, i: nat)
    requires i < |prior| == |now| && now == prior[i := now[i]]
    ensures forall o :: UsedBefore(now, i + 1, o) == UsedBefore(prior, i, o) + NameOf(now[i], o)
  {
    forall o ensures UsedBefore(now, i + 1, o) == UsedBefore(prior, i, o) + NameOf(now[i], o) {
      assert prior[..i] == now[..i];
      UsedByTheSame(prior, now, i, o);
    }
  }

  function NameOf(key: Key, organization: nat): set<string> {
    if key.organization == organization && key.slug.Some? then {key.slug.value} else {}
  }

  /** Naming row `i` leaves the rows before it named. */
  lemma OneMoreNamed(before: seq<Key>, prior: seq<Key>, now: seq<Key>, taken: set<string>, i: nat)
    requires i < |before| == |prior| == |now| && prior[i..] == before[i..] && now == prior[i := now[i]]
    requires forall k :: 0 <= k < i ==> IsNamed(before, prior, taken, k)
    requires IsNamedRow(before[i], now[i], taken, UsedBefore(prior, i, before[i].organization))
    ensures now[i + 1..] == before[i + 1..]
    ensures forall k :: 0 <= k <= i ==> IsNamed(before, now, taken, k)
  {
    forall k: nat | k <= i ensures IsNamed(before, now, taken, k) {
      assert prior[..k] == now[..k];
      UsedByTheSame(prior, now, k, before[k].organization);
      if k < i {
        assert IsNamed(before, prior, taken, k);
      }
    }
  }

  /** Within an organization no two keys share a name. */
  lemma NamesAreDistinct(before: seq<Key>, after: seq<Key>, taken: set<string>, i: nat, j: nat)
    requires |before| == |after| && forall k :: 0 <= k < |before| ==>
      before[k].slug == None && IsNamed(before, after, taken, k)
    requires i < j < |after| && after[i].organization == after[j].organization
    requires after[i].slug.Some? && after[j].slug.Some?
    ensures after[i].slug != after[j].slug
  {
    assert IsNamed(before, after, taken, i) && IsNamed(before, after, taken, j);
    assert after[i].slug.value in UsedBefore(after, j, before[j].organization);
  }

  lemma {:induction false} UsedAreFew(keys: seq<Key>, count: nat, organization: nat)
    requires count <= |keys|
    ensures |UsedBefore(keys, count, organization)| <= count
  {
    if count > 0 {
      UsedAreFew(keys, count - 1, organization);
      OneMoreUsed(keys, keys, count - 1);
    }
  }

  /** A key's name fits when that of the last candidate it could be pushed to does. */
  lemma NamedKeyFits(before: seq<Key>, after: seq<Key>, taken: set<string>, i: nat)
    requires i < |before| == |after| && before[i].custom && IsNamed(before, after, taken, i)
    requires |Candidate(Start(before[i].lowered, before[i].provider, taken), i + 1)| <= SLUG_LENGTH
    ensures |after[i].slug.value| <= SLUG_LENGTH
  {
    hide Start, FirstFree, UsedBefore;
    UsedAreFew(after, i, before[i].organization);
    NamesFit(Start(before[i].lowered, before[i].provider, taken), i);
  }
}
