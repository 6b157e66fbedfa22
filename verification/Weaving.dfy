/** Texts as pieces of some characters with runs of all others between them. */
module Weaving {

  type Alphabet = char -> bool

  predicate IsPiece(text: string, alphabet: Alphabet) {
    forall c :: c in text ==> alphabet(c)
  }

  /** One or more characters, none of them of the alphabet. */
  predicate IsGap(text: string, alphabet: Alphabet) {
    text != "" && forall c :: c in text ==> !alphabet(c)
  }

  function Woven(pieces: seq<string>, gaps: seq<string>): string
    requires |pieces| == |gaps| + 1
  {
    if gaps == [] then pieces[0] else pieces[0] + gaps[0] + Woven(pieces[1..], gaps[1..])
  }

  /** The text is pieces with a gap between each two; a piece at either end may be empty, and no other. */
  ghost predicate IsWoven(text: string, alphabet: Alphabet, pieces: seq<string>, gaps: seq<string>) {
    && |pieces| == |gaps| + 1 && text == Woven(pieces, gaps)
    && (forall i :: 0 <= i < |pieces| ==> IsPiece(pieces[i], alphabet))
    && (forall i :: 0 < i < |pieces| - 1 ==> pieces[i] != "")
    && (forall i :: 0 <= i < |gaps| ==> IsGap(gaps[i], alphabet))
  }

  function Dashes(count: nat): (dashes: seq<string>)
    ensures |dashes| == count && forall i :: 0 <= i < count ==> dashes[i] == "-"
  {
    seq(count, _ => "-")
  }

  /** Every text is woven of pieces and gaps. */
  lemma {:induction false} Weave(text: string, alphabet: Alphabet) returns (pieces: seq<string>, gaps: seq<string>)
    ensures IsWoven(text, alphabet, pieces, gaps)
  {
    if text == "" {
      pieces, gaps := [""], [];
    } else {
      var c, rest := text[0], text[1..];
      pieces, gaps := Weave(rest, alphabet);
      assert text == [c] + rest;
      if alphabet(c) {
        LongerPiece(c, rest, alphabet, pieces, gaps);
        pieces := [[c] + pieces[0]] + pieces[1..];
      } else if pieces[0] == "" && gaps != [] {
        LongerGap(c, rest, alphabet, pieces, gaps);
        gaps := [[c] + gaps[0]] + gaps[1..];
      } else {
        assert ([""] + pieces)[1..] == pieces && ([[c]] + gaps)[1..] == gaps;
        pieces, gaps := [""] + pieces, [[c]] + gaps;
      }
    }
  }

  lemma LongerPiece(c: char, rest: string, alphabet: Alphabet, pieces: seq<string>, gaps: seq<string>)
    requires IsWoven(rest, alphabet, pieces, gaps) && alphabet(c)
    ensures IsWoven([c] + rest, alphabet, [[c] + pieces[0]] + pieces[1..], gaps)
  {
    var longer := [[c] + pieces[0]] + pieces[1..];
    assert longer[1..] == pieces[1..];
    assert forall i :: 0 < i < |pieces| ==> longer[i] == pieces[i];
  }

  lemma LongerGap(c: char, rest: string, alphabet: Alphabet, pieces: seq<string>, gaps: seq<string>)
    requires IsWoven(rest, alphabet, pieces, gaps) && gaps != [] && pieces[0] == "" && !alphabet(c)
    ensures IsWoven([c] + rest, alphabet, pieces, [[c] + gaps[0]] + gaps[1..])
  {
    var longer := [[c] + gaps[0]] + gaps[1..];
    assert longer[1..] == gaps[1..];
    assert forall i :: 0 < i < |gaps| ==> longer[i] == gaps[i];
  }

  /** The rest of a woven text is woven of the rest. */
  lemma RestIsWoven(text: string, alphabet: Alphabet, pieces: seq<string>, gaps: seq<string>)
    requires IsWoven(text, alphabet, pieces, gaps) && gaps != []
    ensures text == pieces[0] + (gaps[0] + Woven(pieces[1..], gaps[1..]))
    ensures IsWoven(Woven(pieces[1..], gaps[1..]), alphabet, pieces[1..], gaps[1..])
    ensures |gaps| > 1 ==> pieces[1] != ""
  {
  }

  lemma TailOf(text: string, rest: string)
    requires text != ""
    ensures text[0] in text && (text + rest)[0] == text[0] && (text + rest)[1..] == text[1..] + rest
    ensures forall c :: c in text[1..] ==> c in text
  {
  }
}
