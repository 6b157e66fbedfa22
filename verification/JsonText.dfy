/** The encoder's text itself: no space that the value does not hold, nothing escaped for nothing, no idle zeros. */
module JsonText {
  import opened Decimals
  import opened Spelling
  import opened Json

  /** Some text or key of the value has the character. */
  predicate Occurs(v: Value, c: char) {
    match v
    case Text(text) => c in text
    case Mapping(members) => exists m :: m in members && (c in m.key || Occurs(m.value, c))
    case List(items) => exists i :: i in items && Occurs(i, c)
    case _ => false
  }

  /** What texts and numbers are made of apart from the value's own texts: digits, small letters and JSON's marks. */
  predicate IsMark(c: char) {
    '0' <= c <= '9' || 'a' <= c <= 'z' || c in "{}[]\",:.-\\"
  }

  predicate IsPrintable(c: char) {
    ' ' <= c <= '~'
  }

  lemma Hex4Marks(n: nat)
    requires n < 0x1_0000
    ensures forall c :: c in Hex4(n) ==> IsMark(c)
  {
  }

  lemma EscapedMarks(x: char)
    ensures forall c :: c in EscapeChar(x) ==> IsMark(c) || (c == x && IsPrintable(c))
  {
    if x as int < 0x1_0000 {
      Hex4Marks(x as int);
    } else {
      var n := x as int - 0x1_0000;
      Hex4Marks(0xD800 + n / 1024);
      Hex4Marks(0xDC00 + n % 1024);
    }
    hide Hex4;
    assert 'u' in "\\u" && forall c :: c in "\\u" ==> IsMark(c);
  }

  lemma {:induction false} TextMarks(text: string)
    ensures forall c :: c in Escape(text) ==> IsMark(c) || (c in text && IsPrintable(c))
  {
    if text != "" {
      hide EscapeChar;
      EscapedMarks(text[0]);
      TextMarks(text[1..]);
      assert forall c :: c in text[1..] ==> c in text;
    }
  }

  lemma StringMarks(text: string)
    ensures forall c :: c in DumpString(text) ==> IsMark(c) || (c in text && IsPrintable(c))
  {
    hide Escape;
    TextMarks(text);
  }

  lemma DigitMarks(digits: string)
    requires AllDigits(digits)
    ensures forall c :: c in digits ==> IsMark(c)
  {
  }

  lemma NumberMarks(v: Value)
    requires v.Int? || v.Dec?
    ensures forall c :: c in Dump(v) ==> IsMark(c)
  {
    if v.Int? {
      DigitMarks(ShowNat(Abs(v.n)));
    } else {
      PlainMarks(Normalized(v.d));
    }
  }

  lemma PlainMarks(d: Decimal)
    requires d.coefficient == 0 ==> d.exponent == 0
    ensures forall c :: c in Plain(d) ==> IsMark(c)
  {
    PlainDigitsRead(d);
    var (whole, fraction) := PlainDigits(d);
    hide PlainDigits;
    DigitMarks(whole);
    DigitMarks(fraction);
  }

  /** Every character is one of JSON's own or of the value's texts, and all are printable. */
  lemma {:induction false} DumpMarks(v: Value)
    ensures forall c :: c in Dump(v) ==> IsMark(c) || (Occurs(v, c) && IsPrintable(c))
    decreases v, 1
  {
    match v
    case Null =>
    case Bool(_) =>
    case Int(_) => NumberMarks(v);
    case Dec(_) => NumberMarks(v);
    case Text(text) => StringMarks(text);
    case Mapping(members) =>
      MembersMarks(members);
    case List(items) =>
      ItemsMarks(items);
  }

  lemma {:induction false} MembersMarks(members: seq<Member>)
    ensures forall c :: c in DumpMembers(members) ==> IsMark(c) || (Occurs(Mapping(members), c) && IsPrintable(c))
    decreases members, 0
  {
    if members != [] {
      var (first, rest) := (members[0], members[1..]);
      StringMarks(first.key);
      DumpMarks(first.value);
      MembersMarks(rest);
      hide Dump, DumpString, IsMark;
      MarksOfTwo();
      forall c | Occurs(Mapping(rest), c) ensures Occurs(Mapping(members), c) {
        var m :| m in rest && (c in m.key || Occurs(m.value, c));
        assert m in members;
      }
      assert first in members;
    }
  }

  lemma MarksOfTwo()
    ensures IsMark(':') && IsMark(',')
  {
    assert ":"[0] == ':';
  }

  lemma {:induction false} ItemsMarks(items: seq<Value>)
    ensures forall c :: c in DumpItems(items) ==> IsMark(c) || (Occurs(List(items), c) && IsPrintable(c))
    decreases items, 0
  {
    if items != [] {
      var (first, rest) := (items[0], items[1..]);
      DumpMarks(first);
      ItemsMarks(rest);
      hide Dump, IsMark;
      MarksOfTwo();
      forall c | Occurs(List(rest), c) ensures Occurs(List(items), c) {
        var i :| i in rest && Occurs(i, c);
        assert i in items;
      }
      assert first in items;
    }
  }

  /** Printable characters but the quote and the backslash stand for themselves. */
  lemma PlainTextStays(text: string)
    requires forall c :: c in text ==> ' ' <= c <= '~' && c != '"' && c != '\\'
    ensures DumpString(text) == "\"" + text + "\""
  {
    PlainTextIsItself(text);
  }

  lemma StandsForItself(c: char)
    requires ' ' <= c <= '~' && c != '"' && c != '\\'
    ensures EscapeChar(c) == [c]
  {
  }

  lemma {:induction false} PlainTextIsItself(text: string)
    requires forall c :: c in text ==> ' ' <= c <= '~' && c != '"' && c != '\\'
    ensures Escape(text) == text
  {
    if text != "" {
      hide EscapeChar;
      assert text[0] in text;
      StandsForItself(text[0]);
      assert forall c :: c in text[1..] ==> c in text;
      PlainTextIsItself(text[1..]);
      assert text == [text[0]] + text[1..];
    }
  }

  /** No number ends in a zero after its point. */
  lemma NoIdleZeros(d: Decimal)
    ensures var (whole, fraction) := PlainDigits(Normalized(d));
      fraction != "" ==> fraction[|fraction| - 1] != '0'
  {
    var n := Normalized(d);
    if n.exponent < 0 {
      var digits := ShowNat(Abs(n.coefficient));
      assert Abs(n.coefficient) % 10 != 0;
      assert digits[|digits| - 1] == DigitChar(Abs(n.coefficient) % 10);
    }
  }
}
