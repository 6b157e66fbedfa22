/** Parsing what the encoder printed gives the value back, its numbers exactly. */
module JsonRoundTrip {
  import opened Common
  import opened Decimals
  import opened Spelling
  import opened Json

  // ---- strings ------------------------------------------------------------------------------------

  lemma HexDigitRound(d: nat)
    requires d < 16
    ensures IsHex(HexChar(d)) && HexValue(HexChar(d)) == d
  {
  }

  lemma HexRound(n: nat, tail: string)
    requires n < 0x1_0000
    ensures ReadHex4(Hex4(n) + tail) == Some(n)
  {
    hide HexChar, HexValue, IsHex;
    HexParts(n);
    HexDigitRound(n / 4096);
    HexDigitRound(n / 256 % 16);
    HexDigitRound(n / 16 % 16);
    HexDigitRound(n % 16);
    var h := Hex4(n) + tail;
    assert h[0] == HexChar(n / 4096) && h[1] == HexChar(n / 256 % 16)
        && h[2] == HexChar(n / 16 % 16) && h[3] == HexChar(n % 16);
  }

  lemma HexParts(n: nat)
    requires n < 0x1_0000
    ensures n / 4096 < 16
    ensures n == 4096 * (n / 4096) + 256 * (n / 256 % 16) + 16 * (n / 16 % 16) + n % 16
  {
    assert n == 16 * (n / 16) + n % 16;
    assert n / 16 == 16 * (n / 256) + n / 16 % 16;
    assert n / 256 == 16 * (n / 4096) + n / 256 % 16;
  }

  /** What is left of a concatenation past its first part. */
  lemma Past(a: string, b: string)
    ensures (a + b)[|a|..] == b && (a + b)[..|a|] == a
  {
  }

  lemma UnitStep(s: string, n: nat, tail: string)
    requires |s| >= 5 && s[0] == 'u' && ReadHex4(s[1..]) == Some(n) && s[5..] == tail
    requires n < 0xD800 || 0xE000 <= n < 0x1_0000
    ensures ReadEscape(s) == Some(Parsed(n as char, tail))
  {
  }

  lemma SurrogateStep(s: string, high: nat, low: nat, tail: string)
    requires |s| >= 11 && s[0] == 'u' && ReadHex4(s[1..]) == Some(high) && 0xD800 <= high < 0xDC00
    requires s[5..7] == "\\u" && ReadHex4(s[7..]) == Some(low) && 0xDC00 <= low < 0xE000 && s[11..] == tail
    ensures ReadEscape(s) == Some(Parsed((0x1_0000 + 1024 * (high - 0xD800) + (low - 0xDC00)) as char, tail))
  {
  }

  lemma SurrogateLayout(high: string, low: string, tail: string)
    requires |high| == 4 && |low| == 4
    ensures var s := "u" + (high + ("\\u" + (low + tail)));
      s[1..] == high + ("\\u" + (low + tail)) && s[5..7] == "\\u" && s[7..] == low + tail && s[11..] == tail
  {
  }

  predicate HasLongEscape(c: char) {
    !(' ' <= c <= '~') && c as int !in {8, 9, 10, 12, 13}
  }

  lemma UnitEscapeRound(c: char, tail: string)
    requires HasLongEscape(c) && c as int < 0x1_0000
    ensures EscapeChar(c) != "" && EscapeChar(c)[0] == '\\'
    ensures ReadEscape(EscapeChar(c)[1..] + tail) == Some(Parsed(c, tail))
  {
    hide ReadEscape, ReadHex4, Hex4;
    var n := c as int;
    HexRound(n, tail);
    var s := "u" + (Hex4(n) + tail);
    Past("u", Hex4(n) + tail);
    Past("u" + Hex4(n), tail);
    assert EscapeChar(c)[1..] + tail == s;
    assert "u" + Hex4(n) + tail == s;
    UnitStep(s, n, tail);
  }

  lemma PairEscapeRound(c: char, tail: string)
    requires HasLongEscape(c) && c as int >= 0x1_0000
    ensures EscapeChar(c) != "" && EscapeChar(c)[0] == '\\'
    ensures ReadEscape(EscapeChar(c)[1..] + tail) == Some(Parsed(c, tail))
  {
    hide ReadEscape, ReadHex4, Hex4;
    var n := c as int - 0x1_0000;
    var (high, low) := (0xD800 + n / 1024, 0xDC00 + n % 1024);
    assert n / 1024 < 1024 && n == 1024 * (n / 1024) + n % 1024;
    var s := "u" + (Hex4(high) + ("\\u" + (Hex4(low) + tail)));
    SurrogateLayout(Hex4(high), Hex4(low), tail);
    HexRound(high, "\\u" + (Hex4(low) + tail));
    HexRound(low, tail);
    assert EscapeChar(c)[1..] == "u" + Hex4(high) + "\\u" + Hex4(low);
    assert EscapeChar(c)[1..] + tail == s;
    SurrogateStep(s, high, low, tail);
  }

  lemma EscapeRound(c: char, tail: string)
    requires HasLongEscape(c)
    ensures EscapeChar(c) != "" && EscapeChar(c)[0] == '\\'
    ensures ReadEscape(EscapeChar(c)[1..] + tail) == Some(Parsed(c, tail))
  {
    hide *;
    if c as int < 0x1_0000 {
      UnitEscapeRound(c, tail);
    } else {
      PairEscapeRound(c, tail);
    }
  }

  /** The characters with an escape of their own. */
  predicate HasShortEscape(c: char) {
    c == '"' || c == '\\' || c as int in {8, 9, 10, 12, 13}
  }

  lemma ShortEscapeRound(c: char, tail: string)
    requires HasShortEscape(c)
    ensures |EscapeChar(c)| == 2 && EscapeChar(c)[0] == '\\'
    ensures ReadEscape([EscapeChar(c)[1]] + tail) == Some(Parsed(c, tail))
  {
  }

  lemma CharRound(c: char, tail: string)
    ensures EscapeChar(c) != "" && EscapeChar(c)[0] != '"'
    ensures ReadChar(EscapeChar(c) + tail) == Some(Parsed(c, tail))
  {
    var s := EscapeChar(c) + tail;
    if HasShortEscape(c) {
      hide EscapeChar, ReadEscape;
      ShortEscapeRound(c, tail);
      assert s[1..] == [EscapeChar(c)[1]] + tail;
    } else if ' ' <= c <= '~' {
      hide ReadEscape;
      Past([c], tail);
    } else {
      hide EscapeChar, ReadEscape;
      EscapeRound(c, tail);
      assert s[1..] == EscapeChar(c)[1..] + tail;
    }
  }

  lemma CharsStep(s: string, c: char, rest: string)
    requires s != "" && s[0] != '"' && ReadChar(s) == Some(Parsed(c, rest)) && ReadChars(rest).Some?
    ensures ReadChars(s) == Some(Parsed([c] + ReadChars(rest).value.value, ReadChars(rest).value.rest))
  {
  }

  lemma EscapeFirst(text: string, tail: string)
    requires text != ""
    ensures Escape(text) + "\"" + tail == EscapeChar(text[0]) + (Escape(text[1..]) + "\"" + tail)
  {
  }

  lemma {:induction false} CharsRound(text: string, tail: string)
    ensures ReadChars(Escape(text) + "\"" + tail) == Some(Parsed(text, tail))
  {
    if text == "" {
      assert Escape(text) + "\"" + tail == "\"" + tail;
    } else {
      hide EscapeChar, ReadChar, ReadChars, Escape;
      var rest := Escape(text[1..]) + "\"" + tail;
      EscapeFirst(text, tail);
      CharRound(text[0], rest);
      CharsRound(text[1..], tail);
      CharsStep(EscapeChar(text[0]) + rest, text[0], rest);
      assert text == [text[0]] + text[1..];
    }
  }

  lemma StringRound(text: string, tail: string)
    ensures DumpString(text) + tail != "" && (DumpString(text) + tail)[0] == '"'
    ensures ReadChars((DumpString(text) + tail)[1..]) == Some(Parsed(text, tail))
  {
    hide Escape, ReadChars;
    CharsRound(text, tail);
    Past("\"", Escape(text) + "\"" + tail);
    assert DumpString(text) + tail == "\"" + (Escape(text) + "\"" + tail);
  }

  // ---- numbers ------------------------------------------------------------------------------------

  /** What may follow a number: nothing that would carry it on. */
  predicate Ends(tail: string) {
    tail == "" || (!IsDigit(tail[0]) && tail[0] != '.' && tail[0] != 'e' && tail[0] != 'E')
  }

  lemma {:induction false} DigitsOfJoin(digits: string, tail: string)
    requires AllDigits(digits) && (tail == "" || !IsDigit(tail[0]))
    ensures DigitsOf(digits + tail) == |digits|
  {
    if digits == "" {
      assert digits + tail == tail;
    } else {
      assert (digits + tail)[1..] == digits[1..] + tail;
      DigitsOfJoin(digits[1..], tail);
    }
  }

  lemma WholeRound(whole: string, tail: string)
    requires AllDigits(whole) && whole != "" && (|whole| > 1 ==> whole[0] != '0')
    requires tail == "" || !IsDigit(tail[0])
    ensures ReadWhole(whole + tail) == Some(Parsed(whole, tail))
  {
    DigitsOfJoin(whole, tail);
  }

  function Fraction(fraction: string): string {
    if fraction == "" then "" else "." + fraction
  }

  lemma FractionRound(fraction: string, tail: string)
    requires AllDigits(fraction) && Ends(tail)
    ensures ReadFraction(Fraction(fraction) + tail) == Parsed(fraction, tail)
    ensures Fraction(fraction) + tail == "" || !IsDigit((Fraction(fraction) + tail)[0])
  {
    if fraction == "" {
      assert Fraction(fraction) + tail == tail;
    } else {
      Past(".", fraction + tail);
      Past(fraction, tail);
      assert Fraction(fraction) + tail == "." + (fraction + tail);
      DigitsOfJoin(fraction, tail);
    }
  }

  /** A number read, given what its parts read as. */
  lemma NumberStep(s: string, negative: bool, whole: string, after: string, fraction: string, tail: string)
    requires s != "" && (s[0] == '-') == negative && Ends(tail)
    requires ReadWhole(if negative then s[1..] else s) == Some(Parsed(whole, after))
    requires ReadFraction(after) == Parsed(fraction, tail)
    ensures AllDigits(whole + fraction)
    ensures ReadNumber(s) ==
            Some(Parsed(Stripped(Decimal(Signed(negative, ReadNat(whole + fraction)), -|fraction|)), tail))
  {
    hide ReadNat, Stripped, ReadWhole, ReadFraction;
    DigitsJoin(whole, fraction);
    assert ReadExponent(tail) == (0, tail);
  }

  lemma SignLayout(negative: bool, whole: string, fraction: string, tail: string)
    requires whole != "" && IsDigit(whole[0])
    ensures var s := (if negative then "-" else "") + whole + fraction + tail;
      s != "" && (s[0] == '-') == negative && (if negative then s[1..] else s) == whole + (fraction + tail)
  {
  }

  /** Reading a number whose three parts are given. */
  lemma PartsRound(negative: bool, whole: string, fraction: string, tail: string)
    requires AllDigits(whole) && AllDigits(fraction) && whole != "" && (|whole| > 1 ==> whole[0] != '0')
    requires Ends(tail)
    ensures AllDigits(whole + fraction)
    ensures ReadNumber((if negative then "-" else "") + whole + Fraction(fraction) + tail) ==
            Some(Parsed(Stripped(Decimal(Signed(negative, ReadNat(whole + fraction)), -|fraction|)), tail))
  {
    hide ReadNat, Stripped, ReadWhole, ReadFraction, Fraction, ReadNumber;
    var after := Fraction(fraction) + tail;
    var sign := if negative then "-" else "";
    var s := sign + whole + Fraction(fraction) + tail;
    SignLayout(negative, whole, Fraction(fraction), tail);
    FractionRound(fraction, tail);
    WholeRound(whole, after);
    NumberStep(s, negative, whole, after, fraction, tail);
  }

  lemma DecimalRound(d: Decimal, tail: string)
    requires (d.coefficient == 0 ==> d.exponent == 0) && Ends(tail)
    ensures ReadNumber(Plain(d) + tail) == Some(Parsed(Stripped(d), tail))
  {
    hide ReadNat, Stripped, PlainDigits, ReadNumber;
    var (whole, fraction) := PlainDigits(d);
    PlainDigitsRead(d);
    PartsRound(d.coefficient < 0, whole, fraction, tail);
    if d.exponent >= 0 {
      StrippedShift(d.coefficient, 0, d.exponent);
      SignedTimes(d.coefficient, Pow10(d.exponent));
    } else {
      SignedTimes(d.coefficient, 1);
    }
  }

  lemma SignedTimes(c: int, p: nat)
    ensures Signed(c < 0, Abs(c) * p) == c * p
  {
  }

  lemma IntRound(n: int, tail: string)
    requires Ends(tail)
    ensures ReadNumber(DumpInt(n) + tail) == Some(Parsed(Stripped(Decimal(n, 0)), tail))
  {
    hide ReadNat, ReadNumber;
    ReadShow(Abs(n));
    assert ShowNat(Abs(n)) + "" == ShowNat(Abs(n));
    PartsRound(n < 0, ShowNat(Abs(n)), "", tail);
    assert DumpInt(n) + "" == DumpInt(n);
  }

  /** A number starts with a digit or a minus sign. */
  lemma NumberStarts(v: Value)
    requires v.Int? || v.Dec?
    ensures Dump(v) != "" && (IsDigit(Dump(v)[0]) || Dump(v)[0] == '-')
  {
    match v
    case Int(n) =>
    case Dec(d) =>
      PlainDigitsRead(Normalized(d));
    case _ =>
  }

  // ---- values -------------------------------------------------------------------------------------

  /** What the text the encoder prints says: every number normalized. */
  function Printed(v: Value): Value {
    match v
    case Null => v
    case Bool(_) => v
    case Int(n) => Dec(Stripped(Decimal(n, 0)))
    case Dec(d) => Dec(Normalized(d))
    case Text(_) => v
    case Mapping(members) => Mapping(PrintedMembers(members))
    case List(items) => List(PrintedItems(items))
  }

  function PrintedMembers(members: seq<Member>): seq<Member> {
    if members == [] then [] else [Member(members[0].key, Printed(members[0].value))] + PrintedMembers(members[1..])
  }

  function PrintedItems(items: seq<Value>): seq<Value> {
    if items == [] then [] else [Printed(items[0])] + PrintedItems(items[1..])
  }

  /** A text never starts with space, or with what closes a list or an object. */
  lemma DumpStarts(v: Value)
    ensures Dump(v) != ""
    ensures !IsSpace(Dump(v)[0]) && Dump(v)[0] != ']' && Dump(v)[0] != '}'
  {
    if v.Int? || v.Dec? {
      NumberStarts(v);
    }
  }

  /** Starts with something other than space, so there is nothing to skip. */
  predicate Solid(s: string) {
    s != "" && !IsSpace(s[0])
  }

  /** One member read, given what its parts read as. */
  lemma MemberStep(s: string, key: string, afterKey: string, value: Value, end: string)
    requires s != "" && s[0] == '"' && ReadChars(s[1..]) == Some(Parsed(key, afterKey))
    requires Solid(afterKey) && afterKey[0] == ':' && Solid(afterKey[1..])
    requires ReadValue(afterKey[1..]) == Some(Parsed(value, end)) && Solid(end)
    ensures end[0] == '}' ==> ReadMembers(s) == Some(Parsed([Member(key, value)], end[1..]))
    ensures end[0] == ',' && Solid(end[1..]) && ReadMembers(end[1..]).Some? ==>
      var more := ReadMembers(end[1..]).value;
      ReadMembers(s) == Some(Parsed([Member(key, value)] + more.value, more.rest))
  {
    hide ReadValue, ReadChars;
  }

  /** One item read, given what its value reads as. */
  lemma ItemStep(s: string, value: Value, end: string)
    requires ReadValue(s) == Some(Parsed(value, end)) && Solid(end)
    ensures end[0] == ']' ==> ReadItems(s) == Some(Parsed([value], end[1..]))
    ensures end[0] == ',' && Solid(end[1..]) && ReadItems(end[1..]).Some? ==>
      var more := ReadItems(end[1..]).value;
      ReadItems(s) == Some(Parsed([value] + more.value, more.rest))
  {
  }

  lemma ObjectStep(s: string, inside: string)
    requires s == "{" + inside && Solid(inside)
    ensures inside[0] == '}' ==> ReadValue(s) == Some(Parsed(Mapping([]), inside[1..]))
    ensures inside[0] != '}' && ReadMembers(inside).Some? ==>
      ReadValue(s) == Some(Parsed(Mapping(ReadMembers(inside).value.value), ReadMembers(inside).value.rest))
  {
  }

  lemma ArrayStep(s: string, inside: string)
    requires s == "[" + inside && Solid(inside)
    ensures inside[0] == ']' ==> ReadValue(s) == Some(Parsed(List([]), inside[1..]))
    ensures inside[0] != ']' && ReadItems(inside).Some? ==>
      ReadValue(s) == Some(Parsed(List(ReadItems(inside).value.value), ReadItems(inside).value.rest))
  {
  }

  lemma ScalarRound(v: Value, tail: string)
    requires Ends(tail) && !v.Mapping? && !v.List?
    ensures ReadValue(Dump(v) + tail) == Some(Parsed(Printed(v), tail))
  {
    hide ReadNumber, ReadChars, Plain, Normalized, Stripped, DumpInt, DumpString;
    var s := Dump(v) + tail;
    match v
    case Null => assert s[4..] == tail;
    case Bool(b) => assert s[if b then 4 else 5..] == tail;
    case Int(n) => NumberStarts(v); IntRound(n, tail);
    case Dec(d) =>
      NumberStarts(v);
      NormalizedIsStripped(d);
      DecimalRound(Normalized(d), tail);
    case Text(text) =>
      StringRound(text, tail);
      TextStep(s, text, tail);
    case _ =>
  }

  lemma TextStep(s: string, text: string, tail: string)
    requires s != "" && s[0] == '"' && ReadChars(s[1..]) == Some(Parsed(text, tail))
    ensures ReadValue(s) == Some(Parsed(Text(text), tail))
  {
  }

  lemma NormalizedIsStripped(d: Decimal)
    ensures Stripped(Normalized(d)) == Normalized(d)
    ensures Normalized(d).coefficient == 0 ==> Normalized(d).exponent == 0
  {
  }

  lemma {:induction false} ValueRound(v: Value, tail: string)
    requires Ends(tail)
    ensures ReadValue(Dump(v) + tail) == Some(Parsed(Printed(v), tail))
    decreases v, 0
  {
    match v
    case Mapping(members) =>
      hide ReadValue, ReadMembers, Printed, PrintedMembers;
      var inside := DumpMembers(members) + "}" + tail;
      assert Dump(v) + tail == "{" + inside;
      if members == [] {
        assert inside == "}" + tail && inside[1..] == tail;
      } else {
        MembersRound(members, tail);
        MembersStart(members, tail);
      }
      ObjectStep("{" + inside, inside);
      PrintedContainers(v);
    case List(items) =>
      hide ReadValue, ReadItems, Printed, PrintedItems;
      var inside := DumpItems(items) + "]" + tail;
      assert Dump(v) + tail == "[" + inside;
      if items == [] {
        assert inside == "]" + tail && inside[1..] == tail;
      } else {
        ItemsRound(items, tail);
        ItemsStart(items, tail);
      }
      ArrayStep("[" + inside, inside);
      PrintedContainers(v);
    case _ => ScalarRound(v, tail);
  }

  lemma PrintedContainers(v: Value)
    ensures v.Mapping? ==> Printed(v) == Mapping(PrintedMembers(v.members)) && PrintedMembers([]) == []
    ensures v.List? ==> Printed(v) == List(PrintedItems(v.items)) && PrintedItems([]) == []
  {
  }

  lemma MembersStart(members: seq<Member>, tail: string)
    requires members != []
    ensures var s := DumpMembers(members) + "}" + tail; Solid(s) && s[0] == '"'
  {
  }

  lemma ItemsStart(items: seq<Value>, tail: string)
    requires items != []
    ensures var s := DumpItems(items) + "]" + tail; Solid(s) && s[0] != ']'
  {
    hide Dump;
    DumpStarts(items[0]);
    assert (DumpItems(items) + "]" + tail)[0] == Dump(items[0])[0];
  }

  lemma {:induction false} MembersRound(members: seq<Member>, tail: string)
    requires members != []
    ensures ReadMembers(DumpMembers(members) + "}" + tail) == Some(Parsed(PrintedMembers(members), tail))
    decreases members
  {
    hide ReadValue, ReadMembers, Dump, Printed, ReadChars, DumpString;
    var (key, value) := (members[0].key, members[0].value);
    var last := |members| == 1;
    var end := (if last then "" else "," + DumpMembers(members[1..])) + "}" + tail;
    var s := DumpMembers(members) + "}" + tail;
    var afterKey := ":" + (Dump(value) + end);
    assert s == DumpString(key) + afterKey;
    StringRound(key, afterKey);
    DumpStarts(value);
    assert afterKey[1..] == Dump(value) + end;
    assert end[0] == if last then '}' else ',';
    ValueRound(value, end);
    if last {
      assert end[1..] == tail;
    } else {
      assert end[1..] == DumpMembers(members[1..]) + "}" + tail;
      MembersStart(members[1..], tail);
      MembersRound(members[1..], tail);
    }
    MemberStep(s, key, afterKey, Printed(value), end);
    PrintedMembersStep(members);
  }

  lemma PrintedMembersStep(members: seq<Member>)
    requires members != []
    ensures PrintedMembers(members) ==
            [Member(members[0].key, Printed(members[0].value))] + PrintedMembers(members[1..])
    ensures |members| == 1 ==> PrintedMembers(members) == [Member(members[0].key, Printed(members[0].value))]
  {
  }

  /** What follows the first item of a list. */
  function AfterFirst(items: seq<Value>, tail: string): string
    requires items != []
  {
    if |items| == 1 then "]" + tail else "," + (DumpItems(items[1..]) + "]" + tail)
  }

  lemma FirstItem(items: seq<Value>)
    requires items != []
    ensures DumpItems(items) == if |items| == 1 then Dump(items[0]) else Dump(items[0]) + ("," + DumpItems(items[1..]))
  {
    hide Dump;
    assert |items| == 1 ==> Dump(items[0]) + "" == Dump(items[0]);
  }

  lemma ItemsLayout(items: seq<Value>, tail: string)
    requires items != []
    ensures DumpItems(items) + "]" + tail == Dump(items[0]) + AfterFirst(items, tail)
    ensures AfterFirst(items, tail)[0] == if |items| == 1 then ']' else ','
    ensures AfterFirst(items, tail)[1..] == if |items| == 1 then tail else DumpItems(items[1..]) + "]" + tail
  {
    hide Dump, DumpItems;
    FirstItem(items);
    if |items| == 1 {
      MarkFirst("]", tail);
      RegroupLast(Dump(items[0]), tail);
    } else {
      MarkFirst(",", DumpItems(items[1..]) + "]" + tail);
      Regroup(Dump(items[0]), DumpItems(items[1..]), tail);
    }
  }

  lemma MarkFirst(mark: string, rest: string)
    requires |mark| == 1
    ensures (mark + rest)[0] == mark[0] && (mark + rest)[1..] == rest
  {
  }

  lemma RegroupLast(first: string, tail: string)
    ensures first + "]" + tail == first + ("]" + tail)
  {
  }

  lemma Regroup(first: string, rest: string, tail: string)
    ensures first + ("," + rest) + "]" + tail == first + ("," + (rest + "]" + tail))
  {
  }

  lemma {:induction false} ItemsRound(items: seq<Value>, tail: string)
    requires items != []
    ensures ReadItems(DumpItems(items) + "]" + tail) == Some(Parsed(PrintedItems(items), tail))
    decreases items
  {
    hide ReadValue, ReadItems, Dump, Printed, DumpItems;
    var end := AfterFirst(items, tail);
    var s := DumpItems(items) + "]" + tail;
    ItemsLayout(items, tail);
    ValueRound(items[0], end);
    if |items| > 1 {
      ItemsStart(items[1..], tail);
      ItemsRound(items[1..], tail);
    }
    ItemStep(s, Printed(items[0]), end);
    PrintedItemsStep(items);
  }

  lemma PrintedItemsStep(items: seq<Value>)
    requires items != []
    ensures PrintedItems(items) == [Printed(items[0])] + PrintedItems(items[1..])
    ensures |items| == 1 ==> PrintedItems(items) == [Printed(items[0])]
  {
  }

  /** Every value's text parses, and says the value with its numbers normalized. */
  lemma LoadsWhatWasPrinted(v: Value)
    ensures Load(Dump(v)) == Some(Printed(v))
  {
    DumpStarts(v);
    assert Dump(v) + "" == Dump(v);
    ValueRound(v, "");
  }

  // ---- nothing lost -------------------------------------------------------------------------------

  /** The value itself, each number in its one spelling without trailing zeros. */
  function Exactly(v: Value): Value {
    match v
    case Null => v
    case Bool(_) => v
    case Int(n) => Dec(Stripped(Decimal(n, 0)))
    case Dec(d) => Dec(Stripped(d))
    case Text(_) => v
    case Mapping(members) => Mapping(ExactlyMembers(members))
    case List(items) => List(ExactlyItems(items))
  }

  function ExactlyMembers(members: seq<Member>): seq<Member> {
    if members == [] then [] else [Member(members[0].key, Exactly(members[0].value))] + ExactlyMembers(members[1..])
  }

  function ExactlyItems(items: seq<Value>): seq<Value> {
    if items == [] then [] else [Exactly(items[0])] + ExactlyItems(items[1..])
  }

  /** No decimal in it has more significant digits than the context keeps. */
  predicate AllExact(v: Value) {
    match v
    case Dec(d) => IsExact(d)
    case Mapping(members) => forall m :: m in members ==> AllExact(m.value)
    case List(items) => forall i :: i in items ==> AllExact(i)
    case _ => true
  }

  lemma {:induction false} PrintedExactly(v: Value)
    ensures Printed(v) == Exactly(v) <==> AllExact(v)
    decreases v, 0
  {
    match v
    case Dec(d) => NormalizedIsLossless(d);
    case Mapping(members) => PrintedMembersExactly(members);
    case List(items) => PrintedItemsExactly(items);
    case _ =>
  }

  lemma {:induction false} PrintedMembersExactly(members: seq<Member>)
    ensures PrintedMembers(members) == ExactlyMembers(members)
            <==> forall m :: m in members ==> AllExact(m.value)
    decreases members
  {
    if members != [] {
      hide Printed, Exactly, AllExact;
      PrintedExactly(members[0].value);
      PrintedMembersExactly(members[1..]);
      SameHeadAndTail(Member(members[0].key, Printed(members[0].value)), PrintedMembers(members[1..]),
                      Member(members[0].key, Exactly(members[0].value)), ExactlyMembers(members[1..]));
      assert forall m :: m in members <==> m == members[0] || m in members[1..];
    }
  }

  lemma {:induction false} PrintedItemsExactly(items: seq<Value>)
    ensures PrintedItems(items) == ExactlyItems(items) <==> forall i :: i in items ==> AllExact(i)
    decreases items
  {
    if items != [] {
      hide Printed, Exactly, AllExact;
      PrintedExactly(items[0]);
      PrintedItemsExactly(items[1..]);
      SameHeadAndTail(Printed(items[0]), PrintedItems(items[1..]), Exactly(items[0]), ExactlyItems(items[1..]));
      assert forall i :: i in items <==> i == items[0] || i in items[1..];
    }
  }

  lemma SameHeadAndTail<T>(a: T, s: seq<T>, b: T, t: seq<T>)
    ensures [a] + s == [b] + t <==> a == b && s == t
  {
    if [a] + s == [b] + t {
      assert a == ([a] + s)[0] && s == ([a] + s)[1..] && t == ([b] + t)[1..];
    }
  }

  /**
   Parsing the encoder's text gives the value back, numbers compared exactly, if and only if no decimal in
   it has more than 28 significant digits.
   */
  lemma RoundTrip(v: Value)
    ensures Load(Dump(v)) == Some(Exactly(v)) <==> AllExact(v)
  {
    LoadsWhatWasPrinted(v);
    PrintedExactly(v);
  }

  /** The encoder normalizes with the context's precision, so a longer decimal is rounded. */
  lemma LongDecimalIsRounded() returns (d: Decimal)
    ensures Load(Dump(Dec(d))) != Some(Exactly(Dec(d)))
  {
    hide Pow10, Digits, Stripped, Load, Dump;
    d := Decimal(Pow10(28) + 1, 0);
    DigitsAtMost(Pow10(28) + 1, 28);
    Pow10Step(28);
    StrippedAlready(d);
    RoundTrip(Dec(d));
  }

  lemma StrippedAlready(d: Decimal)
    requires d.coefficient % 10 != 0
    ensures Stripped(d) == d
  {
  }
}
