/**
 The encoder of the `rates` column, whose point is that no number is read as a float, and a parser of JSON
 (RFC 8259) that keeps numbers as decimals, as `json.loads(text, parse_float=Decimal, parse_int=Decimal)` does.
 */
module Json {
  import opened Common
  import opened Decimals
  import opened Spelling

  /** What the encoder takes. A float is the decimal its `repr` spells. */
  datatype Value =
    | Null
    | Bool(b: bool)
    | Int(n: int)
    | Dec(d: Decimal)
    | Text(text: string)
    | Mapping(members: seq<Member>)
    | List(items: seq<Value>)

  datatype Member = Member(key: string, value: Value)

  // ---- strings ------------------------------------------------------------------------------------

  function HexChar(n: nat): char
    requires n < 16
  {
    if n < 10 then DigitChar(n) else (n - 10 + 'a' as int) as char
  }

  function Hex4(n: nat): (h: string)
    requires n < 0x1_0000
    ensures |h| == 4
  {
    [HexChar(n / 4096), HexChar(n / 256 % 16), HexChar(n / 16 % 16), HexChar(n % 16)]
  }

  /** One character as `json.dumps` writes it: ASCII as it is, the rest as UTF-16 code units in hexadecimal. */
  function EscapeChar(c: char): string {
    if c == '"' then "\\\""
    else if c == '\\' then "\\\\"
    else if c == '\n' then "\\n"
    else if c == '\r' then "\\r"
    else if c == '\t' then "\\t"
    else if c as int == 8 then "\\b"
    else if c as int == 12 then "\\f"
    else if ' ' <= c <= '~' then [c]
    else if c as int < 0x1_0000 then "\\u" + Hex4(c as int)
    else
      var n := c as int - 0x1_0000;
      "\\u" + Hex4(0xD800 + n / 1024) + "\\u" + Hex4(0xDC00 + n % 1024)
  }

  function Escape(text: string): string {
    if text == "" then "" else EscapeChar(text[0]) + Escape(text[1..])
  }

  function DumpString(text: string): string {
    "\"" + Escape(text) + "\""
  }

  // ---- the encoder --------------------------------------------------------------------------------

  function DumpInt(n: int): string {
    (if n < 0 then "-" else "") + ShowNat(Abs(n))
  }

  function Dump(v: Value): string {
    match v
    case Null => "null"
    case Bool(b) => if b then "true" else "false"
    case Int(n) => DumpInt(n)
    case Dec(d) => Plain(Normalized(d))
    case Text(text) => DumpString(text)
    case Mapping(members) => "{" + DumpMembers(members) + "}"
    case List(items) => "[" + DumpItems(items) + "]"
  }

  function DumpMembers(members: seq<Member>): string {
    if members == [] then ""
    else
      DumpString(members[0].key) + ":" + Dump(members[0].value)
      + if |members| == 1 then "" else "," + DumpMembers(members[1..])
  }

  function DumpItems(items: seq<Value>): string {
    if items == [] then ""
    else Dump(items[0]) + if |items| == 1 then "" else "," + DumpItems(items[1..])
  }

  // ---- the parser -----------------------------------------------------------------------------------

  /** What a text says. Numbers are decimals without trailing zeros, so equal numbers are equal values. */
  datatype Parsed<+T> = Parsed(value: T, rest: string)

  predicate IsSpace(c: char) {
    c == ' ' || c == '\t' || c == '\n' || c == '\r'
  }

  function Skip(s: string): (r: string)
    ensures |r| <= |s|
    ensures r == "" || !IsSpace(r[0])
    ensures s == "" || !IsSpace(s[0]) ==> r == s
  {
    if s != "" && IsSpace(s[0]) then Skip(s[1..]) else s
  }

  /** The digits `s` starts with. */
  function DigitsOf(s: string): (n: nat)
    ensures n <= |s| && AllDigits(s[..n])
    ensures n < |s| ==> !IsDigit(s[n])
  {
    if s == "" || !IsDigit(s[0]) then 0 else 1 + DigitsOf(s[1..])
  }

  predicate IsHex(c: char) {
    IsDigit(c) || 'a' <= c <= 'f' || 'A' <= c <= 'F'
  }

  function HexValue(c: char): (n: nat)
    requires IsHex(c)
    ensures n < 16
  {
    if IsDigit(c) then DigitValue(c)
    else if 'a' <= c <= 'f' then c as int - 'a' as int + 10
    else c as int - 'A' as int + 10
  }

  function ReadHex4(s: string): (n: Option<nat>)
    ensures n.Some? ==> n.value < 0x1_0000 && |s| >= 4
  {
    if |s| >= 4 && IsHex(s[0]) && IsHex(s[1]) && IsHex(s[2]) && IsHex(s[3])
    then Some(4096 * HexValue(s[0]) + 256 * HexValue(s[1]) + 16 * HexValue(s[2]) + HexValue(s[3]))
    else None
  }

  /** The character an escape names, after its backslash. A surrogate stands only with its other half. */
  function ReadEscape(s: string): (r: Option<Parsed<char>>)
    ensures r.Some? ==> |r.value.rest| < |s|
  {
    if s == "" then None
    else if s[0] == '"' || s[0] == '\\' || s[0] == '/' then Some(Parsed(s[0], s[1..]))
    else if s[0] == 'n' then Some(Parsed('\n', s[1..]))
    else if s[0] == 'r' then Some(Parsed('\r', s[1..]))
    else if s[0] == 't' then Some(Parsed('\t', s[1..]))
    else if s[0] == 'b' then Some(Parsed(8 as char, s[1..]))
    else if s[0] == 'f' then Some(Parsed(12 as char, s[1..]))
    else if s[0] == 'u' && ReadHex4(s[1..]).Some? then
      var high := ReadHex4(s[1..]).value;
      if !(0xD800 <= high < 0xE000) then Some(Parsed(high as char, s[5..]))
      else if high < 0xDC00 && |s| >= 7 && s[5..7] == "\\u" && ReadHex4(s[7..]).Some?
              && 0xDC00 <= ReadHex4(s[7..]).value < 0xE000 then
        Some(Parsed((0x1_0000 + 1024 * (high - 0xD800) + (ReadHex4(s[7..]).value - 0xDC00)) as char, s[11..]))
      else None
    else None
  }

  /** One character of a string, escaped or not. */
  function ReadChar(s: string): (r: Option<Parsed<char>>)
    requires s != ""
    ensures r.Some? ==> |r.value.rest| < |s|
  {
    if s[0] == '\\' then ReadEscape(s[1..])
    else if s[0] == '"' || s[0] < ' ' then None
    else Some(Parsed(s[0], s[1..]))
  }

  /** The rest of a string, up to its closing quote. */
  function ReadChars(s: string): (r: Option<Parsed<string>>)
    ensures r.Some? ==> |r.value.rest| < |s|
    decreases |s|
  {
    if s == "" then None
    else if s[0] == '"' then Some(Parsed("", s[1..]))
    else
      match ReadChar(s)
      case None => None
      case Some(Parsed(c, rest)) =>
        match ReadChars(rest)
        case None => None
        case Some(Parsed(text, after)) => Some(Parsed([c] + text, after))
  }

  /** The whole part of a number: digits, with no leading zero but zero itself. */
  function ReadWhole(s: string): (r: Option<Parsed<string>>)
    ensures r.Some? ==> |r.value.rest| < |s| && AllDigits(r.value.value)
  {
    var w := DigitsOf(s);
    if w == 0 || (w > 1 && s[0] == '0') then None else Some(Parsed(s[..w], s[w..]))
  }

  /** The digits after the point, if a point and a digit come next. */
  function ReadFraction(s: string): (r: Parsed<string>)
    ensures |r.rest| <= |s| && AllDigits(r.value)
  {
    if s != "" && s[0] == '.' && DigitsOf(s[1..]) > 0
    then Parsed(s[1..][..DigitsOf(s[1..])], s[1..][DigitsOf(s[1..])..])
    else Parsed("", s)
  }

  function Signed(negative: bool, n: int): int {
    if negative then -n else n
  }

  lemma DigitsJoin(a: string, b: string)
    requires AllDigits(a) && AllDigits(b)
    ensures AllDigits(a + b)
  {
  }

  /** A number: sign, whole part, fraction, exponent. */
  function ReadNumber(s: string): (r: Option<Parsed<Decimal>>)
    ensures r.Some? ==> |r.value.rest| < |s|
  {
    var negative := s != "" && s[0] == '-';
    match ReadWhole(if negative then s[1..] else s)
    case None => None
    case Some(Parsed(whole, afterWhole)) =>
      var Parsed(fraction, afterFraction) := ReadFraction(afterWhole);
      var (e, rest) := ReadExponent(afterFraction);
      DigitsJoin(whole, fraction);
      Some(Parsed(Stripped(Decimal(Signed(negative, ReadNat(whole + fraction)), e - |fraction|)), rest))
  }

  function ReadExponent(s: string): (r: (int, string))
    ensures |r.1| <= |s|
    ensures s == "" || (s[0] != 'e' && s[0] != 'E') ==> r == (0, s)
  {
    if s != "" && (s[0] == 'e' || s[0] == 'E') then
      var signed := |s| > 1 && (s[1] == '-' || s[1] == '+');
      var digits := if signed then s[2..] else s[1..];
      var n := DigitsOf(digits);
      if n == 0 then (0, s)
      else
        (Signed(signed && s[1] == '-', ReadNat(digits[..n])), digits[n..])
    else (0, s)
  }

  function ReadValue(s: string): (r: Option<Parsed<Value>>)
    ensures r.Some? ==> |r.value.rest| < |s|
    decreases |s|, 0
  {
    if s == "" then None
    else if s[0] == '"' then
      (match ReadChars(s[1..])
       case None => None
       case Some(Parsed(text, rest)) => Some(Parsed(Text(text), rest)))
    else if s[0] == '{' then
      var inside := Skip(s[1..]);
      (if inside != "" && inside[0] == '}' then Some(Parsed(Mapping([]), inside[1..]))
       else
         match ReadMembers(inside)
         case None => None
         case Some(Parsed(members, rest)) => Some(Parsed(Mapping(members), rest)))
    else if s[0] == '[' then
      var inside := Skip(s[1..]);
      (if inside != "" && inside[0] == ']' then Some(Parsed(List([]), inside[1..]))
       else
         match ReadItems(inside)
         case None => None
         case Some(Parsed(items, rest)) => Some(Parsed(List(items), rest)))
    else if "null" <= s then Some(Parsed(Null, s[4..]))
    else if "true" <= s then Some(Parsed(Bool(true), s[4..]))
    else if "false" <= s then Some(Parsed(Bool(false), s[5..]))
    else
      match ReadNumber(s)
      case None => None
      case Some(Parsed(d, rest)) => Some(Parsed(Dec(d), rest))
  }

  /** The members of an object, at least one, up to and with its closing brace. */
  function ReadMembers(s: string): (r: Option<Parsed<seq<Member>>>)
    ensures r.Some? ==> |r.value.rest| < |s|
    decreases |s|, 1
  {
    if s == "" || s[0] != '"' then None
    else
      match ReadChars(s[1..])
      case None => None
      case Some(Parsed(key, afterKey)) =>
        var colon := Skip(afterKey);
        if colon == "" || colon[0] != ':' then None
        else
          match ReadValue(Skip(colon[1..]))
          case None => None
          case Some(Parsed(value, afterValue)) =>
            var end := Skip(afterValue);
            if end != "" && end[0] == '}' then Some(Parsed([Member(key, value)], end[1..]))
            else if end == "" || end[0] != ',' then None
            else
              match ReadMembers(Skip(end[1..]))
              case None => None
              case Some(Parsed(more, rest)) => Some(Parsed([Member(key, value)] + more, rest))
  }

  /** The items of an array, at least one, up to and with its closing bracket. */
  function ReadItems(s: string): (r: Option<Parsed<seq<Value>>>)
    ensures r.Some? ==> |r.value.rest| < |s|
    decreases |s|, 1
  {
    match ReadValue(s)
    case None => None
    case Some(Parsed(value, afterValue)) =>
      var end := Skip(afterValue);
      if end != "" && end[0] == ']' then Some(Parsed([value], end[1..]))
      else if end == "" || end[0] != ',' then None
      else
        match ReadItems(Skip(end[1..]))
        case None => None
        case Some(Parsed(more, rest)) => Some(Parsed([value] + more, rest))
  }

  /** A whole text: one value, and nothing but space around it. */
  function Load(s: string): Option<Value> {
    match ReadValue(Skip(s))
    case None => None
    case Some(Parsed(value, rest)) => if Skip(rest) == "" then Some(value) else None
  }
}
