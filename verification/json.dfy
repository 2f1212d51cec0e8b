/**
 JSON text as RFC 8259 defines it (sections 2 to 8): a reader for the grammar,
 over bytes held one per char, with string escapes decoded to UTF-8.  What is not
 well-formed UTF-8 is no JSON text, whatever its grammar.
 */
module Json {
  import opened Unicode

  datatype Value =
    | Null
    | Bool(b: bool)
    | Number(lexeme: string)
    | String(text: string)
    | Array(items: seq<Value>)
    | Object(members: seq<(string, Value)>)

  /** What is read, and the text left over. */
  datatype Parsed<T> = Stop | Got(value: T, rest: string)

  // ---- white space, section 2 --------------------------------------------------

  predicate IsSpace(c: char) {
    c == ' ' || c == '\t' || c == '\n' || c == '\r'
  }

  predicate AllSpace(s: string) {
    s == "" || (IsSpace(s[0]) && AllSpace(s[1..]))
  }

  function SkipSpace(s: string): (t: string)
    ensures |t| <= |s|
    ensures t == "" || !IsSpace(t[0])
  {
    if s != "" && IsSpace(s[0]) then SkipSpace(s[1..]) else s
  }

  // ---- numbers, section 6 --------------------------------------------------------

  predicate IsDigit(c: char) {
    '0' <= c <= '9'
  }

  /** How many digits lead the text. */
  function Digits(s: string): (n: nat)
    ensures n <= |s|
    ensures n < |s| ==> !IsDigit(s[n])
  {
    if s != "" && IsDigit(s[0]) then 1 + Digits(s[1..]) else 0
  }

  /** The length of `digits` after the first `at` chars, or nothing if there are none. */
  function DigitsAt(s: string, at: nat): (end: int)
    ensures end == -1 || at < end <= |s|
  {
    if at < |s| && Digits(s[at..]) > 0 then at + Digits(s[at..]) else -1
  }

  function IntegerEnd(s: string): (end: int)
    ensures end == -1 || 0 < end <= |s|
  {
    var m := if s != "" && s[0] == '-' then 1 else 0;
    if m < |s| && s[m] == '0' then m + 1 else DigitsAt(s, m)
  }

  function FractionEnd(s: string, at: nat): (end: int)
    requires at <= |s|
    ensures end == -1 || at <= end <= |s|
  {
    if at < |s| && s[at] == '.' then DigitsAt(s, at + 1) else at
  }

  function ExponentEnd(s: string, at: nat): (end: int)
    requires at <= |s|
    ensures end == -1 || at <= end <= |s|
  {
    if at < |s| && (s[at] == 'e' || s[at] == 'E') then
      var sign := if at + 1 < |s| && (s[at + 1] == '+' || s[at + 1] == '-') then 1 else 0;
      DigitsAt(s, at + 1 + sign)
    else at
  }

  /** The end of the number that starts the text, or -1. */
  function NumberEnd(s: string): (end: int)
    ensures end == -1 || 0 < end <= |s|
  {
    var i := IntegerEnd(s);
    if i == -1 then -1 else
    var f := FractionEnd(s, i);
    if f == -1 then -1 else ExponentEnd(s, f)
  }

  predicate IsNumber(s: string) {
    s != "" && NumberEnd(s) == |s|
  }

  // ---- strings, section 7 ----------------------------------------------------------

  function HexDigit(c: char): int {
    if '0' <= c <= '9' then c as int - '0' as int
    else if 'a' <= c <= 'f' then c as int - 'a' as int + 10
    else if 'A' <= c <= 'F' then c as int - 'A' as int + 10
    else -1
  }

  /** The four hexadecimal digits of a \u escape, or -1. */
  function HexUnit(s: string): (unit: int)
    ensures -1 <= unit < 0x10000
  {
    if |s| < 4 then -1
    else
      var a, b, c, d := HexDigit(s[0]), HexDigit(s[1]), HexDigit(s[2]), HexDigit(s[3]);
      if a < 0 || b < 0 || c < 0 || d < 0 then -1 else ((a * 16 + b) * 16 + c) * 16 + d
  }

  function Byte(n: int): char
    requires 0 <= n < 256
  {
    n as char
  }

  function Utf8(code: int): string
    requires 0 <= code < 0x110000
  {
    if code < 0x80 then [Byte(code)]
    else if code < 0x800 then [Byte(0xC0 + code / 0x40), Byte(0x80 + code % 0x40)]
    else if code < 0x10000 then
      [Byte(0xE0 + code / 0x1000), Byte(0x80 + code / 0x40 % 0x40), Byte(0x80 + code % 0x40)]
    else
      [Byte(0xF0 + code / 0x40000), Byte(0x80 + code / 0x1000 % 0x40),
       Byte(0x80 + code / 0x40 % 0x40), Byte(0x80 + code % 0x40)]
  }

  /** A \u escape after its `u`: one code unit, or a surrogate pair. */
  function ReadUnicode(s: string): (r: Parsed<string>)
    ensures r.Got? ==> |r.rest| < |s|
  {
    var unit := HexUnit(s);
    if unit == -1 then Stop
    else if 0xD800 <= unit < 0xDC00 then
      if 6 <= |s| && s[4] == '\\' && s[5] == 'u' && 0xDC00 <= HexUnit(s[6..]) < 0xE000 then
        Got(Utf8(0x10000 + (unit - 0xD800) * 0x400 + (HexUnit(s[6..]) - 0xDC00)), s[10..])
      else Stop
    else if 0xDC00 <= unit < 0xE000 then Stop
    else Got(Utf8(unit), s[4..])
  }

  /** One escape after its backslash. */
  function ReadEscape(s: string): (r: Parsed<string>)
    ensures r.Got? ==> |r.rest| < |s|
  {
    if s == "" then Stop
    else match s[0]
      case '"' => Got("\"", s[1..])
      case '\\' => Got("\\", s[1..])
      case '/' => Got("/", s[1..])
      case 'b' => Got([Byte(8)], s[1..])
      case 'f' => Got([Byte(12)], s[1..])
      case 'n' => Got("\n", s[1..])
      case 'r' => Got("\r", s[1..])
      case 't' => Got("\t", s[1..])
      case 'u' => ReadUnicode(s[1..])
      case _ => Stop
  }

  /** The text up to the closing quote. */
  function ReadChars(s: string): (r: Parsed<string>)
    ensures r.Got? ==> |r.rest| < |s|
    decreases |s|
  {
    if s == "" || s[0] < ' ' then Stop
    else if s[0] == '"' then Got("", s[1..])
    else if s[0] == '\\' then
      var e := ReadEscape(s[1..]);
      if e.Stop? then Stop else
      var more := ReadChars(e.rest);
      if more.Stop? then Stop else Got(e.value + more.value, more.rest)
    else
      var more := ReadChars(s[1..]);
      if more.Stop? then Stop else Got([s[0]] + more.value, more.rest)
  }

  // ---- values, sections 3 to 5 -------------------------------------------------------

  function ReadLiteral(s: string, name: string, v: Value): (r: Parsed<Value>)
    requires name != ""
    ensures r.Got? ==> |r.rest| < |s|
  {
    if name <= s then Got(v, s[|name|..]) else Stop
  }

  function ReadNumber(s: string): (r: Parsed<Value>)
    ensures r.Got? ==> |r.rest| < |s|
  {
    var end := NumberEnd(s);
    if end == -1 then Stop else Got(Number(s[..end]), s[end..])
  }

  function ReadString(s: string): (r: Parsed<string>)
    ensures r.Got? ==> |r.rest| < |s|
  {
    if s != "" && s[0] == '"' then ReadChars(s[1..]) else Stop
  }

  function ReadValue(s: string): (r: Parsed<Value>)
    ensures r.Got? ==> |r.rest| < |s|
    decreases |s|, 0
  {
    var t := SkipSpace(s);
    if t == "" then Stop
    else if t[0] == '-' || IsDigit(t[0]) then ReadNumber(t)
    else if t[0] == '"' then var r := ReadString(t); if r.Stop? then Stop else Got(String(r.value), r.rest)
    else if t[0] == '[' then ReadArray(t[1..])
    else if t[0] == '{' then ReadObject(t[1..])
    else if t[0] == 'n' then ReadLiteral(t, "null", Null)
    else if t[0] == 't' then ReadLiteral(t, "true", Bool(true))
    else ReadLiteral(t, "false", Bool(false))
  }

  /** An array after its opening bracket. */
  function ReadArray(s: string): (r: Parsed<Value>)
    ensures r.Got? ==> |r.rest| < |s|
    decreases |s|, 3
  {
    var inner := SkipSpace(s);
    if inner != "" && inner[0] == ']' then Got(Array([]), inner[1..])
    else var r := ReadItems(inner); if r.Stop? then Stop else Got(Array(r.value), r.rest)
  }

  /** An object after its opening brace. */
  function ReadObject(s: string): (r: Parsed<Value>)
    ensures r.Got? ==> |r.rest| < |s|
    decreases |s|, 3
  {
    var inner := SkipSpace(s);
    if inner != "" && inner[0] == '}' then Got(Object([]), inner[1..])
    else var r := ReadMembers(inner); if r.Stop? then Stop else Got(Object(r.value), r.rest)
  }

  function ReadItems(s: string): (r: Parsed<seq<Value>>)
    ensures r.Got? ==> |r.rest| < |s|
    decreases |s|, 2
  {
    var v := ReadValue(s);
    if v.Stop? then Stop else
    var t := SkipSpace(v.rest);
    if t == "" then Stop
    else if t[0] == ']' then Got([v.value], t[1..])
    else if t[0] == ',' then
      var more := ReadItems(t[1..]);
      if more.Stop? then Stop else Got([v.value] + more.value, more.rest)
    else Stop
  }

  function ReadMember(s: string): (r: Parsed<(string, Value)>)
    ensures r.Got? ==> |r.rest| < |s|
    decreases |s|, 1
  {
    var k := ReadString(SkipSpace(s));
    if k.Stop? then Stop else
    var t := SkipSpace(k.rest);
    if t == "" || t[0] != ':' then Stop else
    var v := ReadValue(t[1..]);
    if v.Stop? then Stop else Got((k.value, v.value), v.rest)
  }

  function ReadMembers(s: string): (r: Parsed<seq<(string, Value)>>)
    ensures r.Got? ==> |r.rest| < |s|
    decreases |s|, 2
  {
    var m := ReadMember(s);
    if m.Stop? then Stop else
    var t := SkipSpace(m.rest);
    if t == "" then Stop
    else if t[0] == '}' then Got([m.value], t[1..])
    else if t[0] == ',' then
      var more := ReadMembers(t[1..]);
      if more.Stop? then Stop else Got([m.value] + more.value, more.rest)
    else Stop
  }

  /** The value of a whole JSON text, or nothing if it is not one. */
  function Parse(s: string): Parsed<Value> {
    var v := ReadValue(s);
    if !IsUtf8(s) || v.Stop? || SkipSpace(v.rest) != "" then Stop else Got(v.value, "")
  }
}
