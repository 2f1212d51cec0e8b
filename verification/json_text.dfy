/**
 Writing JSON text: escaped strings, decimal integers, and comma-joined bodies,
 each proved to read back through the grammar as the value it stands for.
 */
module JsonText {
  import opened Json
  import opened Sequences
  import opened Unicode

  /** What may follow a value without running into it. */
  predicate Delimited(rest: string) {
    rest == "" || IsSpace(rest[0]) || rest[0] == ',' || rest[0] == ']' || rest[0] == '}'
  }

  /** The text is read as exactly v, wherever a value may stand. */
  ghost predicate Reads(text: string, v: Value) {
    forall rest :: Delimited(rest) ==> ReadValue(text + rest) == Got(v, rest)
  }

  // ---- white space ----------------------------------------------------------------

  lemma {:induction false} SkipAll(space: string, s: string)
    requires AllSpace(space)
    ensures SkipSpace(space + s) == SkipSpace(s)
  {
    if space == "" {
      assert space + s == s;
    } else {
      SkipAll(space[1..], s);
      assert (space + s)[1..] == space[1..] + s;
    }
  }

  lemma SkipNone(s: string)
    requires s != "" && !IsSpace(s[0])
    ensures SkipSpace(s) == s
  {
  }

  // ---- strings ----------------------------------------------------------------------

  function HexChar(n: nat): char
    requires n < 16
  {
    if n < 10 then (n + '0' as int) as char else (n - 10 + 'a' as int) as char
  }

  function EscapeChar(c: char): string {
    match c
    case '"' => "\\\""
    case '\\' => "\\\\"
    case '\n' => "\\n"
    case '\r' => "\\r"
    case '\t' => "\\t"
    case _ =>
      if c as int == 8 then "\\b"
      else if c as int == 12 then "\\f"
      else if c < ' ' then "\\u00" + [HexChar(c as int / 16), HexChar(c as int % 16)]
      else [c]
  }

  /** Two characters for the seven with a short form, six for any other control, one for the rest. */
  lemma EscapeForms(c: char)
    ensures |EscapeChar(c)| == 2 <==> c == '"' || c == '\\' || c as int in {8, 9, 10, 12, 13}
    ensures |EscapeChar(c)| == 6 <==> c as int < 32 && c as int !in {8, 9, 10, 12, 13}
    ensures |EscapeChar(c)| != 2 && |EscapeChar(c)| != 6 ==> EscapeChar(c) == [c]
  {
  }

  function EscapeChars(text: string): string {
    if text == "" then "" else EscapeChar(text[0]) + EscapeChars(text[1..])
  }

  function Escaped(text: string): (s: string)
    ensures s != "" && s[0] == '"'
  {
    "\"" + EscapeChars(text) + "\""
  }

  lemma {:induction false} EscapeCharsAppend(text: string, c: char)
    ensures EscapeChars(text + [c]) == EscapeChars(text) + EscapeChar(c)
  {
    if text == "" {
      assert (text + [c])[1..] == "";
    } else {
      EscapeCharsAppend(text[1..], c);
      assert (text + [c])[1..] == text[1..] + [c];
      Regroup(EscapeChar(text[0]), EscapeChars(text[1..]), EscapeChar(c));
    }
  }

  lemma AfterFirst(c: char, s: string)
    ensures ([c] + s)[0] == c && ([c] + s)[1..] == s
  {
  }

  lemma HexCharReads(n: nat)
    requires n < 16
    ensures HexDigit(HexChar(n)) == n
  {
  }

  lemma ControlReads(c: char, s: string)
    requires c < ' '
    ensures ReadUnicode("00" + [HexChar(c as int / 16), HexChar(c as int % 16)] + s) == Got([c], s)
  {
    var t := "00" + [HexChar(c as int / 16), HexChar(c as int % 16)] + s;
    HexCharReads(c as int / 16);
    HexCharReads(c as int % 16);
    assert HexUnit(t) == c as int;
    assert t[4..] == s;
  }

  /** An escape and then the rest of the string. */
  lemma EscapeFrom(t: string, c: char, s: string)
    requires |t| > 1 && t[0] == '\\' && ReadEscape(t[1..]) == Got([c], s) && ReadChars(s).Got?
    ensures ReadChars(t) == Got([c] + ReadChars(s).value, ReadChars(s).rest)
  {
  }

  lemma PlainReads(c: char, s: string)
    requires |EscapeChar(c)| == 1 && ReadChars(s).Got?
    ensures ReadChars(EscapeChar(c) + s) == Got([c] + ReadChars(s).value, ReadChars(s).rest)
  {
    assert EscapeChar(c) == [c];
    AfterFirst(c, s);
  }

  lemma ShortReads(c: char, s: string)
    requires |EscapeChar(c)| == 2 && ReadChars(s).Got?
    ensures ReadChars(EscapeChar(c) + s) == Got([c] + ReadChars(s).value, ReadChars(s).rest)
  {
    var t := EscapeChar(c) + s;
    assert t[1..][1..] == s;
    assert ReadEscape(t[1..]) == Got([c], s);
    EscapeFrom(t, c, s);
  }

  lemma LongReads(c: char, s: string)
    requires |EscapeChar(c)| > 2 && ReadChars(s).Got?
    ensures ReadChars(EscapeChar(c) + s) == Got([c] + ReadChars(s).value, ReadChars(s).rest)
  {
    var t := EscapeChar(c) + s;
    ControlReads(c, s);
    assert t[1..][1..] == "00" + [HexChar(c as int / 16), HexChar(c as int % 16)] + s;
    assert ReadEscape(t[1..]) == Got([c], s);
    EscapeFrom(t, c, s);
  }

  lemma EscapeReads(c: char, s: string)
    requires ReadChars(s).Got?
    ensures ReadChars(EscapeChar(c) + s) == Got([c] + ReadChars(s).value, ReadChars(s).rest)
  {
    if |EscapeChar(c)| == 1 {
      PlainReads(c, s);
    } else if |EscapeChar(c)| == 2 {
      ShortReads(c, s);
    } else {
      LongReads(c, s);
    }
  }

  lemma {:induction false} CharsRead(text: string, rest: string)
    ensures ReadChars(EscapeChars(text) + ("\"" + rest)) == Got(text, rest)
  {
    var end := "\"" + rest;
    if text == "" {
      assert EscapeChars(text) + end == end;
    } else {
      CharsRead(text[1..], rest);
      Regroup(EscapeChar(text[0]), EscapeChars(text[1..]), end);
      EscapeReads(text[0], EscapeChars(text[1..]) + end);
      assert text == [text[0]] + text[1..];
    }
  }

  lemma QuotedSplit(text: string, rest: string)
    ensures Escaped(text) + rest == "\"" + (EscapeChars(text) + ("\"" + rest))
  {
    Regroup("\"" + EscapeChars(text), "\"", rest);
    Regroup("\"", EscapeChars(text), "\"" + rest);
  }

  lemma EscapedReads(text: string, rest: string)
    ensures ReadString(Escaped(text) + rest) == Got(text, rest)
  {
    var after := EscapeChars(text) + ("\"" + rest);
    CharsRead(text, rest);
    QuotedSplit(text, rest);
    AfterFirst('"', after);
  }

  /** Every byte string, escaped, reads back as itself. */
  lemma StringReads(text: string)
    ensures Reads(Escaped(text), String(text))
  {
    forall rest | Delimited(rest)
      ensures ReadValue(Escaped(text) + rest) == Got(String(text), rest)
    {
      EscapedReads(text, rest);
      SkipNone(Escaped(text) + rest);
    }
  }

  // ---- literals and numbers ---------------------------------------------------------

  lemma LiteralsRead()
    ensures Reads("null", Null) && Reads("true", Bool(true)) && Reads("false", Bool(false))
  {
    forall rest | Delimited(rest)
      ensures ReadValue("null" + rest) == Got(Null, rest)
      ensures ReadValue("true" + rest) == Got(Bool(true), rest)
      ensures ReadValue("false" + rest) == Got(Bool(false), rest)
    {
      SkipNone("null" + rest);
      SkipNone("true" + rest);
      SkipNone("false" + rest);
      assert ("null" + rest)[4..] == ("true" + rest)[4..] == ("false" + rest)[5..] == rest;
    }
  }

  lemma {:induction false} DigitsStop(s: string, rest: string)
    requires Delimited(rest)
    ensures Digits(s + rest) == Digits(s)
  {
    if s == "" {
      assert s + rest == rest;
      assert Digits(rest) == 0;
    } else {
      DigitsStop(s[1..], rest);
      assert (s + rest)[0] == s[0] && (s + rest)[1..] == s[1..] + rest;
    }
  }

  lemma DigitsAtStop(s: string, rest: string, at: nat)
    requires Delimited(rest) && at <= |s|
    ensures DigitsAt(s + rest, at) == DigitsAt(s, at)
  {
    if at < |s| {
      DigitsStop(s[at..], rest);
      assert (s + rest)[at..] == s[at..] + rest;
    } else if at < |s + rest| {
      assert (s + rest)[at..] == rest;
    }
  }

  lemma IntegerEndStop(s: string, rest: string)
    requires Delimited(rest) && IntegerEnd(s) != -1
    ensures IntegerEnd(s + rest) == IntegerEnd(s)
  {
    var m := if s[0] == '-' then 1 else 0;
    DigitsAtStop(s, rest, m);
  }

  lemma FractionEndStop(s: string, rest: string, at: nat)
    requires Delimited(rest) && at <= |s|
    ensures FractionEnd(s + rest, at) == FractionEnd(s, at)
  {
    if at < |s| { DigitsAtStop(s, rest, at + 1); }
  }

  lemma ExponentEndStop(s: string, rest: string, at: nat)
    requires Delimited(rest) && at <= |s| && ExponentEnd(s, at) != -1
    ensures ExponentEnd(s + rest, at) == ExponentEnd(s, at)
  {
    if at < |s| && (s[at] == 'e' || s[at] == 'E') {
      var sign := if at + 1 < |s| && (s[at + 1] == '+' || s[at + 1] == '-') then 1 else 0;
      DigitsAtStop(s, rest, at + 1 + sign);
    }
  }

  lemma NumberStarts(s: string)
    requires IsNumber(s)
    ensures s[0] == '-' || IsDigit(s[0])
  {
  }

  lemma NumberEndStop(s: string, rest: string)
    requires IsNumber(s) && Delimited(rest)
    ensures NumberEnd(s + rest) == |s|
  {
    IntegerEndStop(s, rest);
    FractionEndStop(s, rest, IntegerEnd(s));
    ExponentEndStop(s, rest, FractionEnd(s, IntegerEnd(s)));
  }

  lemma DigitReads(s: string)
    requires s != "" && (s[0] == '-' || IsDigit(s[0]))
    ensures ReadValue(s) == ReadNumber(s)
  {
    SkipNone(s);
  }

  /** A number reads back as its own lexeme, neither shortened nor extended. */
  lemma NumberReads(s: string)
    requires IsNumber(s)
    ensures Reads(s, Number(s))
  {
    NumberStarts(s);
    forall rest | Delimited(rest)
      ensures ReadValue(s + rest) == Got(Number(s), rest)
    {
      NumberEndStop(s, rest);
      DigitReads(s + rest);
      assert (s + rest)[..|s|] == s && (s + rest)[|s|..] == rest;
    }
  }

  // ---- decimal integers ---------------------------------------------------------------

  function DigitChar(n: nat): char
    requires n < 10
  {
    (n + '0' as int) as char
  }

  function Decimal(n: nat): (s: string)
    ensures s != ""
  {
    if n < 10 then [DigitChar(n)] else Decimal(n / 10) + [DigitChar(n % 10)]
  }

  function DecimalInt(n: int): string {
    if n < 0 then "-" + Decimal(-n) else Decimal(n)
  }

  predicate AllDigits(s: string) {
    s == "" || (IsDigit(s[0]) && AllDigits(s[1..]))
  }

  lemma AllDigitsCount(s: string)
    requires AllDigits(s)
    ensures Digits(s) == |s|
  {
  }

  lemma AllDigitsAppend(s: string, c: char)
    requires AllDigits(s) && IsDigit(c)
    ensures AllDigits(s + [c])
  {
    if s != "" { assert (s + [c])[1..] == s[1..] + [c]; }
  }

  lemma {:induction false} DecimalShape(n: nat)
    ensures AllDigits(Decimal(n))
    ensures 0 < n ==> Decimal(n)[0] != '0'
    ensures n == 0 ==> Decimal(n) == "0"
  {
    if n >= 10 {
      DecimalShape(n / 10);
      AllDigitsAppend(Decimal(n / 10), DigitChar(n % 10));
    }
  }

  lemma DecimalIsNumber(n: int)
    ensures IsNumber(DecimalInt(n))
  {
    var m := if n < 0 then -n else n;
    DecimalShape(m);
    AllDigitsCount(Decimal(m));
    var s := DecimalInt(n);
    assert (if n < 0 then s[1..] else s[0..]) == Decimal(m);
    if n != 0 { assert Digits(s[if n < 0 then 1 else 0..]) == |Decimal(m)|; }
    assert IntegerEnd(s) == |s|;
  }

  /** The number a run of digits stands for. */
  function DecimalValue(s: string): nat
    requires AllDigits(s)
    decreases |s|
  {
    if s == "" then 0
    else
      FrontDigits(s);
      DecimalValue(s[..|s| - 1]) * 10 + (s[|s| - 1] as int - '0' as int)
  }

  lemma FrontDigits(s: string)
    requires AllDigits(s) && s != ""
    ensures AllDigits(s[..|s| - 1]) && IsDigit(s[|s| - 1])
  {
    if |s| > 1 {
      FrontDigits(s[1..]);
      assert s[1..][..|s| - 2] == s[..|s| - 1][1..];
    }
  }

  /** Decimal digits read back as the number they were written from. */
  lemma {:induction false} DecimalReadsBack(n: nat)
    ensures AllDigits(Decimal(n)) && DecimalValue(Decimal(n)) == n
  {
    DecimalShape(n);
    if n >= 10 {
      DecimalReadsBack(n / 10);
      var s := Decimal(n);
      assert s[..|s| - 1] == Decimal(n / 10);
    } else {
      assert DecimalValue("") == 0;
      assert Decimal(n)[..0] == "";
    }
  }

  // ---- joined bodies ------------------------------------------------------------------

  /** The texts in order, a separator between neighbours. */
  function Joined(texts: seq<string>, sep: string): string {
    if texts == [] then ""
    else if |texts| == 1 then texts[0]
    else texts[0] + sep + Joined(texts[1..], sep)
  }

  lemma {:induction false} JoinedAppend(texts: seq<string>, sep: string, text: string)
    ensures Joined(texts + [text], sep)
         == if texts == [] then text else Joined(texts, sep) + sep + text
  {
    if |texts| > 1 {
      JoinedAppend(texts[1..], sep, text);
      assert (texts + [text])[1..] == texts[1..] + [text];
    } else if |texts| == 1 {
      assert (texts + [text])[1..] == [text];
    }
  }

  /** A comma and white space. */
  predicate IsComma(sep: string) {
    sep != "" && sep[0] == ',' && AllSpace(sep[1..])
  }

  predicate IsColon(sep: string) {
    sep != "" && sep[0] == ':' && AllSpace(sep[1..])
  }

  lemma SpaceDelimits(space: string, rest: string)
    requires AllSpace(space) && Delimited(rest)
    ensures Delimited(space + rest)
  {
    if space == "" { assert space + rest == rest; }
  }

  lemma ValueAfterSpace(space: string, s: string)
    requires AllSpace(space)
    ensures ReadValue(space + s) == ReadValue(s)
  {
    SkipAll(space, s);
  }

  /** White space, if any, and then the closing bracket. */
  ghost predicate Closes(end: string, bracket: char, rest: string) {
    Delimited(end) && SkipSpace(end) == [bracket] + rest
  }

  lemma TailCloses(tail: string, bracket: char, rest: string)
    requires AllSpace(tail) && (bracket == ']' || bracket == '}')
    ensures Closes(tail + ([bracket] + rest), bracket, rest)
  {
    SpaceDelimits(tail, [bracket] + rest);
    SkipAll(tail, [bracket] + rest);
    SkipNone([bracket] + rest);
  }

  lemma LastItemReads(text: string, v: Value, end: string, rest: string)
    requires Reads(text, v) && Closes(end, ']', rest)
    ensures ReadItems(text + end) == Got([v], rest)
  {
    assert ReadValue(text + end) == Got(v, end);
    assert ([']'] + rest)[1..] == rest;
  }

  lemma NextItemReads(text: string, v: Value, sep: string, more: string, values: seq<Value>, rest: string)
    requires Reads(text, v) && IsComma(sep) && ReadItems(more) == Got(values, rest)
    ensures ReadItems(text + (sep + more)) == Got([v] + values, rest)
  {
    var after := sep + more;
    assert ReadValue(text + after) == Got(v, after);
    SkipNone(after);
    assert after[1..] == sep[1..] + more;
    ItemsAfterSpace(sep[1..], more);
  }

  lemma JoinedSplit(texts: seq<string>, sep: string, end: string)
    requires |texts| > 1
    ensures Joined(texts, sep) + end == texts[0] + (sep + (Joined(texts[1..], sep) + end))
  {
    Regroup(texts[0] + sep, Joined(texts[1..], sep), end);
    Regroup(texts[0], sep, Joined(texts[1..], sep) + end);
  }

  lemma FirstItemReads(texts: seq<string>, values: seq<Value>, sep: string, end: string, rest: string)
    requires |texts| == |values| > 1 && IsComma(sep) && Reads(texts[0], values[0])
    requires ReadItems(Joined(texts[1..], sep) + end) == Got(values[1..], rest)
    ensures ReadItems(Joined(texts, sep) + end) == Got(values, rest)
  {
    JoinedSplit(texts, sep, end);
    NextItemReads(texts[0], values[0], sep, Joined(texts[1..], sep) + end, values[1..], rest);
    assert values == [values[0]] + values[1..];
  }

  /** A non-empty joined body up to its bracket reads as its items in order. */
  lemma {:induction false} ItemsRead(texts: seq<string>, values: seq<Value>, sep: string, end: string, rest: string)
    requires |texts| == |values| > 0 && IsComma(sep) && Closes(end, ']', rest)
    requires forall i :: 0 <= i < |texts| ==> Reads(texts[i], values[i])
    ensures ReadItems(Joined(texts, sep) + end) == Got(values, rest)
    decreases |texts|
  {
    if |texts| == 1 {
      LastItemReads(texts[0], values[0], end, rest);
      assert values == [values[0]];
    } else {
      ItemsRead(texts[1..], values[1..], sep, end, rest);
      FirstItemReads(texts, values, sep, end, rest);
    }
  }

  lemma ItemsAfterSpace(space: string, s: string)
    requires AllSpace(space)
    ensures ReadItems(space + s).Got? == ReadItems(s).Got?
    ensures ReadItems(s).Got? ==> ReadItems(space + s) == ReadItems(s)
  {
    ValueAfterSpace(space, s);
  }

  /** One key and its value, as the printers spell them. */
  function MemberText(key: string, colon: string, text: string): (s: string)
    ensures s != ""
  {
    Escaped(key) + colon + text
  }

  lemma KeyReads(key: string, after: string)
    ensures ReadString(SkipSpace(Escaped(key) + after)) == Got(key, after)
  {
    EscapedReads(key, after);
    SkipNone(Escaped(key) + after);
  }

  lemma ColonReads(colon: string, s: string)
    requires IsColon(colon)
    ensures SkipSpace(colon + s) == colon + s && (colon + s)[0] == ':'
    ensures ReadValue((colon + s)[1..]) == ReadValue(s)
  {
    SkipNone(colon + s);
    assert (colon + s)[1..] == colon[1..] + s;
    ValueAfterSpace(colon[1..], s);
  }

  /** A key, its colon and its value, each read from where the last one stopped. */
  lemma MemberFrom(s: string, key: string, after: string, v: Value, rest: string)
    requires ReadString(SkipSpace(s)) == Got(key, after)
    requires after != "" && SkipSpace(after) == after && after[0] == ':'
    requires ReadValue(after[1..]) == Got(v, rest)
    ensures ReadMember(s) == Got((key, v), rest)
  {
  }

  lemma MemberReads(key: string, colon: string, text: string, v: Value, rest: string)
    requires IsColon(colon) && Reads(text, v) && Delimited(rest)
    ensures ReadMember(MemberText(key, colon, text) + rest) == Got((key, v), rest)
  {
    var after := colon + (text + rest);
    Regroup(Escaped(key) + colon, text, rest);
    Regroup(Escaped(key), colon, text + rest);
    KeyReads(key, after);
    ColonReads(colon, text + rest);
    MemberFrom(Escaped(key) + after, key, after, v, rest);
  }

  function MemberTexts(members: seq<(string, string)>, colon: string): (texts: seq<string>)
    ensures |texts| == |members|
    ensures forall i :: 0 <= i < |texts| ==> texts[i] == MemberText(members[i].0, colon, members[i].1)
  {
    if members == [] then []
    else [MemberText(members[0].0, colon, members[0].1)] + MemberTexts(members[1..], colon)
  }

  /** Encoded members and the members they read as, key for key. */
  ghost predicate MembersRead(encoded: seq<(string, string)>, members: seq<(string, Value)>) {
    |encoded| == |members| &&
    forall i :: 0 <= i < |encoded| ==> encoded[i].0 == members[i].0 && Reads(encoded[i].1, members[i].1)
  }

  lemma LastMemberReads(text: string, m: (string, Value), end: string, rest: string)
    requires ReadMember(text + end) == Got(m, end) && Closes(end, '}', rest)
    ensures ReadMembers(text + end) == Got([m], rest)
  {
    assert (['}'] + rest)[1..] == rest;
  }

  lemma MembersFrom(s: string, m: (string, Value), after: string, members: seq<(string, Value)>, rest: string)
    requires ReadMember(s) == Got(m, after)
    requires after != "" && SkipSpace(after) == after && after[0] == ','
    requires ReadMembers(after[1..]) == Got(members, rest)
    ensures ReadMembers(s) == Got([m] + members, rest)
  {
  }

  lemma CommaReads(sep: string, more: string)
    requires IsComma(sep) && ReadMembers(more).Got?
    ensures SkipSpace(sep + more) == sep + more && (sep + more)[0] == ','
    ensures ReadMembers((sep + more)[1..]) == ReadMembers(more)
  {
    SkipNone(sep + more);
    assert (sep + more)[1..] == sep[1..] + more;
    MembersAfterSpace(sep[1..], more);
  }

  lemma NextMemberReads(text: string, m: (string, Value), sep: string, more: string,
                        members: seq<(string, Value)>, rest: string)
    requires ReadMember(text + (sep + more)) == Got(m, sep + more)
    requires IsComma(sep) && ReadMembers(more) == Got(members, rest)
    ensures ReadMembers(text + (sep + more)) == Got([m] + members, rest)
  {
    CommaReads(sep, more);
    MembersFrom(text + (sep + more), m, sep + more, members, rest);
  }

  lemma LastOfBody(key: string, text: string, v: Value, colon: string, end: string, rest: string)
    requires IsColon(colon) && Reads(text, v) && Closes(end, '}', rest)
    ensures ReadMembers(MemberText(key, colon, text) + end) == Got([(key, v)], rest)
  {
    MemberReads(key, colon, text, v, end);
    LastMemberReads(MemberText(key, colon, text), (key, v), end, rest);
  }

  lemma NextOfBody(key: string, text: string, v: Value, colon: string, sep: string, more: string,
                   members: seq<(string, Value)>, rest: string)
    requires IsColon(colon) && IsComma(sep) && Reads(text, v) && ReadMembers(more) == Got(members, rest)
    ensures ReadMembers(MemberText(key, colon, text) + (sep + more)) == Got([(key, v)] + members, rest)
  {
    MemberReads(key, colon, text, v, sep + more);
    NextMemberReads(MemberText(key, colon, text), (key, v), sep, more, members, rest);
  }

  lemma FirstMemberReads(encoded: seq<(string, string)>, members: seq<(string, Value)>,
                         colon: string, sep: string, end: string, rest: string)
    requires |encoded| == |members| > 1 && encoded[0].0 == members[0].0 && Reads(encoded[0].1, members[0].1)
    requires IsColon(colon) && IsComma(sep)
    requires ReadMembers(Joined(MemberTexts(encoded[1..], colon), sep) + end) == Got(members[1..], rest)
    ensures ReadMembers(Joined(MemberTexts(encoded, colon), sep) + end) == Got(members, rest)
  {
    var texts := MemberTexts(encoded, colon);
    var more := Joined(texts[1..], sep) + end;
    assert texts[1..] == MemberTexts(encoded[1..], colon);
    JoinedSplit(texts, sep, end);
    NextOfBody(encoded[0].0, encoded[0].1, members[0].1, colon, sep, more, members[1..], rest);
    assert members == [(encoded[0].0, members[0].1)] + members[1..];
  }

  lemma {:induction false} BodyReads(encoded: seq<(string, string)>, members: seq<(string, Value)>,
                  colon: string, sep: string, end: string, rest: string)
    requires MembersRead(encoded, members) && encoded != []
    requires IsColon(colon) && IsComma(sep) && Closes(end, '}', rest)
    ensures ReadMembers(Joined(MemberTexts(encoded, colon), sep) + end) == Got(members, rest)
    decreases |encoded|
  {
    if |encoded| == 1 {
      LastOfBody(encoded[0].0, encoded[0].1, members[0].1, colon, end, rest);
      assert members == [(encoded[0].0, members[0].1)];
    } else {
      BodyReads(encoded[1..], members[1..], colon, sep, end, rest);
      FirstMemberReads(encoded, members, colon, sep, end, rest);
    }
  }

  lemma MembersAfterSpace(space: string, s: string)
    requires AllSpace(space)
    ensures ReadMembers(s).Got? ==> ReadMembers(space + s) == ReadMembers(s)
  {
    SkipAll(space, s);
  }

  // ---- whole arrays and objects -----------------------------------------------------------

  /** `[`, white space, the items, white space, `]`. */
  function ArrayText(texts: seq<string>, lead: string, sep: string, tail: string): string {
    "[" + (lead + (Joined(texts, sep) + (tail + "]")))
  }

  function ObjectText(encoded: seq<(string, string)>, lead: string, colon: string, sep: string, tail: string): string {
    "{" + (lead + (Joined(MemberTexts(encoded, colon), sep) + (tail + "}")))
  }

  /** The text does not itself start with white space or a closing bracket. */
  predicate Opens(text: string) {
    text != "" && !IsSpace(text[0]) && text[0] != ']' && text[0] != '}'
  }

  /** Nested concatenation, with what follows moved inside. */
  lemma Nested(open: string, lead: string, body: string, tail: string, close: string, rest: string)
    ensures open + (lead + (body + (tail + close))) + rest == open + (lead + (body + (tail + (close + rest))))
  {
    Regroup(open, lead + (body + (tail + close)), rest);
    Regroup(lead, body + (tail + close), rest);
    Regroup(body, tail + close, rest);
    Regroup(tail, close, rest);
  }

  lemma ArrayReads(texts: seq<string>, values: seq<Value>, lead: string, sep: string, tail: string)
    requires |texts| == |values| && AllSpace(lead) && IsComma(sep) && AllSpace(tail)
    requires forall i :: 0 <= i < |texts| ==> Opens(texts[i]) && Reads(texts[i], values[i])
    ensures Reads(ArrayText(texts, lead, sep, tail), Array(values))
  {
    forall rest | Delimited(rest)
      ensures ReadValue(ArrayText(texts, lead, sep, tail) + rest) == Got(Array(values), rest)
    {
      var body, end := Joined(texts, sep), tail + ("]" + rest);
      Nested("[", lead, body, tail, "]", rest);
      TailCloses(tail, ']', rest);
      SkipAll(lead, body + end);
      ArrayOpens(lead + (body + end));
      if texts == [] {
        assert body + end == end;
        assert ("]" + rest)[1..] == rest;
      } else {
        ItemsRead(texts, values, sep, end, rest);
        SkipNone(body + end);
      }
    }
  }

  lemma ArrayOpens(s: string)
    ensures ReadValue("[" + s) == ReadArray(s)
  {
    SkipNone("[" + s);
    assert ("[" + s)[1..] == s;
  }

  lemma ObjectOpens(s: string)
    ensures ReadValue("{" + s) == ReadObject(s)
  {
    SkipNone("{" + s);
    assert ("{" + s)[1..] == s;
  }

  lemma ObjectReads(encoded: seq<(string, string)>, members: seq<(string, Value)>,
                    lead: string, colon: string, sep: string, tail: string)
    requires MembersRead(encoded, members)
    requires AllSpace(lead) && IsColon(colon) && IsComma(sep) && AllSpace(tail)
    ensures Reads(ObjectText(encoded, lead, colon, sep, tail), Object(members))
  {
    forall rest | Delimited(rest)
      ensures ReadValue(ObjectText(encoded, lead, colon, sep, tail) + rest) == Got(Object(members), rest)
    {
      var body, end := Joined(MemberTexts(encoded, colon), sep), tail + ("}" + rest);
      Nested("{", lead, body, tail, "}", rest);
      TailCloses(tail, '}', rest);
      SkipAll(lead, body + end);
      ObjectOpens(lead + (body + end));
      if encoded == [] {
        assert body + end == end;
        assert ("}" + rest)[1..] == rest;
      } else {
        BodyReads(encoded, members, colon, sep, end, rest);
        SkipNone(body + end);
      }
    }
  }

  lemma ObjectOpensText(encoded: seq<(string, string)>, lead: string, colon: string, sep: string, tail: string)
    ensures Opens(ObjectText(encoded, lead, colon, sep, tail))
  {
  }

  /** A value on its own is a JSON text, alone or before white space, if it is UTF-8. */
  lemma WholeTextParses(text: string, v: Value, tail: string)
    requires Reads(text, v) && AllSpace(tail)
    ensures Parse(text + tail) == if IsUtf8(text + tail) then Got(v, "") else Stop
  {
    SpaceDelimits(tail, "");
    assert tail + "" == tail;
    SkipAll(tail, "");
  }
}
