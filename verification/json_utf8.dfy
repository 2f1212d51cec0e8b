/**
 Which of the texts the printers write are well-formed UTF-8: those whose strings
 are, since everything else in them is ASCII.
 */
module JsonUtf8 {
  import opened Json
  import opened JsonText
  import opened Sequences
  import opened Unicode

  // ---- what is always ASCII --------------------------------------------------------

  lemma {:induction false} SpaceIsAscii(s: string)
    requires AllSpace(s)
    ensures AllAscii(s)
  {
    if s != "" { SpaceIsAscii(s[1..]); }
  }

  lemma SeparatorIsAscii(sep: string)
    requires IsComma(sep) || IsColon(sep)
    ensures AllAscii(sep)
  {
    SpaceIsAscii(sep[1..]);
    forall i | 0 <= i < |sep|
      ensures Ascii(sep[i])
    {
      if i > 0 { assert sep[i] == sep[1..][i - 1]; }
    }
  }

  lemma {:induction false} DigitsAreAscii(s: string)
    ensures forall i :: 0 <= i < Digits(s) ==> Ascii(s[i])
  {
    if s != "" && IsDigit(s[0]) {
      DigitsAreAscii(s[1..]);
      forall i | 0 <= i < Digits(s)
        ensures Ascii(s[i])
      {
        if i > 0 { assert s[i] == s[1..][i - 1]; }
      }
    }
  }

  /** ASCII from one place of a text up to another. */
  predicate AsciiIn(s: string, from: nat, to: nat) {
    to <= |s| && forall i :: from <= i < to ==> Ascii(s[i])
  }

  lemma DigitsAtAscii(s: string, at: nat)
    requires DigitsAt(s, at) != -1
    ensures AsciiIn(s, at, DigitsAt(s, at))
  {
    DigitsAreAscii(s[at..]);
    forall i | at <= i < DigitsAt(s, at)
      ensures Ascii(s[i])
    {
      assert s[i] == s[at..][i - at];
    }
  }

  lemma IntegerAscii(s: string)
    requires IntegerEnd(s) != -1
    ensures AsciiIn(s, 0, IntegerEnd(s))
  {
    var m := if s != "" && s[0] == '-' then 1 else 0;
    if !(m < |s| && s[m] == '0') { DigitsAtAscii(s, m); }
  }

  lemma FractionAscii(s: string, at: nat)
    requires at <= |s| && FractionEnd(s, at) != -1
    ensures AsciiIn(s, at, FractionEnd(s, at))
  {
    if at < |s| && s[at] == '.' { DigitsAtAscii(s, at + 1); }
  }

  lemma ExponentAscii(s: string, at: nat)
    requires at <= |s| && ExponentEnd(s, at) != -1
    ensures AsciiIn(s, at, ExponentEnd(s, at))
  {
    if at < |s| && (s[at] == 'e' || s[at] == 'E') {
      var sign := if at + 1 < |s| && (s[at + 1] == '+' || s[at + 1] == '-') then 1 else 0;
      DigitsAtAscii(s, at + 1 + sign);
    }
  }

  lemma NumberIsAscii(s: string)
    requires IsNumber(s)
    ensures AllAscii(s)
  {
    var i := IntegerEnd(s);
    var f := FractionEnd(s, i);
    IntegerAscii(s);
    FractionAscii(s, i);
    ExponentAscii(s, f);
  }

  // ---- what the reader makes of \u escapes ------------------------------------------

  function Hex4(n: nat): string
    requires n < 0x10000
  {
    [HexChar(n / 4096), HexChar(n / 256 % 16), HexChar(n / 16 % 16), HexChar(n % 16)]
  }

  lemma UnitReads(n: nat, rest: string)
    requires n < 0x10000
    ensures HexUnit(Hex4(n) + rest) == n && (Hex4(n) + rest)[4..] == rest
  {
    DigitReads(n / 4096);
    DigitReads(n / 256 % 16);
    DigitReads(n / 16 % 16);
    DigitReads(n % 16);
    FourDigits(n, n / 4096, n / 256 % 16, n / 16 % 16, n % 16);
  }

  lemma FourDigits(n: nat, a: nat, b: nat, c: nat, d: nat)
    requires n < 0x10000 && a == n / 4096 && b == n / 256 % 16 && c == n / 16 % 16 && d == n % 16
    ensures ((a * 16 + b) * 16 + c) * 16 + d == n
  {
  }

  lemma DigitReads(d: nat)
    requires d < 16
    ensures HexDigit(HexChar(d)) == d
  {
  }

  /** The code point a first sequence spells, section 3 of RFC 3629. */
  function CodePoint(s: string): int
    requires SequenceLength(s) > 0
  {
    match SequenceLength(s)
    case 1 => s[0] as int
    case 2 => (s[0] as int - 0xC0) * 64 + (s[1] as int - 0x80)
    case 3 => (s[0] as int - 0xE0) * 4096 + (s[1] as int - 0x80) * 64 + (s[2] as int - 0x80)
    case _ => (s[0] as int - 0xF0) * 262144 + (s[1] as int - 0x80) * 4096 + (s[2] as int - 0x80) * 64
              + (s[3] as int - 0x80)
  }

  /** Every code point but a surrogate is written as its one sequence. */
  lemma CodePointWritten(code: int)
    requires 0 <= code < 0xD800 || 0xE000 <= code < 0x110000
    ensures SequenceLength(Utf8(code)) == |Utf8(code)| > 0 && CodePoint(Utf8(code)) == code
  {
    if 0x800 <= code < 0x10000 {
      ThreeWritten(code, Utf8(code));
    } else if 0x10000 <= code {
      FourWritten(code, Utf8(code));
    }
  }

  lemma ThreeWritten(code: int, s: string)
    requires 0x800 <= code < 0xD800 || 0xE000 <= code < 0x10000
    requires s == Utf8(code)
    ensures SequenceLength(s) == |s| == 3 && CodePoint(s) == code
  {
    var a, b, c := code / 0x1000, code / 0x40 % 0x40, code % 0x40;
    assert code == a * 0x1000 + b * 0x40 + c;
    assert s[0] as int == 0xE0 + a && s[1] as int == 0x80 + b && s[2] as int == 0x80 + c;
  }

  lemma FourWritten(code: int, s: string)
    requires 0x10000 <= code < 0x110000 && s == Utf8(code)
    ensures SequenceLength(s) == |s| == 4 && CodePoint(s) == code
  {
    var a, b, c, d := code / 0x40000, code / 0x1000 % 0x40, code / 0x40 % 0x40, code % 0x40;
    FourParts(code, a, b, c, d);
    FourBytesOf(s, code, a, b, c, d);
  }

  lemma FourParts(code: int, a: int, b: int, c: int, d: int)
    requires 0x10000 <= code < 0x110000
    requires a == code / 0x40000 && b == code / 0x1000 % 0x40 && c == code / 0x40 % 0x40 && d == code % 0x40
    ensures code == a * 0x40000 + b * 0x1000 + c * 0x40 + d && 0 <= a <= 4
    ensures a == 0 ==> 0x10 <= b
    ensures a == 4 ==> b < 0x10
  {
  }

  lemma FourBytesOf(s: string, code: int, a: int, b: int, c: int, d: int)
    requires 0 <= a <= 4 && 0 <= b < 64 && 0 <= c < 64 && 0 <= d < 64
    requires (a == 0 ==> 0x10 <= b) && (a == 4 ==> b < 0x10)
    requires s == [Byte(0xF0 + a), Byte(0x80 + b), Byte(0x80 + c), Byte(0x80 + d)]
    requires code == a * 0x40000 + b * 0x1000 + c * 0x40 + d
    ensures SequenceLength(s) == |s| == 4 && CodePoint(s) == code
  {
  }

  /** A unit that is no surrogate reads as that code point, and a pair of them as theirs. */
  lemma EscapeReads(unit: nat, rest: string)
    requires unit < 0xD800 || 0xE000 <= unit < 0x10000
    ensures ReadUnicode(Hex4(unit) + rest) == Got(Utf8(unit), rest)
  {
    UnitReads(unit, rest);
  }

  lemma PairReads(code: nat, high: nat, low: nat, rest: string)
    requires 0x10000 <= code < 0x110000
    requires high == 0xD800 + (code - 0x10000) / 0x400 && low == 0xDC00 + (code - 0x10000) % 0x400
    ensures ReadUnicode(Hex4(high) + ("\\u" + (Hex4(low) + rest))) == Got(Utf8(code), rest)
  {
    var after := "\\u" + (Hex4(low) + rest);
    var s := Hex4(high) + after;
    UnitReads(high, after);
    UnitReads(low, rest);
    assert after[2..] == Hex4(low) + rest && s[4..] == after && s[6..] == after[2..];
    assert s[10..] == s[6..][4..];
  }

  /** A surrogate on its own is refused. */
  lemma LoneSurrogate(unit: nat, rest: string)
    requires 0xD800 <= unit < 0xE000 && (rest == "" || rest[0] != '\\')
    ensures ReadUnicode(Hex4(unit) + rest) == Stop
  {
    UnitReads(unit, rest);
    if rest != "" { assert (Hex4(unit) + rest)[4] == rest[0]; }
  }

  // ---- escaped strings --------------------------------------------------------------

  lemma EscapeIsAscii(c: char)
    requires Ascii(c)
    ensures AllAscii(EscapeChar(c))
  {
  }

  /** Bytes from 0x80 up are passed on as they are. */
  lemma {:induction false} HighPassed(text: string, i: nat)
    requires i <= |text| && forall j :: 0 <= j < i ==> !Ascii(text[j])
    ensures i <= |EscapeChars(text)| && EscapeChars(text)[..i] == text[..i]
    ensures EscapeChars(text)[i..] == EscapeChars(text[i..])
  {
    if i == 0 {
      assert text[0..] == text && EscapeChars(text)[0..] == EscapeChars(text);
    } else {
      HighPassed(text[1..], i - 1);
      assert EscapeChar(text[0]) == [text[0]];
      var more := EscapeChars(text[1..]);
      assert ([text[0]] + more)[..i] == [text[0]] + more[..i - 1];
      assert ([text[0]] + more)[i..] == more[i - 1..];
      assert text[1..][i - 1..] == text[i..] && text[..i] == [text[0]] + text[1..][..i - 1];
    }
  }

  lemma EscapeStarts(text: string)
    ensures text == "" ==> EscapeChars(text) == ""
    ensures text != "" ==> EscapeChars(text) != "" && EscapeChars(text)[0] == EscapeChar(text[0])[0]
    ensures text != "" && Ascii(text[0]) ==> Ascii(EscapeChars(text)[0])
    ensures text != "" && !Ascii(text[0]) ==> EscapeChars(text)[0] == text[0]
  {
  }

  lemma SameAfterHigh(text: string, i: nat)
    requires i <= |text| && forall j :: 0 <= j < i ==> !Ascii(text[j])
    ensures SameStart(text, EscapeChars(text), i)
  {
    HighPassed(text, i);
    EscapeStarts(text[i..]);
    var e := EscapeChars(text);
    if i < |text| { assert text[i..][0] == text[i]; }
    if i < |e| { assert e[i..][0] == e[i]; }
  }

  lemma EscapedLength(text: string)
    requires text != "" && !Ascii(text[0])
    ensures EscapeChars(text) != "" && SequenceLength(EscapeChars(text)) == SequenceLength(text)
  {
    EscapeStarts(text);
    SameAfterHigh(text, 1);
    if |text| > 1 && !Ascii(text[1]) {
      SameAfterHigh(text, 2);
      if |text| > 2 && !Ascii(text[2]) { SameAfterHigh(text, 3); }
    }
    LengthsAgree(text, EscapeChars(text));
  }

  /** Escaping keeps well-formed UTF-8 what it is, and makes no other text so. */
  lemma {:induction false} EscapeKeepsUtf8(text: string)
    ensures IsUtf8(EscapeChars(text)) <==> IsUtf8(text)
    decreases |text|
  {
    if text != "" {
      if Ascii(text[0]) {
        EscapeIsAscii(text[0]);
        AsciiBefore(EscapeChar(text[0]), EscapeChars(text[1..]));
        EscapeKeepsUtf8(text[1..]);
        assert SequenceLength(text) == 1;
      } else {
        EscapedLength(text);
        var n := SequenceLength(text);
        if n > 0 {
          HighPassed(text, n);
          EscapeKeepsUtf8(text[n..]);
        }
      }
    }
  }

  lemma EscapedUtf8(text: string)
    ensures IsUtf8(Escaped(text)) <==> IsUtf8(text)
  {
    EscapeKeepsUtf8(text);
    AsciiBefore("\"", EscapeChars(text));
    AsciiAfter("\"" + EscapeChars(text), "\"");
  }

  // ---- arrays and objects -------------------------------------------------------------

  ghost predicate AllUtf8(texts: seq<string>) {
    forall i :: 0 <= i < |texts| ==> IsUtf8(texts[i])
  }

  lemma {:induction false} JoinedUtf8(texts: seq<string>, sep: string)
    requires IsComma(sep)
    ensures IsUtf8(Joined(texts, sep)) <==> AllUtf8(texts)
  {
    if |texts| > 1 {
      var more := Joined(texts[1..], sep);
      JoinedUtf8(texts[1..], sep);
      SeparatorIsAscii(sep);
      Regroup(texts[0], sep, more);
      Utf8Joins(texts[0], sep + more);
      AsciiBefore(sep, more);
      AllUtf8Split(texts);
    }
  }

  lemma AllUtf8Split(texts: seq<string>)
    requires texts != []
    ensures AllUtf8(texts) <==> IsUtf8(texts[0]) && AllUtf8(texts[1..])
  {
    if IsUtf8(texts[0]) && AllUtf8(texts[1..]) {
      forall i | 0 <= i < |texts|
        ensures IsUtf8(texts[i])
      {
        if i > 0 { assert texts[i] == texts[1..][i - 1]; }
      }
    }
    if AllUtf8(texts) {
      forall i | 0 <= i < |texts[1..]|
        ensures IsUtf8(texts[1..][i])
      {
        assert texts[1..][i] == texts[i + 1];
      }
    }
  }

  lemma BracketedUtf8(open: string, lead: string, body: string, tail: string, close: string)
    requires AllAscii(open) && AllAscii(lead) && AllAscii(tail) && AllAscii(close)
    ensures IsUtf8(open + (lead + (body + (tail + close)))) <==> IsUtf8(body)
  {
    AsciiAfter(body, tail + close);
    AsciiBefore(lead, body + (tail + close));
    AsciiBefore(open, lead + (body + (tail + close)));
  }

  lemma ArrayUtf8(texts: seq<string>, lead: string, sep: string, tail: string)
    requires AllSpace(lead) && IsComma(sep) && AllSpace(tail)
    ensures IsUtf8(ArrayText(texts, lead, sep, tail)) <==> AllUtf8(texts)
  {
    SpaceIsAscii(lead);
    SpaceIsAscii(tail);
    JoinedUtf8(texts, sep);
    BracketedUtf8("[", lead, Joined(texts, sep), tail, "]");
  }

  predicate MemberUtf8(m: (string, string)) {
    IsUtf8(m.0) && IsUtf8(m.1)
  }

  ghost predicate MembersUtf8(members: seq<(string, string)>) {
    forall i :: 0 <= i < |members| ==> MemberUtf8(members[i])
  }

  lemma MemberTextUtf8(key: string, colon: string, text: string)
    requires IsColon(colon)
    ensures IsUtf8(MemberText(key, colon, text)) <==> IsUtf8(key) && IsUtf8(text)
  {
    EscapedUtf8(key);
    SeparatorIsAscii(colon);
    Regroup(Escaped(key), colon, text);
    Utf8Joins(Escaped(key), colon + text);
    AsciiBefore(colon, text);
  }

  lemma MemberTextsUtf8(members: seq<(string, string)>, colon: string)
    requires IsColon(colon)
    ensures AllUtf8(MemberTexts(members, colon)) <==> MembersUtf8(members)
  {
    var texts := MemberTexts(members, colon);
    forall i | 0 <= i < |members|
      ensures IsUtf8(texts[i]) <==> MemberUtf8(members[i])
    {
      MemberTextUtf8(members[i].0, colon, members[i].1);
    }
  }

  lemma ObjectUtf8(members: seq<(string, string)>, lead: string, colon: string, sep: string, tail: string)
    requires AllSpace(lead) && IsColon(colon) && IsComma(sep) && AllSpace(tail)
    ensures IsUtf8(ObjectText(members, lead, colon, sep, tail)) <==> MembersUtf8(members)
  {
    SpaceIsAscii(lead);
    SpaceIsAscii(tail);
    MemberTextsUtf8(members, colon);
    JoinedUtf8(MemberTexts(members, colon), sep);
    BracketedUtf8("{", lead, Joined(MemberTexts(members, colon), sep), tail, "}");
  }
}
