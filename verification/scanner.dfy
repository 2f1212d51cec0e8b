/**
 The sscanf() conversions the timestamp reader uses, as the C library of the
 WebAssembly build makes them: integers of a given width, literal characters, and
 floating point with its decimal, hexadecimal, infinite and not-a-number spellings.
 */
module Scanner {
  import opened Json
  import opened JsonText

  /** isspace() */
  predicate ScanSpace(c: char) {
    c == ' ' || 9 <= c as int <= 13
  }

  function SkipBlank(s: string): (t: string)
    ensures |t| <= |s|
  {
    if s != "" && ScanSpace(s[0]) then SkipBlank(s[1..]) else s
  }

  // ---- integers and literals ----------------------------------------------------------

  /** The leading digits, at most `width` of them. */
  function DigitRun(s: string, width: nat): (n: nat)
    ensures n <= |s| && n <= width
  {
    if s != "" && width > 0 && IsDigit(s[0]) then 1 + DigitRun(s[1..], width - 1) else 0
  }

  lemma DigitRunIsDigits(s: string, width: nat)
    ensures AllDigits(s[..DigitRun(s, width)])
  {
    var n := DigitRun(s, width);
    if n > 0 {
      DigitRunIsDigits(s[1..], width - 1);
      assert s[..n][1..] == s[1..][..n - 1];
    }
  }

  predicate IsSign(c: char) {
    c == '-' || c == '+'
  }

  /** "%<width>d": blanks, a sign that counts against the width, digits. */
  function ScanInt(s: string, width: nat): Parsed<int> {
    var t := SkipBlank(s);
    var sign := if t != "" && width > 0 && IsSign(t[0]) then 1 else 0;
    var digits := t[sign..];
    var n := DigitRun(digits, width - sign);
    DigitRunIsDigits(digits, width - sign);
    if n == 0 then Stop
    else
      var v: int := DecimalValue(digits[..n]);
      Got(if sign == 1 && t[0] == '-' then -v else v, digits[n..])
  }

  /** A literal character of the format. */
  function ScanChar(s: string, c: char): Parsed<()> {
    if s != "" && s[0] == c then Got((), s[1..]) else Stop
  }

  /** A field's width, and the character after it. */
  type Format = seq<(nat, char)>

  /** The integer conversions of a format, each with its literal after it. */
  function ScanFields(s: string, format: Format): (r: Parsed<seq<int>>)
    ensures r.Got? ==> |r.value| == |format|
    decreases |format|, s
  {
    if format == [] then Got([], s) else
    var n := ScanInt(s, format[0].0);
    if n.Stop? then Stop else
    var c := ScanChar(n.rest, format[0].1);
    if c.Stop? then Stop else
    var more := ScanFields(c.rest, format[1..]);
    if more.Stop? then Stop else Got([n.value] + more.value, more.rest)
  }

  // ---- floating point --------------------------------------------------------------------

  datatype Float = Finite(value: real) | Infinite(negative: bool) | NotANumber

  /** The double that stands for a real number: itself, one near it, or an infinity. */
  type Rounding = real -> Float

  function Signed(round: Rounding, negative: bool, size: real): Float {
    round(if negative then -size else size)
  }

  function Lower(c: char): char {
    if 'A' <= c <= 'Z' then (c as int + 32) as char else c
  }

  /** How much of a lower-case word the text starts with, in either case. */
  function WordRun(s: string, word: string): (n: nat)
    ensures n <= |s| && n <= |word|
  {
    if s != "" && word != "" && Lower(s[0]) == word[0] then 1 + WordRun(s[1..], word[1..]) else 0
  }

  /** Letters, digits and underscores. */
  function PayloadRun(s: string): (n: nat)
    ensures n <= |s|
  {
    if s != "" && (IsDigit(s[0]) || 'a' <= Lower(s[0]) <= 'z' || s[0] == '_') then 1 + PayloadRun(s[1..]) else 0
  }

  /** What may follow `nan`: a payload in parentheses, which spoils the match if it is not closed. */
  function ScanPayload(s: string): Parsed<Float> {
    if s == "" || s[0] != '(' then Got(NotANumber, s)
    else
      var p := 1 + PayloadRun(s[1..]);
      if p < |s| && s[p] == ')' then Got(NotANumber, s[p + 1..]) else Stop
  }

  function PowerOf(base: nat, n: nat): (p: real)
    requires 0 < base
    ensures p >= 1.0
  {
    if n == 0 then 1.0 else
      var p := PowerOf(base, n - 1);
      TimesOne(base as real, p);
      base as real * p
  }

  lemma TimesOne(a: real, b: real)
    requires a >= 1.0 && b >= 1.0
    ensures a * b >= 1.0
  {
    assert (a - 1.0) * b >= 0.0;
  }

  /** An exponent, if the text has one; its letter without digits spoils the match. */
  function ScanExponent(s: string, letter: char, base: nat): Parsed<real>
    requires 0 < base
  {
    if s == "" || Lower(s[0]) != letter then Got(1.0, s)
    else
      var sign := if |s| > 1 && IsSign(s[1]) then 1 else 0;
      var digits := s[1 + sign..];
      var n := DigitRun(digits, |digits|);
      DigitRunIsDigits(digits, |digits|);
      if n == 0 then Stop
      else
        var p := PowerOf(base, DecimalValue(digits[..n]));
        Got(if sign == 1 && s[1] == '-' then 1.0 / p else p, digits[n..])
  }

  /** Digits, a point, digits, and an exponent of ten. */
  function ScanDecimal(round: Rounding, negative: bool, u: string): Parsed<Float> {
    var n := DigitRun(u, |u|);
    DigitRunIsDigits(u, |u|);
    var dot := if n < |u| && u[n] == '.' then 1 else 0;
    var v := u[n + dot..];
    var m := if dot == 1 then DigitRun(v, |v|) else 0;
    DigitRunIsDigits(v, |v|);
    if n + m == 0 then Stop
    else
      var e := ScanExponent(v[m..], 'e', 10);
      if e.Stop? then Stop
      else Got(Signed(round, negative, Times(DecimalSize(u[..n], v[..m]), e.value)), e.rest)
  }

  /** Digits before a point and digits after it. */
  function DecimalSize(whole: string, part: string): real
    requires AllDigits(whole) && AllDigits(part)
  {
    DecimalValue(whole) as real + DecimalValue(part) as real / PowerOf(10, |part|)
  }

  function Times(size: real, factor: real): real {
    if factor == 1.0 then size else size * factor
  }

  /** The leading hexadecimal digits. */
  function HexRun(s: string): (n: nat)
    ensures n <= |s|
  {
    if s != "" && HexDigit(s[0]) >= 0 then 1 + HexRun(s[1..]) else 0
  }

  /** The number so many leading characters spell, taken as hexadecimal digits. */
  function HexValue(s: string, n: nat): (v: int)
    requires n <= |s|
  {
    if n == 0 then 0 else HexValue(s, n - 1) * 16 + HexDigit(s[n - 1])
  }

  /** What follows `0x`: hexadecimal digits, a point, more of them, and a binary exponent. */
  function ScanHex(round: Rounding, negative: bool, u: string): Parsed<Float> {
    var n := HexRun(u);
    var dot := if n < |u| && u[n] == '.' then 1 else 0;
    var v := u[n + dot..];
    var m := if dot == 1 then HexRun(v) else 0;
    if n + m == 0 then Stop
    else
      var size := HexValue(u, n) as real + HexValue(v, m) as real / PowerOf(16, m);
      var e := ScanExponent(v[m..], 'p', 2);
      if e.Stop? then Stop else Got(Signed(round, negative, Times(size, e.value)), e.rest)
  }

  /** A number after its sign: a word, a hexadecimal number, or a decimal one. */
  function ScanUnsigned(round: Rounding, negative: bool, u: string): Parsed<Float> {
    var i, n := WordRun(u, "infinity"), WordRun(u, "nan");
    if i == 3 || i == 8 then Got(Infinite(negative), u[i..])
    else if n == 3 then ScanPayload(u[3..])
    else if i + n > 0 then Stop
    else if |u| > 1 && u[0] == '0' && Lower(u[1]) == 'x' then ScanHex(round, negative, u[2..])
    else ScanDecimal(round, negative, u)
  }

  /** "%lf" */
  function ScanReal(round: Rounding, s: string): Parsed<Float> {
    var t := SkipBlank(s);
    var sign := if t != "" && IsSign(t[0]) then 1 else 0;
    ScanUnsigned(round, sign == 1 && t[0] == '-', t[sign..])
  }

  // ---- what well-formed fields scan as -------------------------------------------------------

  /** The fields in order, each followed by its mark, and then the tail. */
  function Fielded(fields: seq<string>, format: Format, tail: string): string
    requires |fields| == |format|
  {
    if fields == [] then tail
    else fields[0] + ([format[0].1] + Fielded(fields[1..], format[1..], tail))
  }

  lemma {:induction false} DigitRunTakes(d: string, rest: string, width: nat)
    requires AllDigits(d) && |d| <= width
    requires |d| == width || rest == "" || !IsDigit(rest[0])
    ensures DigitRun(d + rest, width) == |d|
  {
    if d == "" {
      assert d + rest == rest;
    } else {
      DigitRunTakes(d[1..], rest, width - 1);
      assert (d + rest)[1..] == d[1..] + rest;
    }
  }

  lemma SkipNoBlank(s: string)
    requires s == "" || !ScanSpace(s[0])
    ensures SkipBlank(s) == s
  {
  }

  lemma FieldScans(d: string, width: nat, rest: string)
    requires AllDigits(d) && |d| == width > 0
    ensures ScanInt(d + rest, width) == Got(DecimalValue(d) as int, rest)
  {
    var s := d + rest;
    SkipNoBlank(s);
    DigitRunTakes(d, rest, width);
    assert s[0..] == s && s[..width] == d && s[width..] == rest;
  }

  /** A sign takes one place of the field. */
  lemma SignedFieldScans(d: string, width: nat, rest: string)
    requires AllDigits(d) && |d| + 1 == width > 1
    ensures ScanInt("+" + (d + rest), width) == Got(DecimalValue(d) as int, rest)
    ensures ScanInt("-" + (d + rest), width) == Got(-(DecimalValue(d) as int), rest)
  {
    var s, m := "+" + (d + rest), "-" + (d + rest);
    SkipNoBlank(s);
    SkipNoBlank(m);
    assert m[1..] == d + rest;
    DigitRunTakes(d, rest, width - 1);
    assert s[1..] == d + rest && (d + rest)[..|d|] == d && (d + rest)[|d|..] == rest;
  }

  /** An exponent multiplies by a power of ten, or divides by it after a minus. */
  lemma ExponentReads(d: string, rest: string)
    requires AllDigits(d) && d != "" && (rest == "" || !IsDigit(rest[0]))
    ensures ScanExponent("e" + (d + rest), 'e', 10) == Got(PowerOf(10, DecimalValue(d)), rest)
    ensures ScanExponent("e-" + (d + rest), 'e', 10) == Got(1.0 / PowerOf(10, DecimalValue(d)), rest)
  {
    var s, m := "e" + (d + rest), "e-" + (d + rest);
    DigitRunTakes(d, rest, |d + rest|);
    assert s[1..] == d + rest && m[2..] == d + rest && m[1] == '-' && s[1] == d[0];
    assert (d + rest)[..|d|] == d && (d + rest)[|d|..] == rest;
  }

  function Values(fields: seq<string>): (v: seq<int>)
    requires forall i :: 0 <= i < |fields| ==> AllDigits(fields[i])
    ensures |v| == |fields|
    ensures forall i :: 0 <= i < |fields| ==> v[i] == DecimalValue(fields[i])
  {
    if fields == [] then [] else [DecimalValue(fields[0]) as int] + Values(fields[1..])
  }

  lemma FieldsStep(first: string, mark: char, more: string, format: Format)
    requires format != [] && AllDigits(first) && |first| == format[0].0 > 0 && mark == format[0].1
    ensures ScanFields(first + ([mark] + more), format)
         == match ScanFields(more, format[1..])
            case Stop => Stop
            case Got(values, rest) => Got([DecimalValue(first) as int] + values, rest)
  {
    FieldScans(first, |first|, [mark] + more);
    assert ([mark] + more)[1..] == more;
  }

  /** Fields as wide as their conversions scan back, whatever follows. */
  lemma {:induction false} FieldsScan(fields: seq<string>, format: Format, tail: string)
    requires |fields| == |format|
    requires forall i :: 0 <= i < |fields| ==> AllDigits(fields[i]) && |fields[i]| == format[i].0 > 0
    ensures ScanFields(Fielded(fields, format, tail), format) == Got(Values(fields), tail)
    decreases |fields|
  {
    if fields != [] {
      FieldsStep(fields[0], format[0].1, Fielded(fields[1..], format[1..], tail), format);
      FieldsScan(fields[1..], format[1..], tail);
    }
  }

  lemma {:induction false} FieldedEnds(fields: seq<string>, format: Format, tail: string)
    requires |fields| == |format| && tail != ""
    ensures var s := Fielded(fields, format, tail); s != "" && s[|s| - 1] == tail[|tail| - 1]
  {
    if fields != [] { FieldedEnds(fields[1..], format[1..], tail); }
  }

  lemma {:induction false} SplitDigits(d: string, n: nat)
    requires AllDigits(d) && n <= |d|
    ensures AllDigits(d[..n]) && AllDigits(d[n..])
  {
    if n > 0 {
      SplitDigits(d[1..], n - 1);
      assert d[..n][1..] == d[1..][..n - 1] && d[n..] == d[1..][n - 1..];
    }
  }

  /** Text that starts with a digit is decimal, unless it is hexadecimal. */
  lemma DecimalStarts(round: Rounding, s: string)
    requires |s| > 1 && IsDigit(s[0]) && Lower(s[1]) != 'x'
    ensures ScanReal(round, s) == ScanDecimal(round, false, s)
  {
    SkipNoBlank(s);
    assert s[0..] == s;
  }

  lemma HexStarts(round: Rounding, s: string)
    requires |s| > 1 && s[0] == '0' && Lower(s[1]) == 'x'
    ensures ScanReal(round, s) == ScanHex(round, false, s[2..])
  {
    SkipNoBlank(s);
    assert s[0..] == s;
  }

  /** Digits, a point and digits again, and then what does not go on with them. */
  lemma PointScans(round: Rounding, whole: string, part: string, rest: string)
    requires AllDigits(whole) && AllDigits(part) && whole != "" && part != ""
    requires rest != "" && !IsDigit(rest[0]) && Lower(rest[0]) != 'e'
    ensures ScanDecimal(round, false, whole + ("." + (part + rest)))
         == Got(round(DecimalSize(whole, part)), rest)
  {
    var u, v := whole + ("." + (part + rest)), part + rest;
    DigitsTaken(whole, "." + v);
    DigitsTaken(part, rest);
    assert u[|whole| + 1..] == v;
    DecimalFrom(round, u, whole, v, part, rest);
  }

  lemma DigitsTaken(d: string, rest: string)
    requires AllDigits(d) && (rest == "" || !IsDigit(rest[0]))
    ensures DigitRun(d + rest, |d + rest|) == |d| && (d + rest)[..|d|] == d && (d + rest)[|d|..] == rest
  {
    DigitRunTakes(d, rest, |d + rest|);
  }

  lemma DecimalFrom(round: Rounding, u: string, whole: string, v: string, part: string, rest: string)
    requires AllDigits(whole) && AllDigits(part) && whole != "" && part != ""
    requires DigitRun(u, |u|) == |whole| < |u| && u[..|whole|] == whole && u[|whole|] == '.'
    requires v == u[|whole| + 1..] && DigitRun(v, |v|) == |part| && v[..|part|] == part && v[|part|..] == rest
    requires rest != "" && Lower(rest[0]) != 'e'
    ensures ScanDecimal(round, false, u)
         == Got(round(DecimalSize(whole, part)), rest)
  {
    NoExponent(rest, 'e', 10);
  }

  lemma NoExponent(s: string, letter: char, base: nat)
    requires 0 < base && s != "" && Lower(s[0]) != letter
    ensures ScanExponent(s, letter, base) == Got(1.0, s)
  {
  }

  lemma {:induction false} WordTaken(word: string, rest: string)
    requires forall i :: 0 <= i < |word| ==> Lower(word[i]) == word[i]
    ensures WordRun(word + rest, word) == |word|
  {
    if word != "" {
      WordTaken(word[1..], rest);
      assert (word + rest)[1..] == word[1..] + rest;
    }
  }

  // ---- a final Z is never taken -----------------------------------------------------------------

  predicate Zulu(c: char) {
    c == 'Z' || c == 'z'
  }

  predicate EndsZulu(text: string) {
    text != "" && Zulu(text[|text| - 1])
  }

  lemma DropKeepsZulu(s: string, n: nat)
    requires n <= |s| && (n > 0 ==> !Zulu(s[n - 1]))
    ensures EndsZulu(s[n..]) <==> EndsZulu(s)
  {
  }

  lemma {:induction false} BlankKeepsZulu(s: string)
    ensures EndsZulu(SkipBlank(s)) <==> EndsZulu(s)
  {
    if s != "" && ScanSpace(s[0]) {
      BlankKeepsZulu(s[1..]);
      DropKeepsZulu(s, 1);
    }
  }

  lemma {:induction false} RunKeepsZulu(s: string, width: nat)
    ensures EndsZulu(s[DigitRun(s, width)..]) <==> EndsZulu(s)
  {
    if s != "" && width > 0 && IsDigit(s[0]) {
      RunKeepsZulu(s[1..], width - 1);
      DropKeepsZulu(s, 1);
      assert s[1..][DigitRun(s[1..], width - 1)..] == s[DigitRun(s, width)..];
    } else {
      assert s[0..] == s;
    }
  }

  lemma {:induction false} HexKeepsZulu(s: string)
    ensures EndsZulu(s[HexRun(s)..]) <==> EndsZulu(s)
  {
    if s != "" && HexDigit(s[0]) >= 0 {
      HexKeepsZulu(s[1..]);
      DropKeepsZulu(s, 1);
      assert s[1..][HexRun(s[1..])..] == s[HexRun(s)..];
    } else {
      assert s[0..] == s;
    }
  }

  lemma {:induction false} WordKeepsZulu(s: string, word: string)
    requires forall i :: 0 <= i < |word| ==> word[i] != 'z'
    ensures EndsZulu(s[WordRun(s, word)..]) <==> EndsZulu(s)
  {
    if s != "" && word != "" && Lower(s[0]) == word[0] {
      WordKeepsZulu(s[1..], word[1..]);
      DropKeepsZulu(s, 1);
      assert s[1..][WordRun(s[1..], word[1..])..] == s[WordRun(s, word)..];
    } else {
      assert s[0..] == s;
    }
  }

  lemma SignKeepsZulu(s: string, sign: nat)
    requires var t := SkipBlank(s); sign == 0 || (sign == 1 && t != "" && IsSign(t[0]))
    ensures EndsZulu(SkipBlank(s)[sign..]) <==> EndsZulu(s)
  {
    BlankKeepsZulu(s);
    DropKeepsZulu(SkipBlank(s), sign);
  }

  lemma IntKeepsZulu(s: string, width: nat)
    requires ScanInt(s, width).Got?
    ensures EndsZulu(ScanInt(s, width).rest) <==> EndsZulu(s)
  {
    var t := SkipBlank(s);
    var sign := if t != "" && width > 0 && IsSign(t[0]) then 1 else 0;
    SignKeepsZulu(s, sign);
    RunKeepsZulu(t[sign..], width - sign);
    assert ScanInt(s, width).rest == t[sign..][DigitRun(t[sign..], width - sign)..];
  }

  lemma {:induction false} FieldsKeepZulu(s: string, format: Format)
    requires forall i :: 0 <= i < |format| ==> !Zulu(format[i].1)
    requires ScanFields(s, format).Got?
    ensures EndsZulu(ScanFields(s, format).rest) <==> EndsZulu(s)
    decreases |format|
  {
    if format != [] {
      var n := ScanInt(s, format[0].0);
      IntKeepsZulu(s, format[0].0);
      DropKeepsZulu(n.rest, 1);
      FieldsKeepZulu(n.rest[1..], format[1..]);
    }
  }

  lemma ExponentKeepsZulu(s: string, letter: char, base: nat)
    requires 0 < base && letter != 'z' && ScanExponent(s, letter, base).Got?
    ensures EndsZulu(ScanExponent(s, letter, base).rest) <==> EndsZulu(s)
  {
    if s != "" && Lower(s[0]) == letter {
      var sign := if |s| > 1 && IsSign(s[1]) then 1 else 0;
      DropKeepsZulu(s, 1 + sign);
      RunKeepsZulu(s[1 + sign..], |s[1 + sign..]|);
    }
  }

  /** Where a point and the digits after it are taken. */
  lemma PointKeepsZulu(u: string, n: nat, dot: nat)
    requires n <= |u| && dot == if n < |u| && u[n] == '.' then 1 else 0
    ensures EndsZulu(u[n + dot..]) <==> EndsZulu(u[n..])
  {
    DropKeepsZulu(u[n..], dot);
    assert u[n..][dot..] == u[n + dot..];
  }

  /** Digits, a point, digits: where the mantissa of a number ends. */
  lemma MantissaKeepsZulu(u: string, n: nat, dot: nat, v: string, m: nat)
    requires n == DigitRun(u, |u|) && dot == if n < |u| && u[n] == '.' then 1 else 0
    requires v == u[n + dot..] && m == if dot == 1 then DigitRun(v, |v|) else 0
    ensures EndsZulu(v[m..]) <==> EndsZulu(u)
  {
    RunKeepsZulu(u, |u|);
    PointKeepsZulu(u, n, dot);
    RunKeepsZulu(v, |v|);
    assert v[0..] == v;
  }

  lemma DecimalKeepsZulu(round: Rounding, negative: bool, u: string)
    requires ScanDecimal(round, negative, u).Got?
    ensures EndsZulu(ScanDecimal(round, negative, u).rest) <==> EndsZulu(u)
  {
    var n := DigitRun(u, |u|);
    var dot := if n < |u| && u[n] == '.' then 1 else 0;
    var v := u[n + dot..];
    var m := if dot == 1 then DigitRun(v, |v|) else 0;
    MantissaKeepsZulu(u, n, dot, v, m);
    DecimalRest(round, negative, u, n, dot, v, m);
    ExponentKeepsZulu(v[m..], 'e', 10);
  }

  lemma DecimalRest(round: Rounding, negative: bool, u: string, n: nat, dot: nat, v: string, m: nat)
    requires n == DigitRun(u, |u|) && dot == if n < |u| && u[n] == '.' then 1 else 0
    requires v == u[n + dot..] && m == if dot == 1 then DigitRun(v, |v|) else 0
    requires ScanDecimal(round, negative, u).Got?
    ensures ScanExponent(v[m..], 'e', 10).Got?
    ensures ScanDecimal(round, negative, u).rest == ScanExponent(v[m..], 'e', 10).rest
  {
  }

  lemma HexadecimalKeepsZulu(round: Rounding, negative: bool, u: string)
    requires ScanHex(round, negative, u).Got?
    ensures EndsZulu(ScanHex(round, negative, u).rest) <==> EndsZulu(u)
  {
    var n := HexRun(u);
    var dot := if n < |u| && u[n] == '.' then 1 else 0;
    var v := u[n + dot..];
    var m := if dot == 1 then HexRun(v) else 0;
    HexKeepsZulu(u);
    PointKeepsZulu(u, n, dot);
    HexKeepsZulu(v);
    assert v[0..] == v;
    ExponentKeepsZulu(v[m..], 'p', 2);
    assert ScanHex(round, negative, u).rest == ScanExponent(v[m..], 'p', 2).rest;
  }

  lemma PayloadKeepsZulu(s: string)
    requires ScanPayload(s).Got?
    ensures EndsZulu(ScanPayload(s).rest) <==> EndsZulu(s)
  {
    if s != "" && s[0] == '(' { DropKeepsZulu(s, 2 + PayloadRun(s[1..])); }
  }

  lemma WordsKeepZulu(u: string)
    ensures EndsZulu(u[WordRun(u, "infinity")..]) <==> EndsZulu(u)
    ensures EndsZulu(u[WordRun(u, "nan")..]) <==> EndsZulu(u)
  {
    WordKeepsZulu(u, "infinity");
    WordKeepsZulu(u, "nan");
  }

  lemma UnsignedKeepsZulu(round: Rounding, negative: bool, u: string)
    requires ScanUnsigned(round, negative, u).Got?
    ensures EndsZulu(ScanUnsigned(round, negative, u).rest) <==> EndsZulu(u)
  {
    var i, n := WordRun(u, "infinity"), WordRun(u, "nan");
    WordsKeepZulu(u);
    if i == 3 || i == 8 {
    } else if n == 3 {
      PayloadKeepsZulu(u[3..]);
    } else if |u| > 1 && u[0] == '0' && Lower(u[1]) == 'x' {
      DropKeepsZulu(u, 2);
      HexadecimalKeepsZulu(round, negative, u[2..]);
    } else {
      DecimalKeepsZulu(round, negative, u);
    }
  }

  /** Whatever "%lf" takes, what it leaves ends in a Z exactly when the text did. */
  lemma RealKeepsZulu(round: Rounding, s: string)
    requires ScanReal(round, s).Got?
    ensures EndsZulu(ScanReal(round, s).rest) <==> EndsZulu(s)
  {
    var t := SkipBlank(s);
    var sign := if t != "" && IsSign(t[0]) then 1 else 0;
    SignKeepsZulu(s, sign);
    UnsignedKeepsZulu(round, sign == 1 && t[0] == '-', t[sign..]);
  }
}
