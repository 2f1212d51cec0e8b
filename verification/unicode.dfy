/** Well-formed UTF-8, section 4 of RFC 3629, over bytes held one per char. */
module Unicode {
  import opened Sequences

  predicate Ascii(c: char) {
    c as int < 0x80
  }

  /** Whether byte i is there and in a range. */
  predicate ByteIn(s: string, i: nat, low: nat, high: nat) {
    i < |s| && low <= s[i] as int <= high
  }

  /** The length of the sequence that starts the text, or 0 if none does. */
  function SequenceLength(s: string): (n: nat)
    ensures n <= |s| && n <= 4
  {
    if ByteIn(s, 0, 0, 0x7F) then 1
    else if ByteIn(s, 0, 0xC2, 0xDF) && ByteIn(s, 1, 0x80, 0xBF) then 2
    else if ThreeBytes(s) && ByteIn(s, 2, 0x80, 0xBF) then 3
    else if FourBytes(s) && ByteIn(s, 2, 0x80, 0xBF) && ByteIn(s, 3, 0x80, 0xBF) then 4
    else 0
  }

  predicate ThreeBytes(s: string) {
    || (ByteIn(s, 0, 0xE0, 0xE0) && ByteIn(s, 1, 0xA0, 0xBF))
    || (ByteIn(s, 0, 0xE1, 0xEC) && ByteIn(s, 1, 0x80, 0xBF))
    || (ByteIn(s, 0, 0xED, 0xED) && ByteIn(s, 1, 0x80, 0x9F))
    || (ByteIn(s, 0, 0xEE, 0xEF) && ByteIn(s, 1, 0x80, 0xBF))
  }

  predicate FourBytes(s: string) {
    || (ByteIn(s, 0, 0xF0, 0xF0) && ByteIn(s, 1, 0x90, 0xBF))
    || (ByteIn(s, 0, 0xF1, 0xF3) && ByteIn(s, 1, 0x80, 0xBF))
    || (ByteIn(s, 0, 0xF4, 0xF4) && ByteIn(s, 1, 0x80, 0x8F))
  }

  predicate IsUtf8(s: string) {
    Utf8Bytes(s, |s|)
  }

  /** One sequence after another through all n bytes. */
  predicate Utf8Bytes(s: string, n: nat)
    requires n == |s|
    decreases n
  {
    n == 0 || (SequenceLength(s) > 0 && Utf8Bytes(s[SequenceLength(s)..], n - SequenceLength(s)))
  }

  // ---- putting texts together -----------------------------------------------------------

  /** Four places, each the same byte on both sides or no tail byte on either, make one length. */
  ghost predicate SameStart(a: string, b: string, i: nat) {
    if i < |a| && i < |b| && a[i] == b[i] then true
    else (i < |a| ==> Ascii(a[i])) && (i < |b| ==> Ascii(b[i]))
  }

  lemma LengthsAgree(a: string, b: string)
    requires a != "" && b != "" && a[0] == b[0]
    requires SameStart(a, b, 1)
    requires |a| > 1 && |b| > 1 && a[1] == b[1] && !Ascii(a[1]) ==> SameStart(a, b, 2)
    requires |a| > 2 && |b| > 2 && a[1] == b[1] && a[2] == b[2] && !Ascii(a[1]) && !Ascii(a[2]) ==> SameStart(a, b, 3)
    ensures SequenceLength(a) == SequenceLength(b)
  {
  }

  lemma JoinSame(a: string, b: string, i: nat)
    requires i <= |a| && (b == "" || Ascii(b[0]))
    ensures SameStart(a, a + b, i)
  {
    if i < |a| { assert (a + b)[i] == a[i]; } else if b != "" { assert (a + b)[i] == b[0]; }
  }

  lemma JoinKeepsLength(a: string, b: string)
    requires a != "" && (b == "" || Ascii(b[0]))
    ensures SequenceLength(a + b) == SequenceLength(a)
  {
    JoinSame(a, b, 1);
    if |a| > 1 { JoinSame(a, b, 2); }
    if |a| > 2 { JoinSame(a, b, 3); }
    LengthsAgree(a, a + b);
  }

  /** Text that starts with ASCII, or none, may be put after any other. */
  lemma {:induction false} Utf8Joins(a: string, b: string)
    requires b == "" || Ascii(b[0])
    ensures IsUtf8(a + b) <==> IsUtf8(a) && IsUtf8(b)
    decreases |a|
  {
    if a == "" {
      assert a + b == b;
    } else {
      JoinKeepsLength(a, b);
      var n := SequenceLength(a);
      if n > 0 {
        Utf8Joins(a[n..], b);
        assert (a + b)[n..] == a[n..] + b;
      }
    }
  }

  predicate AllAscii(s: string) {
    forall i :: 0 <= i < |s| ==> Ascii(s[i])
  }

  lemma {:induction false} AsciiIsUtf8(s: string)
    requires AllAscii(s)
    ensures IsUtf8(s)
    decreases |s|
  {
    if s != "" {
      assert SequenceLength(s) == 1;
      AsciiIsUtf8(s[1..]);
    }
  }

  /** ASCII before a text changes nothing. */
  lemma {:induction false} AsciiBefore(a: string, b: string)
    requires AllAscii(a)
    ensures IsUtf8(a + b) <==> IsUtf8(b)
    decreases |a|
  {
    if a == "" {
      assert a + b == b;
    } else {
      assert SequenceLength(a + b) == 1;
      AsciiBefore(a[1..], b);
      assert (a + b)[1..] == a[1..] + b;
    }
  }

  /** And neither does ASCII after one. */
  lemma AsciiAfter(a: string, b: string)
    requires AllAscii(b)
    ensures IsUtf8(a + b) <==> IsUtf8(a)
  {
    Utf8Joins(a, b);
    AsciiIsUtf8(b);
  }

  /** A byte 0xFF is never part of it. */
  lemma NotUtf8()
    ensures !IsUtf8([0xFF as char])
  {
    assert SequenceLength([0xFF as char]) == 0;
  }
}
