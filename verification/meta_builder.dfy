/**
 MetaBuilder of sigmf_tags.hpp: folding tags into the document in place, and the
 document's text, which reads back as the JSON it was built to say.
 */
module MetaBuilders {
  import opened Json
  import opened JsonText
  import opened JsonUtf8
  import opened OrderedMap
  import opened Sequences
  import opened SigmfJson
  import opened MetaModel
  import opened Unicode
  import opened Wrappers

  const KEY_SAMPLE_RATE := "core:sample_rate"

  /** The recording as a whole, from the block's parameters. */
  datatype Info = Info(
    datatypeName: string, sampleRate: Double, centerFreq: Double,
    author: string, description: string, hardware: string)

  /** The document before any tag: one capture, at sample 0. */
  function Initial(info: Info): Doc {
    var first := Put(BytesLess, [], KEY_SAMPLE_START, "0");
    Doc([(0, if info.centerFreq.Finite?
             then Put(BytesLess, first, KEY_FREQUENCY, NumberTextOf(info.centerFreq)) else first)],
        [], false)
  }

  lemma InitialWellFormed(info: Info)
    ensures WellFormed(Initial(info))
  {
    assert Decimal(0) == "0";
    StartWritten([], 0);
    if info.centerFreq.Finite? {
      NumberFaithful(info.centerFreq);
      OtherWritten(Put(BytesLess, [], KEY_SAMPLE_START, "0"), 0, KEY_FREQUENCY,
                   NumberTextOf(info.centerFreq), NumberValue(info.centerFreq));
    }
  }

  // ---- the document's text ------------------------------------------------------------

  function Unless(absent: bool, member: (string, string)): seq<(string, string)> {
    if absent then [] else [member]
  }

  predicate HasRate(info: Info) {
    info.sampleRate.Finite? && info.sampleRate.value > 0.0
  }

  /** The global object's members, the optional ones only when given. */
  function GlobalMembers(info: Info, samples: nat): seq<(string, string)> {
    [("core:datatype", Escaped(info.datatypeName)), ("core:version", Escaped("1.0.0"))]
    + Unless(!HasRate(info), (KEY_SAMPLE_RATE, NumberTextOf(info.sampleRate)))
    + [("core:recorder", Escaped("GNU Radio World"))]
    + Unless(info.author == "", ("core:author", Escaped(info.author)))
    + Unless(info.description == "", ("core:description", Escaped(info.description)))
    + Unless(info.hardware == "", ("core:hw", Escaped(info.hardware)))
    + [("traceability:sample_length", Decimal(samples))]
  }

  function ValueUnless(absent: bool, member: (string, Value)): seq<(string, Value)> {
    if absent then [] else [member]
  }

  /** What the global object says. */
  function GlobalValues(info: Info, samples: nat): seq<(string, Value)> {
    [("core:datatype", String(info.datatypeName)), ("core:version", String("1.0.0"))]
    + ValueUnless(!HasRate(info), (KEY_SAMPLE_RATE, NumberValue(info.sampleRate)))
    + [("core:recorder", String("GNU Radio World"))]
    + ValueUnless(info.author == "", ("core:author", String(info.author)))
    + ValueUnless(info.description == "", ("core:description", String(info.description)))
    + ValueUnless(info.hardware == "", ("core:hw", String(info.hardware)))
    + [("traceability:sample_length", Number(Decimal(samples)))]
  }

  /** encode_object() */
  function EncodedObject(obj: Members): string {
    ObjectText(obj, "", ": ", ", ", "")
  }

  function EncodedAll(objects: seq<Members>): (texts: seq<string>)
    ensures |texts| == |objects|
    ensures forall i :: 0 <= i < |objects| ==> texts[i] == EncodedObject(objects[i])
  {
    if objects == [] then []
    else EncodedAll(objects[..|objects| - 1]) + [EncodedObject(objects[|objects| - 1])]
  }

  function Segments(captures: seq<(nat, Members)>): (objects: seq<Members>)
    ensures |objects| == |captures|
    ensures forall i :: 0 <= i < |captures| ==> objects[i] == captures[i].1
  {
    if captures == [] then [] else Segments(captures[..|captures| - 1]) + [captures[|captures| - 1].1]
  }

  /** A list of objects, one to a line. */
  function ListText(objects: seq<Members>): string {
    ArrayText(EncodedAll(objects), if objects == [] then "\n" else "\n    ", ",\n    ", "\n  ")
  }

  function GlobalText(info: Info, samples: nat): string {
    ObjectText(GlobalMembers(info, samples), "\n    ", ": ", ",\n    ", "\n  ")
  }

  function DocumentText(info: Info, doc: Doc, samples: nat): string {
    ObjectText([("global", GlobalText(info, samples)),
                ("captures", ListText(Segments(doc.captures))),
                ("annotations", ListText(doc.annotations))], "\n  ", ": ", ",\n  ", "\n") + "\n"
  }

  // ---- what the document says ---------------------------------------------------------------

  function ValuesOf(obj: Members): (values: seq<(string, Value)>)
    ensures |values| == |obj|
    ensures forall i :: 0 <= i < |obj| ==> values[i] == (obj[i].0, Denoting(obj[i].1))
  {
    if obj == [] then [] else [(obj[0].0, Denoting(obj[0].1))] + ValuesOf(obj[1..])
  }

  function ObjectValues(objects: seq<Members>): (values: seq<Value>)
    ensures |values| == |objects|
    ensures forall i :: 0 <= i < |objects| ==> values[i] == Value.Object(ValuesOf(objects[i]))
  {
    if objects == [] then []
    else ObjectValues(objects[..|objects| - 1]) + [Value.Object(ValuesOf(objects[|objects| - 1]))]
  }

  function DocumentValue(info: Info, doc: Doc, samples: nat): Value {
    Value.Object([("global", Value.Object(GlobalValues(info, samples))),
                  ("captures", Array(ObjectValues(Segments(doc.captures)))),
                  ("annotations", Array(ObjectValues(doc.annotations)))])
  }

  lemma {:induction false} MembersSound(obj: Members)
    requires SoundMembers(obj)
    ensures MembersRead(obj, ValuesOf(obj))
  {
    if obj != [] {
      MembersSound(obj[1..]);
      assert MembersRead([obj[0]], [ValuesOf(obj)[0]]);
      MembersReadJoin([obj[0]], [ValuesOf(obj)[0]], obj[1..], ValuesOf(obj[1..]));
      assert [obj[0]] + obj[1..] == obj;
    }
  }

  lemma MembersReadJoin(a: seq<(string, string)>, x: seq<(string, Value)>,
                        b: seq<(string, string)>, y: seq<(string, Value)>)
    requires MembersRead(a, x) && MembersRead(b, y)
    ensures MembersRead(a + b, x + y)
  {
  }

  /** Members that read as the values beside them, built up from the front. */
  ghost predicate ReadSoFar(a: seq<(string, string)>, x: seq<(string, Value)>) {
    |a| == |x| &&
    (a == [] || (&& a[|a| - 1].0 == x[|x| - 1].0
                 && Reads(a[|a| - 1].1, x[|x| - 1].1)
                 && ReadSoFar(a[..|a| - 1], x[..|x| - 1])))
  }

  lemma AppendRead(a: seq<(string, string)>, x: seq<(string, Value)>, absent: bool, key: string, text: string, v: Value)
    requires ReadSoFar(a, x) && (absent || Reads(text, v))
    ensures ReadSoFar(a + Unless(absent, (key, text)), x + ValueUnless(absent, (key, v)))
  {
    if absent {
      assert a + [] == a && x + [] == x;
    } else {
      assert (a + [(key, text)])[..|a|] == a && (x + [(key, v)])[..|x|] == x;
    }
  }

  lemma {:induction false} SoFarRead(a: seq<(string, string)>, x: seq<(string, Value)>)
    requires ReadSoFar(a, x)
    ensures MembersRead(a, x)
  {
    if a != [] { SoFarRead(a[..|a| - 1], x[..|x| - 1]); }
  }

  lemma ObjectSound(obj: Members)
    requires SoundObject(obj)
    ensures Faithful(EncodedObject(obj), Value.Object(ValuesOf(obj)))
  {
    MembersSound(obj);
    ObjectReads(obj, ValuesOf(obj), "", ": ", ", ", "");
    ObjectOpensText(obj, "", ": ", ", ", "");
  }

  lemma {:induction false} SoundAt(objects: seq<Members>, i: nat)
    requires SoundObjects(objects) && i < |objects|
    ensures SoundObject(objects[i])
  {
    if i < |objects| - 1 { SoundAt(objects[..|objects| - 1], i); }
  }

  lemma ObjectsFaithful(objects: seq<Members>)
    requires SoundObjects(objects)
    ensures forall i :: 0 <= i < |objects| ==> Faithful(EncodedAll(objects)[i], ObjectValues(objects)[i])
  {
    forall i | 0 <= i < |objects|
      ensures Faithful(EncodedAll(objects)[i], ObjectValues(objects)[i])
    {
      SoundAt(objects, i);
      ObjectSound(objects[i]);
    }
  }

  lemma ListReads(objects: seq<Members>)
    requires SoundObjects(objects)
    ensures Reads(ListText(objects), Array(ObjectValues(objects)))
  {
    ObjectsFaithful(objects);
    var lead := if objects == [] then "\n" else "\n    ";
    assert AllSpace(lead) && IsComma(",\n    ") && AllSpace("\n  ");
    ArrayReads(EncodedAll(objects), ObjectValues(objects), lead, ",\n    ", "\n  ");
  }

  lemma {:induction false} StartAt(captures: seq<(nat, Members)>, i: nat)
    requires CapturesStart(captures) && i < |captures|
    ensures StartsAt(captures[i].1, captures[i].0)
  {
    if i > 0 { StartAt(captures[1..], i - 1); }
  }

  lemma {:induction false} SegmentsSound(captures: seq<(nat, Members)>, n: nat)
    requires CapturesStart(captures) && n <= |captures|
    ensures SoundObjects(Segments(captures[..n]))
  {
    if n > 0 {
      SegmentsSound(captures, n - 1);
      StartAt(captures, n - 1);
      var front := captures[..n];
      assert front[..n - 1] == captures[..n - 1];
      assert Segments(front)[..n - 1] == Segments(captures[..n - 1]);
    }
  }

  lemma StringAppend(a: seq<(string, string)>, x: seq<(string, Value)>, absent: bool, key: string, text: string)
    requires ReadSoFar(a, x)
    ensures ReadSoFar(a + Unless(absent, (key, Escaped(text))), x + ValueUnless(absent, (key, String(text))))
  {
    StringReads(text);
    AppendRead(a, x, absent, key, Escaped(text), String(text));
  }

  lemma NumberAppend(a: seq<(string, string)>, x: seq<(string, Value)>, absent: bool, key: string, d: Double)
    requires ReadSoFar(a, x)
    ensures ReadSoFar(a + Unless(absent, (key, NumberTextOf(d))), x + ValueUnless(absent, (key, NumberValue(d))))
  {
    NumberFaithful(d);
    AppendRead(a, x, absent, key, NumberTextOf(d), NumberValue(d));
  }

  lemma CountAppend(a: seq<(string, string)>, x: seq<(string, Value)>, key: string, n: nat)
    requires ReadSoFar(a, x)
    ensures ReadSoFar(a + [(key, Decimal(n))], x + [(key, Number(Decimal(n)))])
  {
    IntegerFaithful(n);
    AppendRead(a, x, false, key, Decimal(n), Number(Decimal(n)));
  }

  lemma TwoStringsRead(j: string, s: string, k: string, t: string)
    ensures ReadSoFar([(j, Escaped(s)), (k, Escaped(t))], [(j, String(s)), (k, String(t))])
  {
    StringAppend([], [], false, j, s);
    assert [] + [(j, Escaped(s))] == [(j, Escaped(s))] && [] + [(j, String(s))] == [(j, String(s))];
    StringAppend([(j, Escaped(s))], [(j, String(s))], false, k, t);
    assert [(j, Escaped(s))] + [(k, Escaped(t))] == [(j, Escaped(s)), (k, Escaped(t))];
    assert [(j, String(s))] + [(k, String(t))] == [(j, String(s)), (k, String(t))];
  }

  lemma RateAppend(info: Info, a: seq<(string, string)>, x: seq<(string, Value)>)
    requires ReadSoFar(a, x)
    ensures ReadSoFar(
      a + Unless(!HasRate(info), (KEY_SAMPLE_RATE, NumberTextOf(info.sampleRate)))
        + [("core:recorder", Escaped("GNU Radio World"))],
      x + ValueUnless(!HasRate(info), (KEY_SAMPLE_RATE, NumberValue(info.sampleRate)))
        + [("core:recorder", String("GNU Radio World"))])
  {
    NumberAppend(a, x, !HasRate(info), KEY_SAMPLE_RATE, info.sampleRate);
    var a1 := a + Unless(!HasRate(info), (KEY_SAMPLE_RATE, NumberTextOf(info.sampleRate)));
    var x1 := x + ValueUnless(!HasRate(info), (KEY_SAMPLE_RATE, NumberValue(info.sampleRate)));
    StringAppend(a1, x1, false, "core:recorder", "GNU Radio World");
  }

  lemma GlobalMembersRead(info: Info, samples: nat)
    ensures ReadSoFar(GlobalMembers(info, samples), GlobalValues(info, samples))
  {
    var a := [("core:datatype", Escaped(info.datatypeName)), ("core:version", Escaped("1.0.0"))];
    var x := [("core:datatype", String(info.datatypeName)), ("core:version", String("1.0.0"))];
    TwoStringsRead("core:datatype", info.datatypeName, "core:version", "1.0.0");
    RateAppend(info, a, x);
    TextsAppend(info, samples,
      a + Unless(!HasRate(info), (KEY_SAMPLE_RATE, NumberTextOf(info.sampleRate)))
        + [("core:recorder", Escaped("GNU Radio World"))],
      x + ValueUnless(!HasRate(info), (KEY_SAMPLE_RATE, NumberValue(info.sampleRate)))
        + [("core:recorder", String("GNU Radio World"))]);
  }

  lemma TextsAppend(info: Info, samples: nat, a: seq<(string, string)>, x: seq<(string, Value)>)
    requires ReadSoFar(a, x)
    ensures ReadSoFar(
      a + Unless(info.author == "", ("core:author", Escaped(info.author)))
        + Unless(info.description == "", ("core:description", Escaped(info.description)))
        + Unless(info.hardware == "", ("core:hw", Escaped(info.hardware)))
        + [("traceability:sample_length", Decimal(samples))],
      x + ValueUnless(info.author == "", ("core:author", String(info.author)))
        + ValueUnless(info.description == "", ("core:description", String(info.description)))
        + ValueUnless(info.hardware == "", ("core:hw", String(info.hardware)))
        + [("traceability:sample_length", Number(Decimal(samples)))])
  {
    StringAppend(a, x, info.author == "", "core:author", info.author);
    var a1 := a + Unless(info.author == "", ("core:author", Escaped(info.author)));
    var x1 := x + ValueUnless(info.author == "", ("core:author", String(info.author)));
    StringAppend(a1, x1, info.description == "", "core:description", info.description);
    var a2 := a1 + Unless(info.description == "", ("core:description", Escaped(info.description)));
    var x2 := x1 + ValueUnless(info.description == "", ("core:description", String(info.description)));
    StringAppend(a2, x2, info.hardware == "", "core:hw", info.hardware);
    var a3 := a2 + Unless(info.hardware == "", ("core:hw", Escaped(info.hardware)));
    var x3 := x2 + ValueUnless(info.hardware == "", ("core:hw", String(info.hardware)));
    CountAppend(a3, x3, "traceability:sample_length", samples);
  }

  lemma SoFarObject(a: seq<(string, string)>, x: seq<(string, Value)>)
    requires ReadSoFar(a, x)
    ensures Reads(ObjectText(a, "\n    ", ": ", ",\n    ", "\n  "), Value.Object(x))
  {
    SoFarRead(a, x);
    ObjectReads(a, x, "\n    ", ": ", ",\n    ", "\n  ");
  }

  lemma GlobalReads(info: Info, samples: nat)
    ensures Reads(GlobalText(info, samples), Value.Object(GlobalValues(info, samples)))
  {
    GlobalMembersRead(info, samples);
    SoFarObject(GlobalMembers(info, samples), GlobalValues(info, samples));
  }

  lemma CapturesRead(doc: Doc)
    requires WellFormed(doc)
    ensures Reads(ListText(Segments(doc.captures)), Array(ObjectValues(Segments(doc.captures))))
  {
    SegmentsSound(doc.captures, |doc.captures|);
    assert doc.captures[..|doc.captures|] == doc.captures;
    ListReads(Segments(doc.captures));
  }

  /** The sample rate is said, as the number given, exactly when it is one above zero. */
  lemma RateSaid(info: Info, samples: nat)
    ensures var said := GlobalValues(info, samples);
      var given := info.sampleRate.Finite? && info.sampleRate.value > 0.0;
      && (forall i :: 0 <= i < |said| && said[i].0 == "core:sample_rate" ==>
            given && i == 2 && said[i].1 == Number(info.sampleRate.text))
      && (given ==> |said| > 2 && said[2].0 == "core:sample_rate")
  {
    OtherMembers();
  }

  /** No other member has its name. */
  lemma OtherMembers()
    ensures "core:datatype" != "core:sample_rate" && "core:version" != "core:sample_rate"
    ensures "core:recorder" != "core:sample_rate" && "core:author" != "core:sample_rate"
    ensures "core:description" != "core:sample_rate" && "core:hw" != "core:sample_rate"
    ensures "traceability:sample_length" != "core:sample_rate"
  {
    assert "core:description"[5] == 'd' && "core:sample_rate"[5] == 's';
  }

  // ---- when the text is UTF-8 ------------------------------------------------------------------

  predicate InfoUtf8(info: Info) {
    IsUtf8(info.datatypeName) && IsUtf8(info.author) && IsUtf8(info.description) && IsUtf8(info.hardware)
  }

  ghost predicate ObjectsUtf8(objects: seq<Members>) {
    forall i :: 0 <= i < |objects| ==> MembersUtf8(objects[i])
  }

  /** Every string of the parameters, and every key and text the document holds. */
  ghost predicate DocUtf8(info: Info, doc: Doc) {
    InfoUtf8(info) && ObjectsUtf8(Segments(doc.captures)) && ObjectsUtf8(doc.annotations)
  }

  /** Members whose keys and texts are UTF-8, built up from the front. */
  ghost predicate Utf8SoFar(a: seq<(string, string)>) {
    a == [] || (MemberUtf8(a[|a| - 1]) && Utf8SoFar(a[..|a| - 1]))
  }

  lemma {:induction false} SoFarUtf8(a: seq<(string, string)>)
    ensures Utf8SoFar(a) <==> MembersUtf8(a)
  {
    if a != [] {
      var front, last := a[..|a| - 1], a[|a| - 1];
      SoFarUtf8(front);
      if MembersUtf8(a) {
        assert MemberUtf8(a[|a| - 1]);
        assert forall i :: 0 <= i < |front| ==> MemberUtf8(front[i]) by {
          forall i | 0 <= i < |front|
            ensures MemberUtf8(front[i])
          {
            assert MemberUtf8(a[i]);
          }
        }
      }
      if MembersUtf8(front) && MemberUtf8(last) {
        forall i | 0 <= i < |a|
          ensures MemberUtf8(a[i])
        {
          if i < |front| { assert MemberUtf8(front[i]); }
        }
      }
    }
  }

  lemma AppendUtf8(a: seq<(string, string)>, absent: bool, m: (string, string), b: seq<(string, string)>)
    requires b == a + Unless(absent, m)
    ensures Utf8SoFar(b) <==> Utf8SoFar(a) && (absent || MemberUtf8(m))
  {
    if absent {
      assert b == a;
    } else {
      assert b[..|a|] == a;
    }
  }

  /** A string member, left out only when it is empty, which is UTF-8. */
  lemma StringAppendUtf8(a: seq<(string, string)>, absent: bool, key: string, text: string, b: seq<(string, string)>)
    requires AllAscii(key) && (absent ==> text == "") && b == a + Unless(absent, (key, Escaped(text)))
    ensures Utf8SoFar(b) <==> Utf8SoFar(a) && IsUtf8(text)
  {
    AsciiIsUtf8(key);
    EscapedUtf8(text);
    AppendUtf8(a, absent, (key, Escaped(text)), b);
  }

  lemma PlainAppendUtf8(a: seq<(string, string)>, key: string, text: string, b: seq<(string, string)>)
    requires AllAscii(key) && AllAscii(text) && b == a + [(key, Escaped(text))]
    ensures Utf8SoFar(b) <==> Utf8SoFar(a)
  {
    AsciiIsUtf8(text);
    StringAppendUtf8(a, false, key, text, b);
  }

  lemma NumberAppendUtf8(a: seq<(string, string)>, absent: bool, key: string, text: string, b: seq<(string, string)>)
    requires AllAscii(key) && IsUtf8(text) && b == a + Unless(absent, (key, text))
    ensures Utf8SoFar(b) <==> Utf8SoFar(a)
  {
    AsciiIsUtf8(key);
    AppendUtf8(a, absent, (key, text), b);
  }

  /** The members before the optional strings: one of them is a string of the caller's. */
  lemma HeadUtf8(a: seq<(string, string)>, key: string, text: string, others: (string, string), absent: bool,
                 rate: (string, string), c: seq<(string, string)>)
    requires AllAscii(key) && AllAscii(others.0) && AllAscii(others.1) && AllAscii(rate.0) && IsUtf8(rate.1)
    requires a == [(key, Escaped(text)), (others.0, Escaped(others.1))] && c == a + Unless(absent, rate)
    ensures Utf8SoFar(c) <==> IsUtf8(text)
  {
    StringAppendUtf8([], false, key, text, a[..1]);
    PlainAppendUtf8(a[..1], others.0, others.1, a);
    NumberAppendUtf8(a, absent, rate.0, rate.1, c);
  }

  /** The optional strings, each left out when it is empty. */
  lemma StringsUtf8(a: seq<(string, string)>, j: string, s: string, k: string, t: string, l: string, u: string,
                    b: seq<(string, string)>)
    requires AllAscii(j) && AllAscii(k) && AllAscii(l)
    requires b == a + Unless(s == "", (j, Escaped(s))) + Unless(t == "", (k, Escaped(t)))
                    + Unless(u == "", (l, Escaped(u)))
    ensures Utf8SoFar(b) <==> Utf8SoFar(a) && IsUtf8(s) && IsUtf8(t) && IsUtf8(u)
  {
    var one := a + Unless(s == "", (j, Escaped(s)));
    var two := one + Unless(t == "", (k, Escaped(t)));
    StringAppendUtf8(a, s == "", j, s, one);
    StringAppendUtf8(one, t == "", k, t, two);
    StringAppendUtf8(two, u == "", l, u, b);
  }

  lemma KeysAscii()
    ensures AllAscii("core:datatype") && AllAscii("core:version") && AllAscii("1.0.0")
    ensures AllAscii(KEY_SAMPLE_RATE) && AllAscii("core:recorder") && AllAscii("GNU Radio World")
    ensures AllAscii("core:author") && AllAscii("core:description") && AllAscii("core:hw")
    ensures AllAscii("traceability:sample_length")
  {
  }

  lemma RecorderUtf8(info: Info, c: seq<(string, string)>)
    requires c == [("core:datatype", Escaped(info.datatypeName)), ("core:version", Escaped("1.0.0"))]
                  + Unless(!HasRate(info), (KEY_SAMPLE_RATE, NumberTextOf(info.sampleRate)))
                  + [("core:recorder", Escaped("GNU Radio World"))]
    ensures Utf8SoFar(c) <==> IsUtf8(info.datatypeName)
  {
    KeysAscii();
    NumberUtf8(info.sampleRate);
    var b := c[..|c| - 1];
    HeadUtf8([("core:datatype", Escaped(info.datatypeName)), ("core:version", Escaped("1.0.0"))],
             "core:datatype", info.datatypeName, ("core:version", "1.0.0"), !HasRate(info),
             (KEY_SAMPLE_RATE, NumberTextOf(info.sampleRate)), b);
    PlainAppendUtf8(b, "core:recorder", "GNU Radio World", c);
  }

  lemma CountedUtf8(info: Info, samples: nat, c: seq<(string, string)>, g: seq<(string, string)>)
    requires g == c + Unless(info.author == "", ("core:author", Escaped(info.author)))
                    + Unless(info.description == "", ("core:description", Escaped(info.description)))
                    + Unless(info.hardware == "", ("core:hw", Escaped(info.hardware)))
                    + [("traceability:sample_length", Decimal(samples))]
    ensures Utf8SoFar(g) <==> Utf8SoFar(c) && IsUtf8(info.author) && IsUtf8(info.description) && IsUtf8(info.hardware)
  {
    KeysAscii();
    IntegerUtf8(samples);
    var f := g[..|g| - 1];
    StringsUtf8(c, "core:author", info.author, "core:description", info.description, "core:hw", info.hardware, f);
    NumberAppendUtf8(f, false, "traceability:sample_length", Decimal(samples), g);
  }

  lemma GlobalMembersUtf8(info: Info, samples: nat, g: seq<(string, string)>)
    requires g == GlobalMembers(info, samples)
    ensures MembersUtf8(g) <==> InfoUtf8(info)
  {
    var c := [("core:datatype", Escaped(info.datatypeName)), ("core:version", Escaped("1.0.0"))]
      + Unless(!HasRate(info), (KEY_SAMPLE_RATE, NumberTextOf(info.sampleRate)))
      + [("core:recorder", Escaped("GNU Radio World"))];
    RecorderUtf8(info, c);
    CountedUtf8(info, samples, c, g);
    SoFarUtf8(g);
  }

  lemma ObjectsEncodedUtf8(objects: seq<Members>)
    ensures AllUtf8(EncodedAll(objects)) <==> ObjectsUtf8(objects)
  {
    forall i | 0 <= i < |objects|
      ensures IsUtf8(EncodedAll(objects)[i]) <==> MembersUtf8(objects[i])
    {
      SeparatorsOfObjects();
      ObjectUtf8(objects[i], "", ": ", ", ", "");
    }
  }

  lemma SeparatorsOfObjects()
    ensures IsColon(": ") && IsComma(", ")
  {
  }

  lemma ListUtf8(objects: seq<Members>)
    ensures IsUtf8(ListText(objects)) <==> ObjectsUtf8(objects)
  {
    var lead := if objects == [] then "\n" else "\n    ";
    LineSpaces();
    ObjectsEncodedUtf8(objects);
    ArrayUtf8(EncodedAll(objects), lead, ",\n    ", "\n  ");
  }

  lemma LineSpaces()
    ensures AllSpace("\n") && AllSpace("\n  ") && AllSpace("\n    ")
    ensures IsComma(",\n    ") && IsComma(",\n  ") && IsColon(": ")
  {
    assert " "[1..] == "" && "  "[1..] == " " && "   "[1..] == "  " && "    "[1..] == "   ";
    assert "\n"[1..] == "" && "\n  "[1..] == "  " && "\n    "[1..] == "    ";
    assert ",\n    "[1..] == "\n    " && ",\n  "[1..] == "\n  " && ": "[1..] == " ";
  }

  lemma GlobalUtf8(info: Info, samples: nat)
    ensures IsUtf8(GlobalText(info, samples)) <==> InfoUtf8(info)
  {
    GlobalMembersUtf8(info, samples, GlobalMembers(info, samples));
    LinesUtf8(GlobalMembers(info, samples));
  }

  lemma LinesUtf8(a: seq<(string, string)>)
    ensures IsUtf8(ObjectText(a, "\n    ", ": ", ",\n    ", "\n  ")) <==> MembersUtf8(a)
  {
    LineSpaces();
    ObjectUtf8(a, "\n    ", ": ", ",\n    ", "\n  ");
  }

  /** Three members with names of ASCII. */
  lemma ThreeMembersUtf8(a: string, x: string, b: string, y: string, c: string, z: string)
    requires AllAscii(a) && AllAscii(b) && AllAscii(c)
    ensures MembersUtf8([(a, x), (b, y), (c, z)]) <==> IsUtf8(x) && IsUtf8(y) && IsUtf8(z)
  {
    AsciiIsUtf8(a);
    AsciiIsUtf8(b);
    AsciiIsUtf8(c);
    var members := [(a, x), (b, y), (c, z)];
    assert MembersUtf8(members) ==> MemberUtf8(members[0]) && MemberUtf8(members[1]) && MemberUtf8(members[2]);
  }

  lemma PartsUtf8(members: seq<(string, string)>, text: string)
    requires text == ObjectText(members, "\n  ", ": ", ",\n  ", "\n") + "\n"
    ensures IsUtf8(text) <==> MembersUtf8(members)
  {
    LineSpaces();
    ObjectUtf8(members, "\n  ", ": ", ",\n  ", "\n");
    AsciiAfter(ObjectText(members, "\n  ", ": ", ",\n  ", "\n"), "\n");
  }

  lemma ThreePartsUtf8(g: string, c: string, a: string, text: string)
    requires text == ObjectText([("global", g), ("captures", c), ("annotations", a)], "\n  ", ": ", ",\n  ", "\n") + "\n"
    ensures IsUtf8(text) <==> IsUtf8(g) && IsUtf8(c) && IsUtf8(a)
  {
    var members := [("global", g), ("captures", c), ("annotations", a)];
    ThreeMembersUtf8("global", g, "captures", c, "annotations", a);
    PartsUtf8(members, text);
  }

  /** The document's text is well-formed UTF-8 exactly when all its strings are. */
  lemma DocumentUtf8(info: Info, doc: Doc, samples: nat)
    ensures IsUtf8(DocumentText(info, doc, samples)) <==> DocUtf8(info, doc)
  {
    GlobalUtf8(info, samples);
    ListUtf8(Segments(doc.captures));
    ListUtf8(doc.annotations);
    ThreePartsUtf8(GlobalText(info, samples), ListText(Segments(doc.captures)), ListText(doc.annotations),
                   DocumentText(info, doc, samples));
  }

  /**
   A well-formed document's text is JSON exactly when its strings are UTF-8, and then
   says what the document holds.
   */
  lemma DocumentParses(info: Info, doc: Doc, samples: nat)
    requires WellFormed(doc)
    ensures Parse(DocumentText(info, doc, samples))
         == if DocUtf8(info, doc) then Got(DocumentValue(info, doc, samples), "") else Stop
  {
    GlobalReads(info, samples);
    CapturesRead(doc);
    ListReads(doc.annotations);
    DocumentUtf8(info, doc, samples);
    DocumentReads(GlobalText(info, samples), Value.Object(GlobalValues(info, samples)),
                  ListText(Segments(doc.captures)), Array(ObjectValues(Segments(doc.captures))),
                  ListText(doc.annotations), Array(ObjectValues(doc.annotations)));
  }

  lemma DocumentReads(g: string, gv: Value, c: string, cv: Value, a: string, av: Value)
    requires Reads(g, gv) && Reads(c, cv) && Reads(a, av)
    ensures var text := ObjectText([("global", g), ("captures", c), ("annotations", a)], "\n  ", ": ", ",\n  ", "\n") + "\n";
      Parse(text) == if IsUtf8(text) then Got(Value.Object([("global", gv), ("captures", cv), ("annotations", av)]), "")
                     else Stop
  {
    var encoded := [("global", g), ("captures", c), ("annotations", a)];
    var members := [("global", gv), ("captures", cv), ("annotations", av)];
    assert MembersRead(encoded, members);
    ObjectReads(encoded, members, "\n  ", ": ", ",\n  ", "\n");
    WholeTextParses(ObjectText(encoded, "\n  ", ": ", ",\n  ", "\n"), Value.Object(members), "\n");
  }

  /**
   Whatever tags arrive, in whatever order: the document's captures rise strictly from
   sample 0, each starts where its key says, and its text is JSON exactly when every
   string it holds, the parameters' included, is UTF-8.
   */
  lemma EveryRunParses(info: Info, tags: seq<Tag>, stray: Double -> nat, samples: nat)
    ensures var doc := FoldedAll(Initial(info), tags, stray);
      && WellFormed(doc)
      && Parse(DocumentText(info, doc, samples))
         == if DocUtf8(info, doc) then Got(DocumentValue(info, doc, samples), "") else Stop
  {
    InitialWellFormed(info);
    RunWellFormed(Initial(info), tags, stray);
    DocumentParses(info, FoldedAll(Initial(info), tags, stray), samples);
  }

  lemma KeyTexts()
    ensures KEY_LABEL == "core:label" && KEY_SAMPLE_COUNT == "core:sample_count"
    ensures KEY_SAMPLE_START == "core:sample_start"
  {
  }

  /** An ordinary tag's annotation: one sample long, labelled, with the tag's whole value. */
  lemma OrdinaryAnnotation(tag: Tag, name: string)
    requires tag.key == Symbol(name)
    requires name !in {"sigmf:capture", "sigmf:annotation", "rx_freq", "rx_rate", "rx_time"}
    ensures KindOf(tag.key) == OfAnnotation
    ensures ValuesOf(Annotated(tag))
         == [("core:label", String(name)), ("core:sample_count", Number("1")),
             ("core:sample_start", Number(Decimal(tag.offset))), ("gnuradio:value", Denoted(tag.value))]
  {
    KeyTexts();
    AnnotationSays(tag);
  }

  lemma AnnotationSays(tag: Tag)
    requires KindOf(tag.key) == OfAnnotation && tag.key.name != TAG_ANNOTATION
    ensures ValuesOf(Annotated(tag))
         == [(KEY_LABEL, String(tag.key.name)), (KEY_SAMPLE_COUNT, Number("1")),
             (KEY_SAMPLE_START, Number(Decimal(tag.offset))), (KEY_TAG_VALUE, Denoted(tag.value))]
  {
    AnnotationOrder(tag);
    StringReads(tag.key.name);
    ReadsIsSound(Escaped(tag.key.name), String(tag.key.name));
    IntegerFaithful(1);
    ReadsIsSound("1", Number("1"));
    IntegerFaithful(tag.offset);
    ReadsIsSound(Decimal(tag.offset), Number(Decimal(tag.offset)));
    PmtFaithful(tag.value);
    ReadsIsSound(PmtText(tag.value), Denoted(tag.value));
  }

  lemma AnnotationOrder(tag: Tag)
    requires KindOf(tag.key) == OfAnnotation && tag.key.name != TAG_ANNOTATION
    ensures Annotated(tag)
         == [(KEY_LABEL, Escaped(tag.key.name)), (KEY_SAMPLE_COUNT, "1"),
             (KEY_SAMPLE_START, Decimal(tag.offset)), (KEY_TAG_VALUE, PmtText(tag.value))]
  {
    KeyOrder();
    FourKeys(KEY_LABEL, Escaped(tag.key.name), KEY_SAMPLE_COUNT, "1",
             KEY_SAMPLE_START, Decimal(tag.offset), KEY_TAG_VALUE, PmtText(tag.value));
  }

  /** Four keys written third, second, first, last come out in order. */
  lemma FourKeys(a: string, av: string, b: string, bv: string, c: string, cv: string, d: string, dv: string)
    requires BytesLess(a, b) && BytesLess(b, c) && BytesLess(c, d)
    ensures Put(BytesLess, Put(BytesLess, Put(BytesLess, Put(BytesLess, [], c, cv), b, bv), a, av), d, dv)
         == [(a, av), (b, bv), (c, cv), (d, dv)]
  {
    OrdersHold();
    var one, two, three := [(c, cv)], [(b, bv), (c, cv)], [(a, av), (b, bv), (c, cv)];
    assert Put(BytesLess, [], c, cv) == one;
    assert Put(BytesLess, one, b, bv) == two;
    assert Put(BytesLess, two, a, av) == three;
    assert three[1..] == two && two[1..] == one && one[1..] == [];
    assert Put(BytesLess, one, d, dv) == [(c, cv), (d, dv)];
    assert Put(BytesLess, two, d, dv) == [(b, bv), (c, cv), (d, dv)];
  }

  lemma {:induction false} CommonPrefix(prefix: string, a: string, b: string)
    ensures BytesLess(prefix + a, prefix + b) == BytesLess(a, b)
  {
    if prefix == "" {
      assert prefix + a == a && prefix + b == b;
    } else {
      CommonPrefix(prefix[1..], a, b);
      var x, y := prefix + a, prefix + b;
      assert x[0] == y[0] && x[1..] == prefix[1..] + a && y[1..] == prefix[1..] + b;
    }
  }

  lemma KeyOrder()
    ensures BytesLess(KEY_LABEL, KEY_SAMPLE_COUNT) && BytesLess(KEY_SAMPLE_COUNT, KEY_SAMPLE_START)
    ensures BytesLess(KEY_SAMPLE_START, KEY_TAG_VALUE)
  {
    CommonPrefix(CORE, "label", "sample_" + "count");
    Regroup(CORE, "sample_", "count");
    CommonPrefix(CORE_SAMPLE, "count", "start");
  }

  // ---- the class ----------------------------------------------------------------------------------

  /** encode_object() */
  method EncodeObject(obj: Members) returns (text: string)
    ensures text == EncodedObject(obj)
  {
    var body := JoinMembers(obj, ": ", ", ");
    text := "{" + body + "}";
    Bare("{", body, "}");
  }

  /** The loop over captures or annotations: each on its own line. */
  method EncodeLines(objects: seq<Members>) returns (out: string)
    ensures "[" + out + "\n  ]" == ListText(objects)
  {
    out := "\n";
    var first := true;
    for i := 0 to |objects|
      invariant first == (i == 0)
      invariant out == if i == 0 then "\n" else "\n    " + Joined(EncodedAll(objects[..i]), ",\n    ")
    {
      assert objects[..i + 1][..i] == objects[..i];
      JoinedAppend(EncodedAll(objects[..i]), ",\n    ", EncodedObject(objects[i]));
      if !first { out := out + ",\n"; }
      first := false;
      var text := EncodeObject(objects[i]);
      LineJoins(out, objects, i, text);
      out := out + "    " + text;
    }
    assert objects[..|objects|] == objects;
    ListSpelling(objects);
  }

  lemma LineJoins(out: string, objects: seq<Members>, i: nat, text: string)
    requires i < |objects|
    requires out == if i == 0 then "\n" else "\n    " + Joined(EncodedAll(objects[..i]), ",\n    ") + ",\n"
    ensures out + "    " + text
         == "\n    " + (if i == 0 then text else Joined(EncodedAll(objects[..i]), ",\n    ") + ",\n    " + text)
  {
    if i > 0 { Separated("\n    ", Joined(EncodedAll(objects[..i]), ",\n    "), text); }
  }

  lemma Separated(lead: string, body: string, text: string)
    ensures lead + body + ",\n" + "    " + text == lead + (body + ",\n    " + text)
  {
    assert ",\n" + "    " == ",\n    ";
  }

  lemma ListSpelling(objects: seq<Members>)
    ensures ListText(objects)
         == "[" + (if objects == [] then "\n" else "\n    " + Joined(EncodedAll(objects), ",\n    ")) + "\n  ]"
  {
    var body := Joined(EncodedAll(objects), ",\n    ");
    assert "\n  " + "]" == "\n  ]";
    if objects == [] {
      assert "\n" + (body + "\n  ]") == "\n" + "\n  ]";
    }
  }

  /** The global object's members, gathered one by one. */
  method GatherGlobal(info: Info, samples: nat) returns (members: seq<(string, string)>)
    ensures members == GlobalMembers(info, samples)
  {
    var text := JsonEscape(info.datatypeName);
    members := [("core:datatype", text), ("core:version", Escaped("1.0.0"))];
    members := AppendUnless(members, !HasRate(info), KEY_SAMPLE_RATE, NumberTextOf(info.sampleRate));
    members := members + [("core:recorder", Escaped("GNU Radio World"))];
    text := JsonEscape(info.author);
    members := AppendUnless(members, info.author == "", "core:author", text);
    text := JsonEscape(info.description);
    members := AppendUnless(members, info.description == "", "core:description", text);
    text := JsonEscape(info.hardware);
    members := AppendUnless(members, info.hardware == "", "core:hw", text);
    members := members + [("traceability:sample_length", Decimal(samples))];
  }

  method AppendUnless(members: seq<(string, string)>, absent: bool, key: string, text: string)
    returns (more: seq<(string, string)>)
    ensures more == members + Unless(absent, (key, text))
  {
    more := members;
    if !absent { more := more + [(key, text)]; }
  }

  class MetaBuilder {
    const info: Info
    const stray: Double -> nat
    var captures: seq<(nat, Members)>
    var annotations: seq<Members>
    var samples: nat
    var overflowed: bool

    ghost function Contents(): Doc
      reads this
    {
      Doc(captures, annotations, overflowed)
    }

    ghost predicate Valid()
      reads this
    {
      WellFormed(Contents())
    }

    constructor (info: Info, stray: Double -> nat)
      ensures Valid() && Contents() == Initial(info) && samples == 0
      ensures this.info == info && this.stray == stray
    {
      this.info := info;
      this.stray := stray;
      var first := Put(BytesLess, [], KEY_SAMPLE_START, "0");
      if info.centerFreq.Finite? {
        first := Put(BytesLess, first, KEY_FREQUENCY, NumberTextOf(info.centerFreq));
      }
      captures, annotations, samples, overflowed := [(0, first)], [], 0, false;
      InitialWellFormed(info);
    }

    /** merge_dict() */
    static method MergeDict(into: Members, value: Pmt) returns (merged: Members)
      ensures merged == Merged(into, value)
    {
      merged := into;
      if !value.Dict? { return; }
      for i := 0 to |value.items|
        invariant merged == MergedItems(into, value.items[..i])
      {
        assert value.items[..i + 1][..i] == value.items[..i];
        var item := value.items[i];
        if IsMember(item) {
          var text := PmtToJson(item.cdr);
          merged := Put(BytesLess, merged, item.car.name, text);
        }
      }
      assert value.items[..|value.items|] == value.items;
    }

    /** A tag that opens or describes the capture at its offset. */
    method DescribeCapture(tag: Tag) returns (thrown: bool)
      requires KindOf(tag.key) == OfCapture
      modifies this`captures
      ensures Contents() == Folded(old(Contents()), tag, stray)
      ensures thrown <==> Throws(tag, stray)
    {
      thrown := false;
      var capture := ObjectAt(captures, tag.offset);
      if tag.key.name == TAG_CAPTURE {
        capture := MergeDict(capture, tag.value);
        capture := Put(BytesLess, capture, KEY_SAMPLE_START, Decimal(tag.offset));
      } else {
        capture := Put(BytesLess, capture, KEY_SAMPLE_START, Decimal(tag.offset));
        if tag.key.name == TAG_RX_FREQ {
          if IsNumeric(tag.value) {
            var x := ToDouble(tag.value);
            if x.None? {
              thrown := true;
            } else {
              capture := Put(BytesLess, capture, KEY_FREQUENCY, NumberTextOf(x.value));
            }
          }
        } else {
          var stamp := RxTimeStamp(tag.value, stray);
          if stamp.None? {
            thrown := true;
          } else if stamp.value != "" {
            var text := JsonEscape(stamp.value);
            capture := Put(BytesLess, capture, KEY_DATETIME, text);
          }
        }
      }
      captures := Put(NatLess, captures, tag.offset, capture);
    }

    /** A tag that is, or becomes, an annotation. */
    method Annotate(tag: Tag)
      requires KindOf(tag.key) == OfAnnotation
      modifies this`annotations, this`overflowed
      ensures Contents() == Folded(old(Contents()), tag, stray)
    {
      if |annotations| >= MAX_ANNOTATIONS {
        overflowed := true;
        return;
      }
      var annotation: Members := [];
      if tag.key.name == TAG_ANNOTATION {
        annotation := MergeDict(annotation, tag.value);
        annotation := Put(BytesLess, annotation, KEY_SAMPLE_START, Decimal(tag.offset));
      } else {
        annotation := Put(BytesLess, annotation, KEY_SAMPLE_START, Decimal(tag.offset));
        annotation := Put(BytesLess, annotation, KEY_SAMPLE_COUNT, "1");
        var caption := JsonEscape(tag.key.name);
        annotation := Put(BytesLess, annotation, KEY_LABEL, caption);
        var text := PmtToJson(tag.value);
        annotation := Put(BytesLess, annotation, KEY_TAG_VALUE, text);
      }
      annotations := annotations + [annotation];
    }

    /** add_tag() */
    method AddTag(tag: Tag) returns (thrown: bool)
      requires Valid()
      modifies this`captures, this`annotations, this`overflowed
      ensures Valid() && Contents() == Folded(old(Contents()), tag, stray)
      ensures thrown <==> Throws(tag, stray)
    {
      thrown := false;
      FoldedWellFormed(Contents(), tag, stray);
      if !tag.key.Symbol? { return; }
      var name := tag.key.name;
      if name == TAG_CAPTURE || name == TAG_RX_FREQ || name == TAG_RX_TIME {
        thrown := DescribeCapture(tag);
      } else if name != TAG_RX_RATE {
        Annotate(tag);
      }
    }

    method SetSampleCount(count: nat)
      modifies this`samples
      ensures samples == count && Contents() == old(Contents())
    {
      samples := count;
    }

    /** document() */
    method Document() returns (out: string)
      requires Valid()
      ensures out == DocumentText(info, Contents(), samples)
      ensures Parse(out) == if DocUtf8(info, Contents()) then Got(DocumentValue(info, Contents(), samples), "") else Stop
    {
      var global := GatherGlobal(info, samples);
      var globalText := JoinMembers(global, ": ", ",\n    ");
      globalText := "{" + ("\n    " + (globalText + ("\n  " + "}")));
      var capturesText := EncodeLines(Segments(captures));
      var annotationsText := EncodeLines(annotations);
      var body := JoinMembers([("global", globalText),
                               ("captures", "[" + capturesText + "\n  ]"),
                               ("annotations", "[" + annotationsText + "\n  ]")], ": ", ",\n  ");
      out := "{" + ("\n  " + (body + ("\n" + "}"))) + "\n";
      DocumentParses(info, Contents(), samples);
    }
  }
}
