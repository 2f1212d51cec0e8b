/**
 A tag's value as JSON text: the recursive printer of sigmf_tags.hpp, and the
 JSON value each tag value stands for.
 */
module SigmfJson {
  import opened Json
  import opened JsonText
  import opened JsonUtf8
  import opened OrderedMap
  import opened Sequences
  import opened Unicode
  import opened Wrappers

  type NumberText = s: string | IsNumber(s) witness "0"

  /** A C++ double: its value and its %.17g text, or an infinity or NaN. */
  datatype Double = Finite(value: real, text: NumberText) | Infinite(negative: bool) | NaN

  /**
   A polymorphic value as the printer tells them apart.  `near` is the double an
   integer converts to; `printed` is pmt's own printed form.
   */
  datatype Pmt =
    | Nil
    | Boolean(b: bool)
    | Symbol(name: string)
    | UInt64(n: nat, near: Double)
    | Integer(i: int, near: Double)
    | Real(x: Double)
    | Complex(re: Double, im: Double)
    | Uniform(elements: seq<Double>)
    | OtherUniform(printed: string)
    | Vector(elems: seq<Pmt>)
    | Dict(items: seq<Pmt>)
    | Pair(car: Pmt, cdr: Pmt)
    | Other(printed: string)

  // ---- the printer ------------------------------------------------------------------

  function NumberTextOf(d: Double): (s: string)
    ensures s != ""
  {
    match d
    case Finite(_, text) => text
    case _ => "null"
  }

  function NumberTexts(ds: seq<Double>): (texts: seq<string>)
    ensures |texts| == |ds|
  {
    if ds == [] then [] else NumberTexts(ds[..|ds| - 1]) + [NumberTextOf(ds[|ds| - 1])]
  }

  function PmtText(v: Pmt): string
    decreases v, 1
  {
    match v
    case Nil => "null"
    case Boolean(b) => if b then "true" else "false"
    case Symbol(name) => Escaped(name)
    case UInt64(n, _) => Decimal(n)
    case Integer(i, _) => DecimalInt(i)
    case Real(x) => NumberTextOf(x)
    case Complex(re, im) => ObjectText([("real", NumberTextOf(re)), ("imag", NumberTextOf(im))], "", ":", ",", "")
    case Uniform(elements) => ArrayText(NumberTexts(elements), "", ",", "")
    case OtherUniform(printed) => Escaped(printed)
    case Vector(elems) => ArrayText(PmtTexts(elems), "", ",", "")
    case Dict(items) => ObjectText(DictTexts(items), "", ":", ",", "")
    case Pair(car, cdr) => ArrayText([PmtText(car), PmtText(cdr)], "", ",", "")
    case Other(printed) => Escaped(printed)
  }

  function PmtTexts(elems: seq<Pmt>): (texts: seq<string>)
    ensures |texts| == |elems|
    decreases elems, 0
  {
    if elems == [] then [] else PmtTexts(elems[..|elems| - 1]) + [PmtText(elems[|elems| - 1])]
  }

  /** An item the dictionary loop uses: a pair whose key is a symbol. */
  predicate IsMember(item: Pmt) {
    item.Pair? && item.car.Symbol?
  }

  /** The loop over the items: a later writer of a key replaces an earlier one. */
  function DictTexts(items: seq<Pmt>): seq<(string, string)>
    decreases items, 0
  {
    if items == [] then []
    else
      var item := items[|items| - 1];
      var before := DictTexts(items[..|items| - 1]);
      if IsMember(item) then
        assert item.cdr < item;
        Put(BytesLess, before, item.car.name, PmtText(item.cdr))
      else before
  }

  // ---- what the text stands for ---------------------------------------------------------

  function NumberValue(d: Double): Value {
    match d
    case Finite(_, text) => Number(text)
    case _ => Null
  }

  function NumberValues(ds: seq<Double>): (values: seq<Value>)
    ensures |values| == |ds|
    ensures forall i :: 0 <= i < |ds| ==> values[i] == NumberValue(ds[i])
  {
    if ds == [] then [] else NumberValues(ds[..|ds| - 1]) + [NumberValue(ds[|ds| - 1])]
  }

  function Denoted(v: Pmt): Value
    decreases v, 1
  {
    match v
    case Nil => Null
    case Boolean(b) => Bool(b)
    case Symbol(name) => String(name)
    case UInt64(n, _) => Number(Decimal(n))
    case Integer(i, _) => Number(DecimalInt(i))
    case Real(x) => NumberValue(x)
    case Complex(re, im) => Object([("real", NumberValue(re)), ("imag", NumberValue(im))])
    case Uniform(elements) => Array(NumberValues(elements))
    case OtherUniform(printed) => String(printed)
    case Vector(elems) => Array(DenotedAll(elems))
    case Dict(items) => Object(DictValues(items))
    case Pair(car, cdr) => Array([Denoted(car), Denoted(cdr)])
    case Other(printed) => String(printed)
  }

  function DenotedAll(elems: seq<Pmt>): (values: seq<Value>)
    ensures |values| == |elems|
    ensures forall i :: 0 <= i < |elems| ==> values[i] == Denoted(elems[i])
    decreases elems, 0
  {
    if elems == [] then [] else DenotedAll(elems[..|elems| - 1]) + [Denoted(elems[|elems| - 1])]
  }

  function DictValues(items: seq<Pmt>): seq<(string, Value)>
    decreases items, 0
  {
    if items == [] then []
    else
      var item := items[|items| - 1];
      var before := DictValues(items[..|items| - 1]);
      if IsMember(item) then
        assert item.cdr < item;
        Put(BytesLess, before, item.car.name, Denoted(item.cdr))
      else before
  }

  /** The value of the last item that writes a key. */
  function LastFor(items: seq<Pmt>, key: string): Option<Pmt> {
    if items == [] then None
    else
      var item := items[|items| - 1];
      if IsMember(item) && item.car.name == key then Some(item.cdr)
      else LastFor(items[..|items| - 1], key)
  }

  lemma {:induction false} LastIndex(items: seq<Pmt>, key: string) returns (i: nat)
    requires LastFor(items, key).Some?
    ensures i < |items| && IsMember(items[i]) && items[i].car.name == key && items[i].cdr == LastFor(items, key).value
  {
    var last := items[|items| - 1];
    if IsMember(last) && last.car.name == key {
      i := |items| - 1;
    } else {
      i := LastIndex(items[..|items| - 1], key);
    }
  }

  /** It is the value of the last pair with that symbol for its key, and of nothing else. */
  lemma {:induction false} LastForIff(items: seq<Pmt>, key: string, v: Pmt)
    ensures LastFor(items, key) == Some(v)
       <==> exists i :: 0 <= i < |items| && items[i] == Pair(Symbol(key), v)
                        && forall j :: i < j < |items| ==> !(items[j].Pair? && items[j].car == Symbol(key))
  {
    if items != [] {
      var n := |items| - 1;
      var front := items[..n];
      LastForIff(front, key, v);
      if items[n].Pair? && items[n].car == Symbol(key) {
        assert items[n].car.name == key;
        if items[n].cdr == v { assert items[n] == Pair(Symbol(key), v); }
      } else {
        if LastFor(front, key) == Some(v) {
          var i :| 0 <= i < n && front[i] == Pair(Symbol(key), v)
                   && forall j :: i < j < n ==> !(front[j].Pair? && front[j].car == Symbol(key));
          assert items[i] == front[i];
        }
        if i :| 0 <= i < |items| && items[i] == Pair(Symbol(key), v)
                && forall j :: i < j < |items| ==> !(items[j].Pair? && items[j].car == Symbol(key)) {
          assert i < n && front[i] == items[i];
        }
      }
    }
  }

  lemma LastIsInside(items: seq<Pmt>, key: string)
    requires LastFor(items, key).Some?
    ensures LastFor(items, key).value < Dict(items)
  {
    var i := LastIndex(items, key);
    assert items[i].cdr < items[i] < Dict(items);
  }

  /** The members come out in strict key order, each with its last writer's value. */
  lemma {:induction false} DictMeaning(items: seq<Pmt>, key: string)
    ensures Ascending(BytesLess, DictValues(items))
    ensures Get(DictValues(items), key)
         == match LastFor(items, key) case None => None case Some(v) => Some(Denoted(v))
  {
    OrdersHold();
    if items != [] {
      var front, item := items[..|items| - 1], items[|items| - 1];
      DictMeaning(front, key);
      if IsMember(item) {
        PutAscending(BytesLess, DictValues(front), item.car.name, Denoted(item.cdr));
        PutGet(BytesLess, DictValues(front), item.car.name, Denoted(item.cdr), key);
      }
    }
  }

  lemma {:induction false} DictTextMeaning(items: seq<Pmt>, key: string)
    ensures Ascending(BytesLess, DictTexts(items))
    ensures Get(DictTexts(items), key)
         == match LastFor(items, key) case None => None case Some(v) => Some(PmtText(v))
  {
    OrdersHold();
    if items != [] {
      var front, item := items[..|items| - 1], items[|items| - 1];
      DictTextMeaning(front, key);
      if IsMember(item) {
        PutAscending(BytesLess, DictTexts(front), item.car.name, PmtText(item.cdr));
        PutGet(BytesLess, DictTexts(front), item.car.name, PmtText(item.cdr), key);
      }
    }
  }

  /** One dictionary serializes to one byte sequence, however it was built up. */
  lemma DictCanonical(a: seq<Pmt>, b: seq<Pmt>)
    requires forall key :: LastFor(a, key) == LastFor(b, key)
    ensures PmtText(Dict(a)) == PmtText(Dict(b))
  {
    OrdersHold();
    DictTextMeaning(a, "");
    DictTextMeaning(b, "");
    forall key
      ensures Get(DictTexts(a), key) == Get(DictTexts(b), key)
    {
      DictTextMeaning(a, key);
      DictTextMeaning(b, key);
      assert LastFor(a, key) == LastFor(b, key);
    }
    SameContents(BytesLess, DictTexts(a), DictTexts(b));
  }

  // ---- the text reads back as what it stands for -----------------------------------------

  ghost predicate Faithful(text: string, v: Value) {
    Opens(text) && Reads(text, v)
  }

  lemma NumberFaithful(d: Double)
    ensures Faithful(NumberTextOf(d), NumberValue(d))
  {
    match d {
      case Finite(_, text) => NumberStarts(text); NumberReads(text);
      case _ => LiteralsRead();
    }
  }

  lemma {:induction false} NumbersFaithful(ds: seq<Double>, i: nat)
    requires i < |ds|
    ensures Faithful(NumberTexts(ds)[i], NumberValues(ds)[i])
  {
    NumberFaithful(ds[|ds| - 1]);
    if i < |ds| - 1 { NumbersFaithful(ds[..|ds| - 1], i); }
  }

  lemma IntegerFaithful(n: int)
    ensures Faithful(DecimalInt(n), Number(DecimalInt(n)))
  {
    DecimalIsNumber(n);
    NumberStarts(DecimalInt(n));
    NumberReads(DecimalInt(n));
  }

  lemma ConsReads(key: string, text: string, v: Value, a: seq<(string, string)>, b: seq<(string, Value)>)
    requires Reads(text, v) && MembersRead(a, b)
    ensures MembersRead([(key, text)] + a, [(key, v)] + b)
  {
  }

  lemma TailReads(a: seq<(string, string)>, b: seq<(string, Value)>)
    requires MembersRead(a, b) && a != []
    ensures a[0].0 == b[0].0 && Reads(a[0].1, b[0].1) && MembersRead(a[1..], b[1..])
  {
  }

  lemma {:induction false} PutReads(a: seq<(string, string)>, b: seq<(string, Value)>, k: string, text: string, v: Value)
    requires MembersRead(a, b) && Reads(text, v)
    ensures MembersRead(Put(BytesLess, a, k, text), Put(BytesLess, b, k, v))
  {
    if a == [] {
      ConsReads(k, text, v, a, b);
      assert [(k, text)] + a == [(k, text)] && [(k, v)] + b == [(k, v)];
    } else {
      TailReads(a, b);
      if a[0].0 == k {
        ConsReads(k, text, v, a[1..], b[1..]);
      } else if BytesLess(k, a[0].0) {
        ConsReads(k, text, v, a, b);
      } else {
        PutReads(a[1..], b[1..], k, text, v);
        ConsReads(a[0].0, a[0].1, b[0].1, Put(BytesLess, a[1..], k, text), Put(BytesLess, b[1..], k, v));
      }
    }
  }

  /** For every value: its text reads, wherever it stands, as exactly its denotation. */
  lemma {:induction false} PmtFaithful(v: Pmt)
    ensures Faithful(PmtText(v), Denoted(v))
    decreases v, 1
  {
    match v
    case Nil => LiteralsRead();
    case Boolean(_) => LiteralsRead();
    case Symbol(name) => StringReads(name);
    case UInt64(n, _) => IntegerFaithful(n);
    case Integer(i, _) => IntegerFaithful(i);
    case Real(x) => NumberFaithful(x);
    case Complex(re, im) => ComplexFaithful(re, im);
    case Uniform(ds) => UniformFaithful(ds);
    case OtherUniform(printed) => StringReads(printed);
    case Vector(elems) => VectorFaithful(elems);
    case Dict(items) =>
      DictFaithful(items);
      ObjectReads(DictTexts(items), DictValues(items), "", ":", ",", "");
    case Pair(car, cdr) =>
      PmtFaithful(car);
      PmtFaithful(cdr);
      PairFaithful(car, cdr);
    case Other(printed) => StringReads(printed);
  }

  lemma {:induction false} VectorFaithful(elems: seq<Pmt>)
    ensures Faithful(PmtText(Vector(elems)), Denoted(Vector(elems)))
    decreases elems, 1
  {
    forall i | 0 <= i < |elems|
      ensures Faithful(PmtTexts(elems)[i], DenotedAll(elems)[i])
    {
      PmtsFaithful(elems, i);
    }
    ListFaithful(PmtTexts(elems), DenotedAll(elems));
  }

  lemma ListFaithful(texts: seq<string>, values: seq<Value>)
    requires |texts| == |values| && forall i :: 0 <= i < |texts| ==> Faithful(texts[i], values[i])
    ensures Faithful(ArrayText(texts, "", ",", ""), Array(values))
  {
    ArrayReads(texts, values, "", ",", "");
  }

  lemma PairFaithful(car: Pmt, cdr: Pmt)
    requires Faithful(PmtText(car), Denoted(car)) && Faithful(PmtText(cdr), Denoted(cdr))
    ensures Faithful(PmtText(Pair(car, cdr)), Denoted(Pair(car, cdr)))
  {
    ListFaithful([PmtText(car), PmtText(cdr)], [Denoted(car), Denoted(cdr)]);
  }

  lemma {:induction false} PmtsFaithful(elems: seq<Pmt>, i: nat)
    requires i < |elems|
    ensures Faithful(PmtTexts(elems)[i], DenotedAll(elems)[i])
    decreases elems, 0
  {
    if i < |elems| - 1 {
      PmtsFaithful(elems[..|elems| - 1], i);
    } else {
      PmtFaithful(elems[i]);
    }
  }

  lemma {:induction false} DictFaithful(items: seq<Pmt>)
    ensures MembersRead(DictTexts(items), DictValues(items))
    decreases items, 0
  {
    if items != [] {
      var front, item := items[..|items| - 1], items[|items| - 1];
      DictFaithful(front);
      if IsMember(item) {
        assert item.cdr < item;
        PmtFaithful(item.cdr);
        PutReads(DictTexts(front), DictValues(front), item.car.name, PmtText(item.cdr), Denoted(item.cdr));
      }
    }
  }

  lemma ComplexFaithful(re: Double, im: Double)
    ensures Faithful(PmtText(Complex(re, im)), Denoted(Complex(re, im)))
  {
    var encoded := [("real", NumberTextOf(re)), ("imag", NumberTextOf(im))];
    var members := [("real", NumberValue(re)), ("imag", NumberValue(im))];
    NumberFaithful(re);
    NumberFaithful(im);
    assert MembersRead(encoded, members);
    ObjectReads(encoded, members, "", ":", ",", "");
    ObjectOpensText(encoded, "", ":", ",", "");
  }

  lemma UniformFaithful(ds: seq<Double>)
    ensures Faithful(PmtText(Uniform(ds)), Denoted(Uniform(ds)))
  {
    forall i | 0 <= i < |ds|
      ensures Faithful(NumberTexts(ds)[i], NumberValues(ds)[i])
    {
      NumbersFaithful(ds, i);
    }
    ListFaithful(NumberTexts(ds), NumberValues(ds));
  }

  // ---- the text is UTF-8 when its strings are ----------------------------------------------

  /** Every string the value prints is well-formed UTF-8; replaced members are not printed. */
  ghost predicate PrintsUtf8(v: Pmt) {
    match v
    case Symbol(name) => IsUtf8(name)
    case OtherUniform(printed) => IsUtf8(printed)
    case Other(printed) => IsUtf8(printed)
    case Vector(elems) => forall i :: 0 <= i < |elems| ==> PrintsUtf8(elems[i])
    case Dict(items) =>
      forall key :: LastFor(items, key).Some? ==>
        IsUtf8(key) && (LastIsInside(items, key); PrintsUtf8(LastFor(items, key).value))
    case Pair(car, cdr) => PrintsUtf8(car) && PrintsUtf8(cdr)
    case _ => true
  }

  lemma NumberUtf8(d: Double)
    ensures IsUtf8(NumberTextOf(d))
  {
    if d.Finite? { NumberIsAscii(d.text); }
    AsciiIsUtf8(NumberTextOf(d));
  }

  lemma IntegerUtf8(n: int)
    ensures IsUtf8(DecimalInt(n))
  {
    DecimalIsNumber(n);
    NumberIsAscii(DecimalInt(n));
    AsciiIsUtf8(DecimalInt(n));
  }

  lemma {:induction false} NumbersUtf8(ds: seq<Double>)
    ensures AllUtf8(NumberTexts(ds))
  {
    if ds != [] {
      NumbersUtf8(ds[..|ds| - 1]);
      NumberUtf8(ds[|ds| - 1]);
    }
  }

  lemma ComplexUtf8(re: Double, im: Double)
    ensures IsUtf8(PmtText(Complex(re, im)))
  {
    TwoDoublesUtf8("real", re, "imag", im, PmtText(Complex(re, im)));
  }

  lemma TwoDoublesUtf8(a: string, x: Double, b: string, y: Double, text: string)
    requires AllAscii(a) && AllAscii(b)
    requires text == ObjectText([(a, NumberTextOf(x)), (b, NumberTextOf(y))], "", ":", ",", "")
    ensures IsUtf8(text)
  {
    AsciiIsUtf8(a);
    AsciiIsUtf8(b);
    NumberUtf8(x);
    NumberUtf8(y);
    TwoMembersUtf8((a, NumberTextOf(x)), (b, NumberTextOf(y)));
  }

  lemma TwoMembersUtf8(m: (string, string), n: (string, string))
    requires MemberUtf8(m) && MemberUtf8(n)
    ensures IsUtf8(ObjectText([m, n], "", ":", ",", ""))
  {
    ObjectUtf8([m, n], "", ":", ",", "");
  }

  lemma {:induction false} PmtTextsAt(elems: seq<Pmt>, i: nat)
    requires i < |elems|
    ensures PmtTexts(elems)[i] == PmtText(elems[i])
  {
    if i < |elems| - 1 { PmtTextsAt(elems[..|elems| - 1], i); }
  }

  /** The printed text is well-formed UTF-8 exactly when every string printed is. */
  lemma {:induction false} TextUtf8(v: Pmt)
    ensures IsUtf8(PmtText(v)) <==> PrintsUtf8(v)
    decreases v
  {
    match v
    case Nil => AsciiIsUtf8("null");
    case Boolean(b) => AsciiIsUtf8(if b then "true" else "false");
    case Symbol(name) => EscapedUtf8(name);
    case UInt64(n, _) => IntegerUtf8(n);
    case Integer(i, _) => IntegerUtf8(i);
    case Real(x) => NumberUtf8(x);
    case Complex(re, im) => ComplexUtf8(re, im);
    case Uniform(ds) =>
      NumbersUtf8(ds);
      ArrayUtf8(NumberTexts(ds), "", ",", "");
    case OtherUniform(printed) => EscapedUtf8(printed);
    case Vector(elems) =>
      forall i | 0 <= i < |elems|
        ensures IsUtf8(PmtText(elems[i])) <==> PrintsUtf8(elems[i])
      {
        TextUtf8(elems[i]);
      }
      VectorUtf8(elems);
    case Dict(items) =>
      forall key | LastFor(items, key).Some?
        ensures IsUtf8(PmtText(LastFor(items, key).value)) <==> PrintsUtf8(LastFor(items, key).value)
      {
        LastIsInside(items, key);
        TextUtf8(LastFor(items, key).value);
      }
      DictUtf8(items);
    case Pair(car, cdr) =>
      TextUtf8(car);
      TextUtf8(cdr);
      PairUtf8(PmtText(car), PmtText(cdr));
    case Other(printed) => EscapedUtf8(printed);
  }

  lemma VectorUtf8(elems: seq<Pmt>)
    requires forall i :: 0 <= i < |elems| ==> (IsUtf8(PmtText(elems[i])) <==> PrintsUtf8(elems[i]))
    ensures IsUtf8(PmtText(Vector(elems))) <==> PrintsUtf8(Vector(elems))
  {
    var texts := PmtTexts(elems);
    ArrayUtf8(texts, "", ",", "");
    forall i | 0 <= i < |elems|
      ensures IsUtf8(texts[i]) <==> PrintsUtf8(elems[i])
    {
      PmtTextsAt(elems, i);
    }
  }

  lemma PairUtf8(first: string, second: string)
    ensures IsUtf8(ArrayText([first, second], "", ",", "")) <==> IsUtf8(first) && IsUtf8(second)
  {
    var texts := [first, second];
    ArrayUtf8(texts, "", ",", "");
    assert AllUtf8(texts) <==> IsUtf8(texts[0]) && IsUtf8(texts[1]);
  }

  lemma DictUtf8(items: seq<Pmt>)
    requires forall key :: LastFor(items, key).Some? ==>
      (IsUtf8(PmtText(LastFor(items, key).value)) <==> PrintsUtf8(LastFor(items, key).value))
    ensures IsUtf8(PmtText(Dict(items))) <==> PrintsUtf8(Dict(items))
  {
    var members := DictTexts(items);
    ObjectUtf8(members, "", ":", ",", "");
    DictTextMeaning(items, "");
    forall i | 0 <= i < |members|
      ensures LastFor(items, members[i].0).Some? && members[i].1 == PmtText(LastFor(items, members[i].0).value)
    {
      GetAt(members, i);
      DictTextMeaning(items, members[i].0);
    }
    forall key | LastFor(items, key).Some?
      ensures exists i :: 0 <= i < |members| && members[i] == (key, PmtText(LastFor(items, key).value))
    {
      DictTextMeaning(items, key);
      var i := GetIndex(members, key);
    }
    if MembersUtf8(members) {
      forall key | LastFor(items, key).Some?
        ensures IsUtf8(key) && PrintsUtf8(LastFor(items, key).value)
      {
        var i :| 0 <= i < |members| && members[i] == (key, PmtText(LastFor(items, key).value));
        assert MemberUtf8(members[i]);
      }
    }
    if PrintsUtf8(Dict(items)) {
      assert forall i :: 0 <= i < |members| ==> MemberUtf8(members[i]);
    }
  }

  /** The printer and the grammar undo each other, for every value whose strings are UTF-8, and no other. */
  lemma PmtRoundTrip(v: Pmt)
    ensures Parse(PmtText(v)) == if PrintsUtf8(v) then Got(Denoted(v), "") else Stop
  {
    PmtFaithful(v);
    TextUtf8(v);
    WholeTextParses(PmtText(v), Denoted(v), "");
    assert PmtText(v) + "" == PmtText(v);
  }

  // ---- the loops that build the text ---------------------------------------------------------

  /** json_escape() */
  method JsonEscape(text: string) returns (out: string)
    ensures out == Escaped(text)
  {
    out := "\"";
    for i := 0 to |text|
      invariant out == "\"" + EscapeChars(text[..i])
    {
      EscapeCharsAppend(text[..i], text[i]);
      Regroup("\"", EscapeChars(text[..i]), EscapeChar(text[i]));
      assert text[..i + 1] == text[..i] + [text[i]];
      out := out + EscapeChar(text[i]);
    }
    assert text[..|text|] == text;
    out := out + "\"";
  }

  /** A number's text is never empty, so a body is empty only before the first. */
  lemma NumbersJoin(ds: seq<Double>, n: nat)
    requires n < |ds|
    ensures Joined(NumberTexts(ds[..n + 1]), ",") != ""
    ensures Joined(NumberTexts(ds[..n + 1]), ",")
         == if n == 0 then NumberTextOf(ds[0]) else Joined(NumberTexts(ds[..n]), ",") + "," + NumberTextOf(ds[n])
  {
    assert ds[..n + 1][..n] == ds[..n];
    JoinedAppend(NumberTexts(ds[..n]), ",", NumberTextOf(ds[n]));
  }

  /** uniform_vector_json(): the comma goes in only after a non-empty body. */
  method UniformVectorJson(elements: seq<Double>) returns (out: string)
    ensures out == PmtText(Uniform(elements))
  {
    var body := "";
    for i := 0 to |elements|
      invariant body == Joined(NumberTexts(elements[..i]), ",")
      invariant i > 0 ==> body != ""
    {
      NumbersJoin(elements, i);
      if body != "" { body := body + ","; }
      body := body + NumberTextOf(elements[i]);
    }
    assert elements[..|elements|] == elements;
    out := "[" + body + "]";
    Bare("[", body, "]");
  }

  lemma {:induction false} MemberTextsAppend(members: seq<(string, string)>, m: (string, string), colon: string)
    ensures MemberTexts(members + [m], colon) == MemberTexts(members, colon) + [MemberText(m.0, colon, m.1)]
  {
    if members == [] {
      assert (members + [m])[1..] == [];
    } else {
      MemberTextsAppend(members[1..], m, colon);
      assert (members + [m])[1..] == members[1..] + [m];
    }
  }

  /** A member's text is never empty, so a body is empty only before the first. */
  lemma MembersJoin(members: seq<(string, string)>, n: nat, colon: string, sep: string)
    requires n < |members|
    ensures var text := MemberText(members[n].0, colon, members[n].1);
      Joined(MemberTexts(members[..n + 1], colon), sep)
        == if n == 0 then text else Joined(MemberTexts(members[..n], colon), sep) + sep + text
  {
    MemberTextsAppend(members[..n], members[n], colon);
    assert members[..n + 1] == members[..n] + [members[n]];
    JoinedAppend(MemberTexts(members[..n], colon), sep, MemberText(members[n].0, colon, members[n].1));
  }

  /** The members of one object, joined the way both object printers do it. */
  method JoinMembers(members: seq<(string, string)>, colon: string, sep: string) returns (body: string)
    ensures body == Joined(MemberTexts(members, colon), sep)
  {
    body := "";
    for i := 0 to |members|
      invariant body == Joined(MemberTexts(members[..i], colon), sep)
      invariant i > 0 ==> body != ""
    {
      MembersJoin(members, i, colon, sep);
      if body != "" { body := body + sep; }
      var key := JsonEscape(members[i].0);
      body := body + (key + colon + members[i].1);
    }
    assert members[..|members|] == members;
  }

  /** pmt_to_json() */
  method PmtToJson(v: Pmt) returns (out: string)
    ensures out == PmtText(v)
    decreases v
  {
    match v
    case Nil => out := "null";
    case Boolean(b) => out := if b then "true" else "false";
    case Symbol(name) => out := JsonEscape(name);
    case UInt64(n, _) => out := Decimal(n);
    case Integer(i, _) => out := DecimalInt(i);
    case Real(x) => out := NumberTextOf(x);
    case Complex(re, im) =>
      out := "{" + ((Quoted("real") + ":" + NumberTextOf(re)) + "," + (Quoted("imag") + ":" + NumberTextOf(im))) + "}";
      ComplexSpelling(re, im);
    case Uniform(elements) => out := UniformVectorJson(elements);
    case OtherUniform(printed) => out := JsonEscape(printed);
    case Vector(elems) =>
      var body := VectorBody(elems);
      out := "[" + body + "]";
      Bare("[", body, "]");
    case Dict(items) =>
      var members := DictMembers(items);
      var body := JoinMembers(members, ":", ",");
      out := "{" + body + "}";
      Bare("{", body, "}");
    case Pair(car, cdr) =>
      var first := PmtToJson(car);
      var second := PmtToJson(cdr);
      out := "[" + first + "," + second + "]";
      TwoItems(first, second);
    case Other(printed) => out := JsonEscape(printed);
  }

  lemma Bare(open: string, body: string, close: string)
    ensures open + ("" + (body + ("" + close))) == open + body + close
  {
  }

  lemma JoinedTwo(texts: seq<string>, sep: string)
    requires |texts| == 2
    ensures Joined(texts, sep) == texts[0] + sep + texts[1]
  {
    assert texts[1..] == [texts[1]];
    assert Joined(texts[1..], sep) == texts[1];
  }

  lemma TwoItems(first: string, second: string)
    ensures ArrayText([first, second], "", ",", "") == "[" + first + "," + second + "]"
  {
    JoinedTwo([first, second], ",");
    var body := first + "," + second;
    Bare("[", body, "]");
    assert "[" + body + "]" == "[" + first + "," + second + "]";
  }

  /** The loop over a vector's elements. */
  method VectorBody(elems: seq<Pmt>) returns (body: string)
    ensures body == Joined(PmtTexts(elems), ",")
    decreases elems
  {
    body := "";
    for i := 0 to |elems|
      invariant body == Joined(PmtTexts(elems[..i]), ",")
    {
      if i > 0 { body := body + ","; }
      var text := PmtToJson(elems[i]);
      assert elems[..i + 1][..i] == elems[..i];
      JoinedAppend(PmtTexts(elems[..i]), ",", text);
      body := body + text;
    }
    assert elems[..|elems|] == elems;
  }

  /** The loop over a dictionary's items, into a sorted map of encoded values. */
  method DictMembers(items: seq<Pmt>) returns (members: seq<(string, string)>)
    ensures members == DictTexts(items)
    decreases items
  {
    members := [];
    for i := 0 to |items|
      invariant members == DictTexts(items[..i])
    {
      assert items[..i + 1][..i] == items[..i];
      if IsMember(items[i]) {
        assert items[i].cdr < items[i];
        var text := PmtToJson(items[i].cdr);
        members := Put(BytesLess, members, items[i].car.name, text);
      }
    }
    assert items[..|items|] == items;
  }

  lemma ComplexSpelling(re: Double, im: Double)
    ensures "{" + ((Quoted("real") + ":" + NumberTextOf(re)) + "," + (Quoted("imag") + ":" + NumberTextOf(im))) + "}"
         == PmtText(Complex(re, im))
  {
    var encoded := [("real", NumberTextOf(re)), ("imag", NumberTextOf(im))];
    PlainEscapes("real");
    PlainEscapes("imag");
    TwoMembers(encoded, ":");
  }

  lemma TwoMembers(encoded: seq<(string, string)>, colon: string)
    requires |encoded| == 2
    ensures ObjectText(encoded, "", colon, ",", "")
         == "{" + (MemberText(encoded[0].0, colon, encoded[0].1) + "," + MemberText(encoded[1].0, colon, encoded[1].1)) + "}"
  {
    var texts := MemberTexts(encoded, colon);
    JoinedTwo(texts, ",");
    Bare("{", texts[0] + "," + texts[1], "}");
  }

  function Quoted(name: string): string {
    "\"" + name + "\""
  }

  predicate PlainChars(s: string) {
    s == "" || (' ' <= s[0] && s[0] != '"' && s[0] != '\\' && PlainChars(s[1..]))
  }

  lemma PlainEscapes(s: string)
    requires PlainChars(s)
    ensures Escaped(s) == Quoted(s)
  {
    PlainTail(s);
  }

  lemma {:induction false} PlainTail(s: string)
    requires PlainChars(s)
    ensures EscapeChars(s) == s
  {
    if s != "" {
      PlainTail(s[1..]);
      assert s == [s[0]] + s[1..];
    }
  }
}
