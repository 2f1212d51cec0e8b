/**
 The reading half of the SigMF mapping, json_to_pmt() of sigmf_meta.hpp, and how far
 it undoes the printer of sigmf_tags.hpp.
 */
module JsonPmt {
  import opened Json
  import opened JsonText
  import opened OrderedMap
  import opened SigmfJson
  import opened Unicode
  import opened Wrappers

  const UINT64 := 0x1_0000_0000_0000_0000
  const INT64 := 0x8000_0000_0000_0000
  const LONG := 0x8000_0000

  /** What C++ makes of numbers: the double a text reads as, the one an integer converts to. */
  datatype Machine = Machine(read: string -> Double, near: int -> Double)

  /** The cast to `long`, which has 32 bits under WebAssembly. */
  function CastLong(i: int): (r: int)
    ensures -LONG <= r < LONG
    ensures r == i <==> -LONG <= i < LONG
  {
    (i + LONG) % (2 * LONG) - LONG
  }

  // ---- the reader ---------------------------------------------------------------------

  /** Digits that fit 64 bits are an unsigned number, after a minus a signed one. */
  predicate Unsigned(lexeme: string) {
    lexeme != "" && AllDigits(lexeme) && DecimalValue(lexeme) < UINT64
  }

  predicate Negative(lexeme: string) {
    |lexeme| > 1 && lexeme[0] == '-' && AllDigits(lexeme[1..]) && DecimalValue(lexeme[1..]) <= INT64
  }

  function FromNumber(c: Machine, lexeme: string): Pmt {
    if Unsigned(lexeme) then
      UInt64(DecimalValue(lexeme), c.near(DecimalValue(lexeme)))
    else if Negative(lexeme) then
      var digits: int := DecimalValue(lexeme[1..]);
      var i := CastLong(-digits);
      Integer(i, c.near(i))
    else Real(c.read(lexeme))
  }

  /** json_to_pmt() */
  function FromJson(c: Machine, x: Value): Pmt
    decreases x, 1
  {
    match x
    case Null => Nil
    case Bool(b) => Boolean(b)
    case Number(lexeme) => FromNumber(c, lexeme)
    case String(text) => Symbol(text)
    case Array(items) => Vector(FromAll(c, items))
    case Object(members) => if members == [] then Nil else Dict(Items(FromMembers(c, members)))
  }

  function FromAll(c: Machine, items: seq<Value>): (elems: seq<Pmt>)
    ensures |elems| == |items| && forall i :: 0 <= i < |items| ==> elems[i] == FromJson(c, items[i])
    decreases items, 0
  {
    if items == [] then [] else FromAll(c, items[..|items| - 1]) + [FromJson(c, items[|items| - 1])]
  }

  /** The parsed object: sorted, a later member replacing an earlier one. */
  function FromMembers(c: Machine, members: seq<(string, Value)>): (ms: seq<(string, Pmt)>)
    ensures members != [] ==> ms != []
    decreases members, 0
  {
    if members == [] then []
    else
      var m := members[|members| - 1];
      Put(BytesLess, FromMembers(c, members[..|members| - 1]), m.0, FromMember(c, m))
  }

  function FromMember(c: Machine, m: (string, Value)): Pmt
    decreases m, 2
  {
    assert m.1 < m;
    FromJson(c, m.1)
  }

  /** dict_add() for each key in order: a new key goes in front of those before it. */
  function Items(ms: seq<(string, Pmt)>): (items: seq<Pmt>)
    ensures |items| == |ms|
  {
    if ms == [] then [] else Items(ms[1..]) + [Pair(Symbol(ms[0].0), ms[0].1)]
  }

  // ---- members in order ------------------------------------------------------------------

  function DenotedMembers(ms: seq<(string, Pmt)>): (vs: seq<(string, Value)>)
    ensures |vs| == |ms| && forall i :: 0 <= i < |ms| ==> vs[i] == (ms[i].0, Denoted(ms[i].1))
  {
    if ms == [] then [] else [(ms[0].0, Denoted(ms[0].1))] + DenotedMembers(ms[1..])
  }

  /** Each member where it stands, converted. */
  function Converted(c: Machine, members: seq<(string, Value)>): (ms: seq<(string, Pmt)>)
    ensures |ms| == |members| && forall i :: 0 <= i < |ms| ==> ms[i] == (members[i].0, FromJson(c, members[i].1))
  {
    if members == [] then []
    else Converted(c, members[..|members| - 1]) + [(members[|members| - 1].0, FromJson(c, members[|members| - 1].1))]
  }

  ghost predicate SameKeys<V, W>(a: seq<(string, V)>, b: seq<(string, W)>) {
    |a| == |b| && forall i :: 0 <= i < |a| ==> a[i].0 == b[i].0
  }

  lemma {:induction false} KeysAscend<V, W>(a: seq<(string, V)>, b: seq<(string, W)>)
    requires SameKeys(a, b) && Ascending(BytesLess, a)
    ensures Ascending(BytesLess, b)
  {
    if |a| > 1 { KeysAscend(a[1..], b[1..]); }
  }

  /** A key above all the others is written at the end. */
  lemma {:induction false} PutLast<V>(m: seq<(string, V)>, k: string, v: V)
    requires Ascending(BytesLess, m + [(k, v)])
    ensures Put(BytesLess, m, k, v) == m + [(k, v)]
  {
    OrdersHold();
    if m != [] {
      assert (m + [(k, v)])[1..] == m[1..] + [(k, v)];
      PutLast(m[1..], k, v);
      FirstBelowLast(m + [(k, v)]);
      assert m == [m[0]] + m[1..];
    }
  }

  lemma {:induction false} FromMembersAscend(c: Machine, members: seq<(string, Value)>)
    ensures Ascending(BytesLess, FromMembers(c, members))
  {
    OrdersHold();
    if members != [] {
      var front, m := members[..|members| - 1], members[|members| - 1];
      FromMembersAscend(c, front);
      PutAscending(BytesLess, FromMembers(c, front), m.0, FromJson(c, m.1));
    }
  }

  /** Members already in order stay where they are. */
  lemma {:induction false} FromOrdered(c: Machine, members: seq<(string, Value)>)
    requires Ascending(BytesLess, members)
    ensures FromMembers(c, members) == Converted(c, members)
  {
    if members != [] {
      var front, m := members[..|members| - 1], members[|members| - 1];
      FrontAscends(members);
      FromOrdered(c, front);
      KeysAscend(members, Converted(c, members));
      PutLast(Converted(c, front), m.0, FromJson(c, m.1));
    }
  }

  lemma PutFirst<V>(m: seq<(string, V)>, k: string, v: V)
    requires m == [] || (k != m[0].0 && BytesLess(k, m[0].0))
    ensures Put(BytesLess, m, k, v) == [(k, v)] + m
  {
  }

  lemma DictValuesAppend(items: seq<Pmt>, key: string, v: Pmt)
    ensures DictValues(items + [Pair(Symbol(key), v)]) == Put(BytesLess, DictValues(items), key, Denoted(v))
  {
    assert (items + [Pair(Symbol(key), v)])[..|items|] == items;
  }

  /** A dictionary built in key order prints its members in that order. */
  lemma {:induction false} ItemsDenote(ms: seq<(string, Pmt)>)
    requires Ascending(BytesLess, ms)
    ensures DictValues(Items(ms)) == DenotedMembers(ms)
  {
    OrdersHold();
    if ms != [] {
      ItemsDenote(ms[1..]);
      DictValuesAppend(Items(ms[1..]), ms[0].0, ms[0].1);
      PutFirst(DenotedMembers(ms[1..]), ms[0].0, Denoted(ms[0].1));
    }
  }

  // ---- numbers ------------------------------------------------------------------------------

  /** Digits as a number text has them: no zero in front of others. */
  predicate Trimmed(d: string) {
    d != "" && AllDigits(d) && (|d| > 1 ==> d[0] != '0')
  }

  lemma {:induction false} TrimmedPrints(d: string)
    requires Trimmed(d)
    ensures Decimal(DecimalValue(d)) == d
    ensures DecimalValue(d) == 0 <==> d == "0"
  {
    FrontDigits(d);
    var front := d[..|d| - 1];
    assert d == front + [d[|d| - 1]];
    if |d| > 1 { TrimmedPrints(front); }
  }

  lemma NumberTrimmed(s: string)
    requires IsNumber(s) && AllDigits(s)
    ensures Trimmed(s)
  {
    if |s| > 1 { assert IsDigit(s[1..][0]); }
  }

  lemma NegativeTrimmed(s: string)
    requires IsNumber(s) && |s| > 1 && s[0] == '-' && AllDigits(s[1..])
    ensures Trimmed(s[1..])
  {
    if |s| > 2 { assert IsDigit(s[1..][1..][0]); }
  }

  /** The double a text that is no integer reads as prints as that text again. */
  ghost predicate Exact(c: Machine, lexeme: string) {
    && IsNumber(lexeme)
    && (!Unsigned(lexeme) && !Negative(lexeme) ==> c.read(lexeme).Finite? && c.read(lexeme).text == lexeme)
  }

  /** Any number but negative zero and the negative integers below a `long`. */
  predicate NumberStays(lexeme: string) {
    Negative(lexeme) ==> 1 <= DecimalValue(lexeme[1..]) <= LONG
  }

  lemma UnsignedIsPlain(lexeme: string)
    requires Unsigned(lexeme)
    ensures !Negative(lexeme)
  {
  }

  /** An integer prints as a minus and some digits exactly when it is their number, negated and not 0. */
  lemma MinusPrints(i: int, digits: string)
    requires Trimmed(digits)
    ensures DecimalInt(i) == "-" + digits <==> i < 0 && i + DecimalValue(digits) == 0
  {
    TrimmedPrints(digits);
    if i < 0 {
      DecimalReadsBack(-i);
      assert ("-" + Decimal(-i))[1..] == Decimal(-i) && ("-" + digits)[1..] == digits;
    } else {
      DecimalReadsBack(i);
      assert IsDigit(DecimalInt(i)[0]);
    }
  }

  lemma NegativeReturns(lexeme: string, i: int)
    requires IsNumber(lexeme) && Negative(lexeme) && i == CastLong(0 - DecimalValue(lexeme[1..]))
    ensures DecimalInt(i) == lexeme <==> NumberStays(lexeme)
  {
    NegativeTrimmed(lexeme);
    MinusPrints(i, lexeme[1..]);
    assert lexeme == "-" + lexeme[1..];
  }

  lemma UnsignedReturns(lexeme: string)
    requires IsNumber(lexeme) && Unsigned(lexeme)
    ensures Decimal(DecimalValue(lexeme)) == lexeme && NumberStays(lexeme)
  {
    UnsignedIsPlain(lexeme);
    NumberTrimmed(lexeme);
    TrimmedPrints(lexeme);
  }

  lemma NumberReturns(c: Machine, lexeme: string)
    requires Exact(c, lexeme)
    ensures Denoted(FromNumber(c, lexeme)) == Number(lexeme) <==> NumberStays(lexeme)
  {
    if Unsigned(lexeme) {
      UnsignedReturns(lexeme);
    } else if Negative(lexeme) {
      NegativeReturns(lexeme, CastLong(0 - DecimalValue(lexeme[1..])));
    }
  }

  lemma DecimalStays(c: Machine, i: int)
    requires -LONG <= i < UINT64
    ensures Exact(c, DecimalInt(i)) && NumberStays(DecimalInt(i))
  {
    DecimalIsNumber(i);
    if i < 0 {
      DecimalReadsBack(-i);
      assert DecimalInt(i)[1..] == Decimal(-i);
    } else {
      DecimalReadsBack(i);
      UnsignedIsPlain(DecimalInt(i));
    }
  }

  /** After one reading a number stays. */
  lemma NumberSettles(c: Machine, lexeme: string)
    requires Exact(c, lexeme)
    ensures var y := Denoted(FromNumber(c, lexeme)); y.Number? && Exact(c, y.lexeme) && NumberStays(y.lexeme)
  {
    if Unsigned(lexeme) {
      DecimalStays(c, DecimalValue(lexeme));
    } else if Negative(lexeme) {
      DecimalStays(c, CastLong(0 - DecimalValue(lexeme[1..])));
    }
  }

  // ---- which JSON values come back --------------------------------------------------------------

  ghost predicate Canonical(c: Machine, x: Value) {
    match x
    case Number(lexeme) => Exact(c, lexeme)
    case Array(items) => forall i :: 0 <= i < |items| ==> Canonical(c, items[i])
    case Object(members) => forall i :: 0 <= i < |members| ==> CanonicalMember(c, members[i])
    case _ => true
  }

  ghost predicate CanonicalMember(c: Machine, m: (string, Value)) {
    assert m.1 < m;
    Canonical(c, m.1)
  }

  /** Objects hold members in strict key order and at least one; numbers are as above. */
  ghost predicate Stays(x: Value) {
    match x
    case Number(lexeme) => NumberStays(lexeme)
    case Array(items) => forall i :: 0 <= i < |items| ==> Stays(items[i])
    case Object(members) =>
      members != [] && Ascending(BytesLess, members) && forall i :: 0 <= i < |members| ==> MemberStays(members[i])
    case _ => true
  }

  ghost predicate MemberStays(m: (string, Value)) {
    assert m.1 < m;
    Stays(m.1)
  }

  function Back(c: Machine, x: Value): Value {
    Denoted(FromJson(c, x))
  }

  /** The object read and printed again is the same exactly when it is in order and its values are. */
  lemma ObjectReturns(c: Machine, members: seq<(string, Value)>)
    requires members != []
    ensures Back(c, Object(members)) == Object(members)
       <==> Ascending(BytesLess, members) && forall i :: 0 <= i < |members| ==> Back(c, members[i].1) == members[i].1
  {
    var printed := DenotedMembers(FromMembers(c, members));
    ObjectPrints(c, members, printed);
    if Ascending(BytesLess, members) {
      FromOrdered(c, members);
      SameMembers(c, members, printed);
    }
  }

  /** What is printed is in strict key order, whatever was read. */
  lemma ObjectPrints(c: Machine, members: seq<(string, Value)>, printed: seq<(string, Value)>)
    requires members != [] && printed == DenotedMembers(FromMembers(c, members))
    ensures Back(c, Object(members)) == Object(printed) && Ascending(BytesLess, printed)
  {
    FromMembersAscend(c, members);
    ItemsDenote(FromMembers(c, members));
    KeysAscend(FromMembers(c, members), printed);
  }

  lemma SameMembers(c: Machine, members: seq<(string, Value)>, printed: seq<(string, Value)>)
    requires printed == DenotedMembers(Converted(c, members))
    ensures printed == members <==> forall i :: 0 <= i < |members| ==> Back(c, members[i].1) == members[i].1
  {
    forall i | 0 <= i < |members|
      ensures printed[i] == members[i] <==> Back(c, members[i].1) == members[i].1
    {
      assert printed[i] == (members[i].0, Back(c, members[i].1));
      assert members[i] == (members[i].0, members[i].1);
    }
  }

  lemma {:induction false} Returns(c: Machine, x: Value)
    requires Canonical(c, x)
    ensures Back(c, x) == x <==> Stays(x)
    decreases x, 1
  {
    match x
    case Number(lexeme) => NumberReturns(c, lexeme);
    case Array(items) =>
      ItemsReturn(c, items);
      SameItems(c, items);
    case Object(members) =>
      if members != [] {
        MembersReturn(c, members);
        ObjectReturns(c, members);
      }
    case _ =>
  }

  lemma SameItems(c: Machine, items: seq<Value>)
    ensures Back(c, Array(items)) == Array(items) <==> forall i :: 0 <= i < |items| ==> Back(c, items[i]) == items[i]
  {
    var printed := DenotedAll(FromAll(c, items));
    assert forall i :: 0 <= i < |items| ==> printed[i] == Back(c, items[i]);
  }

  lemma {:induction false} ItemsReturn(c: Machine, items: seq<Value>)
    requires forall i :: 0 <= i < |items| ==> Canonical(c, items[i])
    ensures forall i :: 0 <= i < |items| ==> (Back(c, items[i]) == items[i] <==> Stays(items[i]))
    decreases items, 0
  {
    forall i | 0 <= i < |items|
      ensures Back(c, items[i]) == items[i] <==> Stays(items[i])
    {
      Returns(c, items[i]);
    }
  }

  lemma {:induction false} MembersReturn(c: Machine, members: seq<(string, Value)>)
    requires forall i :: 0 <= i < |members| ==> CanonicalMember(c, members[i])
    ensures forall i :: 0 <= i < |members| ==> (Back(c, members[i].1) == members[i].1 <==> MemberStays(members[i]))
    decreases members, 0
  {
    forall i | 0 <= i < |members|
      ensures Back(c, members[i].1) == members[i].1 <==> MemberStays(members[i])
    {
      MemberReturns(c, members[i]);
    }
  }

  lemma {:induction false} MemberReturns(c: Machine, m: (string, Value))
    requires CanonicalMember(c, m)
    ensures Back(c, m.1) == m.1 <==> MemberStays(m)
    decreases m, 2
  {
    assert m.1 < m;
    Returns(c, m.1);
  }

  // ---- one reading settles everything ---------------------------------------------------------------

  ghost predicate Settled(c: Machine, x: Value) {
    Canonical(c, x) && Stays(x)
  }

  ghost predicate SettledMembers(c: Machine, ms: seq<(string, Pmt)>) {
    forall i :: 0 <= i < |ms| ==> Settled(c, Denoted(ms[i].1))
  }

  lemma {:induction false} PutSettled(c: Machine, ms: seq<(string, Pmt)>, k: string, v: Pmt)
    requires SettledMembers(c, ms) && Settled(c, Denoted(v))
    ensures SettledMembers(c, Put(BytesLess, ms, k, v))
  {
    if ms != [] && ms[0].0 != k && !BytesLess(k, ms[0].0) {
      PutSettled(c, ms[1..], k, v);
    }
  }

  lemma {:induction false} Settles(c: Machine, x: Value)
    requires Canonical(c, x)
    ensures Settled(c, Back(c, x))
    decreases x, 1
  {
    match x
    case Number(lexeme) => NumberSettles(c, lexeme);
    case Array(items) =>
      forall i | 0 <= i < |items|
        ensures Settled(c, Back(c, items[i]))
      {
        Settles(c, items[i]);
      }
      ArraySettles(c, items);
    case Object(members) =>
      MembersSettle(c, members);
      if members != [] { ObjectSettles(c, members); }
    case _ =>
  }

  lemma ArraySettles(c: Machine, items: seq<Value>)
    requires forall i :: 0 <= i < |items| ==> Settled(c, Back(c, items[i]))
    ensures Settled(c, Back(c, Array(items)))
  {
    var printed := DenotedAll(FromAll(c, items));
    assert forall i :: 0 <= i < |items| ==> printed[i] == Back(c, items[i]);
  }

  lemma {:induction false} MembersSettle(c: Machine, members: seq<(string, Value)>)
    requires forall i :: 0 <= i < |members| ==> CanonicalMember(c, members[i])
    ensures SettledMembers(c, FromMembers(c, members))
    decreases members, 0
  {
    if members != [] {
      var front, m := members[..|members| - 1], members[|members| - 1];
      MembersSettle(c, front);
      MemberSettles(c, m);
      PutSettled(c, FromMembers(c, front), m.0, FromMember(c, m));
    }
  }

  lemma {:induction false} MemberSettles(c: Machine, m: (string, Value))
    requires CanonicalMember(c, m)
    ensures Settled(c, Denoted(FromMember(c, m)))
    decreases m, 2
  {
    assert m.1 < m;
    Settles(c, m.1);
  }

  lemma ObjectSettles(c: Machine, members: seq<(string, Value)>)
    requires members != [] && SettledMembers(c, FromMembers(c, members))
    ensures Settled(c, Back(c, Object(members)))
  {
    var ms := FromMembers(c, members);
    var printed := DenotedMembers(ms);
    ObjectPrints(c, members, printed);
    forall i | 0 <= i < |printed|
      ensures CanonicalMember(c, printed[i]) && MemberStays(printed[i])
    {
      assert printed[i] == (ms[i].0, Denoted(ms[i].1));
    }
  }

  // ---- which tag values come back ----------------------------------------------------------------

  ghost predicate GenuineDouble(c: Machine, d: Double) {
    d.Finite? ==> c.read(d.text) == d
  }

  /** A value this machine can hold: 17 digits name a double, and integers fit their types. */
  ghost predicate Genuine(c: Machine, v: Pmt) {
    match v
    case UInt64(n, near) => n < UINT64 && near == c.near(n)
    case Integer(i, near) => -LONG <= i < LONG && near == c.near(i)
    case Real(x) => GenuineDouble(c, x)
    case Complex(re, im) => GenuineDouble(c, re) && GenuineDouble(c, im)
    case Uniform(ds) => forall i :: 0 <= i < |ds| ==> GenuineDouble(c, ds[i])
    case Vector(elems) => forall i :: 0 <= i < |elems| ==> Genuine(c, elems[i])
    case Dict(items) => forall i :: 0 <= i < |items| ==> Genuine(c, items[i])
    case Pair(car, cdr) => Genuine(c, car) && Genuine(c, cdr)
    case _ => true
  }

  predicate DoubleStays(d: Double) {
    d.Finite? ==> NumberStays(d.text)
  }

  /**
   No complex number, no dictionary without a symbol for a key, no negative zero and no
   negative whole double below a `long`, in any place that is printed.
   */
  ghost predicate FormKept(v: Pmt) {
    match v
    case Real(x) => DoubleStays(x)
    case Complex(_, _) => false
    case Uniform(ds) => forall i :: 0 <= i < |ds| ==> DoubleStays(ds[i])
    case Vector(elems) => forall i :: 0 <= i < |elems| ==> FormKept(elems[i])
    case Dict(items) =>
      && (exists key :: LastFor(items, key).Some?)
      && (forall key :: LastFor(items, key).Some? ==> (LastIsInside(items, key); FormKept(LastFor(items, key).value)))
    case Pair(car, cdr) => FormKept(car) && FormKept(cdr)
    case _ => true
  }

  lemma NumberValueCanonical(c: Machine, d: Double)
    requires GenuineDouble(c, d)
    ensures Canonical(c, NumberValue(d)) && (Stays(NumberValue(d)) <==> DoubleStays(d))
  {
  }

  lemma {:induction false} GenuineCanonical(c: Machine, v: Pmt)
    requires Genuine(c, v)
    ensures Canonical(c, Denoted(v))
    decreases v, 1
  {
    match v
    case UInt64(n, _) => DecimalStays(c, n);
    case Integer(i, _) => DecimalStays(c, i);
    case Real(x) => NumberValueCanonical(c, x);
    case Complex(re, im) =>
      NumberValueCanonical(c, re);
      NumberValueCanonical(c, im);
    case Uniform(ds) =>
      forall i | 0 <= i < |ds|
        ensures Canonical(c, NumberValue(ds[i]))
      {
        NumberValueCanonical(c, ds[i]);
      }
    case Vector(elems) =>
      forall i | 0 <= i < |elems|
        ensures Canonical(c, Denoted(elems[i]))
      {
        GenuineCanonical(c, elems[i]);
      }
    case Dict(items) => DictCanonicalValues(c, items);
    case Pair(car, cdr) =>
      GenuineCanonical(c, car);
      GenuineCanonical(c, cdr);
    case _ =>
  }

  lemma {:induction false} PutCanonical(c: Machine, ms: seq<(string, Value)>, k: string, v: Value)
    requires (forall i :: 0 <= i < |ms| ==> CanonicalMember(c, ms[i])) && Canonical(c, v)
    ensures forall m :: m in Put(BytesLess, ms, k, v) ==> CanonicalMember(c, m)
  {
    if ms != [] && ms[0].0 != k && !BytesLess(k, ms[0].0) {
      PutCanonical(c, ms[1..], k, v);
    }
  }

  lemma {:induction false} DictCanonicalValues(c: Machine, items: seq<Pmt>)
    requires forall i :: 0 <= i < |items| ==> Genuine(c, items[i])
    ensures forall i :: 0 <= i < |DictValues(items)| ==> CanonicalMember(c, DictValues(items)[i])
    decreases items, 0
  {
    if items != [] {
      var front, item := items[..|items| - 1], items[|items| - 1];
      DictCanonicalValues(c, front);
      if IsMember(item) {
        assert item.cdr < item;
        GenuineCanonical(c, item.cdr);
        PutCanonical(c, DictValues(front), item.car.name, Denoted(item.cdr));
      }
    }
  }

  /** A dictionary's printed members stay when its last writers do, if there are any. */
  lemma DictKeptIff(items: seq<Pmt>)
    requires forall key :: LastFor(items, key).Some? ==>
      (FormKept(LastFor(items, key).value) <==> Stays(Denoted(LastFor(items, key).value)))
    ensures FormKept(Dict(items)) <==> Stays(Object(DictValues(items)))
  {
    var printed := DictValues(items);
    DictMeaning(items, "");
    forall i | 0 <= i < |printed|
      ensures LastFor(items, printed[i].0).Some? && printed[i].1 == Denoted(LastFor(items, printed[i].0).value)
    {
      GetAt(printed, i);
      DictMeaning(items, printed[i].0);
    }
    forall key | LastFor(items, key).Some?
      ensures exists i :: 0 <= i < |printed| && printed[i] == (key, Denoted(LastFor(items, key).value))
    {
      DictMeaning(items, key);
      var i := GetIndex(printed, key);
    }
    if FormKept(Dict(items)) {
      assert forall i :: 0 <= i < |printed| ==> MemberStays(printed[i]);
    }
    if Stays(Object(printed)) {
      assert LastFor(items, printed[0].0).Some?;
    }
  }

  lemma LastGenuine(c: Machine, items: seq<Pmt>, key: string)
    requires Genuine(c, Dict(items)) && LastFor(items, key).Some?
    ensures Genuine(c, LastFor(items, key).value)
  {
    var i := LastIndex(items, key);
    assert Genuine(c, items[i]);
  }

  lemma ImagBeforeReal()
    ensures !BytesLess("real", "imag")
  {
  }

  /** The condition on a tag value is the one on the JSON value it is printed as. */
  lemma {:induction false} KeptIff(c: Machine, v: Pmt)
    requires Genuine(c, v)
    ensures FormKept(v) <==> Stays(Denoted(v))
    decreases v
  {
    match v
    case UInt64(n, _) => DecimalStays(c, n);
    case Integer(i, _) => DecimalStays(c, i);
    case Uniform(ds) => assert forall i :: 0 <= i < |ds| ==> (Stays(NumberValues(ds)[i]) <==> DoubleStays(ds[i]));
    case Complex(_, _) => ImagBeforeReal();
    case Vector(elems) =>
      forall i | 0 <= i < |elems|
        ensures FormKept(elems[i]) <==> Stays(DenotedAll(elems)[i])
      {
        KeptIff(c, elems[i]);
      }
    case Dict(items) =>
      forall key | LastFor(items, key).Some?
        ensures FormKept(LastFor(items, key).value) <==> Stays(Denoted(LastFor(items, key).value))
      {
        LastIsInside(items, key);
        LastGenuine(c, items, key);
        KeptIff(c, LastFor(items, key).value);
      }
      DictKeptIff(items);
    case Pair(car, cdr) =>
      KeptIff(c, car);
      KeptIff(c, cdr);
      var both := [Denoted(car), Denoted(cdr)];
      assert Stays(Array(both)) <==> Stays(both[0]) && Stays(both[1]);
    case _ =>
  }

  // ---- and so does the text -------------------------------------------------------------------------

  /** A JSON value in the printer's spelling. */
  function ValueText(x: Value): string
    decreases x, 1
  {
    match x
    case Null => "null"
    case Bool(b) => if b then "true" else "false"
    case Number(lexeme) => lexeme
    case String(text) => Escaped(text)
    case Array(items) => ArrayText(ValueTexts(items), "", ",", "")
    case Object(members) => ObjectText(MemberSpellings(members), "", ":", ",", "")
  }

  function ValueTexts(items: seq<Value>): (texts: seq<string>)
    ensures |texts| == |items| && forall i :: 0 <= i < |items| ==> texts[i] == ValueText(items[i])
    decreases items, 0
  {
    if items == [] then [] else ValueTexts(items[..|items| - 1]) + [ValueText(items[|items| - 1])]
  }

  function MemberSpellings(members: seq<(string, Value)>): (texts: seq<(string, string)>)
    ensures |texts| == |members|
    ensures forall i :: 0 <= i < |members| ==> texts[i] == MemberSpelling(members[i])
    decreases members, 0
  {
    if members == [] then [] else [MemberSpelling(members[0])] + MemberSpellings(members[1..])
  }

  function MemberSpelling(m: (string, Value)): (string, string)
    decreases m, 2
  {
    assert m.1 < m;
    (m.0, ValueText(m.1))
  }

  lemma {:induction false} PutSpelled(members: seq<(string, Value)>, k: string, x: Value)
    ensures MemberSpellings(Put(BytesLess, members, k, x)) == Put(BytesLess, MemberSpellings(members), k, ValueText(x))
  {
    if members != [] {
      PutSpelled(members[1..], k, x);
      assert MemberSpellings(members)[1..] == MemberSpellings(members[1..]);
      assert members[0] == (members[0].0, members[0].1);
    }
  }

  lemma NumberSpelled(d: Double)
    ensures ValueText(NumberValue(d)) == NumberTextOf(d)
  {
  }

  lemma {:induction false} NumbersSpelled(ds: seq<Double>)
    ensures ValueTexts(NumberValues(ds)) == NumberTexts(ds)
  {
    if ds != [] {
      NumbersSpelled(ds[..|ds| - 1]);
      NumberSpelled(ds[|ds| - 1]);
      assert NumberValues(ds)[..|ds| - 1] == NumberValues(ds[..|ds| - 1]);
    }
  }

  /** The printed text is determined by the JSON value it stands for. */
  lemma {:induction false} TextOfDenoted(v: Pmt)
    ensures ValueText(Denoted(v)) == PmtText(v)
    decreases v, 1
  {
    match v
    case Real(x) => NumberSpelled(x);
    case Complex(re, im) => ComplexSpelled(re, im);
    case Uniform(ds) => NumbersSpelled(ds);
    case Vector(elems) =>
      VectorSpelled(elems);
      ArraySpelled(DenotedAll(elems), elems);
    case Dict(items) =>
      DictSpelled(items);
      ObjectSpelled(items);
    case Pair(car, cdr) =>
      TextOfDenoted(car);
      TextOfDenoted(cdr);
      PairSpelled(car, cdr);
    case _ =>
  }

  lemma PairSpelled(car: Pmt, cdr: Pmt)
    requires ValueText(Denoted(car)) == PmtText(car) && ValueText(Denoted(cdr)) == PmtText(cdr)
    ensures ValueText(Denoted(Pair(car, cdr))) == PmtText(Pair(car, cdr))
  {
    assert ValueTexts([Denoted(car), Denoted(cdr)]) == [PmtText(car), PmtText(cdr)];
  }

  lemma ArraySpelled(items: seq<Value>, elems: seq<Pmt>)
    requires items == DenotedAll(elems) && ValueTexts(items) == PmtTexts(elems)
    ensures ValueText(Denoted(Vector(elems))) == PmtText(Vector(elems))
  {
  }

  lemma ObjectSpelled(items: seq<Pmt>)
    requires MemberSpellings(DictValues(items)) == DictTexts(items)
    ensures ValueText(Denoted(Dict(items))) == PmtText(Dict(items))
  {
  }

  lemma ComplexSpelled(re: Double, im: Double)
    ensures ValueText(Denoted(Complex(re, im))) == PmtText(Complex(re, im))
  {
    NumberSpelled(re);
    NumberSpelled(im);
    assert MemberSpellings([("real", NumberValue(re)), ("imag", NumberValue(im))])
        == [("real", NumberTextOf(re)), ("imag", NumberTextOf(im))];
  }

  lemma {:induction false} VectorSpelled(elems: seq<Pmt>)
    ensures ValueTexts(DenotedAll(elems)) == PmtTexts(elems)
    decreases elems, 0
  {
    if elems != [] {
      VectorSpelled(elems[..|elems| - 1]);
      TextOfDenoted(elems[|elems| - 1]);
      assert DenotedAll(elems)[..|elems| - 1] == DenotedAll(elems[..|elems| - 1]);
    }
  }

  lemma {:induction false} DictSpelled(items: seq<Pmt>)
    ensures MemberSpellings(DictValues(items)) == DictTexts(items)
    decreases items, 0
  {
    if items != [] {
      var front, item := items[..|items| - 1], items[|items| - 1];
      DictSpelled(front);
      if IsMember(item) {
        assert item.cdr < item;
        TextOfDenoted(item.cdr);
        PutSpelled(DictValues(front), item.car.name, Denoted(item.cdr));
      }
    }
  }

  /** Two tag values have one text exactly when they stand for one JSON value. */
  lemma SameTextIff(v: Pmt, w: Pmt)
    ensures PmtText(v) == PmtText(w) <==> Denoted(v) == Denoted(w)
  {
    TextReads(v);
    TextReads(w);
    TextOfDenoted(v);
    TextOfDenoted(w);
  }

  lemma TextReads(v: Pmt)
    ensures ReadValue(PmtText(v)) == Got(Denoted(v), "")
  {
    PmtFaithful(v);
    assert PmtText(v) + "" == PmtText(v);
  }

  // ---- through a recording and back -------------------------------------------------------------

  /** What a tag value becomes by way of a recording: printed, parsed and read; nothing if it is no JSON. */
  function Recorded(c: Machine, v: Pmt): Option<Pmt> {
    match Parse(PmtText(v))
    case Got(x, _) => Some(FromJson(c, x))
    case Stop => None
  }

  lemma RecordedIs(c: Machine, v: Pmt)
    ensures Recorded(c, v) == if PrintsUtf8(v) then Some(FromJson(c, Denoted(v))) else None
  {
    PmtRoundTrip(v);
  }

  /** What a caller can look for in a value: a form that is kept, and strings of UTF-8. */
  ghost predicate TextKept(v: Pmt) {
    PrintsUtf8(v) && FormKept(v)
  }

  /**
   Through a recording and back, for every value a machine can hold: the text comes
   out as it went in exactly for the values TextKept describes.
   */
  lemma TextRoundTripIff(c: Machine, v: Pmt)
    requires Genuine(c, v)
    ensures (Recorded(c, v).Some? && PmtText(Recorded(c, v).value) == PmtText(v)) <==> TextKept(v)
  {
    RecordedIs(c, v);
    GenuineCanonical(c, v);
    Returns(c, Denoted(v));
    KeptIff(c, v);
    SameTextIff(FromJson(c, Denoted(v)), v);
  }

  /** A symbol that is not UTF-8, such as the byte 0xFF alone, makes a recording no parser takes. */
  lemma IllFormedLost(c: Machine, name: string)
    requires !IsUtf8(name)
    ensures FormKept(Symbol(name)) && Recorded(c, Symbol(name)) == None
    ensures !IsUtf8([0xFF as char])
  {
    RecordedIs(c, Symbol(name));
    NotUtf8();
  }

  lemma WholeRead(c: Machine, i: int, text: string)
    requires -INT64 <= i < 0 && text == DecimalInt(i)
    ensures Negative(text) && DecimalValue(text[1..]) + i == 0
    ensures FromNumber(c, text) == Integer(CastLong(i), c.near(CastLong(i)))
  {
    DecimalReadsBack(-i);
    assert text[1..] == Decimal(-i);
  }

  /**
   A whole double below a `long` is written as it is and comes back as another integer,
   2^32 too large or too small: -3000000000 as 1294967296.
   */
  lemma WholeDoubleWraps(c: Machine, d: Double, i: int)
    requires -INT64 <= i < -LONG && d.Finite? && d.text == DecimalInt(i)
    ensures !TextKept(Real(d))
    ensures Recorded(c, Real(d)) == Some(Integer(CastLong(i), c.near(CastLong(i))))
    ensures CastLong(i) != i
  {
    WholeRead(c, i, d.text);
    RecordedIs(c, Real(d));
  }

  /** The value of strings of UTF-8 has none but such strings. */
  ghost predicate Utf8Value(x: Value) {
    match x
    case String(text) => IsUtf8(text)
    case Array(items) => forall i :: 0 <= i < |items| ==> Utf8Value(items[i])
    case Object(members) => forall i :: 0 <= i < |members| ==> Utf8Pair(members[i])
    case _ => true
  }

  ghost predicate Utf8Pair(m: (string, Value)) {
    assert m.1 < m;
    IsUtf8(m.0) && Utf8Value(m.1)
  }

  lemma {:induction false} DenotedUtf8(v: Pmt)
    requires PrintsUtf8(v)
    ensures Utf8Value(Denoted(v))
    decreases v
  {
    match v
    case Complex(re, im) => NamesUtf8("real", NumberValue(re), "imag", NumberValue(im));
    case Vector(elems) =>
      forall i | 0 <= i < |elems|
        ensures Utf8Value(DenotedAll(elems)[i])
      {
        DenotedUtf8(elems[i]);
      }
    case Dict(items) =>
      forall key | LastFor(items, key).Some?
        ensures IsUtf8(key) && Utf8Value(Denoted(LastFor(items, key).value))
      {
        LastIsInside(items, key);
        DenotedUtf8(LastFor(items, key).value);
      }
      DictDenotedUtf8(items);
    case Pair(car, cdr) =>
      DenotedUtf8(car);
      DenotedUtf8(cdr);
    case _ =>
  }

  lemma NamesUtf8(a: string, x: Value, b: string, y: Value)
    requires AllAscii(a) && Utf8Value(x) && AllAscii(b) && Utf8Value(y)
    ensures Utf8Value(Object([(a, x), (b, y)]))
  {
    AsciiIsUtf8(a);
    AsciiIsUtf8(b);
    var members := [(a, x), (b, y)];
    assert Utf8Pair(members[0]) && Utf8Pair(members[1]);
  }

  lemma DictDenotedUtf8(items: seq<Pmt>)
    requires forall key :: LastFor(items, key).Some? ==>
      IsUtf8(key) && Utf8Value(Denoted(LastFor(items, key).value))
    ensures Utf8Value(Object(DictValues(items)))
  {
    var members := DictValues(items);
    DictMeaning(items, "");
    forall i | 0 <= i < |members|
      ensures Utf8Pair(members[i])
    {
      GetAt(members, i);
      DictMeaning(items, members[i].0);
    }
  }

  ghost predicate PrintedUtf8(ms: seq<(string, Pmt)>) {
    forall i :: 0 <= i < |ms| ==> IsUtf8(ms[i].0) && PrintsUtf8(ms[i].1)
  }

  lemma {:induction false} PutPrinted(ms: seq<(string, Pmt)>, k: string, v: Pmt)
    requires PrintedUtf8(ms) && IsUtf8(k) && PrintsUtf8(v)
    ensures PrintedUtf8(Put(BytesLess, ms, k, v))
  {
    if ms != [] && ms[0].0 != k && !BytesLess(k, ms[0].0) {
      PutPrinted(ms[1..], k, v);
    }
  }

  lemma ItemsPrinted(ms: seq<(string, Pmt)>)
    requires PrintedUtf8(ms)
    ensures PrintsUtf8(Dict(Items(ms)))
  {
    var items := Items(ms);
    forall key | LastFor(items, key).Some?
      ensures IsUtf8(key) && PrintsUtf8(LastFor(items, key).value)
    {
      var i := LastIndex(items, key);
      ItemsAt(ms, |ms| - 1 - i);
    }
  }

  /** Reading brings in no string that was not there. */
  lemma {:induction false} ReadUtf8(c: Machine, x: Value)
    requires Utf8Value(x)
    ensures PrintsUtf8(FromJson(c, x))
    decreases x, 1
  {
    match x
    case Array(items) =>
      forall i | 0 <= i < |items|
        ensures PrintsUtf8(FromAll(c, items)[i])
      {
        ReadUtf8(c, items[i]);
      }
    case Object(members) =>
      MembersPrinted(c, members);
      ItemsPrinted(FromMembers(c, members));
    case _ =>
  }

  lemma {:induction false} MembersPrinted(c: Machine, members: seq<(string, Value)>)
    requires forall i :: 0 <= i < |members| ==> Utf8Pair(members[i])
    ensures PrintedUtf8(FromMembers(c, members))
    decreases members, 0
  {
    if members != [] {
      var front, m := members[..|members| - 1], members[|members| - 1];
      MembersPrinted(c, front);
      MemberPrinted(c, m);
      PutPrinted(FromMembers(c, front), m.0, FromMember(c, m));
    }
  }

  lemma {:induction false} MemberPrinted(c: Machine, m: (string, Value))
    requires Utf8Pair(m)
    ensures IsUtf8(m.0) && PrintsUtf8(FromMember(c, m))
    decreases m, 2
  {
    assert m.1 < m;
    ReadUtf8(c, m.1);
  }

  /**
   A value comes out of a recording exactly when its strings are UTF-8, and then a
   second time through changes nothing more.
   */
  lemma SecondTripKeeps(c: Machine, v: Pmt)
    requires Genuine(c, v)
    ensures Recorded(c, v).Some? <==> PrintsUtf8(v)
    ensures Recorded(c, v).Some? ==>
      var w := Recorded(c, v).value;
      Recorded(c, w).Some? && PmtText(Recorded(c, w).value) == PmtText(w)
  {
    RecordedIs(c, v);
    if PrintsUtf8(v) {
      var w := FromJson(c, Denoted(v));
      DenotedUtf8(v);
      ReadUtf8(c, Denoted(v));
      RecordedIs(c, w);
      GenuineCanonical(c, v);
      Settles(c, Denoted(v));
      Returns(c, Denoted(w));
      SameTextIff(FromJson(c, Denoted(w)), w);
    }
  }

  // ---- coming back as the very same value ---------------------------------------------------------------

  ghost predicate AllMembers(items: seq<Pmt>) {
    forall i :: 0 <= i < |items| ==> IsMember(items[i])
  }

  ghost function Entry(item: Pmt): (string, Pmt)
    requires IsMember(item)
  {
    (item.car.name, item.cdr)
  }

  /** The entries of a dictionary, oldest first. */
  ghost function Entries(items: seq<Pmt>): (ms: seq<(string, Pmt)>)
    requires AllMembers(items)
    ensures |ms| == |items|
    ensures forall i :: 0 <= i < |ms| ==> ms[i] == Entry(items[|items| - 1 - i])
  {
    if items == [] then [] else Entries(items[1..]) + [Entry(items[0])]
  }

  /** A dictionary as reading builds one: symbols for keys, added in strict key order. */
  ghost predicate Orderly(items: seq<Pmt>) {
    && items != []
    && AllMembers(items)
    && Ascending(BytesLess, Entries(items))
  }

  /** The kinds of value reading produces; an integer only if negative, a double only if not whole. */
  ghost predicate SameKind(v: Pmt) {
    match v
    case Nil | Boolean(_) | Symbol(_) | UInt64(_, _) => true
    case Integer(i, _) => i < 0
    case Real(x) => x.Finite? && !Unsigned(x.text) && !Negative(x.text)
    case Vector(elems) => forall i :: 0 <= i < |elems| ==> SameKind(elems[i])
    case Dict(items) => Orderly(items) && forall i :: 0 <= i < |items| ==> EntrySame(items[i])
    case _ => false
  }

  ghost predicate EntrySame(item: Pmt) {
    item.Pair? && SameKind(item.cdr)
  }

  lemma {:induction false} ItemsAt(ms: seq<(string, Pmt)>, i: nat)
    requires i < |ms|
    ensures Items(ms)[|ms| - 1 - i] == Pair(Symbol(ms[i].0), ms[i].1)
  {
    if i > 0 {
      ItemsAt(ms[1..], i - 1);
      assert ms[1..][i - 1] == ms[i];
    }
  }

  lemma ItemsOfEntries(items: seq<Pmt>)
    requires AllMembers(items)
    ensures Items(Entries(items)) == items
  {
    var ms := Entries(items);
    forall j | 0 <= j < |items|
      ensures Items(ms)[j] == items[j]
    {
      assert ms[|items| - 1 - j] == Entry(items[j]);
      ItemsAt(ms, |items| - 1 - j);
    }
  }

  lemma EntriesOfItems(ms: seq<(string, Pmt)>)
    ensures AllMembers(Items(ms)) && Entries(Items(ms)) == ms
  {
    forall i | 0 <= i < |ms|
      ensures IsMember(Items(ms)[i])
    {
      ItemsAt(ms, |ms| - 1 - i);
    }
    forall i | 0 <= i < |ms|
      ensures Entries(Items(ms))[i] == ms[i]
    {
      ItemsAt(ms, i);
      assert ms[i] == (ms[i].0, ms[i].1);
    }
  }

  /** An orderly dictionary is read back as its own entries, each value read back in turn. */
  lemma OrderlyBack(c: Machine, items: seq<Pmt>)
    requires Orderly(items)
    ensures FromJson(c, Denoted(Dict(items))) == Dict(Items(Converted(c, DenotedMembers(Entries(items)))))
  {
    var ms := Entries(items);
    ItemsOfEntries(items);
    ItemsDenote(ms);
    KeysAscend(ms, DenotedMembers(ms));
    FromOrdered(c, DenotedMembers(ms));
  }

  lemma EntryBack(c: Machine, items: seq<Pmt>, vs: seq<(string, Value)>, back: seq<(string, Pmt)>, i: nat)
    requires AllMembers(items) && vs == DenotedMembers(Entries(items)) && back == Converted(c, vs) && i < |items|
    ensures Items(back)[i] == Pair(items[i].car, FromJson(c, Denoted(items[i].cdr)))
  {
    var k := |items| - 1 - i;
    EntryDenoted(items, i);
    ConvertedAt(c, vs, k, items[i].car.name, Denoted(items[i].cdr));
    ItemsAt(back, k);
    assert items[i].car == Symbol(items[i].car.name);
  }

  lemma ConvertedAt(c: Machine, vs: seq<(string, Value)>, k: nat, name: string, x: Value)
    requires k < |vs| && vs[k] == (name, x)
    ensures Converted(c, vs)[k] == (name, FromJson(c, x))
  {
  }

  lemma EntryDenoted(items: seq<Pmt>, i: nat)
    requires AllMembers(items) && i < |items|
    ensures DenotedMembers(Entries(items))[|items| - 1 - i] == (items[i].car.name, Denoted(items[i].cdr))
  {
    assert Entries(items)[|items| - 1 - i] == Entry(items[i]);
  }

  ghost predicate CdrBack(c: Machine, item: Pmt) {
    item.Pair? && FromJson(c, Denoted(item.cdr)) == item.cdr
  }

  lemma OrderlySameIff(c: Machine, items: seq<Pmt>)
    requires Orderly(items)
    ensures FromJson(c, Denoted(Dict(items))) == Dict(items)
       <==> forall i :: 0 <= i < |items| ==> CdrBack(c, items[i])
  {
    var vs := DenotedMembers(Entries(items));
    var back := Converted(c, vs);
    OrderlyBack(c, items);
    forall i | 0 <= i < |items|
      ensures Items(back)[i] == items[i] <==> CdrBack(c, items[i])
    {
      EntryBack(c, items, vs, back, i);
      assert IsMember(items[i]);
    }
  }

  /** What reading makes of an object is always orderly. */
  lemma BackIsOrderly(c: Machine, items: seq<Pmt>)
    requires FromJson(c, Denoted(Dict(items))) == Dict(items)
    ensures Orderly(items)
  {
    var ms := FromMembers(c, DictValues(items));
    FromMembersAscend(c, DictValues(items));
    EntriesOfItems(ms);
    assert items == Items(ms);
  }

  lemma RealSame(c: Machine, x: Double)
    requires GenuineDouble(c, x)
    ensures FromJson(c, NumberValue(x)) == Real(x) <==> SameKind(Real(x))
  {
  }

  lemma WholeSame(c: Machine, i: int)
    requires -LONG <= i < UINT64
    ensures FromNumber(c, DecimalInt(i)) == if i < 0 then Integer(i, c.near(i)) else UInt64(i, c.near(i))
  {
    if i < 0 {
      DecimalReadsBack(-i);
      assert DecimalInt(i)[1..] == Decimal(-i);
    } else {
      DecimalReadsBack(i);
    }
  }

  /** The reader undoes the printer, kind and all, exactly for the values SameKind describes. */
  lemma {:induction false} SameIff(c: Machine, v: Pmt)
    requires Genuine(c, v)
    ensures FromJson(c, Denoted(v)) == v <==> SameKind(v)
    decreases v
  {
    match v
    case UInt64(n, _) => WholeSame(c, n);
    case Integer(i, _) => WholeSame(c, i);
    case Real(x) => RealSame(c, x);
    case Vector(elems) =>
      forall i | 0 <= i < |elems|
        ensures ValueBack(c, elems[i]) <==> SameKind(elems[i])
      {
        SameIff(c, elems[i]);
      }
      VectorSameIff(c, elems);
    case Dict(items) =>
      forall i | 0 <= i < |items|
        ensures CdrBack(c, items[i]) <==> EntrySame(items[i])
      {
        assert Genuine(c, items[i]) && items[i] < v;
        if items[i].Pair? { SameIff(c, items[i].cdr); }
      }
      DictSameIff(c, items);
    case _ =>
  }

  lemma DictSameIff(c: Machine, items: seq<Pmt>)
    requires forall i :: 0 <= i < |items| ==> (CdrBack(c, items[i]) <==> EntrySame(items[i]))
    ensures FromJson(c, Denoted(Dict(items))) == Dict(items) <==> SameKind(Dict(items))
  {
    if Orderly(items) {
      OrderlySameIff(c, items);
    } else if FromJson(c, Denoted(Dict(items))) == Dict(items) {
      BackIsOrderly(c, items);
    }
  }

  ghost predicate ValueBack(c: Machine, v: Pmt) {
    FromJson(c, Denoted(v)) == v
  }

  lemma VectorSameIff(c: Machine, elems: seq<Pmt>)
    ensures FromJson(c, Denoted(Vector(elems))) == Vector(elems)
       <==> forall i :: 0 <= i < |elems| ==> ValueBack(c, elems[i])
  {
    var back := FromAll(c, DenotedAll(elems));
    forall i | 0 <= i < |elems|
      ensures back[i] == elems[i] <==> ValueBack(c, elems[i])
    {
      ElementBack(c, elems, i);
    }
    AllBackIff(c, elems, back);
    VectorBack(c, elems);
  }

  lemma VectorBack(c: Machine, elems: seq<Pmt>)
    ensures FromJson(c, Denoted(Vector(elems))) == Vector(FromAll(c, DenotedAll(elems)))
  {
    VectorDenoted(elems, DenotedAll(elems));
    ArrayRead(c, DenotedAll(elems));
  }

  lemma VectorDenoted(elems: seq<Pmt>, items: seq<Value>)
    requires items == DenotedAll(elems)
    ensures Denoted(Vector(elems)) == Array(items)
  {
  }

  lemma ArrayRead(c: Machine, items: seq<Value>)
    ensures FromJson(c, Array(items)) == Vector(FromAll(c, items))
  {
  }

  lemma AllBackIff(c: Machine, elems: seq<Pmt>, back: seq<Pmt>)
    requires |back| == |elems|
    requires forall i :: 0 <= i < |elems| ==> (back[i] == elems[i] <==> ValueBack(c, elems[i]))
    ensures back == elems <==> forall i :: 0 <= i < |elems| ==> ValueBack(c, elems[i])
  {
    if forall i :: 0 <= i < |elems| ==> ValueBack(c, elems[i]) {
      assert forall i :: 0 <= i < |elems| ==> back[i] == elems[i];
    }
  }

  lemma ElementBack(c: Machine, elems: seq<Pmt>, i: nat)
    requires i < |elems|
    ensures FromAll(c, DenotedAll(elems))[i] == FromJson(c, Denoted(elems[i]))
  {
    assert DenotedAll(elems)[i] == Denoted(elems[i]);
  }

  /** What comes back through the text as it was. */
  ghost predicate Same(v: Pmt) {
    PrintsUtf8(v) && SameKind(v)
  }

  lemma RecordedSameIff(c: Machine, v: Pmt)
    requires Genuine(c, v)
    ensures Recorded(c, v) == Some(v) <==> Same(v)
  {
    RecordedIs(c, v);
    SameIff(c, v);
  }

  // ---- the loops of the reader ---------------------------------------------------------------------------

  /** json_to_pmt() on a parsed document, whose objects iterate in key order. */
  method JsonToPmt(c: Machine, x: Value) returns (v: Pmt)
    ensures v == FromJson(c, x)
    decreases x, 1
  {
    match x
    case Null => v := Nil;
    case Bool(b) => v := Boolean(b);
    case Number(lexeme) => v := FromNumber(c, lexeme);
    case String(text) => v := Symbol(text);
    case Array(items) =>
      var elems := VectorOf(c, items);
      v := Vector(elems);
    case Object(members) =>
      var ms := Sorted(c, members);
      var items: seq<Pmt> := [];
      for i := 0 to |ms|
        invariant items == Items(ms[..i])
      {
        ItemsAdd(ms[..i], ms[i]);
        assert ms[..i + 1] == ms[..i] + [ms[i]];
        items := [Pair(Symbol(ms[i].0), ms[i].1)] + items;
      }
      assert ms[..|ms|] == ms;
      v := if items == [] then Nil else Dict(items);
  }

  /** The newest entry is the first. */
  lemma {:induction false} ItemsAdd(ms: seq<(string, Pmt)>, m: (string, Pmt))
    ensures Items(ms + [m]) == [Pair(Symbol(m.0), m.1)] + Items(ms)
  {
    if ms == [] {
      assert (ms + [m])[1..] == [];
    } else {
      ItemsAdd(ms[1..], m);
      assert (ms + [m])[1..] == ms[1..] + [m];
    }
  }

  /** make_vector() of the right length, and vector_set() for each place. */
  method VectorOf(c: Machine, items: seq<Value>) returns (elems: seq<Pmt>)
    ensures elems == FromAll(c, items)
    decreases items, 0
  {
    elems := seq(|items|, _ => Nil);
    for i := 0 to |items|
      invariant |elems| == |items|
      invariant forall j :: 0 <= j < i ==> elems[j] == FromJson(c, items[j])
    {
      var v := JsonToPmt(c, items[i]);
      elems := elems[i := v];
    }
  }

  /** The parser's map of an object's members. */
  method Sorted(c: Machine, members: seq<(string, Value)>) returns (ms: seq<(string, Pmt)>)
    ensures ms == FromMembers(c, members)
    decreases members, 0
  {
    ms := [];
    for i := 0 to |members|
      invariant ms == FromMembers(c, members[..i])
    {
      assert members[..i + 1][..i] == members[..i];
      var v := Member(c, members[i]);
      ms := Put(BytesLess, ms, members[i].0, v);
    }
    assert members[..|members|] == members;
  }

  method Member(c: Machine, m: (string, Value)) returns (v: Pmt)
    ensures v == FromMember(c, m)
    decreases m, 2
  {
    assert m.1 < m;
    v := JsonToPmt(c, m.1);
  }
}
