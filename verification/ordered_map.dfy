/**
 std::map as its iteration sees it: an association list in strictly ascending
 key order, in which writing a key that is present overwrites its value.
 */
module OrderedMap {
  import opened Wrappers

  /** A strict total order. */
  ghost predicate StrictOrder<K(!new)>(less: (K, K) -> bool) {
    && (forall a :: !less(a, a))
    && (forall a, b :: a == b || less(a, b) || less(b, a))
    && (forall a, b, c :: less(a, b) && less(b, c) ==> less(a, c))
  }

  ghost predicate Ascending<K, V>(less: (K, K) -> bool, m: seq<(K, V)>) {
    |m| < 2 || (less(m[0].0, m[1].0) && Ascending(less, m[1..]))
  }

  /** m[k] = v */
  function Put<K(==), V>(less: (K, K) -> bool, m: seq<(K, V)>, k: K, v: V): (r: seq<(K, V)>)
    ensures r != []
  {
    if m == [] then [(k, v)]
    else if m[0].0 == k then [(k, v)] + m[1..]
    else if less(k, m[0].0) then [(k, v)] + m
    else [m[0]] + Put(less, m[1..], k, v)
  }

  function Get<K(==), V>(m: seq<(K, V)>, k: K): Option<V> {
    if m == [] then None
    else if m[0].0 == k then Some(m[0].1)
    else Get(m[1..], k)
  }

  lemma {:induction false} PutAscending<K(!new), V>(less: (K, K) -> bool, m: seq<(K, V)>, k: K, v: V)
    requires StrictOrder(less) && Ascending(less, m)
    ensures Ascending(less, Put(less, m, k, v))
    ensures Put(less, m, k, v)[0].0 == k || (m != [] && Put(less, m, k, v)[0].0 == m[0].0)
  {
    if m != [] {
      var r := Put(less, m, k, v);
      if m[0].0 == k {
        assert r[1..] == m[1..];
      } else if less(k, m[0].0) {
        assert r[1..] == m;
      } else {
        PutAscending(less, m[1..], k, v);
        assert r[1..] == Put(less, m[1..], k, v);
      }
    }
  }

  lemma {:induction false} PutGet<K, V>(less: (K, K) -> bool, m: seq<(K, V)>, k: K, v: V, other: K)
    ensures Get(Put(less, m, k, v), other) == if other == k then Some(v) else Get(m, other)
  {
    if m != [] {
      var r := Put(less, m, k, v);
      if m[0].0 == k {
        assert r[1..] == m[1..];
      } else if less(k, m[0].0) {
        assert r[1..] == m;
      } else {
        PutGet(less, m[1..], k, v, other);
        assert r[1..] == Put(less, m[1..], k, v);
      }
    }
  }

  lemma {:induction false} BelowIsAbsent<K(!new), V>(less: (K, K) -> bool, m: seq<(K, V)>, k: K)
    requires StrictOrder(less) && Ascending(less, m)
    requires m == [] || less(k, m[0].0)
    ensures Get(m, k) == None
  {
    if m != [] { BelowIsAbsent(less, m[1..], k); }
  }

  /** An ascending list is determined by what it maps keys to. */
  lemma {:induction false} SameContents<K(!new), V>(less: (K, K) -> bool, a: seq<(K, V)>, b: seq<(K, V)>)
    requires StrictOrder(less) && Ascending(less, a) && Ascending(less, b)
    requires forall k :: Get(a, k) == Get(b, k)
    ensures a == b
  {
    if a != [] { assert Get(a, a[0].0) == Get(b, a[0].0); }
    if b != [] { assert Get(a, b[0].0) == Get(b, b[0].0); }
    if a != [] {
      SameHead(less, a, b);
      forall k
        ensures Get(a[1..], k) == Get(b[1..], k)
      {
        assert Get(a, k) == Get(b, k);
        if k == a[0].0 {
          BelowIsAbsent(less, a[1..], k);
          BelowIsAbsent(less, b[1..], k);
        }
      }
      SameContents(less, a[1..], b[1..]);
      assert a == [a[0]] + a[1..] && b == [b[0]] + b[1..];
    }
  }

  lemma SameHead<K(!new), V>(less: (K, K) -> bool, a: seq<(K, V)>, b: seq<(K, V)>)
    requires StrictOrder(less) && Ascending(less, a) && Ascending(less, b)
    requires forall k :: Get(a, k) == Get(b, k)
    requires a != [] && b != []
    ensures a[0] == b[0]
  {
    assert Get(a, a[0].0) == Get(b, a[0].0);
    assert Get(a, b[0].0) == Get(b, b[0].0);
    if less(a[0].0, b[0].0) {
      BelowIsAbsent(less, b, a[0].0);
    } else if less(b[0].0, a[0].0) {
      BelowIsAbsent(less, a, b[0].0);
    }
  }

  // ---- the two orders in use ------------------------------------------------------

  /** std::string's order: bytes compared from the front, a prefix first. */
  predicate BytesLess(a: string, b: string) {
    if b == "" then false
    else if a == "" then true
    else if a[0] != b[0] then a[0] < b[0]
    else BytesLess(a[1..], b[1..])
  }

  predicate NatLess(a: nat, b: nat) {
    a < b
  }

  lemma {:induction false} BytesTotal(a: string, b: string)
    ensures !BytesLess(a, a)
    ensures a == b || BytesLess(a, b) || BytesLess(b, a)
  {
    if a != "" {
      BytesTotal(a[1..], if b == "" then b else b[1..]);
      if b != "" && a[0] == b[0] && a[1..] == b[1..] {
        assert a == [a[0]] + a[1..] && b == [b[0]] + b[1..];
      }
    }
  }

  lemma {:induction false} BytesTransitive(a: string, b: string, c: string)
    requires BytesLess(a, b) && BytesLess(b, c)
    ensures BytesLess(a, c)
  {
    if a != "" && a[0] == b[0] == c[0] {
      BytesTransitive(a[1..], b[1..], c[1..]);
    }
  }

  lemma OrdersHold()
    ensures StrictOrder(BytesLess) && StrictOrder(NatLess)
  {
    forall a: string, b: string
      ensures !BytesLess(a, a)
      ensures a == b || BytesLess(a, b) || BytesLess(b, a)
    {
      BytesTotal(a, b);
    }
    forall a, b, c | BytesLess(a, b) && BytesLess(b, c)
      ensures BytesLess(a, c)
    {
      BytesTransitive(a, b, c);
    }
  }

  // ---- places in an ordered list -----------------------------------------------------

  lemma {:induction false} FrontAscends<V>(m: seq<(string, V)>)
    requires m != [] && Ascending(BytesLess, m)
    ensures Ascending(BytesLess, m[..|m| - 1])
  {
    if |m| > 2 {
      FrontAscends(m[1..]);
      assert m[1..][..|m| - 2] == m[..|m| - 1][1..];
    }
  }

  lemma {:induction false} FirstBelowLast<V>(m: seq<(string, V)>)
    requires |m| > 1 && Ascending(BytesLess, m)
    ensures BytesLess(m[0].0, m[|m| - 1].0)
  {
    OrdersHold();
    if |m| > 2 { FirstBelowLast(m[1..]); }
  }

  lemma {:induction false} GetAt<V>(m: seq<(string, V)>, i: nat)
    requires Ascending(BytesLess, m) && i < |m|
    ensures Get(m, m[i].0) == Some(m[i].1)
  {
    OrdersHold();
    if i > 0 {
      GetAt(m[1..], i - 1);
      FrontsAscend(m, i + 1);
      FirstBelowLast(m[..i + 1]);
    }
  }

  lemma {:induction false} FrontsAscend<V>(m: seq<(string, V)>, n: nat)
    requires Ascending(BytesLess, m) && n <= |m|
    ensures Ascending(BytesLess, m[..n])
    decreases |m|
  {
    if n < |m| {
      FrontAscends(m);
      FrontsAscend(m[..|m| - 1], n);
      assert m[..|m| - 1][..n] == m[..n];
    } else {
      assert m[..n] == m;
    }
  }

  lemma {:induction false} GetIndex<K, V>(m: seq<(K, V)>, key: K) returns (i: nat)
    requires Get(m, key).Some?
    ensures i < |m| && m[i] == (key, Get(m, key).value)
  {
    if m[0].0 == key {
      i := 0;
    } else {
      i := GetIndex(m[1..], key);
      i := i + 1;
    }
  }
}
