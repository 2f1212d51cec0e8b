/** The Gray code i xor (i >> 1), and the inverse table the constellations fill. */
module Gray {
  import opened Bits

  function Code(i: nat): nat {
    Xor(i, i / 2)
  }

  /** The code of a number, from the code of its half. */
  lemma CodeHalves(i: nat)
    ensures Code(i) / 2 == Code(i / 2)
    ensures Code(i) % 2 == if i % 2 == i / 2 % 2 then 0 else 1
  {
  }

  lemma {:induction false} CodeBelow(i: nat, k: nat)
    requires i < PowerOfTwo(k)
    ensures Code(i) < PowerOfTwo(k)
  {
    if k > 0 {
      CodeBelow(i / 2, k - 1);
      CodeHalves(i);
    }
  }

  /** Distinct numbers have distinct codes. */
  lemma {:induction false} CodeInjective(i: nat, j: nat)
    requires Code(i) == Code(j)
    ensures i == j
    decreases i + j
  {
    if i + j > 0 {
      CodeHalves(i);
      CodeHalves(j);
      CodeInjective(i / 2, j / 2);
    }
  }

  /** The number with a given code. */
  function Decoded(v: nat): nat {
    if v == 0 then 0
    else
      var high := Decoded(v / 2);
      2 * high + if v % 2 == high % 2 then 0 else 1
  }

  lemma {:induction false} DecodedInverts(v: nat)
    ensures Code(Decoded(v)) == v
  {
    if v > 0 {
      DecodedInverts(v / 2);
      CodeHalves(Decoded(v));
    }
  }

  lemma {:induction false} DecodedBelow(v: nat, k: nat)
    requires v < PowerOfTwo(k)
    ensures Decoded(v) < PowerOfTwo(k)
  {
    if k > 0 { DecodedBelow(v / 2, k - 1); }
  }

  lemma CodeOf(h: nat, bit: nat)
    requires bit < 2
    ensures Code(2 * h + bit) / 2 == Code(h)
    ensures Code(2 * h + bit) % 2 == if bit == h % 2 then 0 else 1
  {
    assert (2 * h + bit) / 2 == h && (2 * h + bit) % 2 == bit;
    CodeHalves(2 * h + bit);
  }

  lemma EvenStep(h: nat)
    ensures OneBitApart(Code(2 * h), Code(2 * h + 1))
  {
    CodeOf(h, 0);
    CodeOf(h, 1);
    LowBitOnly(Code(2 * h), Code(2 * h + 1));
  }

  lemma OddStep(h: nat, a: nat, b: nat)
    requires OneBitApart(Code(h), Code(h + 1)) && a == Code(2 * h + 1) && b == Code(2 * h + 2)
    ensures OneBitApart(a, b)
  {
    OddParts(h);
    DoubledOneBit(a, b);
  }

  lemma OddParts(h: nat)
    ensures Code(2 * h + 1) / 2 == Code(h) && Code(2 * h + 2) / 2 == Code(h + 1)
    ensures Code(2 * h + 1) % 2 == Code(2 * h + 2) % 2
  {
    CodeOf(h, 1);
    CodeOf(h + 1, 0);
  }

  /** Neighbouring codes differ in exactly one bit. */
  lemma {:induction false} NeighboursOneBit(i: nat)
    ensures OneBitApart(Code(i), Code(i + 1))
  {
    if i % 2 == 0 {
      EvenStep(i / 2);
    } else {
      NeighboursOneBit(i / 2);
      OddStep(i / 2, Code(i), Code(i + 1));
    }
  }

  lemma {:induction false} LastCode(k: nat)
    requires 0 < k
    ensures Code(PowerOfTwo(k) - 1) == PowerOfTwo(k - 1)
  {
    if k > 1 {
      LastCode(k - 1);
      assert (PowerOfTwo(k) - 1) / 2 == PowerOfTwo(k - 1) - 1;
      CodeHalves(PowerOfTwo(k) - 1);
    }
  }

  /** And so do the last and the first. */
  lemma {:induction false} WrapOneBit(k: nat)
    requires 0 < k
    ensures OneBitApart(Code(PowerOfTwo(k) - 1), Code(0))
  {
    LastCode(k);
    PowersOfTwo(k - 1);
    XorZero(PowerOfTwo(k - 1));
  }

  // ---- permutations as tables -------------------------------------------------------------

  /** Each number below the length stands in the table once. */
  ghost predicate Permutation(code: seq<nat>) {
    && (forall i :: 0 <= i < |code| ==> code[i] < |code|)
    && (forall i, j :: 0 <= i < j < |code| ==> code[i] != code[j])
  }

  ghost predicate Inverse(code: seq<nat>, inverse: seq<nat>) {
    && |inverse| == |code|
    && (forall i :: 0 <= i < |code| ==> code[i] < |code| && inverse[code[i]] == i)
  }

  /** The loop `inverse[code[i]] = i`. */
  method FillInverse(code: seq<nat>) returns (inverse: seq<nat>)
    requires Permutation(code)
    ensures Inverse(code, inverse) && forall v :: 0 <= v < |inverse| ==> inverse[v] < |code|
  {
    var table := new nat[|code|](_ => 0);
    for i := 0 to |code|
      invariant forall j :: 0 <= j < i ==> table[code[j]] == j
      invariant forall v :: 0 <= v < |code| ==> table[v] < |code|
    {
      table[code[i]] := i;
    }
    inverse := table[..];
  }

  function Elements(code: seq<nat>): set<nat> {
    if code == [] then {} else Elements(code[..|code| - 1]) + {code[|code| - 1]}
  }

  lemma {:induction false} ElementsAre(code: seq<nat>, v: nat)
    ensures v in Elements(code) <==> v in code
  {
    if code != [] {
      ElementsAre(code[..|code| - 1], v);
      assert code == code[..|code| - 1] + [code[|code| - 1]];
    }
  }

  lemma {:induction false} ElementsCount(code: seq<nat>)
    requires forall i, j :: 0 <= i < j < |code| ==> code[i] != code[j]
    ensures |Elements(code)| == |code|
  {
    if code != [] {
      ElementsCount(code[..|code| - 1]);
      ElementsAre(code[..|code| - 1], code[|code| - 1]);
    }
  }

  function Below(n: nat): set<nat> {
    if n == 0 then {} else Below(n - 1) + {n - 1}
  }

  lemma {:induction false} BelowIs(n: nat, v: nat)
    ensures v in Below(n) <==> v < n
  {
    if n > 0 { BelowIs(n - 1, v); }
  }

  lemma {:induction false} BelowCount(n: nat)
    ensures |Below(n)| == n
  {
    if n > 0 {
      BelowCount(n - 1);
      BelowIs(n - 1, n - 1);
    }
  }

  lemma WholeSubset(a: set<nat>, b: set<nat>)
    requires a <= b && |a| == |b|
    ensures a == b
  {
    assert b == a + (b - a) && |b - a| == |b| - |a|;
  }

  /** Distinct entries below the length leave none of them out. */
  lemma PermutationCovers(code: seq<nat>, v: nat)
    requires Permutation(code) && v < |code|
    ensures v in code
  {
    ElementsCount(code);
    BelowCount(|code|);
    forall w | w in Elements(code)
      ensures w in Below(|code|)
    {
      ElementsAre(code, w);
      BelowIs(|code|, w);
    }
    WholeSubset(Elements(code), Below(|code|));
    BelowIs(|code|, v);
    ElementsAre(code, v);
  }

  function Codes(count: nat): (codes: seq<nat>)
    ensures |codes| == count && forall i :: 0 <= i < count ==> codes[i] == Code(i)
  {
    if count == 0 then [] else Codes(count - 1) + [Code(count - 1)]
  }

  lemma CodesPermute(k: nat)
    ensures Permutation(Codes(PowerOfTwo(k)))
  {
    var codes := Codes(PowerOfTwo(k));
    forall i | 0 <= i < |codes|
      ensures codes[i] < |codes|
    {
      CodeBelow(i, k);
    }
    forall i, j | 0 <= i < j < |codes|
      ensures codes[i] != codes[j]
    {
      if codes[i] == codes[j] { CodeInjective(i, j); }
    }
  }

  /** So the inverse table has no gap: entry v holds the number coded v. */
  lemma InverseIsDecoded(inverse: seq<nat>, k: nat, v: nat)
    requires Inverse(Codes(PowerOfTwo(k)), inverse) && v < PowerOfTwo(k)
    ensures inverse[v] == Decoded(v)
  {
    DecodedBelow(v, k);
    DecodedInverts(v);
    assert Codes(PowerOfTwo(k))[Decoded(v)] == v;
  }
}
