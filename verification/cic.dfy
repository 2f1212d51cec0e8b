/**
 The arithmetic behind the BB60 source's CIC decimator: four running sums over
 64-bit words that overflow on purpose, followed by four combs at the decimated
 rate.  The reference is a plain moving sum (boxcar) over unbounded integers.
 */
module Cic {

  const ORDER := 4
  const WORD := 0x1_0000_0000_0000_0000
  const HALF := 0x8000_0000_0000_0000

  /** What a `uint64` holds after arithmetic whose exact result is `v`. */
  function Wrap(v: int): (w: nat)
    ensures w < WORD
  {
    v % WORD
  }

  /** The `int64` reading of a 64-bit word. */
  function Signed(w: nat): int
    requires w < WORD
  {
    if w < HALF then w else w - WORD
  }

  /** Sample n of a signal that is zero outside `x`. */
  function At(x: seq<int>, n: int): int {
    if 0 <= n < |x| then x[n] else 0
  }

  // ---- the reference: iterated moving sums ---------------------------------

  /** `order` moving sums of length `rate` applied in turn to `x`, read at n. */
  function Boxcar(x: seq<int>, rate: nat, order: nat, n: int): int
    decreases order, 0, 0
  {
    if order == 0 then At(x, n) else BoxcarWindow(x, rate, order - 1, n, rate)
  }

  /** The sum of the `width` latest values of the previous moving sum. */
  function BoxcarWindow(x: seq<int>, rate: nat, order: nat, n: int, width: nat): int
    decreases order, 1, width
  {
    if width == 0 then 0
    else BoxcarWindow(x, rate, order, n, width - 1) + Boxcar(x, rate, order, n - (width - 1))
  }

  // ---- integrators and combs over unbounded integers ------------------------

  /** The running sums of `x`, one per sample. */
  function Integrate(x: seq<int>): (y: seq<int>)
    ensures |y| == |x|
  {
    if x == [] then []
    else
      var front := Integrate(x[..|x| - 1]);
      front + [At(front, |x| - 2) + x[|x| - 1]]
  }

  function Integrated(x: seq<int>, stages: nat): (y: seq<int>)
    ensures |y| == |x|
  {
    if stages == 0 then x else Integrate(Integrated(x, stages - 1))
  }

  /** `stages` combs of delay `rate`. */
  function Comb(y: seq<int>, rate: nat, stages: nat, n: int): int {
    if stages == 0 then At(y, n)
    else Comb(y, rate, stages - 1, n) - Comb(y, rate, stages - 1, n - rate)
  }

  lemma IntegratePrefix(x: seq<int>, n: int)
    requires 0 <= n < |x|
    ensures At(Integrate(x), n) == At(Integrate(x), n - 1) + x[n]
  {
    if n < |x| - 1 {
      IntegratePrefix(x[..|x| - 1], n);
    }
  }

  lemma {:induction false} BoxcarStep(x: seq<int>, rate: nat, order: nat, n: int)
    requires n < |x|
    ensures Boxcar(Integrate(x), rate, order, n) - Boxcar(Integrate(x), rate, order, n - 1)
         == Boxcar(x, rate, order, n)
    decreases order, 0, 0
  {
    if order == 0 {
      if 0 <= n { IntegratePrefix(x, n); }
    } else {
      WindowStep(x, rate, order - 1, n, rate);
    }
  }

  lemma {:induction false} WindowStep(x: seq<int>, rate: nat, order: nat, n: int, width: nat)
    requires n < |x|
    ensures BoxcarWindow(Integrate(x), rate, order, n, width)
          - BoxcarWindow(Integrate(x), rate, order, n - 1, width)
         == BoxcarWindow(x, rate, order, n, width)
    decreases order, 1, width
  {
    if width > 0 {
      WindowStep(x, rate, order, n, width - 1);
      BoxcarStep(x, rate, order, n - (width - 1));
    }
  }

  /** A comb across `width` samples of an integrated signal is a moving sum. */
  lemma {:induction false} Telescope(x: seq<int>, rate: nat, order: nat, n: int, width: nat)
    requires n < |x|
    ensures Boxcar(Integrate(x), rate, order, n) - Boxcar(Integrate(x), rate, order, n - width)
         == BoxcarWindow(x, rate, order, n, width)
  {
    if width > 0 {
      Telescope(x, rate, order, n, width - 1);
      BoxcarStep(x, rate, order, n - (width - 1));
    }
  }

  lemma {:induction false} CombIsBoxcar(x: seq<int>, rate: nat, sums: nat, combs: nat, n: int)
    requires combs <= sums && n < |x|
    ensures Comb(Integrated(x, sums), rate, combs, n)
         == Boxcar(Integrated(x, sums - combs), rate, combs, n)
  {
    if combs > 0 {
      CombIsBoxcar(x, rate, sums, combs - 1, n);
      CombIsBoxcar(x, rate, sums, combs - 1, n - rate);
      Telescope(Integrated(x, sums - combs), rate, combs - 1, n, rate);
    }
  }

  /** Integrators followed by as many combs are exactly the iterated moving sum. */
  lemma CascadeIsBoxcar(x: seq<int>, rate: nat, n: int)
    requires n < |x|
    ensures Comb(Integrated(x, ORDER), rate, ORDER, n) == Boxcar(x, rate, ORDER, n)
  {
    CombIsBoxcar(x, rate, ORDER, ORDER, n);
    assert Integrated(x, 0) == x;
  }

  // ---- the past never changes ----------------------------------------------

  lemma {:induction false} IntegratedAppend(x: seq<int>, v: int, stages: nat)
    ensures Integrated(x + [v], stages)[..|x|] == Integrated(x, stages)
    ensures stages > 0 ==>
      At(Integrated(x + [v], stages), |x|)
        == At(Integrated(x, stages), |x| - 1) + At(Integrated(x + [v], stages - 1), |x|)
  {
    if stages == 0 {
      assert (x + [v])[..|x|] == x;
    } else {
      IntegratedAppend(x, v, stages - 1);
    }
  }

  lemma {:induction false} CombAppend(x: seq<int>, v: int, rate: nat, sums: nat, combs: nat, n: int)
    requires n < |x|
    ensures Comb(Integrated(x + [v], sums), rate, combs, n) == Comb(Integrated(x, sums), rate, combs, n)
  {
    if combs == 0 {
      IntegratedAppend(x, v, sums);
      if 0 <= n {
        assert Integrated(x + [v], sums)[..|x|][n] == Integrated(x, sums)[n];
      }
    } else {
      CombAppend(x, v, rate, sums, combs - 1, n);
      CombAppend(x, v, rate, sums, combs - 1, n - rate);
    }
  }

  lemma {:induction false} CombOfNothing(y: seq<int>, rate: nat, combs: nat, n: int)
    requires n < 0
    ensures Comb(y, rate, combs, n) == 0
  {
    if combs > 0 {
      CombOfNothing(y, rate, combs - 1, n);
      CombOfNothing(y, rate, combs - 1, n - rate);
    }
  }

  /** A moving sum looks only at the past, so later samples cannot change it. */
  lemma {:induction false} BoxcarPrefix(x: seq<int>, y: seq<int>, rate: nat, order: nat, n: int)
    requires n < |x|
    ensures Boxcar(x + y, rate, order, n) == Boxcar(x, rate, order, n)
    decreases order, 0, 0
  {
    if order > 0 { WindowPrefix(x, y, rate, order - 1, n, rate); }
  }

  lemma {:induction false} WindowPrefix(x: seq<int>, y: seq<int>, rate: nat, order: nat, n: int, width: nat)
    requires n < |x|
    ensures BoxcarWindow(x + y, rate, order, n, width) == BoxcarWindow(x, rate, order, n, width)
    decreases order, 1, width
  {
    if width > 0 {
      WindowPrefix(x, y, rate, order, n, width - 1);
      BoxcarPrefix(x, y, rate, order, n - (width - 1));
    }
  }

  // ---- word arithmetic ------------------------------------------------------

  lemma WrapCongruent(a: int, b: int, k: int)
    requires a == b + k * WORD
    ensures Wrap(a) == Wrap(b)
  {
  }

  lemma WrapAdd(a: int, b: int)
    ensures Wrap(Wrap(a) + Wrap(b)) == Wrap(a + b)
  {
    WrapCongruent(a + b, Wrap(a) + Wrap(b), a / WORD + b / WORD);
  }

  lemma WrapSub(a: int, b: int)
    ensures Wrap(Wrap(a) - Wrap(b)) == Wrap(a - b)
  {
    WrapCongruent(a - b, Wrap(a) - Wrap(b), a / WORD - b / WORD);
  }

  /** The signed reading of a wrapped value is exact precisely on the int64 range. */
  lemma SignedExactIff(v: int)
    ensures Signed(Wrap(v)) == v <==> -HALF <= v < HALF
  {
  }

  // ---- magnitude ------------------------------------------------------------

  function Power(base: nat, e: nat): nat {
    if e == 0 then 1 else base * Power(base, e - 1)
  }

  ghost predicate Bounded(x: seq<int>, peak: nat) {
    forall n :: 0 <= n < |x| ==> 0 - peak <= x[n] <= peak
  }

  lemma {:induction false} BoxcarBound(x: seq<int>, rate: nat, order: nat, n: int, peak: nat)
    requires Bounded(x, peak)
    ensures -(Power(rate, order) * peak) <= Boxcar(x, rate, order, n) <= Power(rate, order) * peak
    decreases order, 0, 0
  {
    if order > 0 {
      WindowBound(x, rate, order - 1, n, rate, peak);
      assert rate * (Power(rate, order - 1) * peak) == Power(rate, order) * peak by {
        Associate(rate, Power(rate, order - 1), peak);
      }
    }
  }

  lemma Associate(a: int, b: int, c: int)
    ensures a * (b * c) == (a * b) * c
  {
  }

  lemma {:induction false} WindowBound(x: seq<int>, rate: nat, order: nat, n: int, width: nat, peak: nat)
    requires Bounded(x, peak)
    ensures -(width * (Power(rate, order) * peak))
         <= BoxcarWindow(x, rate, order, n, width)
         <= width * (Power(rate, order) * peak)
    decreases order, 1, width
  {
    if width > 0 {
      var each := Power(rate, order) * peak;
      WindowBound(x, rate, order, n, width - 1, peak);
      BoxcarBound(x, rate, order, n - (width - 1), peak);
      assert width * each == (width - 1) * each + each;
    }
  }

  /** A signal held at one value; at its peak it drives the moving sum to the bound. */
  lemma {:induction false} BoxcarOfPeak(x: seq<int>, rate: nat, order: nat, n: int, peak: int)
    requires forall k :: 0 <= k < |x| ==> x[k] == peak
    requires order * rate <= n < |x|
    ensures Boxcar(x, rate, order, n) == Power(rate, order) * peak
    decreases order, 0, 0
  {
    if order > 0 {
      assert order * rate == (order - 1) * rate + rate;
      WindowOfPeak(x, rate, order - 1, n, rate, peak);
      Associate(rate, Power(rate, order - 1), peak);
    }
  }

  lemma {:induction false} WindowOfPeak(x: seq<int>, rate: nat, order: nat, n: int, width: nat, peak: int)
    requires forall k :: 0 <= k < |x| ==> x[k] == peak
    requires width <= rate && order * rate + rate <= n < |x|
    ensures BoxcarWindow(x, rate, order, n, width) == width * (Power(rate, order) * peak)
    decreases order, 1, width
  {
    if width > 0 {
      var each := Power(rate, order) * peak;
      WindowOfPeak(x, rate, order, n, width - 1, peak);
      BoxcarOfPeak(x, rate, order, n - (width - 1), peak);
      assert width * each == (width - 1) * each + each;
    }
  }

  /** The CIC output the block computes for sample n, in 64-bit arithmetic. */
  function CicWord(x: seq<int>, rate: nat, n: int): (w: nat)
    ensures w < WORD
  {
    Wrap(Boxcar(x, rate, ORDER, n))
  }

  /** Every input within `peak` is decimated without error at this rate. */
  ghost predicate ExactFor(rate: nat, peak: nat) {
    forall x: seq<int>, n: int :: Bounded(x, peak) ==>
      Signed(CicWord(x, rate, n)) == Boxcar(x, rate, ORDER, n)
  }

  /**
   The signed reading is the exact moving sum for all inputs within `peak`
   precisely when rate^4 * peak fits in 63 bits.
   */
  lemma ExactIff(rate: nat, peak: nat)
    ensures ExactFor(rate, peak) <==> Power(rate, ORDER) * peak < HALF
  {
    if Power(rate, ORDER) * peak < HALF {
      forall x: seq<int>, n: int | Bounded(x, peak)
        ensures Signed(CicWord(x, rate, n)) == Boxcar(x, rate, ORDER, n)
      {
        BoxcarBound(x, rate, ORDER, n, peak);
        SignedExactIff(Boxcar(x, rate, ORDER, n));
      }
    } else {
      var n := ORDER * rate;
      var x := seq(n + 1, _ => peak as int);
      assert Bounded(x, peak);
      BoxcarOfPeak(x, rate, ORDER, n, peak);
      SignedExactIff(Boxcar(x, rate, ORDER, n));
      assert Signed(CicWord(x, rate, n)) != Boxcar(x, rate, ORDER, n);
    }
  }
}
