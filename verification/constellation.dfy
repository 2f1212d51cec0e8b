/**
 The constellations of digital_hier.hpp: labelled points on a circle or a grid,
 what neighbouring labels share, and what a rotation does to them.
 */
module Constellation {
  import opened Arithmetic
  import opened Bits
  import opened Sequences
  import opened Wrappers
  import Gray

  const BAD_CODE := "code must be gray or none"

  predicate KnownCode(modCode: string) {
    modCode == "gray" || modCode == "none"
  }

  // ---- points on a circle -----------------------------------------------------------------

  /**
   points[label] is the phase of its point, in steps of a full turn divided by the
   number of points; preDiff is the map applied before differential encoding.
   */
  datatype Psk = Psk(points: seq<nat>, preDiff: seq<nat>)

  /** Label Code(p) stands at phase p. */
  ghost predicate GrayCircle(points: seq<nat>) {
    forall p :: 0 <= p < |points| ==> Gray.Code(p) < |points| && points[Gray.Code(p)] == p
  }

  lemma {:induction false} PowerExponent(n: nat) returns (k: nat)
    requires IsPowerOfTwo(n)
    ensures n == PowerOfTwo(k) && (n > 1 ==> k > 0)
  {
    if n == 1 {
      k := 0;
    } else {
      k := PowerExponent(n / 2);
      k := k + 1;
    }
  }

  /** make_psk_constellation() */
  method MakePsk(count: nat, modCode: string, differential: bool) returns (r: Result<Psk>)
    ensures r.Err? <==> count < 2 || !IsPowerOfTwo(count) || !KnownCode(modCode)
    ensures r.Ok? ==> |r.value.points| == count && Gray.Permutation(r.value.points)
    ensures r.Ok? && (modCode == "none" || differential) ==> r.value.points == Upto(count)
    ensures r.Ok? && modCode == "gray" && !differential ==> GrayCircle(r.value.points)
    ensures r.Ok? ==> r.value.preDiff == if modCode == "gray" && differential then Gray.Codes(count) else []
  {
    if count > 0 { AndPredecessor(count); }
    if count < 2 || And(count, count - 1) != 0 {
      return Err("PSK constellation points must be a power of two");
    }
    if modCode != "gray" && modCode != "none" { return Err("PSK " + BAD_CODE); }
    var points, gray := [], [];
    for i := 0 to count
      invariant points == Upto(i) && gray == Gray.Codes(i)
    {
      points := points + [i];
      gray := gray + [Xor(i, i / 2)];
    }
    if modCode == "none" { return Ok(Psk(points, [])); }
    if differential { return Ok(Psk(points, gray)); }
    points := Reordered(points, gray);
    return Ok(Psk(points, []));
  }

  /** The points put in Gray order: the point coded v is the one v decodes to. */
  method Reordered(points: seq<nat>, gray: seq<nat>) returns (reordered: seq<nat>)
    requires IsPowerOfTwo(|points|) && points == Upto(|points|) && gray == Gray.Codes(|points|)
    ensures |reordered| == |points| && Gray.Permutation(reordered) && GrayCircle(reordered)
  {
    CodePermutes(|points|);
    var inverse := Gray.FillInverse(gray);
    InverseCircle(gray, inverse);
    reordered := [];
    for i := 0 to |points|
      invariant reordered == inverse[..i]
    {
      reordered := reordered + [points[inverse[i]]];
    }
  }

  lemma CodePermutes(n: nat)
    requires IsPowerOfTwo(n)
    ensures Gray.Permutation(Gray.Codes(n))
  {
    var k := PowerExponent(n);
    Gray.CodesPermute(k);
  }

  lemma InverseCircle(gray: seq<nat>, inverse: seq<nat>)
    requires IsPowerOfTwo(|gray|) && gray == Gray.Codes(|gray|) && Gray.Inverse(gray, inverse)
    ensures Gray.Permutation(inverse) && GrayCircle(inverse)
  {
    var k := PowerExponent(|gray|);
    InversePermutes(inverse, k);
  }

  lemma InversePermutes(inverse: seq<nat>, k: nat)
    requires Gray.Inverse(Gray.Codes(PowerOfTwo(k)), inverse)
    ensures Gray.Permutation(inverse)
  {
    forall v | 0 <= v < |inverse|
      ensures inverse[v] < |inverse| && Gray.Code(inverse[v]) == v
    {
      Gray.InverseIsDecoded(inverse, k, v);
      Gray.DecodedBelow(v, k);
      Gray.DecodedInverts(v);
    }
  }

  /** On a Gray-coded circle neighbours differ in exactly one bit, all the way round. */
  lemma CircleNeighbours(points: seq<nat>, a: nat, b: nat)
    requires IsPowerOfTwo(|points|) && |points| >= 2 && Gray.Permutation(points) && GrayCircle(points)
    requires a < |points| && b < |points| && points[b] == (points[a] + 1) % |points|
    ensures OneBitApart(a, b)
  {
    var k := PowerExponent(|points|);
    var p, q := points[a], points[b];
    LabelAtPhase(points, a);
    LabelAtPhase(points, b);
    if p + 1 < |points| {
      ModUnique(p + 1, |points|, 0, p + 1);
      Gray.NeighboursOneBit(p);
    } else {
      ModUnique(p + 1, |points|, 1, 0);
      Gray.WrapOneBit(k);
    }
  }

  lemma LabelAtPhase(points: seq<nat>, a: nat)
    requires Gray.Permutation(points) && GrayCircle(points) && a < |points|
    ensures Gray.Code(points[a]) == a
  {
    var b := Gray.Code(points[a]);
    assert points[b] == points[a];
  }

  // ---- points on a grid --------------------------------------------------------------------

  type Point = (real, real)

  /** (x >> n) % (1 << width) */
  function Field(x: nat, n: nat, width: nat): (f: nat)
    ensures f < PowerOfTwo(width)
  {
    x / PowerOfTwo(n) % PowerOfTwo(width)
  }

  /** The spacing and the places along one axis of a quadrant 2^half points wide. */
  function QuadrantStep(half: nat): (step: real)
    ensures step > 0.0
  {
    1.0 / (PowerOfTwo(half) as real - 0.5)
  }

  function QuadrantAxis(half: nat, i: nat): real {
    (i as real + 0.5) * QuadrantStep(half)
  }

  /** A quarter turn about the origin. */
  function Turned(p: Point): Point {
    (-p.1, p.0)
  }

  /** Differential layout: two bits for the quadrant, the rest a grid turned with it. */
  function TurnedPoint(half: nat, i: nat): Point {
    var y := QuadrantAxis(half, Field(i, 0, half));
    var x := QuadrantAxis(half, Field(i, half, half));
    match Field(i, 2 * half, 2)
    case 0 => (x, y)
    case 1 => (-y, x)
    case 2 => (-x, -y)
    case _ => (y, -x)
  }

  function GridStep(half: nat): (step: real)
    requires 0 < half
    ensures step > 0.0
  {
    2.0 / (PowerOfTwo(half) as real - 1.0)
  }

  function GridAxis(half: nat, place: nat): real
    requires 0 < half
  {
    -1.0 + place as real * GridStep(half)
  }

  /** Where an axis label stands, counted from the low end. */
  function Place(gray: bool, v: nat): nat {
    if gray then Gray.Decoded(v) else v
  }

  function GridPoint(half: nat, gray: bool, i: nat): Point
    requires 0 < half
  {
    (GridAxis(half, Place(gray, Field(i, half, half))), GridAxis(half, Place(gray, Field(i, 0, half))))
  }

  // ---- a quarter turn ------------------------------------------------------------------------

  lemma FieldShift(i: int, c: int, n: nat, h: nat)
    requires 0 < h && 0 < n
    ensures (i + c * (n * h)) % n == i % n
    ensures (i + c * (n * h)) / n % h == i / n % h
  {
    assert c * (n * h) == (c * h) * n by { Shuffle(c, n, h); }
    ModShift(i, c * h, n);
    ModUnique(i + (c * h) * n, n, i / n + c * h, i % n) by { Spread(i, c, n, h); }
    ModShift(i / n, c, h);
  }

  lemma Shuffle(c: int, n: nat, h: nat)
    ensures c * (n * h) == (c * h) * n
  {
  }

  lemma Spread(i: int, c: int, n: nat, h: nat)
    requires 0 < n
    ensures i + (c * h) * n == (i / n + c * h) * n + i % n
  {
  }

  lemma {:induction false} PowerSum(j: nat, k: nat)
    ensures PowerOfTwo(j + k) == PowerOfTwo(j) * PowerOfTwo(k)
  {
    if j > 0 {
      PowerSum(j - 1, k);
      assert 2 * (PowerOfTwo(j - 1) * PowerOfTwo(k)) == (2 * PowerOfTwo(j - 1)) * PowerOfTwo(k);
    }
  }

  /** The label a quarter of the constellation further on. */
  function QuarterOn(half: nat, i: nat): nat {
    (i + PowerOfTwo(2 * half)) % PowerOfTwo(2 * half + 2)
  }

  lemma FourQuarters(half: nat)
    ensures PowerOfTwo(2 * half) == PowerOfTwo(half) * PowerOfTwo(half)
    ensures PowerOfTwo(2 * half + 2) == 4 * PowerOfTwo(2 * half)
  {
    PowerSum(half, half);
    assert PowerOfTwo(2 * half + 2) == 2 * PowerOfTwo(2 * half + 1);
  }

  lemma TurnOnce(i: nat, quarter: nat, lap: nat)
    requires 0 < quarter && i < 4 * quarter && lap == (if i + quarter < 4 * quarter then 0 else 1)
    ensures (i + quarter) % (4 * quarter) == i + (1 - 4 * lap) * quarter
  {
    ModUnique(i + quarter, 4 * quarter, lap, i + quarter - lap * (4 * quarter));
  }

  lemma FieldsOfTurn(half: nat, i: nat)
    requires i < PowerOfTwo(2 * half + 2)
    ensures var j := QuarterOn(half, i);
      && Field(j, 0, half) == Field(i, 0, half) && Field(j, half, half) == Field(i, half, half)
      && Field(i, 2 * half, 2) == i / PowerOfTwo(2 * half) < 4
      && Field(j, 2 * half, 2) == (Field(i, 2 * half, 2) + 1) % 4
  {
    var side, quarter := PowerOfTwo(half), PowerOfTwo(2 * half);
    FourQuarters(half);
    assert PowerOfTwo(2) == 4 by { assert PowerOfTwo(1) == 2; }
    var lap: nat := if i + quarter < 4 * quarter then 0 else 1;
    TurnOnce(i, quarter, lap);
    FieldShift(i, 1 - 4 * lap, side, side);
    QuarterFields(i, quarter, lap);
  }

  lemma QuarterFields(i: nat, quarter: nat, lap: nat)
    requires 0 < quarter && i < 4 * quarter && lap == (if i + quarter < 4 * quarter then 0 else 1)
    ensures i / quarter % 4 == i / quarter < 4
    ensures (i + (1 - 4 * lap) * quarter) / quarter % 4 == (i / quarter + 1) % 4
  {
    WholePart(i, quarter);
    QuotientBelow(i, quarter, 4);
    var q := i / quarter;
    ModUnique(i + (1 - 4 * lap) * quarter, quarter, q + 1 - 4 * lap, i % quarter);
  }

  /** A quarter turn moves every point to the label a quarter of the labels on. */
  lemma TurnAddsQuarter(half: nat, i: nat)
    requires i < PowerOfTwo(2 * half + 2)
    ensures TurnedPoint(half, QuarterOn(half, i)) == Turned(TurnedPoint(half, i))
  {
    FieldsOfTurn(half, i);
  }

  // ---- distinct points, and neighbours on the grid --------------------------------------------------

  lemma AxisPositive(half: nat, i: nat)
    ensures QuadrantAxis(half, i) > 0.0
  {
  }

  lemma ScaledApart(a: real, b: real, step: real)
    requires step > 0.0 && a != b
    ensures a * step != b * step
  {
    if a < b { assert (b - a) * step > 0.0; } else { assert (a - b) * step > 0.0; }
  }

  lemma QuadrantAxisInjective(half: nat, i: nat, j: nat)
    requires QuadrantAxis(half, i) == QuadrantAxis(half, j)
    ensures i == j
  {
    if i != j { ScaledApart(i as real + 0.5, j as real + 0.5, QuadrantStep(half)); }
  }

  lemma GridAxisInjective(half: nat, i: nat, j: nat)
    requires 0 < half && GridAxis(half, i) == GridAxis(half, j)
    ensures i == j
  {
    if i != j { ScaledApart(i as real, j as real, GridStep(half)); }
  }

  lemma TwoDigits(i: nat, side: nat, square: nat)
    requires 0 < side && square == side * side
    ensures 0 < square && i == (i / square) * square + (i / side % side) * side + i % side
  {
    assert square >= side by { ScaleUp(side, side); }
    WholePart(i, side);
    WholePart(i / side, side);
    NestedQuotient(i, side, side);
    var q, f := i / square, i / side % side;
    Expand(q, side, f, side);
  }

  lemma QuotientBelow(i: nat, n: nat, top: nat)
    requires 0 < n && i < top * n
    ensures i / n < top
  {
    WholePart(i, n);
    var over := i / n - top;
    ScaleDown(if over >= 0 then over else 0, n);
    assert over * n == i / n * n - top * n;
  }

  /** A label is its fields. */
  lemma LabelOfFields(half: nat, i: nat)
    ensures i == (i / PowerOfTwo(2 * half)) * PowerOfTwo(2 * half)
              + Field(i, half, half) * PowerOfTwo(half) + Field(i, 0, half)
  {
    FourQuarters(half);
    TwoDigits(i, PowerOfTwo(half), PowerOfTwo(2 * half));
    assert i / 1 == i;
  }

  lemma TurnedDistinct(half: nat, i: nat, j: nat)
    requires i < PowerOfTwo(2 * half + 2) && j < PowerOfTwo(2 * half + 2)
    requires TurnedPoint(half, i) == TurnedPoint(half, j)
    ensures i == j
  {
    LabelOfFields(half, i);
    LabelOfFields(half, j);
    FieldsOfTurn(half, i);
    FieldsOfTurn(half, j);
    var a, b := Field(i, 0, half), Field(i, half, half);
    var c, d := Field(j, 0, half), Field(j, half, half);
    AxisPositive(half, a);
    AxisPositive(half, b);
    AxisPositive(half, c);
    AxisPositive(half, d);
    assert QuadrantAxis(half, a) == QuadrantAxis(half, c) && QuadrantAxis(half, b) == QuadrantAxis(half, d);
    QuadrantAxisInjective(half, a, c);
    QuadrantAxisInjective(half, b, d);
  }

  lemma PlaceInjective(gray: bool, a: nat, b: nat)
    requires Place(gray, a) == Place(gray, b)
    ensures a == b
  {
    Gray.DecodedInverts(a);
    Gray.DecodedInverts(b);
  }

  /** With no top field, two fields make the label. */
  lemma LabelOfTwoFields(half: nat, i: nat)
    requires i < PowerOfTwo(2 * half)
    ensures i == Field(i, half, half) * PowerOfTwo(half) + Field(i, 0, half)
  {
    LabelOfFields(half, i);
    ModUnique(i, PowerOfTwo(2 * half), 0, i);
  }

  lemma GridFieldsEqual(half: nat, gray: bool, i: nat, j: nat)
    requires 0 < half && GridPoint(half, gray, i) == GridPoint(half, gray, j)
    ensures Field(i, 0, half) == Field(j, 0, half) && Field(i, half, half) == Field(j, half, half)
  {
    var a, b, c, d := Field(i, 0, half), Field(i, half, half), Field(j, 0, half), Field(j, half, half);
    GridAxisInjective(half, Place(gray, a), Place(gray, c));
    GridAxisInjective(half, Place(gray, b), Place(gray, d));
    PlaceInjective(gray, a, c);
    PlaceInjective(gray, b, d);
  }

  lemma GridDistinct(half: nat, gray: bool, i: nat, j: nat)
    requires 0 < half && i < PowerOfTwo(2 * half) && j < PowerOfTwo(2 * half)
    requires GridPoint(half, gray, i) == GridPoint(half, gray, j)
    ensures i == j
  {
    GridFieldsEqual(half, gray, i, j);
    LabelOfTwoFields(half, i);
    LabelOfTwoFields(half, j);
  }

  /** The label of the point in column x, row y of a Gray-coded grid. */
  function GridLabel(half: nat, x: nat, y: nat): nat {
    Gray.Code(x) * PowerOfTwo(half) + Gray.Code(y)
  }

  lemma DecodedOfCode(v: nat)
    ensures Gray.Decoded(Gray.Code(v)) == v
  {
    Gray.DecodedInverts(Gray.Code(v));
    Gray.CodeInjective(Gray.Decoded(Gray.Code(v)), v);
  }

  lemma GridLabelStands(half: nat, x: nat, y: nat)
    requires 0 < half && x < PowerOfTwo(half) && y < PowerOfTwo(half)
    ensures GridLabel(half, x, y) < PowerOfTwo(2 * half)
    ensures GridPoint(half, true, GridLabel(half, x, y)) == (GridAxis(half, x), GridAxis(half, y))
  {
    var side, i := PowerOfTwo(half), GridLabel(half, x, y);
    Gray.CodeBelow(x, half);
    Gray.CodeBelow(y, half);
    FourQuarters(half);
    LabelFits(Gray.Code(x), Gray.Code(y), side);
    assert i / 1 == i;
    ModUnique(i, side, Gray.Code(x), Gray.Code(y));
    ModUnique(Gray.Code(x), side, 0, Gray.Code(x));
    DecodedOfCode(x);
    DecodedOfCode(y);
  }

  /** Without the Gray code the label counts along the rows. */
  lemma PlainLabelStands(half: nat, x: nat, y: nat, i: nat)
    requires 0 < half && x < PowerOfTwo(half) && y < PowerOfTwo(half) && i == x * PowerOfTwo(half) + y
    ensures i < PowerOfTwo(2 * half) && GridPoint(half, false, i) == (GridAxis(half, x), GridAxis(half, y))
  {
    FieldsOf(half, x, y, i);
    GridPointOf(half, x, y, i);
  }

  lemma GridPointOf(half: nat, x: nat, y: nat, i: nat)
    requires 0 < half && Field(i, 0, half) == y && Field(i, half, half) == x
    ensures GridPoint(half, false, i) == (GridAxis(half, x), GridAxis(half, y))
  {
  }

  /** In the first quadrant of the differential layout as well. */
  lemma TurnedLabelStands(half: nat, x: nat, y: nat, i: nat)
    requires x < PowerOfTwo(half) && y < PowerOfTwo(half) && i == x * PowerOfTwo(half) + y
    ensures i < PowerOfTwo(2 * half) && TurnedPoint(half, i) == (QuadrantAxis(half, x), QuadrantAxis(half, y))
  {
    FieldsOf(half, x, y, i);
    FirstQuadrant(half, i);
    TurnedPointOf(half, x, y, i);
  }

  lemma FirstQuadrant(half: nat, i: nat)
    requires i < PowerOfTwo(2 * half)
    ensures Field(i, 2 * half, 2) == 0
  {
    ModUnique(i, PowerOfTwo(2 * half), 0, i);
    assert 0 % PowerOfTwo(2) == 0;
  }

  lemma TurnedPointOf(half: nat, x: nat, y: nat, i: nat)
    requires Field(i, 0, half) == y && Field(i, half, half) == x && Field(i, 2 * half, 2) == 0
    ensures TurnedPoint(half, i) == (QuadrantAxis(half, x), QuadrantAxis(half, y))
  {
  }

  lemma FieldsOf(half: nat, x: nat, y: nat, i: nat)
    requires x < PowerOfTwo(half) && y < PowerOfTwo(half) && i == x * PowerOfTwo(half) + y
    ensures i < PowerOfTwo(2 * half) && Field(i, 0, half) == y && Field(i, half, half) == x
  {
    var side := PowerOfTwo(half);
    FourQuarters(half);
    LabelFits(x, y, side);
    assert i / 1 == i;
    ModUnique(i, side, x, y);
    ModUnique(x, side, 0, x);
  }

  /** The grid runs from -1 to 1 in equal steps, and is the same seen from either end. */
  lemma GridCentred(half: nat, p: nat)
    requires 0 < half && p < PowerOfTwo(half)
    ensures GridAxis(half, 0) == -1.0 && GridAxis(half, PowerOfTwo(half) - 1) == 1.0
    ensures (GridAxis(half, p + 1) - GridAxis(half, p)) * (PowerOfTwo(half) - 1) as real == 2.0
    ensures GridAxis(half, PowerOfTwo(half) - 1 - p) == -GridAxis(half, p)
  {
    var gaps, step := (PowerOfTwo(half) - 1) as real, GridStep(half);
    assert step * gaps == 2.0;
    Distribute(gaps, p as real, step);
    Distribute((p + 1) as real, p as real, step);
  }

  /** A quadrant's grid ends at 1, and its first point is half a step from the axis. */
  lemma QuadrantCentred(half: nat, p: nat)
    ensures QuadrantAxis(half, PowerOfTwo(half) - 1) == 1.0
    ensures QuadrantAxis(half, p + 1) - QuadrantAxis(half, p) == 2.0 * QuadrantAxis(half, 0)
  {
    var step := QuadrantStep(half);
    assert step * (PowerOfTwo(half) as real - 0.5) == 1.0;
    Distribute((p + 1) as real + 0.5, p as real + 0.5, step);
  }

  lemma Distribute(a: real, b: real, c: real)
    ensures (a - b) * c == a * c - b * c
  {
  }

  lemma LabelFits(a: nat, b: nat, side: nat)
    requires a < side && b < side
    ensures a * side + b < side * side
  {
    ScaleDown(side - a - 1, side);
    assert (side - a - 1) * side == side * side - a * side - side;
  }

  /** On a Gray-coded grid, neighbours along a row or a column differ in exactly one bit. */
  lemma GridNeighbours(half: nat, x: nat, y: nat)
    requires 0 < half && x < PowerOfTwo(half) && y < PowerOfTwo(half)
    ensures x + 1 < PowerOfTwo(half) ==> OneBitApart(GridLabel(half, x, y), GridLabel(half, x + 1, y))
    ensures y + 1 < PowerOfTwo(half) ==> OneBitApart(GridLabel(half, x, y), GridLabel(half, x, y + 1))
  {
    ColumnsApart(half, x, y);
    if y + 1 < PowerOfTwo(half) { RowsApart(half, x, y); }
  }

  lemma ColumnsApart(half: nat, x: nat, y: nat)
    requires y < PowerOfTwo(half)
    ensures OneBitApart(GridLabel(half, x, y), GridLabel(half, x + 1, y))
  {
    Gray.CodeBelow(y, half);
    Gray.NeighboursOneBit(x);
    XorHigh(Gray.Code(x), Gray.Code(x + 1), Gray.Code(y), half);
  }

  lemma RowsApart(half: nat, x: nat, y: nat)
    requires y + 1 < PowerOfTwo(half)
    ensures OneBitApart(GridLabel(half, x, y), GridLabel(half, x, y + 1))
  {
    Gray.CodeBelow(y, half);
    Gray.CodeBelow(y + 1, half);
    Gray.NeighboursOneBit(y);
    XorLow(Gray.Code(x), Gray.Code(y), Gray.Code(y + 1), half);
  }

  // ---- make_qam_constellation() ------------------------------------------------------------------------

  /** A power of four, at least 4. */
  ghost predicate PowerOfFour(count: nat) {
    exists half :: 0 < half && count == PowerOfTwo(2 * half)
  }

  /** The loop that counts how often a number halves before it is 1. */
  method Halvings(count: nat) returns (k: nat)
    ensures count > 0 ==> PowerOfTwo(k) <= count < 2 * PowerOfTwo(k)
  {
    k := 0;
    var points := count;
    while points > 1
      invariant count > 0 ==> points >= 1 && points * PowerOfTwo(k) <= count < (points + 1) * PowerOfTwo(k)
    {
      HalvedBounds(count, points, PowerOfTwo(k));
      points := points / 2;
      k := k + 1;
    }
  }

  lemma HalvedBounds(count: nat, points: nat, power: nat)
    requires points > 1 && points * power <= count < (points + 1) * power
    ensures points / 2 * (2 * power) <= count < (points / 2 + 1) * (2 * power)
  {
    var h := points / 2;
    assert points == 2 * h || points == 2 * h + 1;
    assert h * (2 * power) == 2 * h * power;
    assert (h + 1) * (2 * power) == (2 * h + 2) * power;
  }

  lemma {:induction false} PowersOrdered(j: nat, k: nat)
    requires j < k
    ensures 2 * PowerOfTwo(j) <= PowerOfTwo(k)
    decreases k
  {
    if j < k - 1 { PowersOrdered(j, k - 1); }
  }

  lemma ExponentUnique(count: nat, j: nat, k: nat)
    requires count == PowerOfTwo(j) && PowerOfTwo(k) <= count < 2 * PowerOfTwo(k)
    ensures j == k
  {
    if j < k { PowersOrdered(j, k); }
    if k < j { PowersOrdered(k, j); }
  }

  lemma FourOrMore(half: nat)
    requires 0 < half
    ensures PowerOfTwo(2 * half) >= 4
  {
    FourQuarters(half - 1);
    assert 2 * half == 2 * (half - 1) + 2;
  }

  /** What the constructor tests is that the count is a power of four. */
  lemma FourIff(count: nat, k: nat)
    requires count > 0 && PowerOfTwo(k) <= count < 2 * PowerOfTwo(k)
    ensures PowerOfFour(count) <==> count >= 4 && PowerOfTwo(k) == count && k % 2 == 0
  {
    if PowerOfFour(count) {
      var half: nat :| 0 < half && count == PowerOfTwo(2 * half);
      ExponentUnique(count, 2 * half, k);
      FourOrMore(half);
    } else if PowerOfTwo(k) == count && k % 2 == 0 {
      var half := k / 2;
      assert k == 2 * half;
    }
  }

  /** make_qam_constellation() */
  method MakeQam(count: nat, modCode: string, differential: bool) returns (r: Result<seq<Point>>, half: nat)
    ensures r.Err? <==> !PowerOfFour(count) || !KnownCode(modCode)
    ensures r.Ok? && differential ==>
      count == PowerOfTwo(2 * half + 2) == |r.value|
      && forall i :: 0 <= i < count ==> r.value[i] == TurnedPoint(half, i)
    ensures r.Ok? && !differential ==>
      0 < half && count == PowerOfTwo(2 * half) == |r.value|
      && forall i :: 0 <= i < count ==> r.value[i] == GridPoint(half, modCode == "gray", i)
  {
    half := 0;
    var k := Halvings(count);
    if count > 0 { FourIff(count, k); }
    if count < 4 || PowerOfTwo(k) != count || k % 2 != 0 {
      return Err("QAM constellation points must be a power of four"), 0;
    }
    if modCode != "gray" && modCode != "none" { return Err("QAM " + BAD_CODE), 0; }
    var points: seq<Point>;
    if differential {
      half := (k - 2) / 2;
      points := TurnedPoints(half, count);
    } else {
      half := k / 2;
      points := GridPoints(half, modCode == "gray", count);
    }
    r := Ok(points);
  }

  /** The differential layout, from a table of one axis. */
  method TurnedPoints(half: nat, count: nat) returns (points: seq<Point>)
    ensures |points| == count && forall i :: 0 <= i < count ==> points[i] == TurnedPoint(half, i)
  {
    var side := PowerOfTwo(half);
    var axis: seq<real> := [];
    for i := 0 to side
      invariant |axis| == i && forall j :: 0 <= j < i ==> axis[j] == QuadrantAxis(half, j)
    {
      axis := axis + [QuadrantAxis(half, i)];
    }
    points := [];
    for i := 0 to count
      invariant |points| == i && forall j :: 0 <= j < i ==> points[j] == TurnedPoint(half, j)
    {
      var y := axis[Field(i, 0, half)];
      var x := axis[Field(i, half, half)];
      var point := match Field(i, 2 * half, 2)
                   case 0 => (x, y)
                   case 1 => (-y, x)
                   case 2 => (-x, -y)
                   case _ => (y, -x);
      points := points + [point];
    }
  }

  function AxisCode(half: nat, gray: bool): seq<nat> {
    if gray then Gray.Codes(PowerOfTwo(half)) else Upto(PowerOfTwo(half))
  }

  lemma AxisCodePermutes(half: nat, gray: bool)
    ensures Gray.Permutation(AxisCode(half, gray)) && |AxisCode(half, gray)| == PowerOfTwo(half)
  {
    Gray.CodesPermute(half);
  }

  lemma InverseIsPlace(half: nat, gray: bool, inverse: seq<nat>, v: nat)
    requires Gray.Inverse(AxisCode(half, gray), inverse) && v < PowerOfTwo(half)
    ensures inverse[v] == Place(gray, v)
  {
    if gray { Gray.InverseIsDecoded(inverse, half, v); } else { assert AxisCode(half, gray)[v] == v; }
  }

  /** The places along one axis, by axis label. */
  method AxisTable(half: nat, gray: bool) returns (axis: seq<real>)
    requires 0 < half
    ensures |axis| == PowerOfTwo(half) && forall v :: 0 <= v < |axis| ==> axis[v] == GridAxis(half, Place(gray, v))
  {
    AxisCodePermutes(half, gray);
    var inverse := Gray.FillInverse(AxisCode(half, gray));
    axis := [];
    for i := 0 to PowerOfTwo(half)
      invariant |axis| == i && forall v :: 0 <= v < i ==> axis[v] == GridAxis(half, Place(gray, v))
    {
      InverseIsPlace(half, gray, inverse, i);
      axis := axis + [GridAxis(half, inverse[i])];
    }
  }

  /** The plain grid, from a table of one axis. */
  method GridPoints(half: nat, gray: bool, count: nat) returns (points: seq<Point>)
    requires 0 < half
    ensures |points| == count && forall i :: 0 <= i < count ==> points[i] == GridPoint(half, gray, i)
  {
    var axis := AxisTable(half, gray);
    points := [];
    for i := 0 to count
      invariant |points| == i && forall j :: 0 <= j < i ==> points[j] == GridPoint(half, gray, j)
    {
      points := points + [(axis[Field(i, half, half)], axis[Field(i, 0, half)])];
    }
  }
}
