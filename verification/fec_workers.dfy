/**
 The parallel worker arrangements of fec_hier.hpp: one worker, an N-way split, or
 a binary tree of two-way splits, and the stream each of them produces.
 */
module FecWorkers {
  import opened Arithmetic
  import opened Bits
  import opened Streams
  import opened Wrappers

  datatype Threading = NoThreads | Ordinary | Capillary

  /** A worker alone, or a deinterleaver, branches, and an interleaver. */
  datatype Arrangement<C> = Worker(coder: C) | Split(branches: seq<Arrangement<C>>)

  // ---- building ------------------------------------------------------------------------

  /** The recursive lambda: each half of the coders behind one port of a two-way split. */
  function Tree<C>(coders: seq<C>): Arrangement<C>
    requires IsPowerOfTwo(|coders|)
    decreases |coders|
  {
    if |coders| == 1 then Worker(coders[0])
    else
      var half := |coders| / 2;
      Split([Tree(coders[..half]), Tree(coders[half..])])
  }

  function Workers<C>(coders: seq<C>): (workers: seq<Arrangement<C>>)
    ensures |workers| == |coders|
    ensures forall i :: 0 <= i < |coders| ==> workers[i] == Worker(coders[i])
  {
    if coders == [] then [] else Workers(coders[..|coders| - 1]) + [Worker(coders[|coders| - 1])]
  }

  // ---- what an arrangement computes -----------------------------------------------------------

  ghost predicate WellBuilt<C>(a: Arrangement<C>) {
    a.Split? ==> a.branches != [] && forall i :: 0 <= i < |a.branches| ==> WellBuilt(a.branches[i])
  }

  /** One worker: its coder on each whole block in turn. */
  function Coded<C, T>(code: (C, seq<T>) -> seq<T>, coder: C, bs: seq<seq<T>>): (coded: seq<seq<T>>)
    ensures |coded| == |bs|
    ensures forall j :: 0 <= j < |bs| ==> coded[j] == code(coder, bs[j])
  {
    if bs == [] then [] else [code(coder, bs[0])] + Coded(code, coder, bs[1..])
  }

  /** The stream out of an arrangement, item by item. */
  function Output<C, T>(code: (C, seq<T>) -> seq<T>, a: Arrangement<C>, inSize: nat, outSize: nat, s: seq<T>): seq<T>
    requires 0 < inSize && 0 < outSize && WellBuilt(a)
    decreases a
  {
    match a
    case Worker(coder) => Flatten(Coded(code, coder, Blocks(s, inSize)))
    case Split(branches) =>
      Interleave(Outputs(code, branches, inSize, outSize, Deinterleave(s, inSize, |branches|)), outSize)
  }

  function Outputs<C, T>(code: (C, seq<T>) -> seq<T>, branches: seq<Arrangement<C>>, inSize: nat, outSize: nat,
                         ports: seq<seq<T>>): (outs: seq<seq<T>>)
    requires 0 < inSize && 0 < outSize && |ports| == |branches|
    requires forall i :: 0 <= i < |branches| ==> WellBuilt(branches[i])
    ensures |outs| == |branches|
    decreases branches
  {
    if branches == [] then []
    else [Output(code, branches[0], inSize, outSize, ports[0])]
         + Outputs(code, branches[1..], inSize, outSize, ports[1..])
  }

  /** The coders in the order successive blocks meet them. */
  function Order<C>(a: Arrangement<C>): seq<C>
    requires WellBuilt(a)
    decreases a
  {
    match a
    case Worker(coder) => [coder]
    case Split(branches) => RoundRobin(Orders(branches))
  }

  function Orders<C>(branches: seq<Arrangement<C>>): (orders: seq<seq<C>>)
    requires forall i :: 0 <= i < |branches| ==> WellBuilt(branches[i])
    ensures |orders| == |branches|
    ensures forall i :: 0 <= i < |branches| ==> orders[i] == Order(branches[i])
    decreases branches
  {
    if branches == [] then [] else [Order(branches[0])] + Orders(branches[1..])
  }

  /** Every branch of a split serves as many coders. */
  ghost predicate Balanced<C>(a: Arrangement<C>) {
    WellBuilt(a) &&
    match a
    case Worker(_) => true
    case Split(branches) =>
      && (forall i :: 0 <= i < |branches| ==> Balanced(branches[i]))
      && (forall i :: 0 <= i < |branches| ==> |Order(branches[i])| == |Order(branches[0])|)
      && 0 < |Order(branches[0])|
  }

  /** Block j to coder j modulo their number: what every arrangement should compute. */
  function Cycled<C, T>(code: (C, seq<T>) -> seq<T>, coders: seq<C>, bs: seq<seq<T>>): (out: seq<seq<T>>)
    requires coders != []
    ensures |out| == |bs|
    ensures forall j :: 0 <= j < |bs| ==> out[j] == code(coders[j % |coders|], bs[j])
  {
    if bs == [] then []
    else
      var n := |bs| - 1;
      Cycled(code, coders, bs[..n]) + [code(coders[n % |coders|], bs[n])]
  }

  ghost predicate Sized<C(!new), T(!new)>(code: (C, seq<T>) -> seq<T>, inSize: nat, outSize: nat) {
    forall coder: C, b: seq<T> :: |b| == inSize ==> |code(coder, b)| == outSize
  }

  // ---- collecting, by index ---------------------------------------------------------------------

  lemma {:induction false} SameTotal<A, B>(a: seq<seq<A>>, b: seq<seq<B>>)
    requires |a| == |b| && forall i :: 0 <= i < |a| ==> |a[i]| == |b[i]|
    ensures TotalLength(a) == TotalLength(b)
  {
    if a != [] { SameTotal(a[1..], b[1..]); }
  }

  lemma SharesLevel(count: nat, n: nat, i: nat, j: nat)
    requires i <= j < n
    ensures Share(count, n, j) <= Share(count, n, i) <= Share(count, n, n - 1) + 1
  {
    QuotientMonotone(count + (n - 1 - j), count + (n - 1 - i), n);
    WholePart(count, n);
    ModUnique(count + n, n, count / n + 1, count % n);
    QuotientMonotone(count + (n - 1 - i), count + n, n);
  }

  lemma DealtLevel<B>(bs: seq<B>, n: nat)
    requires 0 < n
    ensures Level(Deal(bs, n))
  {
    var ports := Deal(bs, n);
    forall i, j | 0 <= i <= j < n
      ensures |ports[j]| <= |ports[i]| <= |ports[n - 1]| + 1
    {
      DealtLength(bs, n, i);
      DealtLength(bs, n, j);
      DealtLength(bs, n, n - 1);
      SharesLevel(|bs|, n, i, j);
    }
  }

  // ---- every balanced arrangement cycles through its coders --------------------------------------

  function CycledEach<C, T>(code: (C, seq<T>) -> seq<T>, orders: seq<seq<C>>, ports: seq<seq<seq<T>>>)
    : (outs: seq<seq<seq<T>>>)
    requires |orders| == |ports| && forall i :: 0 <= i < |orders| ==> orders[i] != []
    ensures |outs| == |ports|
    ensures forall i :: 0 <= i < |ports| ==> outs[i] == Cycled(code, orders[i], ports[i])
  {
    if ports == [] then [] else [Cycled(code, orders[0], ports[0])] + CycledEach(code, orders[1..], ports[1..])
  }

  /** Coders met by branches in turn, each branch cycling: one cycle through them all. */
  lemma PlaceInCycle(j: nat, n: nat, length: nat, total: nat)
    requires 0 < n && 0 < length && total == n * length && 0 < total
    ensures j % total == (j / n % length) * n + j % n
  {
    WholePart(j, n);
    WholePart(j / n, length);
    var round, k, port := j / n / length, j / n % length, j % n;
    Distribute(round, length, k, n);
    assert k * n + n <= length * n by { RoundsFit(k, length, n); }
    ModUnique(j, total, round, k * n + port);
  }

  lemma Distribute(round: nat, length: nat, k: nat, n: nat)
    ensures (round * length + k) * n == round * (n * length) + k * n
  {
  }

  lemma RoundsFit(k: nat, length: nat, n: nat)
    requires k < length
    ensures k * n + n <= length * n
  {
    ScaleDown(length - k - 1, n);
    assert (length - k - 1) * n == length * n - k * n - n;
  }

  lemma PlaceFits(k: nat, length: nat, n: nat, port: nat)
    requires k < length && port < n
    ensures k * n + port < n * length
  {
    RoundsFit(k, length, n);
    assert length * n == n * length;
  }

  lemma OrderAt<C>(orders: seq<seq<C>>, length: nat, total: nat, port: nat, k: nat, at: nat)
    requires EqualPorts(orders, length) && port < |orders| && k < length
    requires total == |orders| * length && at == k * |orders| + port
    ensures at < total == |RoundRobin(orders)| && RoundRobin(orders)[at] == orders[port][k]
  {
    CollectedLength(orders);
    EqualTotal(orders, length);
    PlaceFits(k, length, |orders|, port);
    CollectedAt(orders, at, port, k);
  }

  /** Element j of the collected outputs, traced to its branch and back. */
  lemma CycledAt<C, T>(code: (C, seq<T>) -> seq<T>, orders: seq<seq<C>>, length: nat, total: nat, bs: seq<seq<T>>,
                       outs: seq<seq<seq<T>>>, j: nat, port: nat, k: nat, at: nat)
    requires EqualPorts(orders, length) && 0 < length && |outs| == |orders| && Level(outs)
    requires port < |orders| && j == k * |orders| + port < |bs| == |RoundRobin(outs)|
    requires total == |orders| * length && at == k % length * |orders| + port
    requires outs[port] == Cycled(code, orders[port], Deal(bs, |orders|)[port])
    ensures at < |RoundRobin(orders)|
    ensures RoundRobin(outs)[j] == code(RoundRobin(orders)[at], bs[j])
  {
    CollectedAt(outs, j, port, k);
    DealtAt(bs, |orders|, port, k, j);
    OrderAt(orders, length, total, port, k % length, at);
  }

  lemma CycledLevel<C, T>(code: (C, seq<T>) -> seq<T>, orders: seq<seq<C>>, bs: seq<seq<T>>)
    requires orders != [] && forall i :: 0 <= i < |orders| ==> orders[i] != []
    ensures var outs := CycledEach(code, orders, Deal(bs, |orders|));
      Level(outs) && |RoundRobin(outs)| == |bs|
  {
    var dealt := Deal(bs, |orders|);
    var outs := CycledEach(code, orders, dealt);
    DealtLevel(bs, |orders|);
    CollectDealt(bs, |orders|);
    CollectedLength(dealt);
    SameLevel(dealt, outs);
    CollectedLength(outs);
    SameTotal(dealt, outs);
  }

  lemma SameLevel<A, B>(a: seq<seq<A>>, b: seq<seq<B>>)
    requires Level(a) && |a| == |b| && forall i :: 0 <= i < |a| ==> |a[i]| == |b[i]|
    ensures Level(b)
  {
  }

  lemma CollectedPlace<C, T>(code: (C, seq<T>) -> seq<T>, orders: seq<seq<C>>, length: nat, bs: seq<seq<T>>,
                             outs: seq<seq<seq<T>>>, cycle: seq<C>, total: nat, j: nat)
    requires EqualPorts(orders, length) && 0 < length && |outs| == |orders| && Level(outs)
    requires cycle == RoundRobin(orders) && |cycle| == total == |orders| * length > 0
    requires j < |bs| == |RoundRobin(outs)|
    requires outs == CycledEach(code, orders, Deal(bs, |orders|))
    ensures RoundRobin(outs)[j] == code(cycle[j % total], bs[j])
  {
    WholePart(j, |orders|);
    var port, k := j % |orders|, j / |orders|;
    PlaceInCycle(j, |orders|, length, total);
    CycledAt(code, orders, length, total, bs, outs, j, port, k, j % total);
  }

  lemma CollectedCycles<C, T>(code: (C, seq<T>) -> seq<T>, orders: seq<seq<C>>, length: nat, bs: seq<seq<T>>)
    requires EqualPorts(orders, length) && 0 < length
    ensures RoundRobin(orders) != []
    ensures RoundRobin(CycledEach(code, orders, Deal(bs, |orders|))) == Cycled(code, RoundRobin(orders), bs)
  {
    var outs := CycledEach(code, orders, Deal(bs, |orders|));
    PlaceFits(0, length, |orders|, 0);
    OrderAt(orders, length, |orders| * length, 0, 0, 0);
    CycledLevel(code, orders, bs);
    var out, expected := RoundRobin(outs), Cycled(code, RoundRobin(orders), bs);
    forall j | 0 <= j < |out|
      ensures out[j] == expected[j]
    {
      CollectedPlace(code, orders, length, bs, outs, RoundRobin(orders), |RoundRobin(orders)|, j);
    }
  }

  lemma {:induction false} OutputsAt<C, T>(code: (C, seq<T>) -> seq<T>, branches: seq<Arrangement<C>>,
                                           inSize: nat, outSize: nat, ports: seq<seq<T>>, i: nat)
    requires 0 < inSize && 0 < outSize && |ports| == |branches| && i < |branches|
    requires forall i :: 0 <= i < |branches| ==> WellBuilt(branches[i])
    ensures Outputs(code, branches, inSize, outSize, ports)[i] == Output(code, branches[i], inSize, outSize, ports[i])
  {
    if i > 0 { OutputsAt(code, branches[1..], inSize, outSize, ports[1..], i - 1); }
  }

  /**
   Whatever the shape, a balanced arrangement gives block j to coder j modulo their
   number, in its order, and puts the results back in block order.
   */
  lemma {:induction false} OutputCycles<C(!new), T(!new)>(code: (C, seq<T>) -> seq<T>, a: Arrangement<C>,
                                              inSize: nat, outSize: nat, s: seq<T>)
    requires 0 < inSize && 0 < outSize && Balanced(a) && Sized(code, inSize, outSize)
    ensures Order(a) != []
    ensures Output(code, a, inSize, outSize, s) == Flatten(Cycled(code, Order(a), Blocks(s, inSize)))
    decreases a
  {
    match a
    case Worker(coder) =>
      assert Coded(code, coder, Blocks(s, inSize)) == Cycled(code, [coder], Blocks(s, inSize));
    case Split(branches) =>
      var ports, n := Deinterleave(s, inSize, |branches|), |branches|;
      var outs := Outputs(code, branches, inSize, outSize, ports);
      forall i | 0 <= i < n
        ensures Order(branches[i]) != []
        ensures outs[i] == Flatten(Cycled(code, Order(branches[i]), Blocks(ports[i], inSize)))
      {
        OutputsAt(code, branches, inSize, outSize, ports, i);
        OutputCycles(code, branches[i], inSize, outSize, ports[i]);
      }
      SplitCycles(code, Orders(branches), |Order(branches[0])|, inSize, outSize, s, outs);
  }

  /** Branches that cycle, collected again. */
  lemma SplitCycles<C(!new), T(!new)>(code: (C, seq<T>) -> seq<T>, orders: seq<seq<C>>, length: nat,
                                      inSize: nat, outSize: nat, s: seq<T>, outs: seq<seq<T>>)
    requires 0 < inSize && 0 < outSize && Sized(code, inSize, outSize)
    requires EqualPorts(orders, length) && 0 < length && |outs| == |orders|
    requires forall i :: 0 <= i < |outs| ==>
      outs[i] == Flatten(Cycled(code, orders[i], Blocks(Deinterleave(s, inSize, |orders|)[i], inSize)))
    ensures RoundRobin(orders) != []
    ensures Interleave(outs, outSize) == Flatten(Cycled(code, RoundRobin(orders), Blocks(s, inSize)))
  {
    var n, bs := |orders|, Blocks(s, inSize);
    var ports, dealt := Deinterleave(s, inSize, n), Deal(bs, n);
    Reblock(s, inSize, n);
    forall i | 0 <= i < n
      ensures Blocks(outs[i], outSize) == Cycled(code, orders[i], dealt[i])
    {
      assert BlocksEach(ports, inSize)[i] == Blocks(ports[i], inSize);
      DealtSized(bs, n, inSize, i);
      BlocksOfFlatten(Cycled(code, orders[i], dealt[i]), outSize);
    }
    assert BlocksEach(outs, outSize) == CycledEach(code, orders, dealt);
    CollectedCycles(code, orders, length, bs);
  }

  // ---- the coders' order in each shape -------------------------------------------------------------

  /** The place a tree gives its i-th block to: the bits of i, reversed. */
  function Reversed(count: nat, i: nat): (place: nat)
    requires IsPowerOfTwo(count) && i < count
    ensures place < count
  {
    if count == 1 then 0 else Reversed(count / 2, i / 2) + if i % 2 == 1 then count / 2 else 0
  }

  /** No two blocks of a round meet the same coder. */
  lemma {:induction false} ReversedDistinct(count: nat, i: nat, j: nat)
    requires IsPowerOfTwo(count) && i < count && j < count && i != j
    ensures Reversed(count, i) != Reversed(count, j)
  {
    if count > 1 && i % 2 == j % 2 { ReversedDistinct(count / 2, i / 2, j / 2); }
  }

  ghost predicate Orderly<C>(a: Arrangement<C>, coders: seq<C>)
    requires IsPowerOfTwo(|coders|)
  {
    && Balanced(a) && |Order(a)| == |coders|
    && forall i :: 0 <= i < |coders| ==> Order(a)[i] == coders[Reversed(|coders|, i)]
  }

  lemma JoinedPlace<C>(orders: seq<seq<C>>, coders: seq<C>, half: nat, i: nat)
    requires IsPowerOfTwo(|coders|) && |coders| == 2 * half && IsPowerOfTwo(half)
    requires |orders| == 2 && EqualPorts(orders, half) && i < 2 * half
    requires orders[0][i / 2] == coders[..half][Reversed(half, i / 2)]
    requires orders[1][i / 2] == coders[half..][Reversed(half, i / 2)]
    ensures |RoundRobin(orders)| == |coders| && RoundRobin(orders)[i] == coders[Reversed(|coders|, i)]
  {
    assert i == i / 2 * 2 + i % 2;
    OrderAt(orders, half, |coders|, i % 2, i / 2, i);
  }

  lemma JoinedOrder<C>(left: Arrangement<C>, right: Arrangement<C>, coders: seq<C>, half: nat)
    requires IsPowerOfTwo(|coders|) && |coders| == 2 * half && 0 < half
    requires IsPowerOfTwo(half) && Orderly(left, coders[..half]) && Orderly(right, coders[half..])
    ensures Orderly(Split([left, right]), coders)
  {
    var tree := Split([left, right]);
    var orders := Orders(tree.branches);
    assert orders == [Order(left), Order(right)];
    forall i | 0 <= i < |coders|
      ensures |RoundRobin(orders)| == |coders|
      ensures RoundRobin(orders)[i] == coders[Reversed(|coders|, i)]
    {
      JoinedPlace(orders, coders, half, i);
    }
    JoinedPlace(orders, coders, half, 0);
  }

  lemma {:induction false} TreeOrder<C>(coders: seq<C>)
    requires IsPowerOfTwo(|coders|)
    ensures Orderly(Tree(coders), coders)
    decreases |coders|
  {
    if |coders| > 1 {
      var half := |coders| / 2;
      TreeOrder(coders[..half]);
      TreeOrder(coders[half..]);
      JoinedOrder(Tree(coders[..half]), Tree(coders[half..]), coders, half);
    }
  }

  lemma OrdinaryOrder<C>(coders: seq<C>)
    requires coders != []
    ensures Balanced(Split(Workers(coders))) && Order(Split(Workers(coders))) == coders
  {
    var orders := Orders(Workers(coders));
    forall i | 0 <= i < |coders|
      ensures |RoundRobin(orders)| == |coders| && RoundRobin(orders)[i] == coders[i]
    {
      OrderAt(orders, 1, |coders|, i, 0, i);
    }
    OrderAt(orders, 1, |coders|, 0, 0, 0);
  }

  /** build_fec_workers() */
  method BuildFecWorkers<C>(coders: seq<C>, threading: Threading) returns (r: Result<Arrangement<C>>)
    ensures r.Err? <==> coders == [] || (|coders| > 1 && threading == Capillary && !IsPowerOfTwo(|coders|))
    ensures r.Ok? ==> Balanced(r.value)
    ensures r.Ok? && (|coders| == 1 || threading == NoThreads) ==> r.value == Worker(coders[0])
    ensures r.Ok? && |coders| > 1 && threading == Ordinary ==> Order(r.value) == coders
    ensures r.Ok? && |coders| > 1 && threading == Capillary ==>
      && |Order(r.value)| == |coders|
      && forall i :: 0 <= i < |coders| ==> Order(r.value)[i] == coders[Reversed(|coders|, i)]
  {
    if coders == [] { return Err("FEC block needs at least one coder object"); }
    if |coders| == 1 || threading == NoThreads { return Ok(Worker(coders[0])); }
    if threading == Ordinary {
      var branches := [];
      for i := 0 to |coders|
        invariant branches == Workers(coders[..i])
      {
        assert coders[..i + 1][..i] == coders[..i];
        branches := branches + [Worker(coders[i])];
      }
      assert coders[..|coders|] == coders;
      OrdinaryOrder(coders);
      return Ok(Split(branches));
    }
    AndPredecessor(|coders|);
    if And(|coders|, |coders| - 1) != 0 {
      return Err("capillary threading needs a power-of-two number of coder objects");
    }
    TreeOrder(coders);
    return Ok(Tree(coders));
  }

  // ---- when the arrangements agree ---------------------------------------------------------------------

  ghost predicate SameCode<C(!new), T(!new)>(code: (C, seq<T>) -> seq<T>, inSize: nat, a: C, b: C) {
    forall block: seq<T> :: |block| == inSize ==> code(a, block) == code(b, block)
  }

  /** Every coder of the arrangement computes what one coder does. */
  ghost predicate AllAs<C(!new), T(!new)>(code: (C, seq<T>) -> seq<T>, inSize: nat, coders: seq<C>, one: C) {
    forall i :: 0 <= i < |coders| ==> SameCode(code, inSize, coders[i], one)
  }

  ghost predicate SameOutput<C(!new), T(!new)>(code: (C, seq<T>) -> seq<T>, inSize: nat, outSize: nat,
                                               a: Arrangement<C>, b: Arrangement<C>)
    requires 0 < inSize && 0 < outSize && WellBuilt(a) && WellBuilt(b)
  {
    forall s: seq<T> :: Output(code, a, inSize, outSize, s) == Output(code, b, inSize, outSize, s)
  }

  function Repeated<T>(block: T, n: nat): (bs: seq<T>)
    ensures |bs| == n && forall i :: 0 <= i < n ==> bs[i] == block
  {
    if n == 0 then [] else Repeated(block, n - 1) + [block]
  }

  /** A stream that shows what one coder of the cycle does with one block. */
  lemma OneCoderShown<C(!new), T(!new)>(code: (C, seq<T>) -> seq<T>, inSize: nat, outSize: nat,
                                        a: Arrangement<C>, one: C, i: nat, block: seq<T>)
    requires 0 < inSize && 0 < outSize && Balanced(a) && Sized(code, inSize, outSize)
    requires i < |Order(a)| && |block| == inSize
    requires SameOutput(code, inSize, outSize, a, Worker(one))
    ensures code(Order(a)[i], block) == code(one, block)
  {
    var bs := Repeated(block, i + 1);
    var s := Flatten(bs);
    BlocksOfFlatten(bs, inSize);
    OutputCycles(code, a, inSize, outSize, s);
    var cycled, coded := Cycled(code, Order(a), bs), Coded(code, one, bs);
    assert Output(code, a, inSize, outSize, s) == Output(code, Worker(one), inSize, outSize, s);
    SameFlattened(cycled, coded, outSize);
    ModUnique(i, |Order(a)|, 0, i);
    assert cycled[i] == coded[i];
  }

  lemma SameFlattened<T>(a: seq<seq<T>>, b: seq<seq<T>>, n: nat)
    requires 0 < n && AllSized(a, n) && AllSized(b, n) && Flatten(a) == Flatten(b)
    ensures a == b
  {
    BlocksOfFlatten(a, n);
    BlocksOfFlatten(b, n);
  }

  /**
   An arrangement produces the single worker's stream, whatever the input, exactly
   when each of its coders computes what that worker's does.
   */
  lemma AgreesIff<C(!new), T(!new)>(code: (C, seq<T>) -> seq<T>, inSize: nat, outSize: nat,
                                    a: Arrangement<C>, one: C)
    requires 0 < inSize && 0 < outSize && Balanced(a) && Sized(code, inSize, outSize)
    ensures SameOutput(code, inSize, outSize, a, Worker(one)) <==> AllAs(code, inSize, Order(a), one)
  {
    if AllAs(code, inSize, Order(a), one) {
      forall s: seq<T>
        ensures Output(code, a, inSize, outSize, s) == Output(code, Worker(one), inSize, outSize, s)
      {
        OutputCycles(code, a, inSize, outSize, s);
        SameBlocks(code, inSize, Order(a), one, Blocks(s, inSize));
      }
    }
    if SameOutput(code, inSize, outSize, a, Worker(one)) {
      forall i | 0 <= i < |Order(a)|
        ensures SameCode(code, inSize, Order(a)[i], one)
      {
        forall block: seq<T> | |block| == inSize
          ensures code(Order(a)[i], block) == code(one, block)
        {
          OneCoderShown(code, inSize, outSize, a, one, i, block);
        }
      }
    }
  }

  lemma SameBlocks<C(!new), T(!new)>(code: (C, seq<T>) -> seq<T>, inSize: nat, coders: seq<C>, one: C, bs: seq<seq<T>>)
    requires coders != [] && AllSized(bs, inSize) && AllAs(code, inSize, coders, one)
    ensures Cycled(code, coders, bs) == Coded(code, one, bs)
  {
    var cycled, coded := Cycled(code, coders, bs), Coded(code, one, bs);
    forall j | 0 <= j < |bs|
      ensures cycled[j] == coded[j]
    {
      assert SameCode(code, inSize, coders[j % |coders|], one);
    }
  }
}
