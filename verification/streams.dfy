/**
 Finite streams through the scheduler's leaf blocks: a deinterleaver deals blocks
 of items to its ports in turn, an interleaver takes them back in turn.
 */
module Streams {
  import opened Arithmetic

  // ---- blocks of items --------------------------------------------------------------

  /** The whole blocks of a stream; a part of a block at its end is not processed. */
  function Blocks<T>(s: seq<T>, size: nat): (bs: seq<seq<T>>)
    requires 0 < size
    ensures forall i :: 0 <= i < |bs| ==> |bs[i]| == size
  {
    if |s| < size then [] else [s[..size]] + Blocks(s[size..], size)
  }

  function Flatten<T>(bs: seq<seq<T>>): seq<T> {
    if bs == [] then [] else bs[0] + Flatten(bs[1..])
  }

  ghost predicate AllSized<T>(bs: seq<seq<T>>, size: nat) {
    forall i :: 0 <= i < |bs| ==> |bs[i]| == size
  }

  lemma {:induction false} BlocksOfFlatten<T>(bs: seq<seq<T>>, size: nat)
    requires 0 < size && AllSized(bs, size)
    ensures |Flatten(bs)| == |bs| * size && Blocks(Flatten(bs), size) == bs
  {
    if bs != [] {
      BlocksOfFlatten(bs[1..], size);
      var s := Flatten(bs);
      assert s[..size] == bs[0] && s[size..] == Flatten(bs[1..]);
    }
  }

  lemma {:induction false} FlattenOfBlocks<T>(s: seq<T>, size: nat)
    requires 0 < size && |s| % size == 0
    ensures Flatten(Blocks(s, size)) == s
    decreases |s|
  {
    if |s| < size {
      ModUnique(|s|, size, 0, |s|);
    } else {
      ModShift(|s| - size, 1, size);
      FlattenOfBlocks(s[size..], size);
      assert s == s[..size] + s[size..];
    }
  }

  // ---- dealing and collecting ---------------------------------------------------------

  /** Dealt in turn to n ports, the first to port 0. */
  function Deal<B>(bs: seq<B>, n: nat): (ports: seq<seq<B>>)
    requires 0 < n
    ensures |ports| == n
  {
    if bs == [] then Empties(n)
    else
      var later := Deal(bs[1..], n);
      [[bs[0]] + later[n - 1]] + later[..n - 1]
  }

  function Empties<B>(n: nat): (ports: seq<seq<B>>)
    ensures |ports| == n && forall i :: 0 <= i < n ==> ports[i] == []
  {
    if n == 0 then [] else [[]] + Empties(n - 1)
  }

  function TotalLength<B>(ports: seq<seq<B>>): nat {
    if ports == [] then 0 else |ports[0]| + TotalLength(ports[1..])
  }

  lemma {:induction false} TotalAppend<B>(ports: seq<seq<B>>, port: seq<B>)
    ensures TotalLength(ports + [port]) == TotalLength(ports) + |port|
  {
    if ports == [] {
      assert (ports + [port])[1..] == [];
    } else {
      TotalAppend(ports[1..], port);
      assert (ports + [port])[1..] == ports[1..] + [port];
    }
  }

  /** The ports after one has been taken from the first, seen from the next. */
  function Turned<B>(ports: seq<seq<B>>): (turned: seq<seq<B>>)
    requires ports != [] && ports[0] != []
    ensures |turned| == |ports|
  {
    ports[1..] + [ports[0][1..]]
  }

  /** Taken in turn from the ports, until the one whose turn it is has none. */
  function RoundRobin<B>(ports: seq<seq<B>>): seq<B>
    requires ports != []
    decreases TotalLength(ports)
  {
    if ports[0] == [] then []
    else
      TotalAppend(ports[1..], ports[0][1..]);
      [ports[0][0]] + RoundRobin(Turned(ports))
  }

  lemma DealTurns<B>(bs: seq<B>, n: nat)
    requires 0 < n && bs != []
    ensures Deal(bs, n)[0] != [] && Deal(bs, n)[0][0] == bs[0]
    ensures Turned(Deal(bs, n)) == Deal(bs[1..], n)
  {
    var later := Deal(bs[1..], n);
    assert ([bs[0]] + later[n - 1])[1..] == later[n - 1];
    assert later[..n - 1] + [later[n - 1]] == later;
  }

  /** Collecting undoes dealing, for any number of blocks and ports. */
  lemma {:induction false} CollectDealt<B>(bs: seq<B>, n: nat)
    requires 0 < n
    ensures RoundRobin(Deal(bs, n)) == bs
  {
    if bs != [] {
      DealTurns(bs, n);
      CollectDealt(bs[1..], n);
    }
  }

  /** Ports that a deal can leave: none longer than an earlier one, none two ahead. */
  ghost predicate Level<B>(ports: seq<seq<B>>) {
    && ports != []
    && (forall i, j :: 0 <= i < j < |ports| ==> |ports[j]| <= |ports[i]|)
    && |ports[0]| <= |ports[|ports| - 1]| + 1
  }

  lemma TurnedLevel<B>(ports: seq<seq<B>>)
    requires Level(ports) && ports[0] != []
    ensures Level(Turned(ports))
  {
    var turned, n := Turned(ports), |ports|;
    forall i, j | 0 <= i < j < n
      ensures |turned[j]| <= |turned[i]|
    {
      if j == n - 1 { assert |ports[n - 1]| <= |ports[i + 1]| || i + 1 == n - 1; }
    }
  }

  lemma DealPuts<B>(ports: seq<seq<B>>, all: seq<B>)
    requires ports != [] && ports[0] != [] && all != [] && all[0] == ports[0][0]
    requires Deal(all[1..], |ports|) == Turned(ports)
    ensures Deal(all, |ports|) == ports
  {
    var later := Turned(ports);
    assert later[|ports| - 1] == ports[0][1..] && later[..|ports| - 1] == ports[1..];
    assert [ports[0][0]] + ports[0][1..] == ports[0];
    assert [ports[0]] + ports[1..] == ports;
  }

  lemma NonePorts<B>(ports: seq<seq<B>>)
    requires Level(ports) && ports[0] == []
    ensures ports == Empties(|ports|)
  {
    forall j | 0 <= j < |ports|
      ensures ports[j] == []
    {
      assert j > 0 ==> |ports[j]| <= |ports[0]|;
    }
  }

  /** And dealing undoes collecting, for ports as a deal leaves them. */
  lemma {:induction false} DealCollected<B>(ports: seq<seq<B>>)
    requires Level(ports)
    ensures Deal(RoundRobin(ports), |ports|) == ports
    decreases TotalLength(ports)
  {
    if ports[0] == [] {
      NonePorts(ports);
    } else {
      TurnedLevel(ports);
      TotalAppend(ports[1..], ports[0][1..]);
      DealCollected(Turned(ports));
      DealPuts(ports, RoundRobin(ports));
    }
  }

  /** How many of so many blocks a port is dealt. */
  function Share(count: nat, n: nat, port: nat): nat
    requires port < n
  {
    (count + (n - 1 - port)) / n
  }

  lemma ShareSteps(count: nat, n: nat, port: nat)
    requires port < n
    ensures Share(count + 1, n, port)
         == if port == 0 then 1 + Share(count, n, n - 1) else Share(count, n, port - 1)
  {
    if port == 0 {
      assert count + 1 + (n - 1) == count + n;
      WholePart(count, n);
      ModUnique(count + n, n, count / n + 1, count % n);
    }
  }

  lemma {:induction false} DealtLength<B>(bs: seq<B>, n: nat, port: nat)
    requires port < n
    ensures |Deal(bs, n)[port]| == Share(|bs|, n, port)
  {
    if bs == [] {
      Quotient(n - 1 - port, n, 0);
    } else {
      ShareSteps(|bs| - 1, n, port);
      DealtLength(bs[1..], n, if port == 0 then n - 1 else port - 1);
    }
  }

  lemma BackOneRound(k: nat, n: nat)
    requires 0 < k && 0 < n
    ensures (k - 1) * n + (n - 1) == k * n - 1
  {
  }

  /** Port p holds blocks p, p + n, p + 2n and so on. */
  lemma {:induction false} DealtAt<B>(bs: seq<B>, n: nat, port: nat, k: nat, at: nat)
    requires port < n && at == k * n + port < |bs|
    ensures k < |Deal(bs, n)[port]| && Deal(bs, n)[port][k] == bs[at]
    decreases |bs|
  {
    var later := Deal(bs[1..], n);
    if port > 0 {
      DealtAt(bs[1..], n, port - 1, k, at - 1);
    } else if k > 0 {
      BackOneRound(k, n);
      ScaleUp(k, n);
      DealtAt(bs[1..], n, n - 1, k - 1, at - 1);
    }
  }

  // ---- on items ----------------------------------------------------------------------------

  /** blocks.deinterleave: n ports, a block of items to each in turn. */
  function Deinterleave<T>(s: seq<T>, size: nat, n: nat): (ports: seq<seq<T>>)
    requires 0 < size && 0 < n
    ensures |ports| == n
  {
    FlattenEach(Deal(Blocks(s, size), n))
  }

  function FlattenEach<T>(ports: seq<seq<seq<T>>>): (flat: seq<seq<T>>)
    ensures |flat| == |ports|
    ensures forall i :: 0 <= i < |ports| ==> flat[i] == Flatten(ports[i])
  {
    if ports == [] then [] else [Flatten(ports[0])] + FlattenEach(ports[1..])
  }

  function BlocksEach<T>(ports: seq<seq<T>>, size: nat): (blocked: seq<seq<seq<T>>>)
    requires 0 < size
    ensures |blocked| == |ports|
    ensures forall i :: 0 <= i < |ports| ==> blocked[i] == Blocks(ports[i], size)
  {
    if ports == [] then [] else [Blocks(ports[0], size)] + BlocksEach(ports[1..], size)
  }

  /** blocks.interleave: a block of items from each port in turn. */
  function Interleave<T>(ports: seq<seq<T>>, size: nat): seq<T>
    requires 0 < size && ports != []
  {
    Flatten(RoundRobin(BlocksEach(ports, size)))
  }

  lemma {:induction false} DealtSized<T>(bs: seq<seq<T>>, n: nat, size: nat, port: nat)
    requires port < n && AllSized(bs, size)
    ensures AllSized(Deal(bs, n)[port], size)
  {
    if bs != [] {
      DealtSized(bs[1..], n, size, if port == 0 then n - 1 else port - 1);
    }
  }

  lemma {:induction false} FlattenLength<T>(bs: seq<seq<T>>, size: nat)
    requires AllSized(bs, size)
    ensures |Flatten(bs)| == |bs| * size
  {
    if bs != [] { FlattenLength(bs[1..], size); }
  }

  /** Deinterleaved ports regroup into the very blocks that were dealt. */
  lemma Reblock<T>(s: seq<T>, size: nat, n: nat)
    requires 0 < size && 0 < n
    ensures BlocksEach(Deinterleave(s, size, n), size) == Deal(Blocks(s, size), n)
  {
    var dealt := Deal(Blocks(s, size), n);
    forall i | 0 <= i < n
      ensures Blocks(Flatten(dealt[i]), size) == dealt[i]
    {
      DealtSized(Blocks(s, size), n, size, i);
      BlocksOfFlatten(dealt[i], size);
    }
  }

  lemma InterleaveUndoes<T>(s: seq<T>, size: nat, n: nat)
    requires 0 < size && 0 < n && |s| % size == 0
    ensures Interleave(Deinterleave(s, size, n), size) == s
  {
    Reblock(s, size, n);
    CollectDealt(Blocks(s, size), n);
    FlattenOfBlocks(s, size);
  }

  ghost predicate EqualPorts<T>(ports: seq<seq<T>>, length: nat) {
    ports != [] && forall i :: 0 <= i < |ports| ==> |ports[i]| == length
  }

  lemma {:induction false} BlocksBound<T>(s: seq<T>, size: nat)
    requires 0 < size
    ensures |Blocks(s, size)| * size <= |s| < |Blocks(s, size)| * size + size
    decreases |s|
  {
    if |s| >= size {
      BlocksBound(s[size..], size);
      assert (|Blocks(s[size..], size)| + 1) * size == |Blocks(s[size..], size)| * size + size;
    }
  }

  lemma BlocksCount<T>(s: seq<T>, size: nat)
    requires 0 < size
    ensures |Blocks(s, size)| == |s| / size
  {
    BlocksBound(s, size);
    Quotient(|s|, size, |Blocks(s, size)|);
  }

  lemma {:induction false} CollectedSized<T>(ports: seq<seq<seq<T>>>, size: nat)
    requires ports != [] && forall i :: 0 <= i < |ports| ==> AllSized(ports[i], size)
    ensures AllSized(RoundRobin(ports), size)
    decreases TotalLength(ports)
  {
    if ports[0] != [] {
      TotalAppend(ports[1..], ports[0][1..]);
      CollectedSized(Turned(ports), size);
    }
  }

  lemma DeinterleaveUndoes<T>(ports: seq<seq<T>>, size: nat, length: nat)
    requires 0 < size && EqualPorts(ports, length) && length % size == 0
    ensures Deinterleave(Interleave(ports, size), size, |ports|) == ports
  {
    var blocked := BlocksEach(ports, size);
    forall i | 0 <= i < |ports|
      ensures |blocked[i]| == length / size && Flatten(blocked[i]) == ports[i]
    {
      BlocksCount(ports[i], size);
      FlattenOfBlocks(ports[i], size);
    }
    CollectedSized(blocked, size);
    BlocksOfFlatten(RoundRobin(blocked), size);
    DealCollected(blocked);
  }

  // ---- item by item ---------------------------------------------------------------------------

  lemma OneLess(k: nat, size: nat)
    requires 0 < k
    ensures (k - 1) * size == k * size - size
  {
  }

  lemma {:induction false} BlockAt<T>(s: seq<T>, size: nat, k: nat, t: nat, at: nat)
    requires 0 < size && k < |Blocks(s, size)| && t < size && at == k * size + t
    ensures at < |s| && Blocks(s, size)[k][t] == s[at]
    decreases k
  {
    if k > 0 {
      OneLess(k, size);
      BlockAt(s[size..], size, k - 1, t, at - size);
    }
  }

  lemma {:induction false} FlatAt<T>(bs: seq<seq<T>>, size: nat, k: nat, t: nat, at: nat)
    requires AllSized(bs, size) && k < |bs| && t < size && at == k * size + t
    ensures at < |Flatten(bs)| && Flatten(bs)[at] == bs[k][t]
  {
    if k > 0 {
      OneLess(k, size);
      FlatAt(bs[1..], size, k - 1, t, at - size);
    }
  }

  lemma CollectedAt<B>(ports: seq<seq<B>>, j: nat, port: nat, k: nat)
    requires Level(ports) && port < |ports| && j == k * |ports| + port < |RoundRobin(ports)|
    ensures k < |ports[port]| && RoundRobin(ports)[j] == ports[port][k]
  {
    DealCollected(ports);
    DealtAt(RoundRobin(ports), |ports|, port, k, j);
  }

  lemma {:induction false} CollectedLength<B>(ports: seq<seq<B>>)
    requires Level(ports)
    ensures |RoundRobin(ports)| == TotalLength(ports)
    decreases TotalLength(ports)
  {
    if ports[0] == [] {
      NonePorts(ports);
      EmptyTotal<B>(|ports|);
    } else {
      TurnedLevel(ports);
      TotalAppend(ports[1..], ports[0][1..]);
      CollectedLength(Turned(ports));
    }
  }

  lemma {:induction false} EmptyTotal<B>(n: nat)
    ensures TotalLength<B>(Empties(n)) == 0
  {
    if n > 0 {
      EmptyTotal<B>(n - 1);
      assert Empties<B>(n)[1..] == Empties(n - 1);
    }
  }

  lemma {:induction false} EqualTotal<B>(ports: seq<seq<B>>, length: nat)
    requires forall i :: 0 <= i < |ports| ==> |ports[i]| == length
    ensures TotalLength(ports) == |ports| * length
  {
    if ports != [] { EqualTotal(ports[1..], length); }
  }

  /** Equal ports interleaved by `size`: block k of a port lands at round k. */
  lemma InterleavedAt<T>(ports: seq<seq<T>>, size: nat, rounds: nat, port: nat, k: nat, t: nat, block: nat, at: nat)
    requires 0 < size && EqualPorts(ports, rounds * size) && port < |ports| && k < rounds && t < size
    requires block == k * |ports| + port && at == block * size + t
    requires block < |ports| * rounds
    ensures |Interleave(ports, size)| == |ports| * rounds * size
    ensures at < |Interleave(ports, size)|
    ensures k * size + t < |ports[port]| && Interleave(ports, size)[at] == ports[port][k * size + t]
  {
    var blocked := BlocksEach(ports, size);
    ModUnique(rounds * size, size, rounds, 0);
    forall i | 0 <= i < |ports|
      ensures |blocked[i]| == rounds
    {
      BlocksCount(ports[i], size);
    }
    CollectedLength(blocked);
    EqualTotal(blocked, rounds);
    CollectedAt(blocked, block, port, k);
    CollectedSized(blocked, size);
    FlattenLength(RoundRobin(blocked), size);
    FlatAt(RoundRobin(blocked), size, block, t, at);
    BlockAt(ports[port], size, k, t, k * size + t);
  }

  /** A port's items, by where they stood in the stream dealt. */
  lemma DeinterleavedAt<T>(s: seq<T>, size: nat, n: nat, port: nat, k: nat, t: nat, block: nat, at: nat)
    requires 0 < size && port < n && t < size
    requires block == k * n + port && block < |Blocks(s, size)| && at == block * size + t
    ensures at < |s| && k * size + t < |Deinterleave(s, size, n)[port]|
    ensures Deinterleave(s, size, n)[port][k * size + t] == s[at]
  {
    var bs := Blocks(s, size);
    DealtAt(bs, n, port, k, block);
    DealtSized(bs, n, size, port);
    FlatAt(Deal(bs, n)[port], size, k, t, k * size + t);
    BlockAt(s, size, block, t, at);
  }
}
