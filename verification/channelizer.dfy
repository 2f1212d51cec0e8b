/**
 The hierarchical polyphase channelizer of filter_hier.hpp: taps dealt out to the
 channels, channels spread over filter banks and put back, outputs selected.
 */
module Channelizer {
  import opened Arithmetic
  import opened Sequences
  import opened Streams
  import opened Wrappers

  // ---- dealing the prototype filter -----------------------------------------------------

  function Reversed<T>(s: seq<T>): (r: seq<T>)
    ensures |r| == |s| && forall i :: 0 <= i < |s| ==> r[i] == s[|s| - 1 - i]
  {
    if s == [] then [] else Reversed(s[1..]) + [s[0]]
  }

  lemma ReversedTwice<T>(s: seq<T>)
    ensures Reversed(Reversed(s)) == s
  {
    var r := Reversed(Reversed(s));
    forall i | 0 <= i < |s|
      ensures r[i] == s[i]
    {
      assert Reversed(s)[|s| - 1 - i] == s[i];
    }
  }

  /** Zeros up to a whole number of taps per channel. */
  function Padded(taps: seq<real>, n: nat): (p: seq<real>)
    requires 0 < n
    ensures |taps| <= |p| < |taps| + n && |p| % n == 0
    ensures p[..|taps|] == taps && forall i :: |taps| <= i < |p| ==> p[i] == 0.0
  {
    var whole := (|taps| + n - 1) / n;
    WholePart(|taps| + n - 1, n);
    ModUnique(whole * n, n, whole, 0);
    taps + seq(whole * n - |taps|, _ => 0.0)
  }

  /** One channel's taps: every n-th of the prototype, then reversed. */
  method ChannelTaps(prototype: seq<real>, n: nat, channel: nat) returns (taps: seq<real>)
    requires channel < n
    ensures taps == Reversed(Deal(prototype, n)[channel])
  {
    taps := [];
    var i, k := channel, 0;
    ghost var dealt := Deal(prototype, n)[channel];
    while i < |prototype|
      invariant i == k * n + channel && |taps| == k <= |dealt|
      invariant taps == dealt[..k]
      decreases |prototype| - i
    {
      DealtAt(prototype, n, channel, k, i);
      taps := taps + [prototype[i]];
      OneMore(k, n);
      i, k := i + n, k + 1;
    }
    if k < |dealt| { DealtEnd(prototype, n, channel, k); }
    assert taps == dealt;
    taps := Reversed(taps);
  }

  lemma DealtEnd(prototype: seq<real>, n: nat, channel: nat, k: nat)
    requires channel < n && |prototype| <= k * n + channel
    ensures |Deal(prototype, n)[channel]| <= k
  {
    DealtLength(prototype, n, channel);
    var share := Share(|prototype|, n, channel);
    if share > k {
      QuotientBound(|prototype| + (n - 1 - channel), n, k);
      OneMore(k, n);
    }
  }

  /** Every channel's taps. */
  method DealTaps(prototype: seq<real>, n: nat) returns (channels: seq<seq<real>>)
    requires 0 < n
    ensures |channels| == n && forall c :: 0 <= c < n ==> channels[c] == Reversed(Deal(prototype, n)[c])
  {
    channels := [];
    for c := 0 to n
      invariant |channels| == c && forall i :: 0 <= i < c ==> channels[i] == Reversed(Deal(prototype, n)[i])
    {
      var taps := ChannelTaps(prototype, n, c);
      channels := channels + [taps];
    }
  }

  function ReversedEach(channels: seq<seq<real>>): (r: seq<seq<real>>)
    ensures |r| == |channels| && forall c :: 0 <= c < |channels| ==> r[c] == Reversed(channels[c])
  {
    if channels == [] then [] else [Reversed(channels[0])] + ReversedEach(channels[1..])
  }

  /** Turned back and taken in turn, the channels' taps are the padded prototype. */
  lemma TapsReinterleave(taps: seq<real>, n: nat, channels: seq<seq<real>>)
    requires 0 < n && |channels| == n
    requires forall c :: 0 <= c < n ==> channels[c] == Reversed(Deal(Padded(taps, n), n)[c])
    ensures RoundRobin(ReversedEach(channels)) == Padded(taps, n)
  {
    var dealt := Deal(Padded(taps, n), n);
    forall c | 0 <= c < n
      ensures ReversedEach(channels)[c] == dealt[c]
    {
      ReversedTwice(dealt[c]);
    }
    assert ReversedEach(channels) == dealt;
    CollectDealt(Padded(taps, n), n);
  }

  // ---- spreading the channels over the banks ------------------------------------------------

  /** vector_map: each output item names an input vector and a place in it. */
  function Picked<T>(inputs: seq<seq<T>>, picks: seq<(nat, nat)>): (out: seq<T>)
    requires forall i :: 0 <= i < |picks| ==> picks[i].0 < |inputs| && picks[i].1 < |inputs[picks[i].0]|
    ensures |out| == |picks|
    ensures forall i :: 0 <= i < |picks| ==> out[i] == inputs[picks[i].0][picks[i].1]
  {
    if picks == [] then []
    else Picked(inputs, picks[..|picks| - 1])
         + [inputs[picks[|picks| - 1].0][picks[|picks| - 1].1]]
  }

  /** The banks' sizes, the two mappings round them, and each bank's filters by their taps. */
  datatype Banks = Banks(sizes: seq<nat>, split: seq<seq<(nat, nat)>>, combine: seq<(nat, nat)>,
                         taps: seq<seq<seq<real>>>)

  function Total(sizes: seq<nat>): nat {
    if sizes == [] then 0 else Total(sizes[..|sizes| - 1]) + sizes[|sizes| - 1]
  }

  /** Sizes that differ by at most one, the larger ones first, and cover n channels. */
  ghost predicate Even(sizes: seq<nat>, n: nat) {
    && Total(sizes) == n
    && (forall i :: 0 <= i < |sizes| ==> 0 < sizes[i])
    && (forall i, j :: 0 <= i < j < |sizes| ==> sizes[j] <= sizes[i] <= sizes[j] + 1)
  }

  lemma {:induction false} EvenTotal(sizes: seq<nat>, low: nat, extra: nat)
    requires forall i :: 0 <= i < |sizes| ==> sizes[i] == if i < extra then low + 1 else low
    ensures Total(sizes) == low * |sizes| + if extra <= |sizes| then extra else |sizes|
  {
    if sizes != [] {
      EvenTotal(sizes[..|sizes| - 1], low, extra);
      assert low * |sizes| == low * (|sizes| - 1) + low;
    }
  }

  method BankSizes(n: nat, banks: nat) returns (sizes: seq<nat>)
    requires 0 < banks <= n
    ensures |sizes| == banks && Even(sizes, n)
  {
    var low := n / banks;
    WholePart(n, banks);
    var extra := n - low * banks;
    Quotient(banks, banks, 1);
    QuotientMonotone(banks, n, banks);
    sizes := seq(banks, _ => low);
    for i := 0 to extra
      invariant |sizes| == banks
      invariant forall j :: 0 <= j < banks ==> sizes[j] == if j < i then low + 1 else low
    {
      sizes := sizes[i := sizes[i] + 1];
    }
    EvenTotal(sizes, low, extra);
  }

  /** The combiner's i-th pick finds what the splitter sent of channel i. */
  predicate MatchedAt(split: seq<seq<(nat, nat)>>, pick: (nat, nat), i: nat) {
    pick.0 < |split| && pick.1 < |split[pick.0]| && split[pick.0][pick.1] == (0, i)
  }

  ghost predicate Matched(split: seq<seq<(nat, nat)>>, combine: seq<(nat, nat)>) {
    combine == [] ||
    (MatchedAt(split, combine[|combine| - 1], |combine| - 1) && Matched(split, combine[..|combine| - 1]))
  }

  lemma {:induction false} MatchedEach(split: seq<seq<(nat, nat)>>, combine: seq<(nat, nat)>, i: nat)
    requires Matched(split, combine) && i < |combine|
    ensures MatchedAt(split, combine[i], i)
  {
    if i < |combine| - 1 { MatchedEach(split, combine[..|combine| - 1], i); }
  }

  lemma {:induction false} MatchedStays(split: seq<seq<(nat, nat)>>, more: seq<(nat, nat)>, combine: seq<(nat, nat)>)
    requires Matched(split, combine)
    ensures Matched(split + [more], combine)
  {
    if combine != [] { MatchedStays(split, more, combine[..|combine| - 1]); }
  }

  /** One bank's channels, `size` of them from `total`. */
  function BankSplit(total: nat, size: nat): (s: seq<(nat, nat)>)
    ensures |s| == size && forall j :: 0 <= j < size ==> s[j] == (0, total + j)
  {
    if size == 0 then [] else BankSplit(total, size - 1) + [(0, total + size - 1)]
  }

  function BankCombine(bank: nat, size: nat): (s: seq<(nat, nat)>)
    ensures |s| == size && forall j :: 0 <= j < size ==> s[j] == (bank, j)
  {
    if size == 0 then [] else BankCombine(bank, size - 1) + [(bank, size - 1)]
  }

  /** Picks from one vector of n items. */
  ghost predicate FromOne(picks: seq<(nat, nat)>, n: nat) {
    forall j :: 0 <= j < |picks| ==> picks[j].0 == 0 && picks[j].1 < n
  }

  ghost predicate AllFromOne(split: seq<seq<(nat, nat)>>, n: nat) {
    forall i :: 0 <= i < |split| ==> FromOne(split[i], n)
  }

  /** The bank's channels matched, its first `size` of them at least. */
  lemma {:induction false} BankMatched(split: seq<seq<(nat, nat)>>, whole: nat, combine: seq<(nat, nat)>, size: nat)
    requires size <= whole && Matched(split, combine)
    ensures Matched(split + [BankSplit(|combine|, whole)], combine + BankCombine(|split|, size))
  {
    var more := split + [BankSplit(|combine|, whole)];
    if size == 0 {
      MatchedStays(split, BankSplit(|combine|, whole), combine);
      assert combine + [] == combine;
    } else {
      BankMatched(split, whole, combine, size - 1);
      var longer := combine + BankCombine(|split|, size);
      assert longer[..|longer| - 1] == combine + BankCombine(|split|, size - 1);
      assert MatchedAt(more, (|split|, size - 1), |combine| + size - 1);
    }
  }

  lemma BankFromOne(split: seq<seq<(nat, nat)>>, total: nat, size: nat)
    requires AllFromOne(split, total)
    ensures AllFromOne(split + [BankSplit(total, size)], total + size)
  {
    var more := split + [BankSplit(total, size)];
    forall i | 0 <= i < |more|
      ensures FromOne(more[i], total + size)
    {
      if i < |split| { assert FromOne(split[i], total); }
    }
  }

  /** Every bank is sent as many channels as its size says. */
  ghost predicate Sized(split: seq<seq<(nat, nat)>>, sizes: seq<nat>) {
    |split| <= |sizes| && forall i :: 0 <= i < |split| ==> |split[i]| == sizes[i]
  }

  lemma BankSized(split: seq<seq<(nat, nat)>>, sizes: seq<nat>, more: seq<(nat, nat)>)
    requires Sized(split, sizes) && |split| < |sizes| && |more| == sizes[|split|]
    ensures Sized(split + [more], sizes)
  {
  }

  lemma TotalNext(sizes: seq<nat>, bank: nat)
    requires bank < |sizes|
    ensures Total(sizes[..bank + 1]) == Total(sizes[..bank]) + sizes[bank] <= Total(sizes)
  {
    assert sizes[..bank + 1][..bank] == sizes[..bank];
    TotalGrows(sizes, bank + 1);
  }

  /** A bank's filters are those of the channels the splitter sends it. */
  ghost predicate OwnTaps(split: seq<(nat, nat)>, bankTaps: seq<seq<real>>, taps: seq<seq<real>>) {
    |bankTaps| == |split| && forall j :: 0 <= j < |split| ==> split[j].1 < |taps| && bankTaps[j] == taps[split[j].1]
  }

  ghost predicate AllOwnTaps(split: seq<seq<(nat, nat)>>, filters: seq<seq<seq<real>>>, taps: seq<seq<real>>) {
    |filters| == |split| && forall i :: 0 <= i < |split| ==> OwnTaps(split[i], filters[i], taps)
  }

  lemma BankOwnTaps(split: seq<seq<(nat, nat)>>, filters: seq<seq<seq<real>>>, taps: seq<seq<real>>,
                    more: seq<(nat, nat)>, own: seq<seq<real>>)
    requires AllOwnTaps(split, filters, taps) && OwnTaps(more, own, taps)
    ensures AllOwnTaps(split + [more], filters + [own], taps)
  {
  }

  lemma {:induction false} TotalGrows(sizes: seq<nat>, n: nat)
    requires n <= |sizes|
    ensures Total(sizes[..n]) <= Total(sizes)
    decreases |sizes|
  {
    if n < |sizes| {
      TotalGrows(sizes[..|sizes| - 1], n);
      assert sizes[..|sizes| - 1][..n] == sizes[..n];
    } else {
      assert sizes[..n] == sizes;
    }
  }

  /** One bank's filters: the next `size` channels' taps, in order. */
  method BankTaps(taps: seq<seq<real>>, total: nat, size: nat) returns (own: seq<seq<real>>)
    requires total + size <= |taps|
    ensures OwnTaps(BankSplit(total, size), own, taps)
  {
    own := [];
    for i := total to total + size
      invariant |own| == i - total && forall j :: 0 <= j < |own| ==> own[j] == taps[total + j]
    {
      own := own + [taps[i]];
    }
  }

  method SpreadBanks(n: nat, banks: nat, taps: seq<seq<real>>) returns (b: Banks)
    requires 0 < banks <= n == |taps|
    ensures Even(b.sizes, n) && |b.sizes| == |b.split| == banks && |b.combine| == n
    ensures Sized(b.split, b.sizes)
    ensures AllFromOne(b.split, n) && Matched(b.split, b.combine)
    ensures AllOwnTaps(b.split, b.taps, taps)
  {
    var sizes := BankSizes(n, banks);
    var split: seq<seq<(nat, nat)>>, combine: seq<(nat, nat)>, total := [], [], 0;
    var filters: seq<seq<seq<real>>> := [];
    for bank := 0 to banks
      invariant |split| == bank && total == |combine| == Total(sizes[..bank])
      invariant Sized(split, sizes)
      invariant AllFromOne(split, total)
      invariant Matched(split, combine)
      invariant AllOwnTaps(split, filters, taps)
    {
      TotalNext(sizes, bank);
      BankSized(split, sizes, BankSplit(total, sizes[bank]));
      var own := BankTaps(taps, total, sizes[bank]);
      BankMatched(split, sizes[bank], combine, sizes[bank]);
      BankFromOne(split, total, sizes[bank]);
      BankOwnTaps(split, filters, taps, BankSplit(total, sizes[bank]), own);
      split := split + [BankSplit(total, sizes[bank])];
      filters := filters + [own];
      combine := combine + BankCombine(bank, sizes[bank]);
      total := total + sizes[bank];
    }
    assert sizes[..banks] == sizes;
    b := Banks(sizes, split, combine, filters);
  }

  function SplitAll<T>(v: seq<T>, split: seq<seq<(nat, nat)>>): (vs: seq<seq<T>>)
    requires AllFromOne(split, |v|)
    ensures |vs| == |split|
  {
    if split == [] then [] else [Picked([v], split[0])] + SplitAll(v, split[1..])
  }

  lemma {:induction false} SplitAt<T>(v: seq<T>, split: seq<seq<(nat, nat)>>, i: nat)
    requires AllFromOne(split, |v|) && i < |split|
    ensures SplitAll(v, split)[i] == Picked([v], split[i])
  {
    if i > 0 { SplitAt(v, split[1..], i - 1); }
  }

  lemma PickArrives<T>(v: seq<T>, split: seq<seq<(nat, nat)>>, combine: seq<(nat, nat)>, i: nat)
    requires Matched(split, combine) && AllFromOne(split, |v|) && i < |combine| == |v|
    ensures var pick := combine[i];
      pick.0 < |split| && pick.1 < |SplitAll(v, split)[pick.0]| && SplitAll(v, split)[pick.0][pick.1] == v[i]
  {
    MatchedEach(split, combine, i);
    SplitAt(v, split, combine[i].0);
  }

  /** The combiner puts every channel back where the splitter took it from. */
  lemma CombineUndoesSplit<T>(v: seq<T>, b: Banks)
    requires Matched(b.split, b.combine) && AllFromOne(b.split, |v|) && |b.combine| == |v|
    ensures forall i :: 0 <= i < |v| ==>
      b.combine[i].0 < |b.split| && b.combine[i].1 < |SplitAll(v, b.split)[b.combine[i].0]|
    ensures Picked(SplitAll(v, b.split), b.combine) == v
  {
    forall i | 0 <= i < |v|
      ensures b.combine[i].0 < |b.split| && b.combine[i].1 < |SplitAll(v, b.split)[b.combine[i].0]|
      ensures SplitAll(v, b.split)[b.combine[i].0][b.combine[i].1] == v[i]
    {
      PickArrives(v, b.split, b.combine, i);
    }
  }

  /**
   A bank: filter j over what its place j has carried.  `filter` is what a filter of
   given taps makes of one channel, whose items so far are one T.
   */
  function BankOut<T, U>(filter: (seq<real>, T) -> U, bankTaps: seq<seq<real>>, inputs: seq<T>): (out: seq<U>)
    requires |bankTaps| == |inputs|
    ensures |out| == |inputs| && forall j :: 0 <= j < |inputs| ==> out[j] == filter(bankTaps[j], inputs[j])
  {
    if inputs == [] then []
    else BankOut(filter, bankTaps[..|inputs| - 1], inputs[..|inputs| - 1])
         + [filter(bankTaps[|inputs| - 1], inputs[|inputs| - 1])]
  }

  /** All the banks, each over what the splitter sends it. */
  function BanksOut<T, U>(filter: (seq<real>, T) -> U, b: Banks, v: seq<T>): (out: seq<seq<U>>)
    requires AllFromOne(b.split, |v|) && |b.taps| == |b.split|
    requires forall i :: 0 <= i < |b.split| ==> |b.taps[i]| == |b.split[i]|
    ensures |out| == |b.split|
    ensures forall i :: 0 <= i < |out| ==> out[i] == BankOut(filter, b.taps[i], Picked([v], b.split[i]))
  {
    seq(|b.split|, i requires 0 <= i < |b.split| && FromOne(b.split[i], |v|) && |b.taps[i]| == |b.split[i]| =>
      BankOut(filter, b.taps[i], Picked([v], b.split[i])))
  }

  /**
   From the splitter through the banks to the combiner, whatever the filters compute:
   place i holds channel i filtered by channel i's own taps.
   */
  lemma EveryChannelItsTaps<T, U>(filter: (seq<real>, T) -> U, b: Banks, taps: seq<seq<real>>, v: seq<T>)
    requires AllFromOne(b.split, |v|) && Matched(b.split, b.combine) && AllOwnTaps(b.split, b.taps, taps)
    requires |b.combine| == |v| == |taps|
    ensures forall i :: 0 <= i < |v| ==>
      b.combine[i].0 < |b.split| && b.combine[i].1 < |BanksOut(filter, b, v)[b.combine[i].0]|
    ensures Picked(BanksOut(filter, b, v), b.combine) == BankOut(filter, taps, v)
  {
    forall i | 0 <= i < |v|
      ensures b.combine[i].0 < |b.split| && b.combine[i].1 < |BanksOut(filter, b, v)[b.combine[i].0]|
      ensures BanksOut(filter, b, v)[b.combine[i].0][b.combine[i].1] == filter(taps[i], v[i])
    {
      MatchedEach(b.split, b.combine, i);
      assert OwnTaps(b.split[b.combine[i].0], b.taps[b.combine[i].0], taps);
    }
  }

  // ---- selecting the outputs --------------------------------------------------------------------

  /** output_channels() */
  function OutputChannels(n: nat, outchans: seq<int>): seq<int> {
    if outchans == [] then Upto(n) else outchans
  }

  ghost predicate InRange(channels: seq<int>, n: nat) {
    forall i :: 0 <= i < |channels| ==> 0 <= channels[i] < n
  }

  predicate Sorted(channels: seq<int>) {
    |channels| < 2 || (channels[0] <= channels[1] && Sorted(channels[1..]))
  }

  /** The test under which no selector is put in. */
  predicate Bypassed(channels: seq<int>, n: nat)
    requires channels != []
  {
    |channels| == n && Sorted(channels) && channels[0] == 0
  }

  ghost predicate NoRepeat(channels: seq<int>) {
    forall i, j :: 0 <= i < j < |channels| ==> channels[i] != channels[j]
  }

  /** What the listed channels are. */
  function Selected<T>(v: seq<T>, channels: seq<int>): (out: seq<T>)
    requires InRange(channels, |v|)
    ensures |out| == |channels| && forall i :: 0 <= i < |channels| ==> out[i] == v[channels[i]]
  {
    if channels == [] then []
    else Selected(v, channels[..|channels| - 1]) + [v[channels[|channels| - 1]]]
  }

  /** What the wiring delivers. */
  function Delivered<T>(v: seq<T>, channels: seq<int>): seq<T>
    requires channels != [] && InRange(channels, |v|)
  {
    if Bypassed(channels, |v|) then v else Selected(v, channels)
  }

  lemma {:induction false} SortedOrders(channels: seq<int>, i: nat, j: nat)
    requires Sorted(channels) && i <= j < |channels|
    ensures channels[i] <= channels[j]
  {
    if i > 0 {
      SortedOrders(channels[1..], i - 1, j - 1);
    } else if j > 0 {
      SortedOrders(channels[1..], 0, j - 1);
    }
  }

  lemma {:induction false} RisesByOne(channels: seq<int>, i: nat, j: nat)
    requires Sorted(channels) && NoRepeat(channels) && i <= j < |channels|
    ensures channels[i] + (j - i) <= channels[j]
    decreases j - i
  {
    if i < j {
      RisesByOne(channels, i, j - 1);
      SortedOrders(channels, j - 1, j);
    }
  }

  lemma {:induction false} OrderedIsSorted(channels: seq<int>)
    requires forall i, j :: 0 <= i <= j < |channels| ==> channels[i] <= channels[j]
    ensures Sorted(channels)
  {
    if |channels| >= 2 { OrderedIsSorted(channels[1..]); }
  }

  /** The lists that bypass the selector without a repeat: every channel in order, and no other. */
  lemma BypassIsIdentity(channels: seq<int>, n: nat)
    requires channels != [] && InRange(channels, n)
    ensures Bypassed(channels, n) && NoRepeat(channels) <==> channels == Upto(n)
  {
    if channels == Upto(n) { OrderedIsSorted(channels); }
    if Bypassed(channels, n) && NoRepeat(channels) {
      forall i | 0 <= i < n
        ensures channels[i] == Upto(n)[i]
      {
        RisesByOne(channels, 0, i);
        RisesByOne(channels, i, n - 1);
      }
    }
  }

  /** As many channels as there are, never falling, the first 0, and one of them twice. */
  ghost predicate RepeatsInOrder(channels: seq<int>, n: nat) {
    && |channels| == n > 0 && channels[0] == 0
    && (forall i, j :: 0 <= i < j < |channels| ==> channels[i] <= channels[j])
    && !NoRepeat(channels)
  }

  /**
   For every vector the outputs are the channels listed, exactly when the list is not
   one that bypasses the selector although it repeats a channel.
   */
  lemma DeliversIff(channels: seq<int>, n: nat)
    requires channels != [] && InRange(channels, n)
    ensures (forall v: seq<nat> :: |v| == n ==> Delivered(v, channels) == Selected(v, channels))
       <==> !RepeatsInOrder(channels, n)
  {
    BypassedIff(channels, n);
    if Bypassed(channels, n) {
      BypassIsIdentity(channels, n);
      if NoRepeat(channels) {
        forall v: seq<nat> | |v| == n
          ensures Delivered(v, channels) == Selected(v, channels)
        {
        }
      } else {
        var v := Upto(n);
        var k :| 0 <= k < n && channels[k] != Upto(n)[k];
        assert Delivered(v, channels)[k] != Selected(v, channels)[k];
      }
    }
  }

  lemma BypassedIff(channels: seq<int>, n: nat)
    requires channels != []
    ensures Bypassed(channels, n) && !NoRepeat(channels) <==> RepeatsInOrder(channels, n)
  {
    if Bypassed(channels, n) {
      forall i, j | 0 <= i < j < |channels|
        ensures channels[i] <= channels[j]
      {
        SortedOrders(channels, i, j);
      }
    }
    if forall i, j :: 0 <= i < j < |channels| ==> channels[i] <= channels[j] { OrderedIsSorted(channels); }
  }

  /** Such a list: four channels asked for as 0, 0, 2, 3. */
  lemma RepeatSlipsThrough()
    ensures var channels := [0, 0, 2, 3];
      InRange(channels, 4) && Bypassed(channels, 4) && !NoRepeat(channels)
  {
    var channels := [0, 0, 2, 3];
    assert channels[1..] == [0, 2, 3] && channels[1..][1..] == [2, 3];
    assert Sorted([2, 3]) && Sorted([0, 2, 3]);
    assert channels[0] == channels[1];
  }

  // ---- the constructor ----------------------------------------------------------------------------

  datatype Wiring = Wiring(taps: seq<seq<real>>, banks: Banks, channels: seq<int>)

  /** `designed` is the filter used when no taps are given. */
  method Build(n: int, filterbanks: int, taps: seq<real>, designed: seq<real>, outchans: seq<int>)
    returns (r: Result<Wiring>)
    ensures r.Err? <==> n < 1 || !InRange(outchans, n)
    ensures r.Ok? ==>
      && |r.value.taps| == n
      && RoundRobin(ReversedEach(r.value.taps)) == Padded(if taps == [] then designed else taps, n)
    ensures r.Ok? ==>
      && Even(r.value.banks.sizes, n)
      && |r.value.banks.sizes| == (if filterbanks < 1 then 1 else if filterbanks > n then n else filterbanks)
      && |r.value.banks.split| == |r.value.banks.sizes| && AllFromOne(r.value.banks.split, n)
      && Sized(r.value.banks.split, r.value.banks.sizes)
      && Matched(r.value.banks.split, r.value.banks.combine) && |r.value.banks.combine| == n
      && AllOwnTaps(r.value.banks.split, r.value.banks.taps, r.value.taps)
    ensures r.Ok? ==> r.value.channels == if outchans != [] then outchans else Upto(n)
  {
    if n < 1 { return Err("Hierarchical Polyphase Channelizer needs at least one channel"); }
    var channels := OutputChannels(n, outchans);
    for i := 0 to |channels|
      invariant InRange(channels[..i], n)
    {
      if channels[i] < 0 || channels[i] >= n {
        return Err("Hierarchical Polyphase Channelizer output channel is out of range");
      }
    }
    assert channels[..|channels|] == channels;
    var count: nat := if filterbanks < 1 then 1 else if filterbanks > n then n else filterbanks;
    var prototype := if taps == [] then designed else taps;
    var dealt := DealTaps(Padded(prototype, n), n);
    TapsReinterleave(prototype, n, dealt);
    var banks := SpreadBanks(n, count, dealt);
    r := Ok(Wiring(dealt, banks, channels));
  }
}
