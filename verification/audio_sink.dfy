/**
 The audio sink: a blocking producer into the ring that falls back to dropping
 at the wall clock's pace when nothing drains it.
 */
module AudioSink {
  import opened Arithmetic
  import opened Ring
  import opened RingBuffer
  import opened Sequences

  const STALL_WAITS := 10

  datatype State = Initial | Running | Error | Cancelled

  /**
   What the block meets at one pass of its loop: frames the device has drained
   since the last pass, the state word, frames it drains during a bounded wait,
   and the high-resolution clock.
   */
  datatype Look = Look(drained: nat, state: State, whileWaiting: nat, now: nat)

  datatype Outcome = Returned(frames: nat) | WorkDone | Thrown | Waiting

  // ---- what happened to each input frame --------------------------------------

  /** The frames whose fate was to enter the ring, in order. */
  function Kept<T>(frames: seq<T>, fate: seq<bool>): seq<T>
    requires |frames| == |fate|
  {
    if frames == [] then []
    else Kept(frames[..|frames| - 1], fate[..|fate| - 1]) +
         if fate[|fate| - 1] then [frames[|frames| - 1]] else []
  }

  function Lost(fate: seq<bool>): nat {
    if fate == [] then 0
    else Lost(fate[..|fate| - 1]) + if fate[|fate| - 1] then 0 else 1
  }

  function Fate(kept: bool, frames: nat): seq<bool> {
    seq(frames, _ => kept)
  }

  lemma {:induction false} FateAppend<T>(frames: seq<T>, fate: seq<bool>, block: seq<T>, kept: bool)
    requires |frames| == |fate|
    ensures Kept(frames + block, fate + Fate(kept, |block|))
         == Kept(frames, fate) + if kept then block else []
    ensures Lost(fate + Fate(kept, |block|)) == Lost(fate) + if kept then 0 else |block|
  {
    if block == [] {
      assert frames + block == frames && fate + Fate(kept, 0) == fate;
    } else {
      var front, n := block[..|block| - 1], |block| - 1;
      FateAppend(frames, fate, front, kept);
      assert (frames + block)[..|frames + block| - 1] == frames + front;
      assert (fate + Fate(kept, |block|))[..|fate| + n] == fate + Fate(kept, n);
      assert front + [block[n]] == block;
    }
  }

  /** Every frame is accounted for once. */
  lemma {:induction false} KeptPlusLost<T>(frames: seq<T>, fate: seq<bool>)
    requires |frames| == |fate|
    ensures |Kept(frames, fate)| + Lost(fate) == |frames|
  {
    if frames != [] { KeptPlusLost(frames[..|frames| - 1], fate[..|fate| - 1]); }
  }

  lemma {:induction false} NothingLost<T>(frames: seq<T>, fate: seq<bool>)
    requires |frames| == |fate|
    ensures Lost(fate) == 0 <==> Kept(frames, fate) == frames
  {
    KeptPlusLost(frames, fate);
    if frames != [] {
      var n := |frames| - 1;
      NothingLost(frames[..n], fate[..n]);
      KeptPlusLost(frames[..n], fate[..n]);
      assert frames == frames[..n] + [frames[n]];
    }
  }

  // ---- the lost-frame word ------------------------------------------------------

  const WORD32 := 0x1_0000_0000
  const HALF32 := 0x8000_0000

  /** A count kept in an int32 that wraps. */
  function Word32(n: int): (w: int)
    ensures -HALF32 <= w < HALF32
    ensures 0 <= n < HALF32 ==> w == n
    ensures w == 0 <==> n % WORD32 == 0
  {
    (n + HALF32) % WORD32 - HALF32
  }

  lemma Word32Adds(n: nat, more: nat)
    ensures Word32(Word32(n) + more) == Word32(n + more)
  {
    var q := (n + HALF32) / WORD32;
    assert Word32(n) + q * WORD32 == n;
    ModShift(Word32(n) + more + HALF32, q, WORD32);
  }

  /** What a drop leaves of the frames kept, and of the word that counts the others. */
  lemma DropCounts<T>(offered: seq<T>, fate: seq<bool>, block: seq<T>, dropped: nat, word: int)
    requires |offered| == |fate| && |block| == dropped && word == Word32(Lost(fate))
    ensures |offered + block| == |fate + Fate(false, dropped)|
    ensures Kept(offered + block, fate + Fate(false, dropped)) == Kept(offered, fate)
    ensures Word32(word + dropped) == Word32(Lost(fate + Fate(false, dropped)))
  {
    FateAppend(offered, fate, block, false);
    Word32Adds(Lost(fate), dropped);
  }

  // ---- frames of several channels -------------------------------------------------

  /** A slot of the interleaved ring: one channel's, in one of `count` frames from `at` on. */
  predicate InPart(n: nat, channel: nat, at: nat, count: nat, k: nat)
    requires 0 < n
  {
    k % n == channel && at <= k / n < at + count
  }

  lemma PartGrows(n: nat, channel: nat, at: nat, i: nat, k: nat)
    requires channel < n
    ensures InPart(n, channel, at, i + 1, k) <==> InPart(n, channel, at, i, k) || k == (at + i) * n + channel
  {
    WholePart(k, n);
    if k == (at + i) * n + channel { ModUnique(k, n, at + i, channel); }
  }

  lemma SlotInside(n: nat, f: nat, c: nat, end: nat)
    requires c < n && f < end
    ensures f * n + c < end * n
  {
    ScaleDown(end - f - 1, n);
    assert (end - f - 1) * n == end * n - f * n - n;
  }

  /** One channel's samples into its places of the interleaved frames. */
  method CopyChannel<X>(ring: array<X>, n: nat, channel: nat, at: nat, samples: seq<X>)
    requires channel < n && (at + |samples|) * n <= ring.Length
    modifies ring
    ensures forall k :: 0 <= k < ring.Length ==>
      ring[k] == if InPart(n, channel, at, |samples|, k) then samples[k / n - at] else old(ring[k])
  {
    for i := 0 to |samples|
      invariant forall k :: 0 <= k < ring.Length ==>
        ring[k] == if InPart(n, channel, at, i, k) then samples[k / n - at] else old(ring[k])
    {
      SlotInside(n, at + i, channel, at + |samples|);
      ModUnique((at + i) * n + channel, n, at + i, channel);
      forall k: nat { PartGrows(n, channel, at, i, k); }
      ring[(at + i) * n + channel] := samples[i];
    }
  }

  /**
   The copy loop, channel by channel: slot k of the frames from `at` on gets the sample
   of channel k % n for its frame, and no other slot changes.
   */
  method CopyFrames<X>(ring: array<X>, input: seq<seq<X>>, consumed: nat, at: nat, take: nat)
    requires 0 < |input| && (at + take) * |input| <= ring.Length
    requires forall c :: 0 <= c < |input| ==> consumed + take <= |input[c]|
    modifies ring
    ensures forall k :: 0 <= k < ring.Length ==>
      ring[k] == if at <= k / |input| < at + take then input[k % |input|][consumed + (k / |input| - at)] else old(ring[k])
  {
    var n := |input|;
    for channel := 0 to n
      invariant forall k :: 0 <= k < ring.Length ==>
        ring[k] == if at <= k / n < at + take && k % n < channel then input[k % n][consumed + (k / n - at)] else old(ring[k])
    {
      CopyChannel(ring, n, channel, at, input[channel][consumed..consumed + take]);
    }
  }

  /** Frame f of samples laid out frame after frame. */
  function FrameIn<X>(flat: seq<X>, n: nat, frames: nat, f: nat): (frame: seq<X>)
    requires 0 < n && |flat| == frames * n && f < frames
    ensures |frame| == n
    ensures forall c :: 0 <= c < n ==> (SlotInside(n, f, c, frames); frame[c] == flat[f * n + c])
  {
    SlotInside(n, f, n - 1, frames);
    flat[f * n..f * n + n]
  }

  function FramesIn<X>(flat: seq<X>, n: nat, frames: nat): (r: seq<seq<X>>)
    requires 0 < n && |flat| == frames * n
    ensures |r| == frames && forall f :: 0 <= f < frames ==> r[f] == FrameIn(flat, n, frames, f)
  {
    seq(frames, f requires 0 <= f < frames => FrameIn(flat, n, frames, f))
  }

  /** Every channel with the same number of samples. */
  ghost predicate Level<X>(input: seq<seq<X>>, total: nat) {
    0 < |input| && forall c :: 0 <= c < |input| ==> |input[c]| == total
  }

  /** Input frames: one sample of every channel each. */
  function FramesOf<X>(input: seq<seq<X>>, from: nat, count: nat): (frames: seq<seq<X>>)
    requires forall c :: 0 <= c < |input| ==> from + count <= |input[c]|
    ensures |frames| == count
    ensures forall i :: 0 <= i < count ==>
      |frames[i]| == |input| && forall c :: 0 <= c < |input| ==> frames[i][c] == input[c][from + i]
  {
    seq(count, i requires 0 <= i < count =>
      seq(|input|, c requires 0 <= c < |input| && from + count <= |input[c]| => input[c][from + i]))
  }

  lemma FramesJoin<X>(input: seq<seq<X>>, from: nat, a: nat, b: nat)
    requires forall c :: 0 <= c < |input| ==> from + a + b <= |input[c]|
    ensures FramesOf(input, from, a) + FramesOf(input, from + a, b) == FramesOf(input, from, a + b)
  {
    var joined, whole := FramesOf(input, from, a) + FramesOf(input, from + a, b), FramesOf(input, from, a + b);
    forall i | 0 <= i < a + b
      ensures joined[i] == whole[i]
    {
      assert forall c :: 0 <= c < |input| ==> joined[i][c] == whole[i][c];
    }
  }

  /** A stretch of frames after the frames before it, and after anything earlier. */
  lemma FramesAfter<X>(earlier: seq<seq<X>>, input: seq<seq<X>>, a: nat, b: nat)
    requires forall c :: 0 <= c < |input| ==> a + b <= |input[c]|
    ensures earlier + FramesOf(input, 0, a) + FramesOf(input, a, b) == earlier + FramesOf(input, 0, a + b)
  {
    FramesJoin(input, 0, a, b);
    Regroup(earlier, FramesOf(input, 0, a), FramesOf(input, a, b));
  }

  lemma FramesFirst<X>(input: seq<seq<X>>, from: nat, count: nat, some: nat)
    requires some <= count && forall c :: 0 <= c < |input| ==> from + count <= |input[c]|
    ensures FramesOf(input, from, count)[..some] == FramesOf(input, from, some)
  {
    FramesJoin(input, from, some, count - some);
  }

  lemma FrameCopied<X>(was: seq<X>, now: seq<X>, input: seq<seq<X>>, consumed: nat, at: nat, take: nat, frames: nat, f: nat)
    requires 0 < |input| && |was| == |now| == frames * |input| && at + take <= frames && f < frames
    requires forall c :: 0 <= c < |input| ==> consumed + take <= |input[c]|
    requires forall k :: 0 <= k < |now| ==>
      now[k] == if at <= k / |input| < at + take then input[k % |input|][consumed + (k / |input| - at)] else was[k]
    ensures FrameIn(now, |input|, frames, f) == if at <= f < at + take then FramesOf(input, consumed, take)[f - at]
                                                else FrameIn(was, |input|, frames, f)
  {
    var n := |input|;
    var expected := if at <= f < at + take then FramesOf(input, consumed, take)[f - at] else FrameIn(was, n, frames, f);
    forall c | 0 <= c < n
      ensures FrameIn(now, n, frames, f)[c] == expected[c]
    {
      SlotInside(n, f, c, frames);
      ModUnique(f * n + c, n, f, c);
    }
  }

  /** What the copy loop leaves, frame by frame: a block of input frames, and the rest as it was. */
  lemma FramesCopied<X>(was: seq<X>, now: seq<X>, input: seq<seq<X>>, consumed: nat, at: nat, take: nat, frames: nat)
    requires 0 < |input| && |was| == |now| == frames * |input| && at + take <= frames
    requires forall c :: 0 <= c < |input| ==> consumed + take <= |input[c]|
    requires forall k :: 0 <= k < |now| ==>
      now[k] == if at <= k / |input| < at + take then input[k % |input|][consumed + (k / |input| - at)] else was[k]
    ensures forall f :: 0 <= f < frames ==>
      FramesIn(now, |input|, frames)[f] == if at <= f < at + take then FramesOf(input, consumed, take)[f - at]
                                           else FramesIn(was, |input|, frames)[f]
  {
    forall f | 0 <= f < frames
      ensures FrameIn(now, |input|, frames, f) == if at <= f < at + take then FramesOf(input, consumed, take)[f - at]
                                                  else FrameIn(was, |input|, frames, f)
    {
      FrameCopied(was, now, input, consumed, at, take, frames, f);
    }
  }

  /** Seen as frames the copy is one block put at the write position: unread frames stay. */
  lemma CopyKeepsFrames<X>(was: seq<X>, now: seq<X>, input: seq<seq<X>>, consumed: nat, take: nat,
                           taken: nat, written: seq<seq<X>>, frames: nat)
    requires 0 < |input| && |was| == |now| == frames * |input| && 2 <= frames
    requires forall c :: 0 <= c < |input| ==> consumed + take <= |input[c]|
    requires taken <= |written| && |written| + take <= taken + frames - 1 && |written| % frames + take <= frames
    requires var at := |written| % frames;
      forall k :: 0 <= k < |now| ==>
        now[k] == if at <= k / |input| < at + take then input[k % |input|][consumed + (k / |input| - at)] else was[k]
    requires forall k :: taken <= k < |written| ==> FramesIn(was, |input|, frames)[k % frames] == written[k]
    ensures forall k :: taken <= k < |written| + take ==>
      FramesIn(now, |input|, frames)[k % frames] == (written + FramesOf(input, consumed, take))[k]
  {
    FramesCopied(was, now, input, consumed, |written| % frames, take, frames);
    CopyKeepsContents(FramesIn(was, |input|, frames), FramesIn(now, |input|, frames),
                      taken, written, FramesOf(input, consumed, take));
  }

  /** A running device that takes something in every wait. */
  ghost predicate Lively(looks: seq<Look>) {
    forall i :: 0 <= i < |looks| ==> looks[i].state == Running && 0 < looks[i].whileWaiting
  }

  ghost predicate ClockRuns(from: nat, looks: seq<Look>) {
    forall i :: 0 <= i < |looks| ==>
      from <= looks[i].now && forall j :: i <= j < |looks| ==> looks[i].now <= looks[j].now
  }

  /** The frames a sample clock lets go by in so many timer ticks. */
  function Due(framesPerTick: real, ticks: nat): int {
    (ticks as real * framesPerTick).Floor
  }

  class BrowserAudioSink<X(0)> {
    const okToBlock: bool
    const framesPerTick: real    // sample rate over the timer's tick rate
    const channels: nat
    const area: array<X>         // the shared samples, frame after frame
    const ring: Buffer<seq<X>>   // the positions, and the same frames one to a slot
    var idleWaits: nat
    var paceStart: nat           // 0 while no pacing is under way
    var pacedFrames: nat
    var lostFrames: int          // an int32 word
    ghost var offered: seq<seq<X>>   // every input frame consumed so far
    ghost var fate: seq<bool>    // and whether it entered the ring
    ghost var heard: seq<seq<X>>     // what the device has taken
    ghost var clock: nat

    /** Each unread frame's samples lie in the frame's place of the area. */
    ghost predicate Laid()
      reads area, ring, ring.slots
    {
      && ring.Valid() && 0 < channels && area.Length == ring.slots.Length * channels
      && forall k :: ring.taken <= k < |ring.written| ==>
           FramesIn(area[..], channels, ring.slots.Length)[k % ring.slots.Length] == ring.written[k]
    }

    ghost predicate Valid()
      reads this, area, ring, ring.slots
    {
      && Laid() && area as object != ring.slots && 0.0 < framesPerTick
      && |offered| == |fate|
      && ring.written == Kept(offered, fate)
      && lostFrames == Word32(Lost(fate))
      && heard == ring.written[..ring.taken]
      && paceStart <= clock
      && (paceStart != 0 ==> pacedFrames <= Due(framesPerTick, clock - paceStart))
    }

    constructor (capacity: nat, channels: nat, okToBlock: bool, framesPerTick: real)
      requires 2 <= capacity && 0 < channels && 0.0 < framesPerTick
      ensures Valid() && fresh(ring) && fresh(ring.slots) && fresh(area)
      ensures offered == [] && this.okToBlock == okToBlock && this.channels == channels
    {
      this.okToBlock, this.framesPerTick, this.channels := okToBlock, framesPerTick, channels;
      area := new X[capacity * channels];
      ring := new Buffer(capacity);
      idleWaits, paceStart, pacedFrames, lostFrames := 0, 0, 0, 0;
      offered, fate, heard, clock := [], [], [], 0;
    }

    /** The device's side, between two looks or during a wait. */
    method Listen(frames: nat)
      requires Valid()
      modifies this`heard, ring
      ensures Valid() && ring.written == old(ring.written)
      ensures ring.taken == old(ring.taken) + Min(frames, old(ring.Occupied()))
    {
      var block := ring.Drain(frames);
      heard := heard + block;
    }

    /** paced_allowance(): how many frames the clock lets go by now. */
    method PacedAllowance(wanted: nat, now: nat) returns (take: nat)
      requires Valid() && clock <= now
      modifies this`paceStart, this`pacedFrames, this`clock
      ensures Valid() && clock == now && take <= wanted
      ensures paceStart == if old(paceStart) == 0 then now else old(paceStart)
      ensures var before := if old(paceStart) == 0 then 0 else old(pacedFrames);
        && pacedFrames == before + take
        && take as int == if Due(framesPerTick, now - paceStart) <= before then 0
                          else if Due(framesPerTick, now - paceStart) - before <= wanted then Due(framesPerTick, now - paceStart) - before
                          else wanted
    {
      if paceStart == 0 {
        paceStart := now;
        pacedFrames := 0;
      } else {
        DueMonotone(framesPerTick, clock - paceStart, now - paceStart);
      }
      DueMonotone(framesPerTick, 0, now - paceStart);
      clock := now;
      var due := Due(framesPerTick, now - paceStart) - pacedFrames;
      if due <= 0 {
        return 0;
      }
      take := if due <= wanted then due else wanted;
      pacedFrames := pacedFrames + take;
    }

    /** The copy loop and the advance after it. */
    method Store(input: seq<seq<X>>, consumed: nat, take: nat)
      requires Laid() && area as object != ring.slots && |input| == channels
      requires forall c :: 0 <= c < channels ==> consumed + take <= |input[c]|
      requires take <= ring.Free() && ring.writePos + take <= ring.slots.Length
      modifies area, ring, ring.slots
      ensures Laid() && ring.taken == old(ring.taken)
      ensures ring.written == old(ring.written) + FramesOf(input, consumed, take)
    {
      ghost var was, capacity := area[..], ring.slots.Length;
      FitsScaled(ring.writePos + take, capacity, channels);
      CopyFrames(area, input, consumed, ring.writePos, take);
      CopyKeepsFrames(was, area[..], input, consumed, take, ring.taken, ring.written, capacity);
      ring.Put(FramesOf(input, consumed, take));
    }

    /** Frames into the ring, sample by sample; the fallback clock starts over. */
    method Accept(input: seq<seq<X>>, consumed: nat, take: nat)
      requires Valid() && |input| == channels
      requires forall c :: 0 <= c < channels ==> consumed + take <= |input[c]|
      requires take <= ring.Free() && ring.writePos + take <= ring.slots.Length
      modifies this`idleWaits, this`paceStart, this`offered, this`fate, area, ring, ring.slots
      ensures Valid() && ring.taken == old(ring.taken) && idleWaits == 0 && Lost(fate) == old(Lost(fate))
      ensures offered == old(offered) + FramesOf(input, consumed, take) && fate == old(fate) + Fate(true, take)
    {
      ghost var block := FramesOf(input, consumed, take);
      FateAppend(offered, fate, block, true);
      Store(input, consumed, take);
      offered := offered + block;
      fate := fate + Fate(true, take);
      idleWaits, paceStart := 0, 0;
    }

    /** count_lost(): frames the clock has let go by. */
    method Drop(ghost block: seq<seq<X>>, dropped: nat)
      requires Valid() && |block| == dropped
      modifies this`lostFrames, this`offered, this`fate
      ensures Valid()
      ensures offered == old(offered) + block && fate == old(fate) + Fate(false, |block|)
      ensures lostFrames == Word32(old(lostFrames) + dropped)
    {
      DropCounts(offered, fate, block, dropped, lostFrames);
      lostFrames := Word32(lostFrames + dropped);
      offered := offered + block;
      fate := fate + Fate(false, |block|);
    }

    /** A bounded wait on the device, and the watchdog that counts idle ones. */
    method AwaitRead(frames: nat)
      requires Valid()
      modifies this`heard, this`idleWaits, ring
      ensures Valid() && ring.written == old(ring.written)
      ensures 0 < frames && 0 < old(ring.Occupied()) ==> idleWaits == 0
      ensures frames == 0 ==> idleWaits == old(idleWaits) + 1
    {
      ghost var taken := ring.taken;
      var seen := ring.readPos;
      Listen(frames);
      if ring.taken != taken { SlotsDistinct(ring.slots.Length, ring.taken, taken); }
      if ring.readPos == seen { idleWaits := idleWaits + 1; } else { idleWaits := 0; }
    }

    /** The ring is full: wait for the device, or let the clock drop frames. */
    method WhenFull(ghost rest: seq<seq<X>>, wanted: nat, look: Look) returns (passed: nat, giveUp: bool)
      requires Valid() && clock <= look.now && |rest| == wanted && ring.Free() == 0
      modifies this`heard, this`idleWaits, this`paceStart, this`pacedFrames, this`lostFrames,
               this`offered, this`fate, this`clock, ring
      ensures Valid() && clock <= look.now
      ensures passed <= |rest| && offered == old(offered) + rest[..passed]
      ensures fate == old(fate) + Fate(false, passed)
      ensures giveUp ==> passed == 0
      ensures okToBlock && look.state == Running && old(idleWaits) < STALL_WAITS ==>
        !giveUp && Lost(fate) == old(Lost(fate))
        && (0 < look.whileWaiting ==> idleWaits == 0)
    {
      if okToBlock && look.state == Running && idleWaits < STALL_WAITS {
        AwaitRead(look.whileWaiting);
        passed, giveUp := 0, false;
      } else {
        passed := PacedAllowance(wanted, look.now);
        giveUp := passed == 0;
        Drop(rest[..passed], passed);
      }
    }

    /** There is room: one block copy. */
    method WhenFree(input: seq<seq<X>>, consumed: nat, total: nat) returns (passed: nat)
      requires Valid() && |input| == channels && Level(input, total) && consumed < total && 0 < ring.Free()
      modifies this`idleWaits, this`paceStart, this`offered, this`fate, area, ring, ring.slots
      ensures Valid()
      ensures 0 < passed <= total - consumed && offered == old(offered) + FramesOf(input, consumed, passed)
      ensures fate == old(fate) + Fate(true, passed) && idleWaits == 0 && Lost(fate) == old(Lost(fate))
    {
      passed := Min(Min(ring.Free(), total - consumed), ring.slots.Length - ring.writePos);
      Accept(input, consumed, passed);
    }

    /** One pass of the loop: a look at the device, and the frames it lets by. */
    method Pass(input: seq<seq<X>>, consumed: nat, total: nat, look: Look) returns (r: Outcome, passed: nat)
      requires Valid() && clock <= look.now && |input| == channels && Level(input, total) && consumed < total
      modifies this`heard, this`idleWaits, this`paceStart, this`pacedFrames, this`lostFrames,
               this`offered, this`fate, this`clock, area, ring, ring.slots
      ensures Valid() && clock <= look.now
      ensures passed <= total - consumed && old(fate) <= fate
      ensures offered == old(offered) + FramesOf(input, consumed, passed)
      ensures r.Thrown? <==> look.state == Error
      ensures look.state == Cancelled ==> r == if consumed > 0 then Returned(consumed) else WorkDone
      ensures r.WorkDone? ==> look.state == Cancelled
      ensures r.Returned? ==> r.frames == consumed
      ensures !r.Waiting? ==> passed == 0
      ensures okToBlock && old(idleWaits) < STALL_WAITS && look.state == Running && 0 < look.whileWaiting ==>
        r.Waiting? && Lost(fate) == old(Lost(fate)) && idleWaits < STALL_WAITS
    {
      r, passed := Waiting, 0;
      Listen(look.drained);
      if look.state == Error { return Thrown, 0; }
      if look.state == Cancelled { return if consumed > 0 then Returned(consumed) else WorkDone, 0; }
      if ring.Free() == 0 {
        var giveUp;
        passed, giveUp := WhenFull(FramesOf(input, consumed, total - consumed), total - consumed, look);
        FramesFirst(input, consumed, total - consumed, passed);
        if giveUp { r := Returned(consumed); }
      } else {
        passed := WhenFree(input, consumed, total);
      }
    }

    /**
     work(): every input frame consumed is either in the ring, in order, or
     counted as lost; a device that keeps taking frames loses none.
     */
    method Work(input: seq<seq<X>>, total: nat, looks: seq<Look>) returns (r: Outcome, consumed: nat)
      requires Valid() && |input| == channels && Level(input, total) && ClockRuns(clock, looks)
      modifies this`heard, this`idleWaits, this`paceStart, this`pacedFrames, this`lostFrames,
               this`offered, this`fate, this`clock, area, ring, ring.slots
      ensures Valid()
      ensures consumed <= total && offered == old(offered) + FramesOf(input, 0, consumed)
      ensures old(fate) <= fate
      ensures r.Returned? ==> r.frames == consumed
      ensures r.WorkDone? ==> consumed == 0
      ensures okToBlock && old(idleWaits) < 10 && Lively(looks) ==>
        Lost(fate) == old(Lost(fate)) && idleWaits < 10
    {
      consumed := 0;
      r := Waiting;
      var i := 0;
      while consumed < total && i < |looks|
        invariant Valid() && i <= |looks| && r == Waiting
        invariant forall j :: i <= j < |looks| ==> clock <= looks[j].now
        invariant consumed <= total && offered == old(offered) + FramesOf(input, 0, consumed)
        invariant old(fate) <= fate
        invariant okToBlock && old(idleWaits) < STALL_WAITS && Lively(looks) ==>
          Lost(fate) == old(Lost(fate)) && idleWaits < STALL_WAITS
        decreases |looks| - i
      {
        var passed;
        r, passed := Pass(input, consumed, total, looks[i]);
        i := i + 1;
        if !r.Waiting? { break; }
        FramesAfter(old(offered), input, consumed, passed);
        consumed := consumed + passed;
      }
      if consumed == total { r := Returned(consumed); }
    }
  }

  lemma FitsScaled(a: nat, b: nat, n: nat)
    requires a <= b
    ensures a * n <= b * n
  {
  }

  /** Whole frames, and less than one short of what the clock says. */
  lemma DueWhole(framesPerTick: real, ticks: nat)
    ensures var due := Due(framesPerTick, ticks) as real; due <= ticks as real * framesPerTick < due + 1.0
  {
    var x := ticks as real * framesPerTick;
    assert x.Floor as real <= x < x.Floor as real + 1.0;
  }

  lemma DueMonotone(framesPerTick: real, a: nat, b: nat)
    requires 0.0 < framesPerTick && a <= b
    ensures 0 <= Due(framesPerTick, a) <= Due(framesPerTick, b)
  {
    ProductOrder(0.0, a as real, framesPerTick);
    ProductOrder(a as real, b as real, framesPerTick);
  }

  lemma ProductOrder(a: real, b: real, c: real)
    requires a <= b && 0.0 < c
    ensures a * c <= b * c
  {
  }
}
