/**
 The audio source: a consumer of the ring that hands on what the microphone has
 delivered, and waits only while it has nothing in hand.
 */
module AudioSource {
  import opened Ring
  import opened RingBuffer

  datatype State = Initial | Running | Error | Cancelled

  /** Frames the device has published since the last pass of the loop, and its state. */
  datatype Look<T> = Look(batch: seq<T>, state: State)

  datatype Outcome = Returned(frames: nat) | WorkDone | Thrown | Waiting

  class BrowserAudioSource<T(0)> {
    const okToBlock: bool
    const ring: Buffer<T>
    var silentWaits: nat         // waits in a row in which nothing arrived
    ghost var sent: seq<T>       // every frame output so far

    ghost predicate Valid()
      reads this, ring, ring.slots
    {
      ring.Valid() && sent == ring.written[..ring.taken]
    }

    constructor (capacity: nat, okToBlock: bool)
      requires 2 <= capacity
      ensures Valid() && fresh(ring) && fresh(ring.slots)
      ensures sent == [] && silentWaits == 0 && this.okToBlock == okToBlock
    {
      this.okToBlock := okToBlock;
      ring := new Buffer(capacity);
      silentWaits, sent := 0, [];
    }

    /** One pass of the loop over the frames now available. */
    method Produce(output: array<T>, produced: nat) returns (filled: nat)
      requires Valid() && output != ring.slots
      requires 0 < ring.Occupied() && produced < output.Length
      modifies this`sent, ring, output
      ensures Valid() && ring.written == old(ring.written)
      ensures produced < filled <= output.Length
      ensures output[..produced] == old(output[..produced])
      ensures sent == old(sent) + output[produced..filled]
    {
      var take := Min(Min(ring.Occupied(), output.Length - produced), ring.slots.Length - ring.readPos);
      var block := ring.Take(take);
      CopyOut(block, output, produced);
      filled := produced + take;
      sent := sent + block;
    }

    /**
     work(): the output is the ring's stream; what is in hand is never held back,
     and without leave to block the call returns rather than waits.
     */
    method Work(output: array<T>, looks: seq<Look<T>>) returns (r: Outcome, produced: nat)
      requires Valid() && output != ring.slots
      modifies this`sent, this`silentWaits, ring, ring.slots, output
      ensures Valid() && old(ring.written) <= ring.written
      ensures produced <= output.Length
      ensures sent == old(sent) + output[..produced] == ring.written[..ring.taken]
      ensures r.Returned? ==> r.frames == produced
      ensures r.WorkDone? ==> produced == 0
      ensures r.Returned? && 0 < output.Length && okToBlock ==> 0 < produced
      ensures produced > 0 ==> silentWaits == 0
      ensures r.Waiting? && produced == 0 && 0 < output.Length && okToBlock ==> silentWaits == old(silentWaits) + |looks|
    {
      produced := 0;
      r := Waiting;
      var i := 0;
      while produced < output.Length && i < |looks|
        invariant Valid() && old(ring.written) <= ring.written
        invariant i <= |looks| && produced <= output.Length
        invariant sent == old(sent) + output[..produced]
        invariant silentWaits == if produced > 0 then 0 else old(silentWaits) + i
        decreases |looks| - i
      {
        var look := looks[i];
        i := i + 1;
        ring.Deliver(look.batch);
        if look.state == Error { r := Thrown; return; }
        if look.state == Cancelled { r := if produced > 0 then Returned(produced) else WorkDone; return; }
        if ring.Occupied() == 0 {
          if produced > 0 { r := Returned(produced); return; }
          if !okToBlock { r := Returned(0); return; }
          silentWaits := silentWaits + 1;
        } else {
          silentWaits := 0;
          produced := Produce(output, produced);
        }
      }
      if produced == output.Length { r := Returned(produced); }
    }
  }
}
