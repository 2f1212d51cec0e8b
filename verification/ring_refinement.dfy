/**
 The two models of the ring meet: every interleaving of the protocol's steps is,
 at its publications, a sequence of whole-block copies into and out of a Buffer.
 */
module RingRefinement {
  import opened RingBuffer
  import opened RingProtocol

  /** The buffer stands where the protocol's published words say. */
  ghost predicate Shows<T(0)>(buffer: Buffer<T>, s: State<T>)
    reads buffer, buffer.slots
  {
    && buffer.Valid() && buffer.slots.Length == |s.slots|
    && buffer.written == s.published && buffer.taken == s.released
  }

  /** A publication is one Put, a release one Take, and every other step nothing. */
  method Follow<T(0)>(buffer: Buffer<T>, s: State<T>, step: Step<T>) returns (got: seq<T>)
    requires Inv(s) && Enabled(s, step) && Shows(buffer, s)
    modifies buffer, buffer.slots
    ensures Shows(buffer, Apply(s, step))
    ensures Apply(s, step).delivered == s.delivered + got
  {
    StepKeepsInv(s, step);
    got := [];
    match step
    case ProducerPublish => buffer.Put(s.producer.block);
    case ConsumerPublish => got := buffer.Take(s.consumer.take);
    case _ =>
  }

  /**
   Every run of the protocol: a Buffer driven by its publications alone goes through
   the same published items and positions, and hands out what the run delivers.
   */
  method FollowRun<T(0)>(states: seq<State<T>>, steps: seq<Step<T>>) returns (buffer: Buffer<T>, out: seq<T>)
    requires IsRun(states, steps)
    ensures Shows(buffer, states[|steps|]) && out == states[|steps|].delivered
    ensures buffer.readPos == states[|steps|].readPos && buffer.writePos == states[|steps|].writePos
  {
    buffer := new Buffer(|states[0].slots|);
    out := [];
    for i := 0 to |steps|
      invariant Shows(buffer, states[i]) && out == states[i].delivered
      invariant fresh(buffer) && fresh(buffer.slots)
    {
      RunInv(states, steps, i);
      var got := Follow(buffer, states[i], steps[i]);
      out := out + got;
    }
    RunInv(states, steps, |steps|);
  }
}
