/**
 Both ends of the ring as one interleaved state machine.  Loading the other
 side's word, copying one slot and publishing a position are separate steps,
 and a load may return any value the other side stored since the last one seen.
 `published`, `released` and `delivered` are history: no step branches on them.
 */
module RingProtocol {
  import opened Ring

  datatype Producer<T> = Idle | Copying(block: seq<T>, done: nat)
  datatype Consumer<T> = Ready | Reading(take: nat, got: seq<T>)

  datatype State<T> = State(
    slots: seq<T>,
    readPos: nat,
    writePos: nat,
    producer: Producer<T>,
    consumer: Consumer<T>,
    producerSaw: nat,   // how many releases the producer's last load reflected
    consumerSaw: nat,   // how many publications the consumer's last load reflected
    published: seq<T>,
    released: nat,
    delivered: seq<T>
  )

  datatype Step<T> =
    | ProducerLoad(seen: nat, offer: seq<T>)
    | ProducerCopy
    | ProducerPublish
    | ConsumerLoad(seen: nat, room: nat)
    | ConsumerCopy
    | ConsumerPublish

  ghost predicate Init<T>(s: State<T>) {
    && 2 <= |s.slots|
    && s.readPos == s.writePos == s.producerSaw == s.consumerSaw == s.released == 0
    && s.producer == Idle && s.consumer == Ready
    && s.published == s.delivered == []
  }

  ghost predicate Enabled<T>(s: State<T>, step: Step<T>) {
    match step
    case ProducerLoad(seen, _) => s.producer.Idle? && s.producerSaw <= seen <= s.released
    case ProducerCopy => s.producer.Copying? && s.producer.done < |s.producer.block|
    case ProducerPublish => s.producer.Copying? && s.producer.done == |s.producer.block|
    case ConsumerLoad(seen, _) => s.consumer.Ready? && s.consumerSaw <= seen <= |s.published|
    case ConsumerCopy => s.consumer.Reading? && |s.consumer.got| < s.consumer.take
    case ConsumerPublish => s.consumer.Reading? && |s.consumer.got| == s.consumer.take
  }

  /** The slot indices and the two words stay inside the buffer. */
  ghost predicate WellFormed<T>(s: State<T>) {
    && s.readPos < |s.slots| && s.writePos < |s.slots|
    && (s.producer.Copying? ==> s.writePos + |s.producer.block| <= |s.slots|)
    && (s.consumer.Reading? ==> s.readPos + s.consumer.take <= |s.slots|)
  }

  ghost function Apply<T>(s: State<T>, step: Step<T>): State<T>
    requires WellFormed(s) && Enabled(s, step)
  {
    var capacity := |s.slots|;
    match step
    case ProducerLoad(seen, offer) =>
      var used := Used(capacity, seen % capacity, s.writePos);
      var free: int := capacity - used - 1;
      var take := if free < 0 then 0 else Min(Min(free, |offer|), capacity - s.writePos);
      if take == 0 then s.(producerSaw := seen)
      else s.(producerSaw := seen, producer := Copying(offer[..take], 0))
    case ProducerCopy =>
      var p := s.producer;
      s.(slots := s.slots[s.writePos + p.done := p.block[p.done]],
         producer := Copying(p.block, p.done + 1))
    case ProducerPublish =>
      s.(writePos := Advanced(capacity, s.writePos, |s.producer.block|),
         published := s.published + s.producer.block,
         producer := Idle)
    case ConsumerLoad(seen, room) =>
      var used := Used(capacity, s.readPos, seen % capacity);
      var take := Min(Min(used, room), capacity - s.readPos);
      if take == 0 then s.(consumerSaw := seen)
      else s.(consumerSaw := seen, consumer := Reading(take, []))
    case ConsumerCopy =>
      var c := s.consumer;
      s.(consumer := Reading(c.take, c.got + [s.slots[s.readPos + |c.got|]]))
    case ConsumerPublish =>
      s.(readPos := Advanced(capacity, s.readPos, s.consumer.take),
         released := s.released + s.consumer.take,
         delivered := s.delivered + s.consumer.got,
         consumer := Ready)
  }

  // ---- the invariant --------------------------------------------------------

  ghost predicate Positions<T>(s: State<T>) {
    && 2 <= |s.slots|
    && s.released <= |s.published| <= s.released + |s.slots| - 1
    && s.readPos == s.released % |s.slots|
    && s.writePos == |s.published| % |s.slots|
    && s.producerSaw <= s.released
    && |s.published| - s.producerSaw <= |s.slots| - 1
    && s.released <= s.consumerSaw <= |s.published|
  }

  ghost predicate Contents<T>(s: State<T>)
    requires Positions(s)
  {
    forall k :: s.released <= k < |s.published| ==> s.slots[k % |s.slots|] == s.published[k]
  }

  ghost predicate ProducerOk<T>(s: State<T>)
    requires Positions(s)
  {
    s.producer.Copying? ==>
      var p := s.producer;
      && p.done <= |p.block|
      && |s.published| - s.producerSaw + |p.block| <= |s.slots| - 1
      && s.writePos + |p.block| <= |s.slots|
      && forall j :: 0 <= j < p.done ==> s.slots[s.writePos + j] == p.block[j]
  }

  ghost predicate ConsumerOk<T>(s: State<T>)
    requires Positions(s)
  {
    && s.delivered == s.published[..s.released]
    && (s.consumer.Reading? ==>
      var c := s.consumer;
      && |c.got| <= c.take
      && s.released + c.take <= s.consumerSaw
      && s.readPos + c.take <= |s.slots|
      && c.got == s.published[s.released..s.released + |c.got|])
  }

  ghost predicate Inv<T>(s: State<T>) {
    Positions(s) && Contents(s) && ProducerOk(s) && ConsumerOk(s)
  }

  lemma InitInv<T>(s: State<T>)
    requires Init(s)
    ensures Inv(s)
  {
  }

  lemma ProducerLoadInv<T>(s: State<T>, seen: nat, offer: seq<T>)
    requires Inv(s) && Enabled(s, ProducerLoad(seen, offer))
    ensures Inv(Apply(s, ProducerLoad(seen, offer)))
  {
    UsedIsDifference(|s.slots|, seen, |s.published|);
  }

  lemma ProducerCopyInv<T>(s: State<T>)
    requires Inv(s) && Enabled(s, ProducerCopy)
    ensures Inv(Apply(s, ProducerCopy))
    ensures !UnreadSlot(s, s.writePos + s.producer.done)
  {
    var capacity, n, done := |s.slots|, |s.published|, s.producer.done;
    SlotsConsecutive(capacity, n, done);
    forall k | s.released <= k < n
      ensures k % capacity != s.writePos + done
    {
      SlotsDistinct(capacity, n + done, k);
    }
  }

  lemma PublishPositions<T>(s: State<T>)
    requires Inv(s) && Enabled(s, ProducerPublish)
    ensures var s' := Apply(s, ProducerPublish); Positions(s') && ProducerOk(s') && ConsumerOk(s')
  {
    AdvancedFits(|s.slots|, |s.published|, |s.producer.block|);
  }

  lemma ProducerPublishInv<T>(s: State<T>)
    requires Inv(s) && Enabled(s, ProducerPublish)
    ensures Inv(Apply(s, ProducerPublish))
  {
    var s' := Apply(s, ProducerPublish);
    var capacity, n := |s.slots|, |s.published|;
    AdvancedFits(capacity, n, |s.producer.block|);
    forall k | s'.released <= k < |s'.published|
      ensures s'.slots[k % capacity] == s'.published[k]
    {
      if n <= k {
        SlotsConsecutive(capacity, n, k - n);
        assert s.slots[s.writePos + (k - n)] == s.producer.block[k - n];
      } else {
        assert s.slots[k % capacity] == s.published[k];
      }
    }
    PublishPositions(s);
  }

  lemma ConsumerLoadInv<T>(s: State<T>, seen: nat, room: nat)
    requires Inv(s) && Enabled(s, ConsumerLoad(seen, room))
    ensures Inv(Apply(s, ConsumerLoad(seen, room)))
  {
    UsedIsDifference(|s.slots|, s.released, seen);
  }

  lemma ConsumerCopyInv<T>(s: State<T>)
    requires Inv(s) && Enabled(s, ConsumerCopy)
    ensures Inv(Apply(s, ConsumerCopy))
    ensures ReadsPublished(s)
  {
    SlotsConsecutive(|s.slots|, s.released, |s.consumer.got|);
  }

  lemma ConsumerPublishInv<T>(s: State<T>)
    requires Inv(s) && Enabled(s, ConsumerPublish)
    ensures Inv(Apply(s, ConsumerPublish))
  {
    AdvancedFits(|s.slots|, s.released, s.consumer.take);
  }

  // ---- what the protocol promises -------------------------------------------

  /** The slot holds an item published and not yet released. */
  ghost predicate UnreadSlot<T>(s: State<T>, slot: nat)
    requires WellFormed(s)
  {
    exists k :: s.released <= k < |s.published| && k % |s.slots| == slot
  }

  /** The consumer's next copy yields the oldest published item it has not copied. */
  ghost predicate ReadsPublished<T>(s: State<T>)
    requires WellFormed(s) && Enabled(s, ConsumerCopy)
  {
    var at := s.released + |s.consumer.got|;
    at < |s.published| && s.slots[s.readPos + |s.consumer.got|] == s.published[at]
  }

  ghost predicate StepSafe<T>(s: State<T>, step: Step<T>)
    requires WellFormed(s) && Enabled(s, step)
  {
    && (step.ProducerCopy? ==> !UnreadSlot(s, s.writePos + s.producer.done))
    && (step.ConsumerCopy? ==> ReadsPublished(s))
  }

  ghost predicate StateSafe<T>(s: State<T>) {
    && WellFormed(s)
    && Used(|s.slots|, s.readPos, s.writePos) == |s.published| - s.released <= |s.slots| - 1
    && s.delivered <= s.published
  }

  lemma StepKeepsInv<T>(s: State<T>, step: Step<T>)
    requires Inv(s) && Enabled(s, step)
    ensures StepSafe(s, step) && Inv(Apply(s, step))
  {
    match step
    case ProducerLoad(seen, offer) => ProducerLoadInv(s, seen, offer);
    case ProducerCopy => ProducerCopyInv(s);
    case ProducerPublish => ProducerPublishInv(s);
    case ConsumerLoad(seen, room) => ConsumerLoadInv(s, seen, room);
    case ConsumerCopy => ConsumerCopyInv(s);
    case ConsumerPublish => ConsumerPublishInv(s);
  }

  /** The states met by taking `steps` in turn, each enabled where it is taken. */
  ghost predicate IsRun<T>(states: seq<State<T>>, steps: seq<Step<T>>) {
    && |states| == |steps| + 1
    && Init(states[0])
    && forall i :: 0 <= i < |steps| ==>
         && WellFormed(states[i])
         && Enabled(states[i], steps[i])
         && states[i + 1] == Apply(states[i], steps[i])
  }

  lemma {:induction false} RunInv<T>(states: seq<State<T>>, steps: seq<Step<T>>, i: nat)
    requires IsRun(states, steps) && i < |states|
    ensures Inv(states[i])
  {
    if i == 0 {
      InitInv(states[0]);
    } else {
      RunInv(states, steps, i - 1);
      StepKeepsInv(states[i - 1], steps[i - 1]);
    }
  }

  /**
   Every interleaving, however stale the loads: a slot stays empty, no unread
   slot is overwritten, no unwritten slot is read, and what the consumer has
   received is a prefix of what the producer has published.
   */
  lemma RunSafe<T>(states: seq<State<T>>, steps: seq<Step<T>>)
    requires IsRun(states, steps)
    ensures forall i :: 0 <= i < |states| ==> StateSafe(states[i])
    ensures forall i :: 0 <= i < |steps| ==> StepSafe(states[i], steps[i])
  {
    forall i | 0 <= i < |states|
      ensures StateSafe(states[i])
    {
      RunInv(states, steps, i);
      UsedIsDifference(|states[i].slots|, states[i].released, |states[i].published|);
    }
    forall i | 0 <= i < |steps|
      ensures StepSafe(states[i], steps[i])
    {
      RunInv(states, steps, i);
      StepKeepsInv(states[i], steps[i]);
    }
  }

  /**
   The two sides cannot both be stuck: with fresh loads, either a producer with
   something to offer or a consumer with room starts a copy.
   */
  lemma SomeSideMoves<T>(s: State<T>, offer: seq<T>, room: nat)
    requires Inv(s) && s.producer.Idle? && s.consumer.Ready?
    requires offer != [] && room > 0
    ensures Apply(s, ProducerLoad(s.released, offer)).producer.Copying?
         || Apply(s, ConsumerLoad(|s.published|, room)).consumer.Reading?
  {
    UsedIsDifference(|s.slots|, s.released, |s.published|);
  }
}
