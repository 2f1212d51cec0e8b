/**
 How a file ends: the file source and the reader worker that fills its ring, as
 interleaved steps on the shared words.  The ring itself is RingProtocol's; here it
 is how many items have been published and how many released.

 A load of the write position may be stale, but a load of the state word that sees
 EOF_REACHED brings every publication made before that store with it.
 */
module SourceProtocol {

  datatype State = Initial | Running | Eof | Error | Cancelled

  datatype Reader = Starting | Reading | Gone

  /** Where the block is in its loop, and how its stream ended. */
  datatype Block = Idle | Looked(upTo: nat) | Knows(state: State) | Done(cause: State) | Thrown

  /** Which word a pass loads first: the code's order, and the other one. */
  datatype Order = PositionsFirst | StateFirst

  datatype Session = Session(
    length: nat,                // the items selected, all in one pass
    capacity: nat,
    state: State,
    reader: Reader,
    published: nat,
    released: nat,              // and so output
    seen: nat,                  // publications the block can no longer fail to see
    block: Block,
    produced: nat               // by the current call of work()
  )

  datatype Step =
    // the reader, in the order its loop runs them
    | Begin
    | Publish(items: nat)
    | StoreEof
    | Fail
    | Leave                     // it sees CANCELLED, or is ended
    // stop()
    | Stop
    // the block
    | LoadPositions(upTo: nat)
    | LoadState
    | Take(items: nat)
    | Return

  ghost predicate Init(s: Session) {
    && 0 < s.length && 2 <= s.capacity
    && s == Session(s.length, s.capacity, Initial, Starting, 0, 0, 0, Idle, 0)
  }

  predicate Enabled(order: Order, s: Session, step: Step) {
    match step
    case Begin => s.reader.Starting?
    case Publish(items) =>
      s.reader.Reading? && 0 < items && s.published + items <= s.length
      && s.published + items < s.released + s.capacity
    case StoreEof => s.reader.Reading? && s.published == s.length
    case Fail => !s.reader.Gone?
    case Leave => s.state == Cancelled
    case Stop => true
    case LoadPositions(upTo) =>
      && s.seen <= upTo <= s.published && s.released <= upTo
      && if order.PositionsFirst? then s.block.Idle? else s.block.Knows?
    case LoadState =>
      if order.PositionsFirst? then s.block.Looked? && s.block.upTo == s.released else s.block.Idle?
    case Take(items) => s.block.Looked? && 0 < items <= s.block.upTo - s.released
    case Return => s.block.Idle? && 0 < s.produced
  }

  /** What an empty ring and a state word make of the pass. */
  function Ended(s: Session, state: State): Session {
    if state == Error then s.(block := Thrown)
    else if state != Eof && state != Cancelled then s.(block := Idle)
    else if 0 < s.produced then s.(block := Idle, produced := 0)
    else s.(block := Done(state))
  }

  function Apply(order: Order, s: Session, step: Step): Session
    requires Enabled(order, s, step)
  {
    match step
    case Begin => s.(reader := Reading, state := Running)
    case Publish(items) => s.(published := s.published + items)
    case StoreEof => s.(reader := Gone, state := Eof)
    case Fail => s.(reader := Gone, state := Error)
    case Leave => s.(reader := Gone)
    case Stop => s.(state := Cancelled)
    case LoadPositions(upTo) =>
      var now := s.(seen := upTo);
      if order.StateFirst? && upTo == s.released then Ended(now, s.block.state) else now.(block := Looked(upTo))
    case LoadState =>
      var now := s.(seen := if s.state == Eof then s.published else s.seen);
      if order.StateFirst? then now.(block := Knows(s.state)) else Ended(now, s.state)
    case Take(items) =>
      s.(released := s.released + items, produced := s.produced + items, block := Idle)
    case Return => s.(produced := 0)
  }

  // ---- the invariant --------------------------------------------------------------------

  ghost predicate Inv(order: Order, s: Session) {
    && s.released <= s.seen <= s.published <= s.length
    && s.published < s.released + s.capacity
    && (s.block.Looked? ==> s.released <= s.block.upTo <= s.seen)
    && (s.block.Knows? ==> order.StateFirst?)
    && (s.state == Eof ==> s.reader.Gone? && s.published == s.length)
    && (s.block == Knows(Eof) ==> s.seen == s.length)
    && (s.block == Done(Eof) ==> s.seen == s.length && (order.StateFirst? ==> s.released == s.length))
  }

  lemma StepKeepsInv(order: Order, s: Session, step: Step)
    requires Inv(order, s) && Enabled(order, s, step)
    ensures Inv(order, Apply(order, s, step))
  {
  }

  /** One state after another, each by an enabled step. */
  ghost predicate Runs(order: Order, from: Session, steps: seq<Step>, to: Session)
    decreases |steps|
  {
    if steps == [] then from == to
    else Enabled(order, from, steps[0]) && Runs(order, Apply(order, from, steps[0]), steps[1..], to)
  }

  lemma {:induction false} RunKeepsInv(order: Order, from: Session, steps: seq<Step>, to: Session)
    requires Inv(order, from) && Runs(order, from, steps, to)
    ensures Inv(order, to) && to.length == from.length && from.released <= to.released
    decreases |steps|
  {
    if steps != [] {
      StepKeepsInv(order, from, steps[0]);
      RunKeepsInv(order, Apply(order, from, steps[0]), steps[1..], to);
    }
  }

  // ---- whether the whole file came out ------------------------------------------------------

  /** The look in hand, if there is one, is at the whole file. */
  ghost predicate SeesAll(s: Session) {
    && s.seen == s.length
    && (s.block.Looked? ==> s.block.upTo == s.length)
    && (s.block == Done(Eof) ==> s.released == s.length)
  }

  lemma {:induction false} SeenStays(order: Order, from: Session, steps: seq<Step>, to: Session)
    requires Inv(order, from) && SeesAll(from) && Runs(order, from, steps, to)
    ensures SeesAll(to)
    decreases |steps|
  {
    if steps != [] {
      StepKeepsInv(order, from, steps[0]);
      SeenStays(order, Apply(order, from, steps[0]), steps[1..], to);
    }
  }

  /** Once the block has seen every item published, no ending leaves any behind. */
  lemma NothingLeftOnceSeen(order: Order, from: Session, steps: seq<Step>, to: Session)
    requires Inv(order, from) && from.seen == from.length && !from.block.Looked? && !from.block.Done?
    requires Runs(order, from, steps, to)
    ensures to.block == Done(Eof) ==> to.released == to.length
  {
    SeenStays(order, from, steps, to);
  }

  /** With the state word loaded before the positions, on every run: no item is left behind. */
  lemma StateFirstIsWhole(from: Session, steps: seq<Step>, to: Session)
    requires Init(from) && Runs(StateFirst, from, steps, to)
    ensures to.block == Done(Eof) ==> to.released == to.length
  {
    RunKeepsInv(StateFirst, from, steps, to);
  }

  /** Steps of the reader, or of stop(). */
  predicate Elsewhere(step: Step) {
    step.Begin? || step.Publish? || step.StoreEof? || step.Fail? || step.Leave? || step.Stop?
  }

  function PublishedIn(steps: seq<Step>): nat {
    if steps == [] then 0
    else (if steps[0].Publish? then steps[0].items else 0) + PublishedIn(steps[1..])
  }

  lemma {:induction false} BlockWaits(order: Order, from: Session, steps: seq<Step>, to: Session)
    requires Runs(order, from, steps, to)
    requires forall i :: 0 <= i < |steps| ==> Elsewhere(steps[i])
    ensures to.published == from.published + PublishedIn(steps)
    ensures to.block == from.block && to.released == from.released && to.produced == from.produced
    ensures to.length == from.length
    decreases |steps|
  {
    if steps != [] {
      assert Elsewhere(steps[0]);
      BlockWaits(order, Apply(order, from, steps[0]), steps[1..], to);
    }
  }

  /**
   The code's order.  At any point of any run the block loads the positions, finds the
   ring empty, and the others take any steps before it loads the state word and ends
   the stream: the whole file has come out exactly when that load of the write position
   was of the last publication made, and none was made before the load of the state.
   */
  lemma EndsWholeIff(from: Session, steps: seq<Step>, s: Session, upTo: nat, between: seq<Step>, before: Session)
    requires Init(from) && Runs(PositionsFirst, from, steps, s)
    requires Enabled(PositionsFirst, s, LoadPositions(upTo)) && upTo == s.released
    requires Runs(PositionsFirst, Apply(PositionsFirst, s, LoadPositions(upTo)), between, before)
    requires forall i :: 0 <= i < |between| ==> Elsewhere(between[i])
    requires Enabled(PositionsFirst, before, LoadState)
    requires Apply(PositionsFirst, before, LoadState).block == Done(Eof)
    ensures var after := Apply(PositionsFirst, before, LoadState);
      after.released == after.length <==> upTo == s.published && PublishedIn(between) == 0
  {
    var looked := Apply(PositionsFirst, s, LoadPositions(upTo));
    RunKeepsInv(PositionsFirst, from, steps, s);
    StepKeepsInv(PositionsFirst, s, LoadPositions(upTo));
    RunKeepsInv(PositionsFirst, looked, between, before);
    BlockWaits(PositionsFirst, looked, between, before);
  }

  /** A call that has produced something returns instead, and then the rest comes out. */
  lemma ProducedIsSafe(s: Session, steps: seq<Step>, to: Session)
    requires Inv(PositionsFirst, s) && Enabled(PositionsFirst, s, LoadState)
    requires s.state == Eof && 0 < s.produced
    requires Runs(PositionsFirst, Apply(PositionsFirst, s, LoadState), steps, to)
    ensures to.block == Done(Eof) ==> to.released == to.length
  {
    StepKeepsInv(PositionsFirst, s, LoadState);
    NothingLeftOnceSeen(PositionsFirst, Apply(PositionsFirst, s, LoadState), steps, to);
  }

  // ---- a run that leaves items behind ---------------------------------------------------------

  lemma RunsJoin(order: Order, a: Session, first: Step, rest: seq<Step>, to: Session)
    requires Enabled(order, a, first) && Runs(order, Apply(order, a, first), rest, to)
    ensures Runs(order, a, [first] + rest, to)
  {
    assert ([first] + rest)[1..] == rest;
  }

  lemma LastSteps(order: Order, a: Session, x: Step, y: Step, to: Session)
    requires Enabled(order, a, x) && Enabled(order, Apply(order, a, x), y)
    requires to == Apply(order, Apply(order, a, x), y)
    ensures Runs(order, a, [x, y], to)
  {
    var none: seq<Step> := [];
    assert Runs(order, to, none, to);
    RunsJoin(order, Apply(order, a, x), y, none, to);
    RunsJoin(order, a, x, [y], to);
    assert [x, y] == [x] + [y];
  }

  lemma {:induction false} RunsOn(order: Order, a: Session, steps: seq<Step>, b: Session, more: seq<Step>, to: Session)
    requires Runs(order, a, steps, b) && Runs(order, b, more, to)
    ensures Runs(order, a, steps + more, to)
    decreases |steps|
  {
    if steps == [] {
      assert steps + more == more;
    } else {
      RunsOn(order, Apply(order, a, steps[0]), steps[1..], b, more, to);
      RunsJoin(order, a, steps[0], steps[1..] + more, to);
      assert [steps[0]] + (steps[1..] + more) == steps + more;
    }
  }

  /** A first call that outputs what there is so far, and returns it. */
  lemma FirstCall(s: Session, front: nat) returns (to: Session)
    requires Init(s) && 0 < front < s.capacity && front <= s.length
    ensures to == Session(s.length, s.capacity, Running, Reading, front, front, front, Idle, 0)
    ensures Runs(PositionsFirst, s, [Begin, Publish(front), LoadPositions(front), Take(front), Return], to)
  {
    var s1 := Apply(PositionsFirst, s, Begin);
    var s2 := Apply(PositionsFirst, s1, Publish(front));
    var s3 := Apply(PositionsFirst, s2, LoadPositions(front));
    to := Apply(PositionsFirst, Apply(PositionsFirst, s3, Take(front)), Return);
    LastSteps(PositionsFirst, s3, Take(front), Return, to);
    RunsJoin(PositionsFirst, s2, LoadPositions(front), [Take(front), Return], to);
    RunsJoin(PositionsFirst, s1, Publish(front), [LoadPositions(front)] + [Take(front), Return], to);
    RunsJoin(PositionsFirst, s, Begin, [Publish(front)] + ([LoadPositions(front)] + [Take(front), Return]), to);
    assert [Begin] + ([Publish(front)] + ([LoadPositions(front)] + [Take(front), Return]))
        == [Begin, Publish(front), LoadPositions(front), Take(front), Return];
  }

  /** From a ring that is empty, the rest of the file goes by between two loads. */
  lemma RestStranded(s: Session, rest: nat) returns (to: Session)
    requires s.block == Idle && s.reader.Reading? && s.produced == 0 && s.released == s.seen == s.published
    requires 0 < rest < s.capacity && s.published + rest == s.length
    ensures Runs(PositionsFirst, s, [LoadPositions(s.published), Publish(rest), StoreEof, LoadState], to)
    ensures to.block == Done(Eof) && to.published == s.length && to.released == s.released
  {
    var s1 := Apply(PositionsFirst, s, LoadPositions(s.published));
    var s2 := Apply(PositionsFirst, s1, Publish(rest));
    to := Apply(PositionsFirst, Apply(PositionsFirst, s2, StoreEof), LoadState);
    LastSteps(PositionsFirst, s2, StoreEof, LoadState, to);
    RunsJoin(PositionsFirst, s1, Publish(rest), [StoreEof, LoadState], to);
    RunsJoin(PositionsFirst, s, LoadPositions(s.published), [Publish(rest)] + [StoreEof, LoadState], to);
    assert [LoadPositions(s.published)] + ([Publish(rest)] + [StoreEof, LoadState])
        == [LoadPositions(s.published), Publish(rest), StoreEof, LoadState];
  }

  /** And of a longer file, once a call has returned its beginning, the whole of the tail. */
  lemma TailStranded(front: nat, rest: nat, capacity: nat)
    requires 0 < front < capacity && 0 < rest < capacity
    ensures exists from: Session, steps: seq<Step>, to: Session ::
      && Init(from) && from.length == front + rest && from.capacity == capacity && Runs(PositionsFirst, from, steps, to)
      && to.block == Done(Eof) && to.published == front + rest && to.released == front
  {
    var s := Session(front + rest, capacity, Initial, Starting, 0, 0, 0, Idle, 0);
    var mid := FirstCall(s, front);
    var to := RestStranded(mid, rest);
    RunsOn(PositionsFirst, s, [Begin, Publish(front), LoadPositions(front), Take(front), Return], mid,
           [LoadPositions(front), Publish(rest), StoreEof, LoadState], to);
  }

  /**
   Any file that fits the ring can be lost whole: the reader publishes all of it and
   stores EOF_REACHED between the block's two loads.
   */
  lemma WholeFileStranded(length: nat, capacity: nat)
    requires 0 < length < capacity
    ensures exists from: Session, to: Session ::
      && Init(from) && from.length == length && from.capacity == capacity
      && Runs(PositionsFirst, from, [Begin, LoadPositions(0), Publish(length), StoreEof, LoadState], to)
      && to.block == Done(Eof) && to.published == length && to.released == 0
  {
    var s0 := Session(length, capacity, Initial, Starting, 0, 0, 0, Idle, 0);
    var s1 := Apply(PositionsFirst, s0, Begin);
    var s2 := Apply(PositionsFirst, s1, LoadPositions(0));
    var s3 := Apply(PositionsFirst, s2, Publish(length));
    var s5 := Apply(PositionsFirst, Apply(PositionsFirst, s3, StoreEof), LoadState);
    LastSteps(PositionsFirst, s3, StoreEof, LoadState, s5);
    RunsJoin(PositionsFirst, s2, Publish(length), [StoreEof, LoadState], s5);
    RunsJoin(PositionsFirst, s1, LoadPositions(0), [Publish(length)] + [StoreEof, LoadState], s5);
    RunsJoin(PositionsFirst, s0, Begin, [LoadPositions(0)] + ([Publish(length)] + [StoreEof, LoadState]), s5);
    assert [Begin] + ([LoadPositions(0)] + ([Publish(length)] + [StoreEof, LoadState]))
        == [Begin, LoadPositions(0), Publish(length), StoreEof, LoadState];
  }
}
