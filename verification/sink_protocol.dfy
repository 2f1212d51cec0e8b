/**
 How a recording ends: the file sink and the writer worker that drains its ring,
 as interleaved steps on the shared state word.  The ring itself is
 RingProtocol's; here it is the items published and the count released.

 A load of the write position may be stale, but a load of the state word that
 sees FINISHING brings every publication made before that store with it.
 */
module SinkProtocol {
  import opened Wrappers

  datatype State = Initial | Running | Finishing | Error | Cancelled | Closed

  /** Where the writer is in its loop. */
  datatype Writer<T> =
    | Opening
    | Top
    | Loaded(state: State)
    | Holding(chunk: seq<T>)
    | Closing
    | Gone

  datatype Recording<T> = Recording(
    state: State,
    writer: Writer<T>,
    published: seq<T>,
    released: nat,
    seen: nat,                  // publications the writer can no longer fail to see
    file: seq<T>,               // what the destination has been given
    posted: Option<string>,     // the finish message, once sent
    received: Option<string>,   // and once it has arrived
    sealed: bool,               // stop() has stored FINISHING
    abandoned: bool,            // the block was destroyed without stop()
    meta: Option<string>        // the metadata file
  )

  datatype Step<T> =
    // the block, in the order its thread runs them
    | Publish(block: seq<T>)
    | PostFinish(payload: string)
    | StoreFinishing
    | Cancel
    | Terminate               // the worker is ended, whatever it was doing
    // the worker
    | Open
    | ReceiveFinish
    | LoadState
    | LoadPositions(upTo: nat, take: nat)
    | Write
    | Close
    | Fail

  ghost predicate Init<T>(r: Recording<T>) {
    r == Recording(Initial, Opening, [], 0, 0, [], None, None, false, false, None)
  }

  predicate Live<T>(r: Recording<T>) {
    r.posted.None? && !r.abandoned
  }

  predicate Enabled<T>(r: Recording<T>, step: Step<T>) {
    match step
    case Publish(_) => Live(r)
    case PostFinish(_) => Live(r)
    case StoreFinishing => r.posted.Some? && !r.sealed
    case Cancel => Live(r)
    case Terminate => r.sealed || r.abandoned
    case Open => r.writer.Opening?
    case ReceiveFinish => r.posted.Some? && r.received.None?
    case LoadState => r.writer.Top?
    case LoadPositions(upTo, take) =>
      && r.writer.Loaded?
      && r.seen <= upTo <= |r.published| && r.released <= upTo
      && (take == 0 <==> upTo == r.released) && take <= upTo - r.released
    case Write => r.writer.Holding?
    case Close => r.writer.Closing? && r.received.Some?
    case Fail => r.writer.Opening? || r.writer.Holding? || r.writer.Closing?
  }

  function Apply<T>(r: Recording<T>, step: Step<T>): Recording<T>
    requires Enabled(r, step)
  {
    match step
    case Publish(block) => r.(published := r.published + block)
    case PostFinish(payload) => r.(posted := Some(payload))
    case StoreFinishing => r.(state := Finishing, sealed := true)
    case Cancel => r.(state := Cancelled, abandoned := true)
    case Terminate => r.(writer := Gone)
    case Open => r.(writer := Top, state := Running)
    case ReceiveFinish => r.(received := r.posted)
    case LoadState =>
      if r.state == Cancelled then r.(writer := Gone)
      else r.(writer := Loaded(r.state), seen := if r.state == Finishing then |r.published| else r.seen)
    case LoadPositions(upTo, take) =>
      if take == 0 then
        r.(seen := upTo,
           writer := if r.writer.state == Finishing && r.received.Some? then Closing else Top)
      else
        r.(seen := upTo, released := r.released + take,
           writer := Holding(r.published[r.released..r.released + take]))
    case Write => r.(writer := Top, file := r.file + r.writer.chunk)
    case Close => r.(writer := Gone, state := Closed, meta := r.received)
    case Fail => r.(writer := Gone, state := Error)
  }

  // ---- the invariant --------------------------------------------------------------

  function Held<T>(r: Recording<T>): seq<T> {
    if r.writer.Holding? then r.writer.chunk else []
  }

  /** Before the block stores a state of its own, the word says where the writer is. */
  predicate Truthful<T>(r: Recording<T>) {
    && (r.state == Initial || r.state == Running || r.state == Error)
    && (r.state == Initial <==> r.writer.Opening?)
    && (r.state == Error <==> r.writer.Gone?)
  }

  ghost predicate Inv<T>(r: Recording<T>) {
    && r.released <= |r.published| && r.seen <= |r.published|
    && (!r.writer.Gone? ==> r.file + Held(r) == r.published[..r.released])
    && r.file <= r.published
    && (r.received.Some? ==> r.received == r.posted)
    && (r.sealed ==> r.posted.Some?) && (r.abandoned ==> r.posted.None?)
    && (!r.sealed && !r.abandoned ==> Truthful(r))
    && (r.state == Finishing ==> r.sealed)
    && (r.state == Initial ==> r.writer.Opening? && !r.sealed && !r.abandoned)
    && (r.state == Cancelled ==> r.abandoned)
    && (r.writer.Loaded? && r.writer.state == Finishing ==>
          r.sealed && r.state == Finishing && r.seen == |r.published|)
    && (r.writer.Closing? ==>
          r.sealed && r.state == Finishing && r.received.Some? && r.file == r.published)
    && (r.state == Closed ==> r.sealed && r.writer.Gone? && r.file == r.published && r.meta == r.posted)
    && (r.meta.Some? ==> r.meta == r.posted && r.file == r.published && r.sealed)
  }

  lemma PublishInv<T>(r: Recording<T>, block: seq<T>)
    requires Inv(r) && Enabled(r, Publish(block))
    ensures Inv(Apply(r, Publish(block)))
  {
    assert (r.published + block)[..r.released] == r.published[..r.released];
  }

  lemma PositionsInv<T>(r: Recording<T>, upTo: nat, take: nat)
    requires Inv(r) && Enabled(r, LoadPositions(upTo, take))
    ensures Inv(Apply(r, LoadPositions(upTo, take)))
  {
    if take > 0 {
      assert r.published[..r.released] + r.published[r.released..r.released + take]
          == r.published[..r.released + take];
    } else {
      assert r.published[..|r.published|] == r.published;
    }
  }

  lemma StepKeepsInv<T>(r: Recording<T>, step: Step<T>)
    requires Inv(r) && Enabled(r, step)
    ensures Inv(Apply(r, step))
  {
    match step
    case Publish(block) => PublishInv(r, block);
    case LoadPositions(upTo, take) => PositionsInv(r, upTo, take);
    case Write => assert r.published[..r.released] <= r.published;
    case _ =>
  }

  /** One state after another, each by an enabled step. */
  ghost predicate Runs<T>(from: Recording<T>, steps: seq<Step<T>>, to: Recording<T>)
    decreases |steps|
  {
    if steps == [] then from == to
    else Enabled(from, steps[0]) && Runs(Apply(from, steps[0]), steps[1..], to)
  }

  lemma {:induction false} RunKeepsInv<T>(from: Recording<T>, steps: seq<Step<T>>, to: Recording<T>)
    requires Inv(from) && Runs(from, steps, to)
    ensures Inv(to)
    decreases |steps|
  {
    if steps != [] {
      StepKeepsInv(from, steps[0]);
      RunKeepsInv(Apply(from, steps[0]), steps[1..], to);
    }
  }

  /**
   Every run, however the sides interleave: the file is a prefix of what the block
   accepted, and CLOSED is stored only over the whole of it, with the metadata the
   block posted beside it.
   */
  lemma ClosedIsComplete<T>(from: Recording<T>, steps: seq<Step<T>>, to: Recording<T>)
    requires Init(from) && Runs(from, steps, to)
    ensures to.file <= to.published
    ensures to.state == Closed ==> to.file == to.published && to.posted.Some? && to.meta == to.posted
  {
    RunKeepsInv(from, steps, to);
  }

  // ---- when a stopped recording can still close ---------------------------------------

  /**
   The writer has opened its destination and not failed, and FINISHING is there
   to be seen: no late opening has stored RUNNING over it.
   */
  predicate Closable<T>(r: Recording<T>) {
    r.state == Closed || (r.state == Finishing && !r.writer.Opening? && !r.writer.Gone?)
  }

  lemma {:induction false} StrandedNeverCloses<T>(from: Recording<T>, steps: seq<Step<T>>, to: Recording<T>)
    requires Inv(from) && from.sealed && !Closable(from) && Runs(from, steps, to)
    ensures to.state != Closed
    decreases |steps|
  {
    if steps != [] {
      StepKeepsInv(from, steps[0]);
      StrandedNeverCloses(Apply(from, steps[0]), steps[1..], to);
    }
  }

  lemma RunsJoin<T>(a: Recording<T>, first: Step<T>, rest: seq<Step<T>>, to: Recording<T>)
    requires Enabled(a, first) && Runs(Apply(a, first), rest, to)
    ensures Runs(a, [first] + rest, to)
  {
    assert ([first] + rest)[1..] == rest;
  }

  /** Steps still to go before the writer closes, if nothing fails. */
  function Distance<T>(r: Recording<T>): nat
    requires r.released <= |r.published|
  {
    4 * (|r.published| - r.released)
    + (if r.received.None? then 4 else 0)
    + match r.writer
      case Holding(_) => 3
      case Top => 2
      case Loaded(s) => if s == Finishing then 1 else 3
      case _ => 0
  }

  /** The next thing the writer does on its way to closing. */
  function NextStep<T>(r: Recording<T>): Step<T>
    requires r.released <= |r.published|
  {
    if r.received.None? then ReceiveFinish
    else match r.writer
      case Holding(_) => Write
      case Top => LoadState
      case Loaded(_) => LoadPositions(|r.published|, |r.published| - r.released)
      case _ => Close
  }

  lemma {:induction false} ClosableCloses<T>(r: Recording<T>) returns (steps: seq<Step<T>>, to: Recording<T>)
    requires Inv(r) && r.sealed && Closable(r)
    ensures Runs(r, steps, to) && to.state == Closed
    decreases Distance(r), if r.writer.Closing? then 1 else 0
  {
    if r.state == Closed {
      return [], r;
    }
    var step := NextStep(r);
    StepKeepsInv(r, step);
    steps, to := ClosableCloses(Apply(r, step));
    RunsJoin(r, step, steps, to);
    steps := [step] + steps;
  }

  ghost predicate CanClose<T(!new)>(r: Recording<T>) {
    exists steps: seq<Step<T>>, to: Recording<T> :: Runs(r, steps, to) && to.state == Closed
  }

  /**
   Once stop() has stored FINISHING, the recording can still be closed precisely
   when it is Closable: a writer that was still opening its destination, or has
   failed, never closes it.
   */
  lemma ClosesIff<T(!new)>(r: Recording<T>)
    requires Inv(r) && r.sealed
    ensures CanClose(r) <==> Closable(r)
  {
    if Closable(r) {
      var steps, to := ClosableCloses(r);
    } else if CanClose(r) {
      var steps: seq<Step<T>>, to: Recording<T> :| Runs(r, steps, to) && to.state == Closed;
      StrandedNeverCloses(r, steps, to);
    }
  }

  /**
   What stop() can see when it is about to store FINISHING decides: on every run the
   recording can still be closed precisely when the state word reads RUNNING then,
   and a stop over INITIAL or ERROR leaves it unclosed whatever comes after.
   */
  lemma StopClosesIff<T(!new)>(from: Recording<T>, steps: seq<Step<T>>, r: Recording<T>)
    requires Init(from) && Runs(from, steps, r) && Enabled(r, StoreFinishing)
    ensures CanClose(Apply(r, StoreFinishing)) <==> r.state == Running
  {
    RunKeepsInv(from, steps, r);
    StepKeepsInv(r, StoreFinishing);
    ClosesIff(Apply(r, StoreFinishing));
  }

  ghost function Fresh<T>(): (r: Recording<T>)
    ensures Init(r)
  {
    Recording(Initial, Opening, [], 0, 0, [], None, None, false, false, None)
  }

  lemma ThreeSteps<T>(a: Recording<T>, s0: Step<T>, s1: Step<T>, s2: Step<T>) returns (to: Recording<T>)
    requires Enabled(a, s0) && Enabled(Apply(a, s0), s1) && Enabled(Apply(Apply(a, s0), s1), s2)
    ensures to == Apply(Apply(Apply(a, s0), s1), s2) && Runs(a, [s0, s1, s2], to)
  {
    to := Apply(Apply(Apply(a, s0), s1), s2);
    var none: seq<Step<T>> := [];
    assert Runs(to, none, to);
    RunsJoin(Apply(Apply(a, s0), s1), s2, none, to);
    RunsJoin(Apply(a, s0), s1, [s2], to);
    RunsJoin(a, s0, [s1, s2], to);
    assert [s0, s1, s2] == [s0] + [s1, s2];
  }

  /** A stop that overtakes the writer's opening: RUNNING goes over FINISHING for good. */
  lemma LateOpenStrands(payload: string)
    ensures exists from: Recording<int>, to: Recording<int> ::
      && Init(from) && Runs(from, [PostFinish(payload), StoreFinishing, Open], to)
      && to.sealed && to.state == Running && !CanClose(to)
  {
    var from: Recording<int> := Fresh();
    var to := ThreeSteps(from, PostFinish(payload), StoreFinishing, Open);
    RunKeepsInv(from, [PostFinish(payload), StoreFinishing, Open], to);
    ClosesIff(to);
  }

  /** A stop after the writer has failed: FINISHING goes over ERROR for good. */
  lemma LateStopHidesError(payload: string)
    ensures exists from: Recording<int>, failed: Recording<int>, to: Recording<int> ::
      && Init(from) && Runs(from, [Fail, PostFinish(payload)], failed) && failed.state == Error
      && to == failed.(state := Finishing, sealed := true)
      && Runs(from, [Fail, PostFinish(payload), StoreFinishing], to) && !CanClose(to)
  {
    var from: Recording<int> := Fresh();
    var to := ThreeSteps(from, Fail, PostFinish(payload), StoreFinishing);
    var gone := Apply(from, Fail);
    var failed := Apply(gone, PostFinish(payload));
    var none: seq<Step<int>> := [];
    assert Runs(failed, none, failed);
    RunsJoin(gone, PostFinish(payload), none, failed);
    RunsJoin(from, Fail, [PostFinish(payload)], failed);
    var two: seq<Step<int>> := [Fail, PostFinish(payload)];
    assert two == [two[0]] + [PostFinish(payload)];
    RunKeepsInv(from, [Fail, PostFinish(payload), StoreFinishing], to);
    ClosesIff(to);
  }
}
