/**
 The live-parameter handoff of js_block.hpp: the browser thread stores a value and
 sets a dirty bit, the block's thread swaps the mask out and delivers what it
 marks.  Every load, store, OR and exchange is a step of its own.
 */
module JsParams {
  import opened Wrappers

  const MASK_BITS: nat := 32

  /** Between the store and the OR of one set_param_value(). */
  datatype Setter = Quiet | Stored(index: nat)

  /** In drain_param_changes(): the mask taken, and the loop's index. */
  datatype Drainer = Idle | Delivering(mask: set<nat>, next: nat)

  datatype State<V> = State(
    slots: seq<V>,
    dirty: set<nat>,
    setter: Setter,
    drainer: Drainer,
    delivered: seq<Option<V>>,  // what the block last received, per parameter
    given: seq<seq<V>>,       // per parameter, every value given, in order
    taken: seq<nat>,          // how many of them had been given at its last delivery
    unasked: set<nat>         // parameters delivered without ever having been given
  )

  datatype Step<V> = Store(index: int, value: V) | Mark | Exchange | Deliver | Finish

  ghost predicate Init<V>(s: State<V>) {
    && s.dirty == {} && s.setter == Quiet && s.drainer == Idle && s.unasked == {}
    && |s.given| == |s.taken| == |s.delivered| == |s.slots|
    && forall i :: 0 <= i < |s.slots| ==> s.given[i] == [] && s.taken[i] == 0 && s.delivered[i].None?
  }

  /** 1u << index, on a machine that takes the shift count modulo the word. */
  function Bit(index: nat): nat {
    index % MASK_BITS
  }

  predicate Enabled<V>(s: State<V>, step: Step<V>) {
    match step
    case Store(_, _) => s.setter.Quiet?
    case Mark => s.setter.Stored?
    case Exchange => s.drainer.Idle?
    case Deliver => s.drainer.Delivering? && s.drainer.next < |s.slots|
    case Finish => s.drainer.Delivering? && s.drainer.next >= |s.slots|
  }

  predicate Shaped<V>(s: State<V>) {
    |s.given| == |s.taken| == |s.delivered| == |s.slots| && (s.setter.Stored? ==> s.setter.index < |s.slots|)
  }

  function Apply<V>(s: State<V>, step: Step<V>): State<V>
    requires Shaped(s) && Enabled(s, step)
  {
    match step
    case Store(index, value) =>
      if index < 0 || index >= |s.slots| then s
      else s.(slots := s.slots[index := value],
              given := s.given[index := s.given[index] + [value]],
              setter := Stored(index))
    case Mark => s.(dirty := s.dirty + {Bit(s.setter.index)}, setter := Quiet)
    case Exchange =>
      if s.dirty == {} then s else s.(dirty := {}, drainer := Delivering(s.dirty, 0))
    case Deliver =>
      var i := s.drainer.next;
      var on := s.(drainer := Delivering(s.drainer.mask, i + 1));
      if Bit(i) !in s.drainer.mask then on
      else on.(delivered := s.delivered[i := Some(s.slots[i])],
               taken := s.taken[i := |s.given[i]|],
               unasked := if s.given[i] == [] then s.unasked + {i} else s.unasked)
    case Finish => s.(drainer := Idle)
  }

  // ---- the invariant ------------------------------------------------------------------

  /** What was delivered is the value its count says, and nothing else ever is. */
  ghost predicate Tracked<V>(s: State<V>, i: nat)
    requires Shaped(s) && i < |s.slots|
  {
    && s.taken[i] <= |s.given[i]|
    && (s.taken[i] > 0 ==> s.delivered[i] == Some(s.given[i][s.taken[i] - 1]))
    && (s.given[i] != [] ==> s.slots[i] == s.given[i][|s.given[i]| - 1])
  }

  /** The latest value of a parameter is delivered, or something will deliver it. */
  ghost predicate Accounted<V>(s: State<V>, i: nat)
    requires Shaped(s) && i < |s.slots|
  {
    || s.taken[i] == |s.given[i]|
    || Bit(i) in s.dirty
    || (s.drainer.Delivering? && s.drainer.next <= i && Bit(i) in s.drainer.mask)
    || s.setter == Stored(i)
  }

  ghost predicate Inv<V>(s: State<V>) {
    && Shaped(s)
    && forall i :: 0 <= i < |s.slots| ==>
         Tracked(s, i) && Accounted(s, i)
  }

  lemma StepKeepsInv<V>(s: State<V>, step: Step<V>)
    requires Inv(s) && Enabled(s, step)
    ensures Inv(Apply(s, step))
    ensures Moves(s, Apply(s, step))
  {
    var t := Apply(s, step);
    forall i | 0 <= i < |t.slots|
      ensures Tracked(t, i) && Accounted(t, i)
    {
      assert Tracked(s, i) && Accounted(s, i);
    }
    StepMoves(s, step);
  }

  lemma StepMoves<V>(s: State<V>, step: Step<V>)
    requires Inv(s) && Enabled(s, step)
    ensures Moves(s, Apply(s, step))
  {
    var t := Apply(s, step);
    forall i | 0 <= i < |s.taken|
      ensures s.taken[i] <= t.taken[i] && s.given[i] <= t.given[i]
    {
      assert Tracked(s, i);
    }
  }

  /** A delivery never goes back to an older value, and never forgets a newer one. */
  ghost predicate Moves<V>(before: State<V>, after: State<V>) {
    && |after.taken| == |before.taken| && |after.given| == |before.given|
    && (forall i :: 0 <= i < |before.taken| ==> before.taken[i] <= after.taken[i])
    && (forall i :: 0 <= i < |before.given| ==> before.given[i] <= after.given[i])
  }

  /** One state after another, each by an enabled step. */
  ghost predicate Runs<V>(from: State<V>, steps: seq<Step<V>>, to: State<V>)
    decreases |steps|
  {
    if steps == [] then from == to
    else Shaped(from) && Enabled(from, steps[0]) && Runs(Apply(from, steps[0]), steps[1..], to)
  }

  lemma {:induction false} RunInv<V>(from: State<V>, steps: seq<Step<V>>, to: State<V>)
    requires Inv(from) && Runs(from, steps, to)
    ensures Inv(to) && |to.slots| == |from.slots|
    decreases |steps|
  {
    if steps != [] {
      StepKeepsInv(from, steps[0]);
      RunInv(Apply(from, steps[0]), steps[1..], to);
    }
  }

  ghost predicate Quiescent<V>(s: State<V>) {
    s.setter.Quiet? && s.dirty == {} && s.drainer.Idle?
  }

  /**
   No interleaving loses an update: when both threads are at rest, what the block
   last received for every parameter ever given a value is the last one given.
   */
  lemma NoUpdateLost<V>(from: State<V>, steps: seq<Step<V>>, to: State<V>, i: nat)
    requires Init(from) && Runs(from, steps, to) && Quiescent(to)
    requires i < |from.slots|
    ensures Inv(to) && |to.slots| == |from.slots|
    ensures to.given[i] != [] ==> to.delivered[i] == Some(to.given[i][|to.given[i]| - 1])
  {
    RunInv(from, steps, to);
    assert Tracked(to, i) && Accounted(to, i);
  }

  // ---- one undisturbed drain settles everything ------------------------------------------

  /** The rest of a drain's loop, with no other step in between. */
  function Drained<V>(s: State<V>): State<V>
    requires Shaped(s) && s.drainer.Delivering?
    decreases |s.slots| - s.drainer.next
  {
    if s.drainer.next < |s.slots| then Drained(Apply(s, Deliver)) else Apply(s, Finish)
  }

  lemma {:induction false} DrainSettles<V>(s: State<V>)
    requires Inv(s) && s.setter.Quiet? && s.dirty == {} && s.drainer.Delivering?
    ensures Inv(Drained(s)) && Quiescent(Drained(s))
    ensures Drained(s).given == s.given
    ensures forall i :: 0 <= i < |s.given| && s.given[i] != [] ==>
      Drained(s).delivered[i] == Some(s.given[i][|s.given[i]| - 1])
    decreases |s.slots| - s.drainer.next
  {
    if s.drainer.next < |s.slots| {
      StepKeepsInv(s, Deliver);
      DrainSettles(Apply(s, Deliver));
    } else {
      StepKeepsInv(s, Finish);
      var done := Apply(s, Finish);
      forall i | 0 <= i < |s.given| && s.given[i] != []
        ensures done.delivered[i] == Some(s.given[i][|s.given[i]| - 1])
      {
        assert Tracked(done, i) && Accounted(done, i);
      }
    }
  }

  // ---- parameters nobody gave a value ------------------------------------------------------

  /** The bit belongs to a parameter given a value. */
  ghost predicate Asked<V>(s: State<V>, bit: nat) {
    exists i :: 0 <= i < |s.given| && s.given[i] != [] && Bit(i) == bit
  }

  ghost predicate OnlyAsked<V>(s: State<V>) {
    && Shaped(s) && s.unasked == {}
    && (s.setter.Stored? ==> s.given[s.setter.index] != [])
    && (forall b :: b in s.dirty ==> Asked(s, b))
    && (s.drainer.Delivering? ==> forall b :: b in s.drainer.mask ==> Asked(s, b))
  }

  lemma AskedStays<V>(s: State<V>, t: State<V>, bit: nat)
    requires Moves(s, t) && Asked(s, bit)
    ensures Asked(t, bit)
  {
    var i :| 0 <= i < |s.given| && s.given[i] != [] && Bit(i) == bit;
    assert s.given[i] <= t.given[i];
  }

  /** With no more parameters than bits, a bit names its parameter. */
  lemma AskedIsGiven<V>(s: State<V>, i: nat)
    requires i < |s.given| <= MASK_BITS && Asked(s, Bit(i))
    ensures s.given[i] != []
  {
  }

  lemma OnlyAskedStep<V>(s: State<V>, step: Step<V>)
    requires Inv(s) && Enabled(s, step) && OnlyAsked(s) && |s.slots| <= MASK_BITS
    ensures OnlyAsked(Apply(s, step))
  {
    StepKeepsInv(s, step);
    var t := Apply(s, step);
    forall b | Asked(s, b)
      ensures Asked(t, b)
    {
      AskedStays(s, t, b);
    }
    match step
    case Mark => assert t.given[s.setter.index] != [];
    case Deliver => if Bit(s.drainer.next) in s.drainer.mask { AskedIsGiven(s, s.drainer.next); }
    case _ =>
  }

  lemma {:induction false} NothingUnasked<V>(from: State<V>, steps: seq<Step<V>>, to: State<V>)
    requires Inv(from) && OnlyAsked(from) && |from.slots| <= 32 && Runs(from, steps, to)
    ensures to.unasked == {}
    decreases |steps|
  {
    if steps != [] {
      StepKeepsInv(from, steps[0]);
      OnlyAskedStep(from, steps[0]);
      NothingUnasked(Apply(from, steps[0]), steps[1..], to);
    }
  }

  /** A parameter never given a value still has the slot it was built with. */
  ghost predicate Untouched<V>(s: State<V>, initial: seq<V>) {
    && Shaped(s) && |initial| == |s.slots|
    && forall i :: 0 <= i < |s.slots| && s.given[i] == [] ==>
         s.slots[i] == initial[i] && (s.delivered[i].Some? ==> s.delivered[i].value == initial[i])
  }

  /** So if such a parameter is delivered at all, it is delivered as that. */
  lemma {:induction false} UnaskedIsInitial<V>(from: State<V>, steps: seq<Step<V>>, to: State<V>, initial: seq<V>)
    requires Untouched(from, initial) && Runs(from, steps, to)
    ensures Untouched(to, initial)
    decreases |steps|
  {
    if steps != [] {
      UnaskedIsInitial(Apply(from, steps[0]), steps[1..], to, initial);
    }
  }

  lemma Prepend<V>(first: Step<V>, from: State<V>, steps: seq<Step<V>>, to: State<V>)
    requires Shaped(from) && Enabled(from, first) && Runs(Apply(from, first), steps, to)
    ensures Runs(from, [first] + steps, to)
  {
    assert ([first] + steps)[1..] == steps;
  }

  /** The drain loop walks on to any parameter, and delivers it if its bit is taken. */
  lemma {:induction false} DrainReaches<V>(s: State<V>, i: nat) returns (steps: seq<Step<V>>, to: State<V>)
    requires Shaped(s) && s.drainer.Delivering? && s.drainer.next <= i < |s.slots|
    requires Bit(i) in s.drainer.mask && s.given[i] == []
    ensures Runs(s, steps, to) && i in to.unasked && Shaped(to) && |to.slots| == |s.slots|
    ensures to.delivered[i] == Some(s.slots[i])
    decreases i - s.drainer.next
  {
    var on := Apply(s, Deliver);
    if s.drainer.next == i {
      steps, to := [], on;
    } else {
      steps, to := DrainReaches(on, i);
    }
    Prepend(Deliver, s, steps, to);
    steps := [Deliver] + steps;
  }

  /**
   With a 33rd parameter, giving the first a value delivers the 33rd unasked, with
   the value its slot was built with.
   */
  lemma WideMaskAliases<V>(s: State<V>, value: V) returns (steps: seq<Step<V>>, to: State<V>)
    requires Init(s) && |s.slots| > 32
    ensures Runs(s, steps, to) && 32 in to.unasked
    ensures |to.delivered| == |s.slots| && to.delivered[32] == Some(s.slots[32])
  {
    var stored := Apply(s, Store(0, value));
    var marked := Apply(stored, Mark);
    assert Bit(0) == 0 && Bit(MASK_BITS) == 0;
    assert 0 in marked.dirty;
    var taken := Apply(marked, Exchange);
    steps, to := DrainReaches(taken, MASK_BITS);
    Prepend(Exchange, marked, steps, to);
    Prepend(Mark, stored, [Exchange] + steps, to);
    Prepend(Store(0, value), s, [Mark] + ([Exchange] + steps), to);
    steps := [Store(0, value)] + ([Mark] + ([Exchange] + steps));
  }

  ghost predicate SomethingUnasked<V(!new)>(from: State<V>) {
    exists steps: seq<Step<V>>, to: State<V> :: Runs(from, steps, to) && to.unasked != {}
  }

  /**
   Only parameters given a value are ever delivered, on every run, exactly when the
   block has no more numeric parameters than the mask has bits.
   */
  lemma OnlyGivenIff<V(!new)>(from: State<V>)
    requires Init(from)
    ensures !SomethingUnasked(from) <==> |from.slots| <= 32
  {
    if |from.slots| <= MASK_BITS {
      forall steps: seq<Step<V>>, to: State<V> | Runs(from, steps, to)
        ensures to.unasked == {}
      {
        NothingUnasked(from, steps, to);
      }
    } else {
      var steps, to := WideMaskAliases(from, from.slots[0]);
    }
  }
}
