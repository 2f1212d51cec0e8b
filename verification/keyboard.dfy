/**
 The piano keyboard: roots counted by how many inputs hold them, chords captured
 at the first press, and the widget whose events press and release.
 */
module Keyboard {
  import opened Wrappers

  const NOTES: nat := 128

  datatype Chord = Plain | MajorTriad | MinorTriad | Tritone | MajorSeventh | MinorSeventh | FullyDiminishedSeventh

  /** chord_definition(), its unused intervals left out. */
  function Intervals(chord: Chord): (intervals: seq<nat>)
    ensures 0 in intervals
  {
    match chord
    case MajorTriad => [0, 4, 7]
    case MinorTriad => [0, 3, 7]
    case Tritone => [0, 6]
    case MajorSeventh => [0, 4, 7, 11]
    case MinorSeventh => [0, 3, 7, 10]
    case FullyDiminishedSeventh => [0, 3, 6, 9]
    case Plain => [0]
  }

  // ---- the shared note state ---------------------------------------------------------

  datatype Snapshot = Snapshot(notes: seq<bool>, roots: seq<bool>)

  /** Some sounding root's chord puts a note here. */
  ghost predicate Sounds(counts: seq<nat>, chords: seq<Chord>, upTo: nat, note: nat)
    requires |counts| == |chords| && upTo <= |counts|
  {
    exists root :: 0 <= root < upTo && counts[root] > 0 && note - root in Intervals(chords[root])
  }

  lemma SoundsStep(counts: seq<nat>, chords: seq<Chord>, root: nat, note: nat)
    requires |counts| == |chords| && root < |counts|
    ensures Sounds(counts, chords, root + 1, note)
       <==> Sounds(counts, chords, root, note) || (counts[root] > 0 && note - root in Intervals(chords[root]))
  {
  }

  /** The semitones above its root each kind of chord sounds, spelt out. */
  predicate ChordNote(chord: Chord, above: int) {
    match chord
    case Plain => above == 0
    case MajorTriad => above == 0 || above == 4 || above == 7
    case MinorTriad => above == 0 || above == 3 || above == 7
    case Tritone => above == 0 || above == 6
    case MajorSeventh => above == 0 || above == 4 || above == 7 || above == 11
    case MinorSeventh => above == 0 || above == 3 || above == 7 || above == 10
    case FullyDiminishedSeventh => above == 0 || above == 3 || above == 6 || above == 9
  }

  lemma IntervalsSpelt(chord: Chord, above: int)
    ensures above in Intervals(chord) <==> ChordNote(chord, above)
  {
  }

  // ---- what has happened, and the chord a held root keeps ------------------------------

  datatype Event = Select(chord: Chord) | Press(note: int) | Release(note: int) | Silence

  /** The chord in force after some events. */
  function Selected(events: seq<Event>): Chord {
    if events == [] then Plain
    else
      var last := events[|events| - 1];
      if last.Select? then last.chord else Selected(events[..|events| - 1])
  }

  /** How often a root is held after some events; a release of an unheld root is nothing. */
  function Count(events: seq<Event>, root: nat): nat {
    if events == [] then 0
    else
      var before := Count(events[..|events| - 1], root);
      match events[|events| - 1]
      case Press(note) => if note == root then before + 1 else before
      case Release(note) => if note == root && before > 0 then before - 1 else before
      case Silence => 0
      case Select(_) => before
  }

  /** The event at which a root was last pressed while nothing held it. */
  function Since(events: seq<Event>, root: nat): (k: nat)
    ensures k <= |events|
  {
    if events == [] then 0
    else
      var front := events[..|events| - 1];
      if events[|events| - 1] == Press(root) && Count(front, root) == 0 then |front| else Since(front, root)
  }

  /** The chord selected just then. */
  function Chosen(events: seq<Event>, root: nat): Chord {
    Selected(events[..Since(events, root)])
  }

  /**
   Of a root that is held, that event is the one press from which on it has been held
   without a break.
   */
  lemma {:induction false} SinceIsLast(events: seq<Event>, root: nat)
    requires Count(events, root) > 0
    ensures var k := Since(events, root);
      && k < |events| && events[k] == Press(root) && Count(events[..k], root) == 0
      && forall j :: k < j <= |events| ==> Count(events[..j], root) > 0
  {
    var n, k := |events| - 1, Since(events, root);
    var front := events[..n];
    assert events[..|events|] == events;
    if k < n || Count(front, root) > 0 {
      SinceIsLast(front, root);
      assert front[..k] == events[..k];
      forall j | k < j <= |events|
        ensures Count(events[..j], root) > 0
      {
        if j <= n { assert front[..j] == events[..j]; }
      }
    }
  }

  lemma EventAdded(events: seq<Event>, event: Event, root: nat)
    ensures var more := events + [event];
      && Selected(more) == (if event.Select? then event.chord else Selected(events))
      && Chosen(more, root) == if event == Press(root) && Count(events, root) == 0 then Selected(events)
                               else Chosen(events, root)
    ensures Count(events + [event], root)
         == match event
            case Press(note) => Count(events, root) + if note == root then 1 else 0
            case Release(note) => Count(events, root) - if note == root && Count(events, root) > 0 then 1 else 0
            case Silence => 0
            case Select(_) => Count(events, root)
  {
    var more := events + [event];
    assert more[..|more| - 1] == events;
    assert more[..Since(events, root)] == events[..Since(events, root)];
  }

  ghost predicate Kept(count: nat, chord: Chord, events: seq<Event>, root: nat) {
    count == Count(events, root) && (count > 0 ==> chord == Chosen(events, root))
  }

  class NoteState {
    var selected: Chord
    var counts: seq<nat>
    var chords: seq<Chord>
    ghost var events: seq<Event>   // every call so far

    /** The fields are what the events make them, and a held root keeps its chord. */
    ghost predicate Valid()
      reads this
    {
      && |counts| == |chords| == NOTES
      && selected == Selected(events)
      && forall r :: 0 <= r < NOTES ==> Kept(counts[r], chords[r], events, r)
    }

    constructor ()
      ensures Valid() && selected == Plain && forall r :: 0 <= r < NOTES ==> counts[r] == 0
    {
      selected := Plain;
      counts := seq(NOTES, _ => 0);
      chords := seq(NOTES, _ => Plain);
      events := [];
    }

    method SelectChord(chord: Chord)
      requires Valid()
      modifies this`selected, this`events
      ensures Valid() && selected == chord && events == old(events) + [Select(chord)]
    {
      Happen(Select(chord));
      selected := chord;
    }

    /** One more event, and what it leaves of the roots it does not concern. */
    ghost method Happen(event: Event)
      modifies this`events
      ensures events == old(events) + [event]
      ensures Selected(events) == if event.Select? then event.chord else Selected(old(events))
      ensures forall r :: 0 <= r < NOTES && event != Press(r) && event != Release(r) && event != Silence ==>
        Count(events, r) == Count(old(events), r) && Chosen(events, r) == Chosen(old(events), r)
      ensures event.Press? && 0 <= event.note ==>
        && Count(events, event.note) == Count(old(events), event.note) + 1
        && Chosen(events, event.note) == if Count(old(events), event.note) == 0 then Selected(old(events))
                                         else Chosen(old(events), event.note)
      ensures event.Release? && 0 <= event.note ==>
        && Count(events, event.note) == (if Count(old(events), event.note) > 0 then Count(old(events), event.note) - 1 else 0)
        && Chosen(events, event.note) == Chosen(old(events), event.note)
      ensures event.Silence? ==> forall r :: 0 <= r < NOTES ==> Count(events, r) == 0
    {
      forall r: nat { EventAdded(events, event, r); }
      EventAdded(events, event, 0);
      events := events + [event];
    }

    /** A press; the first to reach a root captures the selected chord for it. */
    method PressRoot(note: int)
      requires Valid()
      modifies this`counts, this`chords, this`events
      ensures Valid() && events == old(events) + [Press(note)]
      ensures 0 <= note < NOTES ==>
        && counts == old(counts)[note := old(counts)[note] + 1]
        && chords == if old(counts)[note] == 0 then old(chords)[note := selected] else old(chords)
      ensures !(0 <= note < NOTES) ==> counts == old(counts) && chords == old(chords)
    {
      Happen(Press(note));
      if note < 0 || note >= NOTES { return; }
      if counts[note] == 0 { chords := chords[note := selected]; }
      counts := counts[note := counts[note] + 1];
    }

    method ReleaseRoot(note: int)
      requires Valid()
      modifies this`counts, this`events
      ensures Valid() && events == old(events) + [Release(note)]
      ensures counts == if 0 <= note < NOTES && old(counts)[note] > 0
                        then old(counts)[note := old(counts)[note] - 1] else old(counts)
    {
      Happen(Release(note));
      if note < 0 || note >= NOTES { return; }
      if counts[note] > 0 { counts := counts[note := counts[note] - 1]; }
    }

    method ReleaseAll()
      requires Valid()
      modifies this`counts, this`events
      ensures Valid() && events == old(events) + [Silence]
      ensures forall r :: 0 <= r < NOTES ==> counts[r] == 0
    {
      Happen(Silence);
      counts := seq(NOTES, _ => 0);
    }

    /**
     Whatever has happened: a held root keeps the chord that was selected when it last
     went from unheld to held, and it has been held ever since.
     */
    lemma HeldChord(root: nat)
      requires Valid() && root < NOTES && counts[root] > 0
      ensures var k := Since(events, root);
        && k < |events| && events[k] == Press(root) && Count(events[..k], root) == 0
        && (forall j :: k < j <= |events| ==> Count(events[..j], root) > 0)
        && chords[root] == Selected(events[..k])
    {
      assert Kept(counts[root], chords[root], events, root);
      SinceIsLast(events, root);
    }

    /** snapshot(): the roots held, and every note their captured chords sound. */
    method Snap() returns (s: Snapshot)
      requires Valid()
      ensures |s.notes| == |s.roots| == 128
      ensures forall r :: 0 <= r < NOTES ==> (s.roots[r] <==> counts[r] > 0)
      ensures forall n :: 0 <= n < NOTES ==> (s.notes[n] <==> Sounds(counts, chords, NOTES, n))
    {
      var notes: seq<bool>, roots: seq<bool> := seq(NOTES, _ => false), seq(NOTES, _ => false);
      for root := 0 to NOTES
        invariant |notes| == |roots| == NOTES
        invariant forall r :: 0 <= r < NOTES ==> (roots[r] <==> r < root && counts[r] > 0)
        invariant forall n :: 0 <= n < NOTES ==> (notes[n] <==> Sounds(counts, chords, root, n))
      {
        forall n: nat { SoundsStep(counts, chords, root, n); }
        if counts[root] > 0 {
          roots := roots[root := true];
          notes := AddChord(notes, root, Intervals(chords[root]));
        }
      }
      s := Snapshot(notes, roots);
    }
  }

  /** The inner loop: one root's chord laid over the notes. */
  method AddChord(notes: seq<bool>, root: nat, intervals: seq<nat>) returns (more: seq<bool>)
    ensures |more| == |notes|
    ensures forall n :: 0 <= n < |notes| ==> (more[n] <==> notes[n] || n - root in intervals)
  {
    more := notes;
    for i := 0 to |intervals|
      invariant |more| == |notes|
      invariant forall n :: 0 <= n < |notes| ==> (more[n] <==> notes[n] || n - root in intervals[..i])
    {
      assert intervals[..i + 1] == intervals[..i] + [intervals[i]];
      var note := root + intervals[i];
      if note < |notes| { more := more[note := true]; }
    }
    assert intervals[..|intervals|] == intervals;
  }

  /** The keys that play, from the first note up, as their codes: the thirteen of an octave. */
  const KEYS := "AWSEDFTGYHUJK"

  lemma KeysDistinct()
    ensures |KEYS| == 13 && forall i, j :: 0 <= i < j < |KEYS| ==> KEYS[i] != KEYS[j]
  {
  }

  // ---- the widget ----------------------------------------------------------------------

  /** A touch point: its id, whether it has just been lifted, and the key under it. */
  datatype Touch = Touch(id: int, lifted: bool, under: Option<nat>)

  /** The inputs of one kind that hold a root. */
  function Holders(held: map<int, nat>, root: nat): set<int> {
    set id | id in held && held[id] == root
  }

  function MouseHolds(mouse: Option<nat>, root: nat): nat {
    if mouse == Some(root) then 1 else 0
  }

  /** How many inputs hold a root. */
  function Holding(mouse: Option<nat>, keys: map<int, nat>, touches: map<int, nat>, root: nat): nat {
    MouseHolds(mouse, root) + |Holders(keys, root)| + |Holders(touches, root)|
  }

  ghost predicate InRange(held: map<int, nat>) {
    forall id :: id in held ==> held[id] < NOTES
  }

  /** The inputs still to be looked at, and those whose key has not changed. */
  function Staying(held: map<int, nat>, other: map<int, nat>, left: set<int>, root: nat): set<int> {
    set id | id in held && held[id] == root && (id in left || (id in other && other[id] == root))
  }

  predicate Same(held: map<int, nat>, other: map<int, nat>, id: int)
    requires id in held
  {
    id in other && other[id] == held[id]
  }

  lemma StayingStart(held: map<int, nat>, other: map<int, nat>, root: nat)
    ensures Staying(held, other, held.Keys, root) == Holders(held, root)
  {
  }

  lemma StayingEnd(held: map<int, nat>, other: map<int, nat>, root: nat)
    ensures Staying(held, other, {}, root) == Staying(other, held, {}, root)
  {
  }

  lemma StayingStep(held: map<int, nat>, other: map<int, nat>, left: set<int>, id: int, root: nat)
    requires id in left && id in held
    ensures |Staying(held, other, left, root)|
         == |Staying(held, other, left - {id}, root)| + if held[id] == root && !Same(held, other, id) then 1 else 0
  {
    var before, after := Staying(held, other, left, root), Staying(held, other, left - {id}, root);
    if held[id] == root && !Same(held, other, id) {
      assert before == after + {id} && id !in after;
    } else {
      assert before == after;
    }
  }

  /** A set that is not empty has a member to go on with. */
  lemma SomeMember(s: set<int>)
    requires s != {}
    ensures exists id :: id in s
  {
    if forall id :: id !in s { assert false; }
  }

  lemma HolderAdded(held: map<int, nat>, id: int, note: nat, root: nat)
    requires id !in held
    ensures |Holders(held[id := note], root)| == |Holders(held, root)| + if note == root then 1 else 0
  {
    if note == root {
      assert Holders(held[id := note], root) == Holders(held, root) + {id};
    } else {
      assert Holders(held[id := note], root) == Holders(held, root);
    }
  }

  lemma HolderRemoved(held: map<int, nat>, id: int, root: nat)
    requires id in held
    ensures |Holders(held, root)| == |Holders(held - {id}, root)| + if held[id] == root then 1 else 0
  {
    if held[id] == root {
      assert Holders(held, root) == Holders(held - {id}, root) + {id};
    } else {
      assert Holders(held, root) == Holders(held - {id}, root);
    }
  }

  /** A root's chord after an event: captured anew if no input held it throughout. */
  function Captured(throughout: nat, after: nat, selected: Chord, was: Chord): Chord {
    if throughout == 0 && after > 0 then selected else was
  }

  ghost predicate Alone(roots: seq<bool>, root: nat) {
    root < |roots| && roots[root] && forall r :: 0 <= r < |roots| && roots[r] ==> r == root
  }

  class PianoKeysWidget {
    const state: NoteState
    const firstNote: nat
    const lastNote: nat
    var mouseNote: Option<nat>
    var keyboardNotes: map<int, nat>
    var touchNotes: map<int, nat>

    ghost predicate InputsInRange()
      reads this
    {
      && (mouseNote.Some? ==> mouseNote.value < NOTES)
      && InRange(keyboardNotes) && InRange(touchNotes)
    }

    /** Every count is the number of inputs holding the root. */
    ghost predicate Balanced()
      reads this, state
    {
      && state.Valid() && InputsInRange()
      && forall r :: 0 <= r < NOTES ==> state.counts[r] == Holding(mouseNote, keyboardNotes, touchNotes, r)
    }

    constructor (state: NoteState, firstNote: int, octaves: int)
      requires state.Valid() && forall r :: 0 <= r < NOTES ==> state.counts[r] == 0
      ensures this.state == state && Balanced() && lastNote < NOTES
      ensures 0 <= firstNote <= 120 ==> this.firstNote == firstNote
      ensures firstNote < 0 ==> this.firstNote == 0
      ensures firstNote > 120 ==> this.firstNote == 120
      ensures 1 <= octaves <= 5 && this.firstNote + 12 * octaves <= 127 ==> lastNote == this.firstNote + 12 * octaves
      ensures octaves <= 5 && this.firstNote + 12 * octaves > 127 ==> lastNote == 127
      ensures octaves < 1 ==> lastNote == if this.firstNote <= 115 then this.firstNote + 12 else 127
      ensures octaves > 5 ==> lastNote == if this.firstNote <= 67 then this.firstNote + 60 else 127
      ensures mouseNote == None && keyboardNotes == touchNotes == map[]
    {
      this.state := state;
      var first: nat := if firstNote < 0 then 0 else if firstNote > 120 then 120 else firstNote;
      var span: nat := if octaves < 1 then 1 else if octaves > 5 then 5 else octaves;
      this.firstNote := first;
      lastNote := if first + span * 12 < 127 then first + span * 12 else 127;
      mouseNote, keyboardNotes, touchNotes := None, map[], map[];
    }

    /** note_for_key(): the loop along the row of keys, counted from the first note. */
    method NoteForKey(key: int) returns (note: Option<nat>)
      ensures forall k :: 0 <= k < |KEYS| && KEYS[k] as int == key ==>
        note == if firstNote + k <= lastNote then Some(firstNote + k) else None
      ensures (forall k :: 0 <= k < |KEYS| ==> KEYS[k] as int != key) ==> note == None
    {
      KeysDistinct();
      for i := 0 to |KEYS|
        invariant forall k :: 0 <= k < i && KEYS[k] as int == key ==> firstNote + k > lastNote
      {
        if KEYS[i] as int == key && firstNote + i <= lastNote {
          return Some(firstNote + i);
        }
      }
      return None;
    }

    method DropMouse()
      requires Balanced() && mouseNote.Some?
      modifies this`mouseNote, state`counts, state`events
      ensures Balanced() && mouseNote == None
    {
      state.ReleaseRoot(mouseNote.value);
      mouseNote := None;
    }

    method TakeMouse(note: nat)
      requires Balanced() && mouseNote == None && note < NOTES
      modifies this`mouseNote, state`counts, state`chords, state`events
      ensures Balanced() && mouseNote == Some(note)
      ensures state.chords == if old(state.counts)[note] == 0 then old(state.chords)[note := state.selected] else old(state.chords)
    {
      mouseNote := Some(note);
      state.PressRoot(note);
    }

    /** set_mouse_note(), which every pointer event comes down to. */
    method SetMouseNote(note: Option<nat>)
      requires Balanced() && (note.Some? ==> note.value < NOTES)
      modifies this`mouseNote, state`counts, state`events, state`chords
      ensures Balanced() && mouseNote == note
      ensures forall r :: 0 <= r < NOTES ==>
        state.chords[r] == Captured(
          |Holders(keyboardNotes, r)| + |Holders(touchNotes, r)| + if note == old(mouseNote) then MouseHolds(note, r) else 0,
          state.counts[r], state.selected, old(state.chords)[r])
    {
      if note == mouseNote { return; }
      if mouseNote.Some? { DropMouse(); }
      if note.Some? { TakeMouse(note.value); }
    }

    /** A press that starts a note: no auto-repeat, not held already, and a key of the row in range. */
    ghost predicate Starts(key: int, autoRepeat: bool, k: nat)
      reads this`keyboardNotes
    {
      && !autoRepeat && key !in keyboardNotes
      && k < |KEYS| && KEYS[k] as int == key && firstNote + k <= lastNote
    }

    /** A key not held before takes its note. */
    method Strike(key: int, note: nat)
      requires Balanced() && key !in keyboardNotes && note < NOTES
      modifies this`keyboardNotes, state`counts, state`events, state`chords
      ensures Balanced() && keyboardNotes == old(keyboardNotes)[key := note]
      ensures state.counts == old(state.counts)[note := old(state.counts)[note] + 1]
      ensures forall r :: 0 <= r < NOTES ==>
        state.chords[r] == Captured(old(state.counts)[r], state.counts[r], state.selected, old(state.chords)[r])
    {
      forall r: nat { HolderAdded(keyboardNotes, key, note, r); }
      keyboardNotes := keyboardNotes[key := note];
      state.PressRoot(note);
    }

    method KeyPress(key: int, autoRepeat: bool)
      requires Balanced() && lastNote < NOTES
      modifies this`keyboardNotes, state`counts, state`events, state`chords
      ensures Balanced()
      ensures forall k: nat :: old(Starts(key, autoRepeat, k)) ==>
        && keyboardNotes == old(keyboardNotes)[key := firstNote + k]
        && state.counts == old(state.counts)[firstNote + k := old(state.counts)[firstNote + k] + 1]
      ensures (forall k: nat :: !old(Starts(key, autoRepeat, k))) ==>
        keyboardNotes == old(keyboardNotes) && state.counts == old(state.counts)
      ensures forall r :: 0 <= r < NOTES ==>
        state.chords[r] == Captured(old(state.counts)[r], state.counts[r], state.selected, old(state.chords)[r])
    {
      if autoRepeat { return; }
      var note := NoteForKey(key);
      if note.None? || key in keyboardNotes { return; }
      ghost var k :| 0 <= k < |KEYS| && KEYS[k] as int == key;
      assert old(Starts(key, autoRepeat, k)) && note.value == firstNote + k;
      Strike(key, note.value);
    }

    method KeyRelease(key: int, autoRepeat: bool)
      requires Balanced()
      modifies this`keyboardNotes, state`counts, state`events
      ensures Balanced()
      ensures keyboardNotes == if autoRepeat then old(keyboardNotes) else old(keyboardNotes) - {key}
    {
      if autoRepeat { return; }
      if key in keyboardNotes {
        forall r: nat { HolderRemoved(keyboardNotes, key, r); }
        state.ReleaseRoot(keyboardNotes[key]);
        keyboardNotes := keyboardNotes - {key};
      }
    }

    /** focusOutEvent(): every computer key let go. */
    method FocusOut()
      requires Balanced()
      modifies this`keyboardNotes, state`counts, state`events
      ensures Balanced() && keyboardNotes == map[]
    {
      while keyboardNotes.Keys != {}
        invariant Balanced()
        decreases |keyboardNotes.Keys|
      {
        SomeMember(keyboardNotes.Keys);
        var key :| key in keyboardNotes.Keys;
        KeyRelease(key, false);
      }
      assert keyboardNotes == map[];
    }

    /** How many inputs hold a root through a change of the touches. */
    ghost function Throughout(next: map<int, nat>, root: nat): nat
      reads this
    {
      MouseHolds(mouseNote, root) + |Holders(keyboardNotes, root)| + |Staying(touchNotes, next, {}, root)|
    }

    /** The first loop of a touch event: touches gone, or slid to another key. */
    method LiftTouches(next: map<int, nat>)
      requires Balanced()
      modifies state`counts, state`events
      ensures state.Valid()
      ensures forall r :: 0 <= r < NOTES ==> state.counts[r] == Throughout(next, r)
    {
      var left := touchNotes.Keys;
      forall r: nat { StayingStart(touchNotes, next, r); }
      while left != {}
        invariant state.Valid() && left <= touchNotes.Keys
        invariant forall r :: 0 <= r < NOTES ==>
          state.counts[r] == MouseHolds(mouseNote, r) + |Holders(keyboardNotes, r)| + |Staying(touchNotes, next, left, r)|
        decreases |left|
      {
        SomeMember(left);
        var id :| id in left;
        forall r: nat { StayingStep(touchNotes, next, left, id, r); }
        if !Same(touchNotes, next, id) { state.ReleaseRoot(touchNotes[id]); }
        left := left - {id};
      }
    }

    /** The second loop: touches new, or new to their key. */
    method LandTouches(next: map<int, nat>)
      requires state.Valid() && InRange(next)
      requires forall r :: 0 <= r < NOTES ==> state.counts[r] == Throughout(next, r)
      modifies state`counts, state`events, state`chords
      ensures state.Valid()
      ensures forall r :: 0 <= r < NOTES ==> state.counts[r] == Holding(mouseNote, keyboardNotes, next, r)
      ensures forall r :: 0 <= r < NOTES ==>
        state.chords[r] == Captured(Throughout(next, r), state.counts[r], state.selected, old(state.chords)[r])
    {
      var left := next.Keys;
      forall r: nat { StayingStart(next, touchNotes, r); }
      forall r: nat { StayingEnd(touchNotes, next, r); }
      while left != {}
        invariant state.Valid() && left <= next.Keys
        invariant forall r :: 0 <= r < NOTES ==>
          state.counts[r] + |Staying(next, touchNotes, left, r)| == Throughout(next, r) + |Holders(next, r)|
        invariant forall r :: 0 <= r < NOTES ==> Throughout(next, r) <= state.counts[r]
        invariant forall r :: 0 <= r < NOTES ==>
          state.chords[r] == Captured(Throughout(next, r), state.counts[r], state.selected, old(state.chords)[r])
        decreases |left|
      {
        SomeMember(left);
        var id :| id in left;
        forall r: nat { StayingStep(next, touchNotes, left, id, r); }
        if !Same(next, touchNotes, id) { state.PressRoot(next[id]); }
        left := left - {id};
      }
    }

    /** A touch event: `cancelled` for TouchCancel, which carries no points. */
    method TouchEvent(cancelled: bool, points: seq<Touch>)
      requires Balanced() && forall i :: 0 <= i < |points| && points[i].under.Some? ==> points[i].under.value < NOTES
      modifies this`touchNotes, state`counts, state`events, state`chords
      ensures Balanced()
      ensures touchNotes == if cancelled then map[] else Touching(points)
      ensures forall r :: 0 <= r < NOTES ==>
        state.chords[r] == Captured(old(Throughout(if cancelled then map[] else Touching(points), r)),
                                    state.counts[r], state.selected, old(state.chords)[r])
    {
      var next := map[];
      if !cancelled {
        for i := 0 to |points|
          invariant next == Touching(points[..i]) && InRange(next)
        {
          assert points[..i + 1][..i] == points[..i];
          if !points[i].lifted && points[i].under.Some? { next := next[points[i].id := points[i].under.value]; }
        }
        assert points[..|points|] == points;
      }
      LiftTouches(next);
      LandTouches(next);
      touchNotes := next;
    }

    /** Destruction, and the block's stop(): the counts go, the widget's maps stay. */
    method ReleaseAll()
      requires Balanced()
      modifies state`counts, state`events
      ensures state.Valid() && InputsInRange()
      ensures Balanced() <==> forall r :: 0 <= r < NOTES ==> Holding(mouseNote, keyboardNotes, touchNotes, r) == 0
    {
      state.ReleaseAll();
    }

    /** What is painted and rendered: the held roots' captured chords, and silence when none is held. */
    method Show() returns (s: Snapshot)
      requires Balanced()
      ensures |s.notes| == |s.roots| == 128
      ensures forall r :: 0 <= r < NOTES ==> (s.roots[r] <==> Holding(mouseNote, keyboardNotes, touchNotes, r) > 0)
      ensures forall n :: 0 <= n < NOTES ==>
        (s.notes[n] <==> exists root :: 0 <= root < NOTES && s.roots[root] && n - root in Intervals(state.chords[root]))
      ensures forall root :: 0 <= root < NOTES && s.roots[root] ==>
        state.chords[root] == Chosen(state.events, root)
      ensures mouseNote == None && keyboardNotes == touchNotes == map[] ==>
        forall n :: 0 <= n < NOTES ==> !s.notes[n]
      ensures forall root :: 0 <= root < NOTES && Alone(s.roots, root) ==>
        forall n :: 0 <= n < NOTES ==> (s.notes[n] <==> ChordNote(state.chords[root], n - root))
    {
      s := state.Snap();
      forall chord: Chord, above: int { IntervalsSpelt(chord, above); }
    }
  }

  /** A point that is there and on a key. */
  predicate Presses(point: Touch, id: int) {
    point.id == id && !point.lifted && point.under.Some?
  }

  /** Point i is the last of its id that is there and on a key, and it is on this one. */
  ghost predicate LastOn(points: seq<Touch>, i: nat, id: int, note: nat) {
    && i < |points| && points[i] == Touch(id, false, Some(note))
    && forall j :: i < j < |points| ==> !Presses(points[j], id)
  }

  lemma LastOnFront(points: seq<Touch>, i: nat, id: int, note: nat)
    requires points != [] && !Presses(points[|points| - 1], id)
    ensures LastOn(points, i, id, note) <==> LastOn(points[..|points| - 1], i, id, note)
  {
    var front := points[..|points| - 1];
    if LastOn(front, i, id, note) {
      forall j | i < j < |points|
        ensures !Presses(points[j], id)
      {
        if j < |front| { assert front[j] == points[j]; }
      }
    }
    if LastOn(points, i, id, note) {
      forall j | i < j < |front|
        ensures !Presses(front[j], id)
      {
        assert front[j] == points[j];
      }
    }
  }

  lemma LastOnLast(points: seq<Touch>, id: int, note: nat)
    requires points != [] && Presses(points[|points| - 1], id)
    ensures (exists i: nat :: LastOn(points, i, id, note)) <==> points[|points| - 1].under.value == note
  {
    var n := |points| - 1;
    if points[n].under.value == note { assert LastOn(points, n, id, note); }
    if i: nat :| LastOn(points, i, id, note) { assert i == n; }
  }

  /** A touch is on a key if the last point with its id that is there and on one is on that. */
  lemma {:induction false} TouchingIff(points: seq<Touch>, id: int, note: nat)
    ensures id in Touching(points) && Touching(points)[id] == note <==> exists i: nat :: LastOn(points, i, id, note)
  {
    if points != [] {
      if Presses(points[|points| - 1], id) {
        LastOnLast(points, id, note);
      } else {
        var front := points[..|points| - 1];
        TouchingIff(front, id, note);
        if i: nat :| LastOn(front, i, id, note) { LastOnFront(points, i, id, note); }
        if i: nat :| LastOn(points, i, id, note) { LastOnFront(points, i, id, note); }
      }
    }
  }

  /** The touches on a key, a later point with an id replacing an earlier one. */
  function Touching(points: seq<Touch>): map<int, nat> {
    if points == [] then map[]
    else
      var point := points[|points| - 1];
      var before := Touching(points[..|points| - 1]);
      if !point.lifted && point.under.Some? then before[point.id := point.under.value] else before
  }
}
