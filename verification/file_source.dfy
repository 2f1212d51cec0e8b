/**
 The browser file source: a consumer of the ring that marks each pass over the
 file and replays the recording's own tags on the samples they belong to.
 */
module FileSource {
  import opened Arithmetic
  import opened Ring
  import opened RingBuffer
  import opened Sequences

  datatype State = Initial | Running | EofReached | Error | Cancelled

  /** Items the reader has published since the last pass of the loop, and its state. */
  datatype Look<T> = Look(batch: seq<T>, state: State)

  datatype Outcome = Returned(items: nat) | WorkDone | Thrown | Waiting

  datatype PlanEntry<V> = PlanEntry(offset: nat, key: V, value: V)

  /** A tag on the output stream: the begin tag carries its pass number. */
  datatype Tag<V> = BeginTag(at: nat, pass: nat) | DataTag(at: nat, key: V, value: V)

  // ---- the tag plan -------------------------------------------------------------

  ghost predicate Ascending<V>(plan: seq<PlanEntry<V>>) {
    |plan| < 2 || (plan[0].offset <= plan[1].offset && Ascending(plan[1..]))
  }

  lemma {:induction false} AscendingOrders<V>(plan: seq<PlanEntry<V>>, i: nat, j: nat)
    requires Ascending(plan) && i <= j < |plan|
    ensures plan[i].offset <= plan[j].offset
  {
    if i > 0 {
      AscendingOrders(plan[1..], i - 1, j - 1);
    } else if j > 0 {
      AscendingOrders(plan[1..], 0, j - 1);
    }
  }

  function Inserted<V>(e: PlanEntry<V>, plan: seq<PlanEntry<V>>): seq<PlanEntry<V>> {
    if plan == [] || e.offset <= plan[0].offset then [e] + plan
    else [plan[0]] + Inserted(e, plan[1..])
  }

  /** set_tag_plan()'s stable sort by offset. */
  function StableSorted<V>(plan: seq<PlanEntry<V>>): seq<PlanEntry<V>> {
    if plan == [] then [] else Inserted(plan[0], StableSorted(plan[1..]))
  }

  /** The entries at one offset, in order. */
  function AtOffset<V>(plan: seq<PlanEntry<V>>, offset: nat): seq<PlanEntry<V>> {
    if plan == [] then []
    else (if plan[0].offset == offset then [plan[0]] else []) + AtOffset(plan[1..], offset)
  }

  lemma {:induction false} InsertedProperties<V>(e: PlanEntry<V>, plan: seq<PlanEntry<V>>, offset: nat)
    requires Ascending(plan)
    ensures Ascending(Inserted(e, plan))
    ensures |Inserted(e, plan)| == |plan| + 1
    ensures forall x :: x in Inserted(e, plan) <==> x == e || x in plan
    ensures AtOffset(Inserted(e, plan), offset) == AtOffset([e] + plan, offset)
  {
    assert ([e] + plan)[1..] == plan;
    if plan != [] && plan[0].offset < e.offset {
      InsertedProperties(e, plan[1..], offset);
      var rest := Inserted(e, plan[1..]);
      assert ([plan[0]] + rest)[1..] == rest;
      assert ([e] + plan[1..])[1..] == plan[1..];
    }
  }

  /** Sorted, and the entries that share an offset keep their order. */
  lemma {:induction false} StableSortedIsStable<V>(plan: seq<PlanEntry<V>>, offset: nat)
    ensures Ascending(StableSorted(plan)) && |StableSorted(plan)| == |plan|
    ensures AtOffset(StableSorted(plan), offset) == AtOffset(plan, offset)
  {
    if plan != [] {
      StableSortedIsStable(plan[1..], offset);
      InsertedProperties(plan[0], StableSorted(plan[1..]), offset);
      assert ([plan[0]] + StableSorted(plan[1..]))[1..] == StableSorted(plan[1..]);
    }
  }

  /** How many leading entries lie before the first `items` samples' end. */
  function Cursor<V>(plan: seq<PlanEntry<V>>, items: nat): (c: nat)
    ensures c <= |plan|
  {
    if plan == [] || items <= plan[0].offset then 0 else 1 + Cursor(plan[1..], items)
  }

  lemma {:induction false} CursorIs<V>(plan: seq<PlanEntry<V>>, items: nat, c: nat)
    requires Ascending(plan) && c <= |plan|
    requires c < |plan| ==> items <= plan[c].offset
    requires c > 0 ==> plan[c - 1].offset < items
    ensures Cursor(plan, items) == c
  {
    if c > 0 { CursorIs(plan[1..], items, c - 1); }
  }

  lemma {:induction false} CursorSplits<V>(plan: seq<PlanEntry<V>>, items: nat)
    requires Ascending(plan)
    ensures forall i :: 0 <= i < |plan| ==> (i < Cursor(plan, items) <==> plan[i].offset < items)
  {
    forall i | 0 <= i < |plan|
      ensures i < Cursor(plan, items) <==> plan[i].offset < items
    {
      AscendingOrders(plan, 0, i);
      if i > 0 && plan[0].offset < items {
        CursorSplits(plan[1..], items);
        assert plan[i] == plan[1..][i - 1];
      }
    }
  }

  // ---- the reference: the tags due after n items ------------------------------------

  /**
   One pass, starting at stream offset `base`, of which the plan has been in use
   from item `late` on: the tags due once `into` of its items are out.  Entries the
   plan came too late for go on the first item it was there for.
   */
  function PassTags<V>(begin: bool, plan: seq<PlanEntry<V>>, base: nat, pass: nat, late: nat, into: nat): seq<Tag<V>> {
    if into <= late then []
    else Opening(begin && late == 0, base, pass) + Replayed(plan, base, late, 0, Cursor(plan, into))
  }

  function Opening<V>(begin: bool, base: nat, pass: nat): seq<Tag<V>> {
    if begin then [BeginTag(base, pass)] else []
  }

  /** The plan's item for an entry, no earlier than the plan itself. */
  function Placed<V>(e: PlanEntry<V>, base: nat, late: nat): Tag<V> {
    DataTag(base + if e.offset > late then e.offset else late, e.key, e.value)
  }

  /** Plan entries from..to, tagged relative to `base`. */
  function Replayed<V>(plan: seq<PlanEntry<V>>, base: nat, late: nat, from: nat, to: nat): seq<Tag<V>>
    requires to <= |plan|
  {
    if to <= from then []
    else Replayed(plan, base, late, from, to - 1) + [Placed(plan[to - 1], base, late)]
  }

  /** How far into a pass a plan set at `late` of pass `first` begins to count. */
  function LateIn(first: nat, late: nat, pass: nat): nat {
    if pass == first then late else 0
  }

  /** The passes from `first` on that end before pass `pass`, which starts at stream offset `base`. */
  function WholePasses<V>(begin: bool, plan: seq<PlanEntry<V>>, length: nat, first: nat, late: nat,
                          base: nat, pass: nat): seq<Tag<V>> {
    if pass <= first || base < length then []
    else
      WholePasses(begin, plan, length, first, late, base - length, pass - 1)
      + PassTags(begin, plan, base - length, pass - 1, LateIn(first, late, pass - 1), length)
  }

  /** The whole passes before stream offset `base`, and `into` items of the next. */
  function TagsSoFar<V>(begin: bool, plan: seq<PlanEntry<V>>, length: nat, first: nat, late: nat,
                        base: nat, pass: nat, into: nat): seq<Tag<V>> {
    WholePasses(begin, plan, length, first, late, base, pass)
    + PassTags(begin, plan, base, pass, LateIn(first, late, pass), into)
  }

  /** A plan there from the start is never late: each entry goes on its own item. */
  lemma {:induction false} PlacedExactly<V>(plan: seq<PlanEntry<V>>, base: nat, to: nat, i: nat)
    requires i < to <= |plan|
    ensures |Replayed(plan, base, 0, 0, to)| == to
    ensures Replayed(plan, base, 0, 0, to)[i] == DataTag(base + plan[i].offset, plan[i].key, plan[i].value)
  {
    if to > 1 { PlacedExactly(plan, base, to - 1, if i < to - 1 then i else 0); }
  }

  lemma Rollover<V>(begin: bool, plan: seq<PlanEntry<V>>, length: nat, first: nat, late: nat, base: nat, pass: nat)
    requires first <= pass
    ensures TagsSoFar(begin, plan, length, first, late, base, pass, length)
         == TagsSoFar(begin, plan, length, first, late, base + length, pass + 1, 0)
  {
  }

  lemma {:induction false} ReplayedJoin<V>(plan: seq<PlanEntry<V>>, base: nat, late: nat, mid: nat, to: nat)
    requires mid <= to <= |plan|
    ensures Replayed(plan, base, late, 0, mid) + Replayed(plan, base, late, mid, to) == Replayed(plan, base, late, 0, to)
  {
    if mid < to {
      ReplayedJoin(plan, base, late, mid, to - 1);
      Regroup(Replayed(plan, base, late, 0, mid), Replayed(plan, base, late, mid, to - 1),
              [Placed(plan[to - 1], base, late)]);
    }
  }

  /** How many entries are out: none of them before the plan has been used. */
  function CursorAt<V>(plan: seq<PlanEntry<V>>, late: nat, into: nat): (c: nat)
    ensures c <= |plan|
  {
    if into <= late then 0 else Cursor(plan, into)
  }

  lemma NothingSince<V>(begin: bool, plan: seq<PlanEntry<V>>, length: nat, pass: nat, into: nat, base: nat)
    ensures TagsSoFar(begin, plan, length, pass, into, base, pass, into) == []
  {
  }

  /** What the next items add to the tags so far. */
  function NextTags<V>(begin: bool, plan: seq<PlanEntry<V>>, base: nat, pass: nat, late: nat, into: nat, next: nat): seq<Tag<V>> {
    Opening(begin && into == 0, base, pass)
    + Replayed(plan, base, late, CursorAt(plan, late, into), Cursor(plan, next))
  }

  lemma PassGrows<V>(begin: bool, plan: seq<PlanEntry<V>>, base: nat, pass: nat, late: nat, into: nat, next: nat)
    requires late <= into < next && CursorAt(plan, late, into) <= Cursor(plan, next)
    ensures PassTags(begin, plan, base, pass, late, into) + NextTags(begin, plan, base, pass, late, into, next)
         == PassTags(begin, plan, base, pass, late, next)
  {
    if late < into {
      var mid := Cursor(plan, into);
      ReplayedJoin(plan, base, late, mid, Cursor(plan, next));
      Regroup(Opening(begin && late == 0, base, pass), Replayed(plan, base, late, 0, mid),
              Replayed(plan, base, late, mid, Cursor(plan, next)));
    }
  }

  lemma TagsGrow<V>(begin: bool, plan: seq<PlanEntry<V>>, length: nat, first: nat, late: nat,
                    base: nat, pass: nat, into: nat, next: nat)
    requires var here := LateIn(first, late, pass);
      here <= into < next && CursorAt(plan, here, into) <= Cursor(plan, next)
    ensures TagsSoFar(begin, plan, length, first, late, base, pass, into)
          + NextTags(begin, plan, base, pass, LateIn(first, late, pass), into, next)
         == TagsSoFar(begin, plan, length, first, late, base, pass, next)
  {
    var here := LateIn(first, late, pass);
    PassGrows(begin, plan, base, pass, here, into, next);
    Regroup(WholePasses(begin, plan, length, first, late, base, pass), PassTags(begin, plan, base, pass, here, into),
            NextTags(begin, plan, base, pass, here, into, next));
  }

  // ---- the same, item by item ---------------------------------------------------------

  /** An item's place in its pass, and how many passes went before. */
  function PlaceOf(n: nat, length: nat): (place: nat)
    requires 0 < length
    ensures place < length
  {
    if n < length then n else PlaceOf(n - length, length)
  }

  function PassOf(n: nat, length: nat): nat
    requires 0 < length
  {
    if n < length then 0 else 1 + PassOf(n - length, length)
  }

  lemma {:induction false} PlaceIs(n: nat, length: nat, pass: nat, place: nat)
    requires place < length && n == pass * length + place
    ensures PlaceOf(n, length) == place && PassOf(n, length) == pass
    decreases pass
  {
    if pass > 0 {
      OneMore(pass - 1, length);
      PlaceIs(n - length, length, pass - 1, place);
    }
  }

  lemma {:induction false} PlacesFill(n: nat, length: nat)
    requires 0 < length
    ensures PassOf(n, length) * length + PlaceOf(n, length) == n
  {
    if n >= length {
      PlacesFill(n - length, length);
      OneMore(PassOf(n - length, length), length);
    }
  }

  /** The entries up to a place, in order. */
  function UpTo<V>(plan: seq<PlanEntry<V>>, place: nat): seq<PlanEntry<V>> {
    if plan == [] then []
    else (if plan[0].offset <= place then [plan[0]] else []) + UpTo(plan[1..], place)
  }

  /** Entries as tags on item n. */
  function Marked<V>(entries: seq<PlanEntry<V>>, n: nat): seq<Tag<V>> {
    if entries == [] then []
    else Marked(entries[..|entries| - 1], n) + [DataTag(n, entries[|entries| - 1].key, entries[|entries| - 1].value)]
  }

  /**
   What item n carries: a begin tag with the pass if it is a pass's first, then the
   entries at its place in the file; the first item under the plan, those before too.
   */
  function ItemTags<V>(begin: bool, plan: seq<PlanEntry<V>>, pass: nat, place: nat, first: bool, n: nat): seq<Tag<V>> {
    (if begin && place == 0 then [BeginTag(n, pass)] else [])
    + Marked(if first then UpTo(plan, place) else AtOffset(plan, place), n)
  }

  function ItemByItem<V>(begin: bool, plan: seq<PlanEntry<V>>, length: nat, from: nat, to: nat): seq<Tag<V>>
    requires 0 < length
  {
    if to <= from then []
    else
      var n := to - 1;
      ItemByItem(begin, plan, length, from, n)
      + ItemTags(begin, plan, PassOf(n, length), PlaceOf(n, length), n == from, n)
  }

  lemma TailSlice<V>(plan: seq<PlanEntry<V>>, a: nat, b: nat)
    requires plan != [] && a <= b <= |plan| - 1
    ensures plan[1 + a..1 + b] == plan[1..][a..b]
  {
    assert |plan[1 + a..1 + b]| == |plan[1..][a..b]|;
    assert forall i :: 0 <= i < b - a ==> plan[1 + a..1 + b][i] == plan[1..][a..b][i];
  }

  lemma HeadSlice<V>(plan: seq<PlanEntry<V>>, b: nat)
    requires plan != [] && b <= |plan| - 1
    ensures plan[0..1 + b] == [plan[0]] + plan[1..][0..b]
  {
  }

  lemma {:induction false} AtOffsetCut<V>(plan: seq<PlanEntry<V>>, place: nat)
    requires Ascending(plan)
    ensures Cursor(plan, place) <= Cursor(plan, place + 1)
    ensures AtOffset(plan, place) == plan[Cursor(plan, place)..Cursor(plan, place + 1)]
  {
    if plan != [] {
      AtOffsetCut(plan[1..], place);
      var a, b := Cursor(plan[1..], place), Cursor(plan[1..], place + 1);
      if |plan| > 1 { AscendingOrders(plan, 0, 1); }
      if plan[0].offset < place {
        TailSlice(plan, a, b);
      } else if plan[0].offset == place {
        assert a == 0;
        HeadSlice(plan, b);
      } else {
        assert a == b == 0;
      }
    }
  }

  lemma {:induction false} UpToCut<V>(plan: seq<PlanEntry<V>>, place: nat)
    requires Ascending(plan)
    ensures UpTo(plan, place) == plan[..Cursor(plan, place + 1)]
  {
    if plan != [] {
      UpToCut(plan[1..], place);
      if |plan| > 1 { AscendingOrders(plan, 0, 1); }
      assert plan == [plan[0]] + plan[1..];
    }
  }

  /** Entries that all fall on one item. */
  lemma {:induction false} ReplayedOn<V>(plan: seq<PlanEntry<V>>, base: nat, late: nat, from: nat, to: nat, n: nat)
    requires from <= to <= |plan|
    requires forall i :: from <= i < to ==> Placed(plan[i], base, late).at == n
    ensures Replayed(plan, base, late, from, to) == Marked(plan[from..to], n)
  {
    if from < to {
      ReplayedOn(plan, base, late, from, to - 1, n);
      var entries := plan[from..to];
      assert entries[..|entries| - 1] == plan[from..to - 1];
      assert Placed(plan[to - 1], base, late).at == n;
    }
  }

  /** What the next item of a pass adds is what that item carries. */
  lemma NextItem<V>(plan: seq<PlanEntry<V>>, base: nat, late: nat, into: nat, entries: seq<PlanEntry<V>>)
    requires Ascending(plan) && late <= into
    requires entries == if into == late then UpTo(plan, into) else AtOffset(plan, into)
    ensures CursorAt(plan, late, into) <= Cursor(plan, into + 1)
    ensures Replayed(plan, base, late, CursorAt(plan, late, into), Cursor(plan, into + 1)) == Marked(entries, base + into)
  {
    var a, b := CursorAt(plan, late, into), Cursor(plan, into + 1);
    UpToCut(plan, into);
    AtOffsetCut(plan, into);
    CursorSplits(plan, into);
    CursorSplits(plan, into + 1);
    ReplayedOn(plan, base, late, a, b, base + into);
  }

  lemma FirstOfPass<V>(plan: seq<PlanEntry<V>>)
    ensures UpTo(plan, 0) == AtOffset(plan, 0)
  {
  }

  lemma NextByItem<V>(begin: bool, plan: seq<PlanEntry<V>>, length: nat, from: nat, n: nat, tags: seq<Tag<V>>)
    requires 0 < length && from <= n
    requires tags == ItemTags(begin, plan, PassOf(n, length), PlaceOf(n, length), n == from, n)
    ensures ItemByItem(begin, plan, length, from, n + 1) == ItemByItem(begin, plan, length, from, n) + tags
  {
  }

  /** `base` is where pass `pass` starts. */
  ghost predicate StartsPass(base: nat, length: nat, pass: nat) {
    0 < length && PlaceOf(base, length) == 0 && PassOf(base, length) == pass
  }

  ghost predicate Stands(n: nat, length: nat, pass: nat, place: nat) {
    0 < length && PlaceOf(n, length) == place && PassOf(n, length) == pass
  }

  lemma {:induction false} AlongPass(base: nat, length: nat, pass: nat, into: nat)
    requires StartsPass(base, length, pass) && into < length
    ensures Stands(base + into, length, pass, into)
    decreases base
  {
    if base >= length { AlongPass(base - length, length, pass - 1, into); }
  }

  /** The item a pass has reached is the plan's first just when no item of the pass has gone by since. */
  lemma ItemPlace(length: nat, first: nat, late: nat, base: nat, pass: nat, into: nat, from: nat, n: nat)
    requires Stands(from, length, first, late) && StartsPass(base, length, pass) && n == base + into
    requires into < length && first <= pass && LateIn(first, late, pass) <= into
    ensures from <= n && (n == from <==> pass == first && into == late)
    ensures Stands(n, length, pass, into)
  {
    AlongPass(base, length, pass, into);
    PlacesFill(n, length);
    PlacesFill(from, length);
    if pass > first {
      ScaleUp(pass - first, length);
      assert (pass - first) * length == pass * length - first * length;
    }
  }

  /** What an item carries, as the pass sees it. */
  lemma ItemCarries<V>(begin: bool, plan: seq<PlanEntry<V>>, base: nat, pass: nat, here: nat, into: nat, first: bool, n: nat)
    requires Ascending(plan) && here <= into && n == base + into
    requires first ==> into == here
    requires !first && into == here ==> into == 0
    ensures CursorAt(plan, here, into) <= Cursor(plan, into + 1)
    ensures ItemTags(begin, plan, pass, into, first, n) == NextTags(begin, plan, base, pass, here, into, into + 1)
  {
    FirstOfPass(plan);
    NextItem(plan, base, here, into, if first then UpTo(plan, into) else AtOffset(plan, into));
  }

  lemma ItemsStep<V>(begin: bool, plan: seq<PlanEntry<V>>, length: nat, first: nat, late: nat, base: nat, pass: nat,
                     into: nat, tags: seq<Tag<V>>)
    requires LateIn(first, late, pass) <= into
    requires CursorAt(plan, LateIn(first, late, pass), into) <= Cursor(plan, into + 1)
    requires tags == NextTags(begin, plan, base, pass, LateIn(first, late, pass), into, into + 1)
    ensures TagsSoFar(begin, plan, length, first, late, base, pass, into) + tags
         == TagsSoFar(begin, plan, length, first, late, base, pass, into + 1)
  {
    TagsGrow(begin, plan, length, first, late, base, pass, into, into + 1);
  }

  /** The tags so far, told pass by pass and told item by item. */
  ghost predicate Agree<V>(begin: bool, plan: seq<PlanEntry<V>>, length: nat, first: nat, late: nat,
                           base: nat, pass: nat, into: nat, from: nat, n: nat)
    requires 0 < length
  {
    TagsSoFar(begin, plan, length, first, late, base, pass, into) == ItemByItem(begin, plan, length, from, n)
  }

  lemma WithinPass<V>(begin: bool, plan: seq<PlanEntry<V>>, length: nat, first: nat, late: nat,
                      base: nat, pass: nat, into: nat, next: nat, from: nat, n: nat, to: nat)
    requires Ascending(plan) && LateIn(first, late, pass) <= into && n == base + into && 0 < length && from <= n
    requires next == into + 1 && to == n + 1
    requires Stands(n, length, pass, into) && (n == from <==> pass == first && into == late)
    requires Agree(begin, plan, length, first, late, base, pass, into, from, n)
    ensures Agree(begin, plan, length, first, late, base, pass, next, from, to)
  {
    var tags := ItemTags(begin, plan, pass, into, n == from, n);
    ItemCarries(begin, plan, base, pass, LateIn(first, late, pass), into, n == from, n);
    ItemsStep(begin, plan, length, first, late, base, pass, into, tags);
    NextByItem(begin, plan, length, from, n, tags);
  }

  lemma AtTheStart<V>(begin: bool, plan: seq<PlanEntry<V>>, length: nat, first: nat, late: nat,
                      base: nat, pass: nat, into: nat, from: nat, n: nat)
    requires 0 < length && pass == first && into == late && from == n
    ensures Agree(begin, plan, length, first, late, base, pass, into, from, n)
  {
    NothingSince(begin, plan, length, first, late, base);
  }

  lemma AcrossPass<V>(begin: bool, plan: seq<PlanEntry<V>>, length: nat, first: nat, late: nat,
                      start: nat, earlier: nat, base: nat, pass: nat, into: nat, from: nat, n: nat)
    requires 0 < length && first <= earlier && base == start + length && pass == earlier + 1 && into == 0
    requires Agree(begin, plan, length, first, late, start, earlier, length, from, n)
    ensures Agree(begin, plan, length, first, late, base, pass, into, from, n)
  {
    Rollover(begin, plan, length, first, late, start, earlier);
  }

  /**
   However passes, plan and calls cut the stream up: the tags due are those of each
   item in turn.
   */
  lemma {:induction false} TagsItemByItem<V>(begin: bool, plan: seq<PlanEntry<V>>, length: nat, first: nat, late: nat,
                                             base: nat, pass: nat, into: nat, from: nat, n: nat)
    requires Ascending(plan) && into <= length && first <= pass && LateIn(first, late, pass) <= into
    requires Stands(from, length, first, late) && StartsPass(base, length, pass) && n == base + into
    ensures Agree(begin, plan, length, first, late, base, pass, into, from, n)
    decreases pass, into
  {
    if into > LateIn(first, late, pass) {
      var before, k: nat := into - 1, n - 1;
      TagsItemByItem(begin, plan, length, first, late, base, pass, before, from, k);
      ItemPlace(length, first, late, base, pass, before, from, k);
      WithinPass(begin, plan, length, first, late, base, pass, before, into, from, k, n);
    } else if pass == first {
      ItemPlace(length, first, late, base, pass, into, from, n);
      AtTheStart(begin, plan, length, first, late, base, pass, into, from, n);
    } else {
      var start, earlier: nat := base - length, pass - 1;
      TagsItemByItem(begin, plan, length, first, late, start, earlier, length, from, n);
      AcrossPass(begin, plan, length, first, late, start, earlier, base, pass, into, from, n);
    }
  }

  /** The begin tags among some tags. */
  function Begins<V>(tags: seq<Tag<V>>): seq<Tag<V>> {
    if tags == [] then []
    else Begins(tags[..|tags| - 1]) + if tags[|tags| - 1].BeginTag? then [tags[|tags| - 1]] else []
  }

  lemma {:induction false} BeginsJoin<V>(a: seq<Tag<V>>, b: seq<Tag<V>>)
    ensures Begins(a + b) == Begins(a) + Begins(b)
  {
    if b == [] {
      assert a + b == a;
    } else {
      var last := |b| - 1;
      BeginsJoin(a, b[..last]);
      assert (a + b)[..|a + b| - 1] == a + b[..last];
    }
  }

  lemma {:induction false} MarkedIsData<V>(entries: seq<PlanEntry<V>>, n: nat)
    ensures Begins(Marked(entries, n)) == []
    ensures forall i :: 0 <= i < |Marked(entries, n)| ==> Marked(entries, n)[i].DataTag? && Marked(entries, n)[i].at == n
  {
    if entries != [] { MarkedIsData(entries[..|entries| - 1], n); }
  }

  /** The begin tags of one item. */
  lemma BeginOf<V>(begin: bool, plan: seq<PlanEntry<V>>, pass: nat, place: nat, first: bool, n: nat)
    ensures Begins(ItemTags(begin, plan, pass, place, first, n)) == if begin && place == 0 then [BeginTag(n, pass)] else []
  {
    var entries := if first then UpTo(plan, place) else AtOffset(plan, place);
    var opening: seq<Tag<V>> := if begin && place == 0 then [BeginTag(n, pass)] else [];
    BeginsJoin(opening, Marked(entries, n));
    MarkedIsData(entries, n);
    assert Begins(opening) == opening;
  }

  function PassBegins<V>(length: nat, passes: nat): (tags: seq<Tag<V>>)
    ensures |tags| == passes && forall p :: 0 <= p < passes ==> tags[p] == BeginTag(p * length, p)
  {
    if passes == 0 then [] else PassBegins(length, passes - 1) + [BeginTag((passes - 1) * length, passes - 1)]
  }

  /** The passes begun among the first n items. */
  function Begun(n: nat, length: nat): (passes: nat)
    requires 0 < length
    ensures n == 0 ==> passes == 0
  {
    if n == 0 then 0 else PassOf(n - 1, length) + 1
  }

  lemma BegunNext(n: nat, length: nat)
    requires 0 < length
    ensures Begun(n + 1, length) == Begun(n, length) + if PlaceOf(n, length) == 0 then 1 else 0
    ensures PlaceOf(n, length) == 0 ==> n == Begun(n, length) * length && PassOf(n, length) == Begun(n, length)
  {
    var pass, place := PassOf(n, length), PlaceOf(n, length);
    PlacesFill(n, length);
    if n > 0 {
      if place > 0 {
        PlaceIs(n - 1, length, pass, place - 1);
      } else {
        OneMore(pass - 1, length);
        PlaceIs(n - 1, length, pass - 1, length - 1);
      }
    }
  }

  /** One begin tag for each pass begun: its place the pass's first item, its value the pass. */
  lemma {:induction false} BeginTags<V>(begin: bool, plan: seq<PlanEntry<V>>, length: nat, n: nat)
    requires 0 < length
    ensures Begins(ItemByItem(begin, plan, length, 0, n)) == if begin then PassBegins(length, Begun(n, length)) else []
  {
    if n > 0 {
      var k := n - 1;
      var tags := ItemTags(begin, plan, PassOf(k, length), PlaceOf(k, length), k == 0, k);
      BeginTags(begin, plan, length, k);
      BegunNext(k, length);
      BeginOf(begin, plan, PassOf(k, length), PlaceOf(k, length), k == 0, k);
      NextByItem(begin, plan, length, 0, k, tags);
      BeginsJoin(ItemByItem(begin, plan, length, 0, k), tags);
    }
  }

  /** Those are the passes whose first item is among the n. */
  lemma BegunIff(n: nat, length: nat, p: nat)
    requires 0 < length
    ensures p < Begun(n, length) <==> p * length < n
  {
    if n > 0 {
      var pass, place := PassOf(n - 1, length), PlaceOf(n - 1, length);
      PlacesFill(n - 1, length);
      if p <= pass {
        ScaleDown(pass - p, length);
        assert (pass - p) * length == pass * length - p * length;
      } else {
        ScaleUp(p - pass, length);
        assert (p - pass) * length == p * length - pass * length;
      }
    }
  }

  /** Tags in stream order, each begin tag before every tag of its item. */
  ghost predicate InStreamOrder<V>(tags: seq<Tag<V>>) {
    forall i, j :: 0 <= i < j < |tags| ==> tags[i].at <= tags[j].at && (tags[j].BeginTag? ==> tags[i].at < tags[j].at)
  }

  ghost predicate AllBefore<V>(tags: seq<Tag<V>>, n: nat) {
    forall i :: 0 <= i < |tags| ==> tags[i].at < n
  }

  /** Tags of one item, a begin tag at most the first. */
  ghost predicate OnItem<V>(tags: seq<Tag<V>>, n: nat) {
    forall i :: 0 <= i < |tags| ==> tags[i].at == n && (tags[i].BeginTag? ==> i == 0)
  }

  lemma ItemOrdered<V>(begin: bool, plan: seq<PlanEntry<V>>, pass: nat, place: nat, first: bool, n: nat)
    ensures OnItem(ItemTags(begin, plan, pass, place, first, n), n)
  {
    MarkedIsData(if first then UpTo(plan, place) else AtOffset(plan, place), n);
  }

  lemma OrderedJoin<V>(a: seq<Tag<V>>, b: seq<Tag<V>>, n: nat)
    requires InStreamOrder(a) && AllBefore(a, n) && OnItem(b, n)
    ensures InStreamOrder(a + b) && AllBefore(a + b, n + 1)
  {
  }

  lemma {:induction false} StreamOrdered<V>(begin: bool, plan: seq<PlanEntry<V>>, length: nat, from: nat, to: nat)
    requires 0 < length
    ensures InStreamOrder(ItemByItem(begin, plan, length, from, to))
    ensures AllBefore(ItemByItem(begin, plan, length, from, to), to)
  {
    if from < to {
      var n := to - 1;
      var tags := ItemTags(begin, plan, PassOf(n, length), PlaceOf(n, length), n == from, n);
      StreamOrdered(begin, plan, length, from, n);
      ItemOrdered(begin, plan, PassOf(n, length), PlaceOf(n, length), n == from, n);
      NextByItem(begin, plan, length, from, n, tags);
      OrderedJoin(ItemByItem(begin, plan, length, from, n), tags, n);
    }
  }

  /** The plan entries work() tags before it copies the next `take` items. */
  method DueEntries<V>(plan: seq<PlanEntry<V>>, into: nat, take: nat, from: nat, at: nat, ghost base: nat, ghost late: nat)
    returns (due: seq<Tag<V>>, cursor: nat)
    requires Ascending(plan) && 0 < take && at == base + into
    requires late <= into && from == CursorAt(plan, late, into)
    ensures from <= cursor == Cursor(plan, into + take)
    ensures due == Replayed(plan, base, late, from, cursor)
  {
    CursorSplits(plan, into);
    due, cursor := [], from;
    while cursor < |plan| && plan[cursor].offset < into + take
      invariant from <= cursor <= |plan|
      invariant cursor > 0 ==> plan[cursor - 1].offset < into + take
      invariant due == Replayed(plan, base, late, from, cursor)
      decreases |plan| - cursor
    {
      var entry := plan[cursor];
      var within := if entry.offset > into then entry.offset - into else 0;
      due := due + [DataTag(at + within, entry.key, entry.value)];
      cursor := cursor + 1;
    }
    CursorIs(plan, into + take, cursor);
  }

  /** With the begin tag, when these are the first items of a pass. */
  method DueTags<V>(begin: bool, plan: seq<PlanEntry<V>>, into: nat, take: nat, from: nat, pass: nat,
                    at: nat, ghost base: nat, ghost late: nat)
    returns (due: seq<Tag<V>>, cursor: nat)
    requires Ascending(plan) && 0 < take && at == base + into
    requires late <= into && from == CursorAt(plan, late, into)
    ensures from <= cursor == Cursor(plan, into + take)
    ensures due == NextTags(begin, plan, base, pass, late, into, into + take)
  {
    var opening := if into == 0 && begin then [BeginTag(at, pass)] else [];
    due, cursor := DueEntries(plan, into, take, from, at, base, late);
    due := opening + due;
  }

  // ---- the block --------------------------------------------------------------------

  datatype Progress = Progress(position: nat, passes: nat)

  /** Where work() stands in the file, and the tags it has attached on the way. */
  class PassCounter<V> {
    const length: nat            // items in one pass
    const begin: bool            // a begin tag was asked for
    var plan: seq<PlanEntry<V>>
    var itemsIntoPass: nat
    var repeatCount: nat
    var tagCursor: nat
    var published: nat           // the counter progress() reads
    ghost var passStart: nat     // the stream offset of the current pass
    ghost var tags: seq<Tag<V>>  // every add_item_tag so far
    ghost var planPass: nat      // the pass the plan was set in,
    ghost var planInto: nat      // how far into it that was,
    ghost var earlier: seq<Tag<V>>  // and the tags out by then

    ghost predicate Valid()
      reads this
    {
      && 0 < length && Ascending(plan)
      && itemsIntoPass < length
      && passStart == repeatCount * length
      && published == passStart + itemsIntoPass
      && planPass <= repeatCount && planInto < length && Late() <= itemsIntoPass
      && tagCursor == CursorAt(plan, Late(), itemsIntoPass)
      && tags == earlier + TagsSoFar(begin, plan, length, planPass, planInto, passStart, repeatCount, itemsIntoPass)
    }

    /** How far into the current pass the plan was set, if it was set in it. */
    ghost function Late(): nat
      reads this
    {
      LateIn(planPass, planInto, repeatCount)
    }

    /** How many items were out when the plan was set. */
    ghost function PlanSince(): nat
      reads this
    {
      planPass * length + planInto
    }

    constructor (length: nat, begin: bool)
      requires 0 < length
      ensures Valid() && published == PlanSince() == 0 && plan == [] && tags == earlier == []
      ensures this.length == length && this.begin == begin
    {
      this.length, this.begin := length, begin;
      plan := [];
      itemsIntoPass, repeatCount, tagCursor, published := 0, 0, 0, 0;
      passStart, tags, planPass, planInto, earlier := 0, [], 0, 0, [];
    }

    /** set_tag_plan(), at any time: the new plan counts from the items to come. */
    method SetTagPlan(entries: seq<PlanEntry<V>>)
      requires Valid()
      modifies this`plan, this`tagCursor, this`planPass, this`planInto, this`earlier
      ensures Valid() && plan == StableSorted(entries)
      ensures PlanSince() == published && earlier == tags
    {
      StableSortedIsStable(entries, 0);
      plan := StableSorted(entries);
      tagCursor := 0;
      planPass, planInto, earlier := repeatCount, itemsIntoPass, tags;
      NothingSince(begin, plan, length, repeatCount, itemsIntoPass, passStart);
    }

    /** Where in the file this is, and how many passes are complete. */
    function Position(): (p: Progress)
      requires 0 < length
      reads this
    {
      var position, passes := published % length, published / length;
      if published != 0 && position == 0 then Progress(length, passes - 1)
      else Progress(position, passes)
    }

    /**
     progress() recovers from one counter what work() tracks, reading a boundary
     as the end of the pass that just finished.
     */
    lemma ProgressTracksWork()
      requires Valid()
      ensures var p := Position();
        && p.passes * length + p.position == published
        && (published == 0 ==> p == Progress(0, 0))
        && (published > 0 && itemsIntoPass == 0 ==> p == Progress(length, repeatCount - 1))
        && (itemsIntoPass > 0 ==> p == Progress(itemsIntoPass, repeatCount))
    {
      ModUnique(published, length, repeatCount, itemsIntoPass);
    }

    /** Whatever calls produced the items, exactly the tags due since the plan was set have been added. */
    lemma TagsAreDue()
      requires Valid()
      ensures tags == earlier + ItemByItem(begin, plan, length, PlanSince(), published)
    {
      PlaceIs(PlanSince(), length, planPass, planInto);
      PlaceIs(passStart, length, repeatCount, 0);
      TagsItemByItem(begin, plan, length, planPass, planInto, passStart, repeatCount, itemsIntoPass, PlanSince(), published);
    }

    /** The plan in use, and what was out when it was set, are as before. */
    twostate predicate SamePlan()
      reads this
    {
      && plan == old(plan) && planPass == old(planPass) && planInto == old(planInto)
      && earlier == old(earlier)
    }

    /** The boundary after a pass's last item. */
    method EndPass()
      requires 0 < length && Ascending(plan) && passStart == repeatCount * length
      requires published == passStart + length && planPass <= repeatCount && planInto < length
      requires tags == earlier + TagsSoFar(begin, plan, length, planPass, planInto, passStart, repeatCount, length)
      modifies this`itemsIntoPass, this`tagCursor, this`repeatCount, this`passStart
      ensures Valid()
    {
      Rollover(begin, plan, length, planPass, planInto, passStart, repeatCount);
      OneMore(repeatCount, length);
      itemsIntoPass, tagCursor := 0, 0;
      passStart, repeatCount := passStart + length, repeatCount + 1;
    }

    /** Tags and counters for the next `take` items of the pass. */
    method Count(take: nat, at: nat)
      requires Valid() && 0 < take <= length - itemsIntoPass && at == published
      modifies this
      ensures Valid() && published == old(published) + take
      ensures SamePlan()
    {
      var next := itemsIntoPass + take;
      var due, cursor := DueTags(begin, plan, itemsIntoPass, take, tagCursor, repeatCount, at, passStart, Late());
      TagsGrow(begin, plan, length, planPass, planInto, passStart, repeatCount, itemsIntoPass, next);
      Regroup(earlier, TagsSoFar(begin, plan, length, planPass, planInto, passStart, repeatCount, itemsIntoPass), due);
      tags := tags + due;
      published := published + take;
      if next == length {
        EndPass();
      } else {
        itemsIntoPass, tagCursor := next, cursor;
      }
    }
  }

  /** What a call does with nothing in the ring. */
  function WhenEmpty(state: State, produced: nat): (r: Outcome)
    ensures r.Thrown? <==> state == Error
    ensures r.WorkDone? <==> (state == EofReached || state == Cancelled) && produced == 0
    ensures r.Waiting? <==> state == Initial || state == Running
    ensures r.Returned? ==> r.items == produced
  {
    match state
    case Error => Thrown
    case EofReached | Cancelled => if produced > 0 then Returned(produced) else WorkDone
    case Initial | Running => Waiting
  }

  lemma SentJoins<T>(first: seq<T>, out: seq<T>, all: seq<T>, before: nat, so: seq<T>, sent: seq<T>)
    requires before <= |all| && all[..before] == out
    requires so == first + out && sent == so + all[before..]
    ensures sent == first + all
  {
    assert out + all[before..] == all;
  }

  class BrowserFileSource<T(0), V> {
    const ring: Buffer<T>
    const counter: PassCounter<V>
    ghost var sent: seq<T>       // every item output so far

    ghost predicate Valid()
      reads this, ring, ring.slots, counter
    {
      && ring.Valid() && counter.Valid()
      && counter.published == ring.taken
      && sent == ring.written[..ring.taken]
    }

    constructor (capacity: nat, length: nat, begin: bool)
      requires 2 <= capacity && 0 < length
      ensures Valid() && fresh(ring) && fresh(ring.slots) && fresh(counter)
      ensures counter.length == length && counter.begin == begin && sent == []
    {
      ring := new Buffer(capacity);
      counter := new PassCounter(length, begin);
      sent := [];
    }

    /** The reader's side, between two passes of work()'s loop. */
    method Receive(batch: seq<T>)
      requires Valid()
      modifies ring, ring.slots
      ensures Valid() && old(ring.written) <= ring.written && ring.taken == old(ring.taken)
    {
      ring.Deliver(batch);
    }

    /** One pass of work()'s loop over the items now available. */
    method Produce(output: array<T>, produced: nat, at: nat) returns (filled: nat)
      requires Valid() && output != ring.slots
      requires 0 < ring.Occupied() && produced < output.Length && at == counter.published
      modifies this, ring, counter, output
      ensures Valid() && ring.written == old(ring.written)
      ensures counter.SamePlan()
      ensures produced < filled <= output.Length
      ensures counter.published == old(counter.published) + filled - produced
      ensures output[..produced] == old(output[..produced])
      ensures sent == old(sent) + output[produced..filled]
    {
      var take := Min(Min(ring.Occupied(), output.Length - produced),
                      Min(counter.length - counter.itemsIntoPass, ring.slots.Length - ring.readPos));
      counter.Count(take, at);
      var block := ring.Take(take);
      CopyOut(block, output, produced);
      filled := produced + take;
      sent := sent + block;
    }

    /** One look, and one pass of the loop if it finds anything. */
    method Pass(output: array<T>, produced: nat, at: nat, look: Look<T>) returns (r: Outcome, filled: nat)
      requires Valid() && output != ring.slots
      requires produced < output.Length && at == counter.published
      modifies this, ring, ring.slots, counter, output
      ensures Valid() && old(ring.written) <= ring.written && counter.SamePlan()
      ensures produced <= filled <= output.Length
      ensures counter.published == old(counter.published) + filled - produced
      ensures output[..produced] == old(output[..produced])
      ensures sent == old(sent) + output[produced..filled]
      ensures if |ring.written| == old(ring.taken)
              then r == WhenEmpty(look.state, produced) && filled == produced
              else r == Waiting && produced < filled
    {
      Receive(look.batch);
      if ring.Occupied() == 0 {
        r, filled := WhenEmpty(look.state, produced), produced;
      } else {
        filled := Produce(output, produced, at);
        r := Waiting;
      }
    }

    /**
     work(): whatever the call sizes and ring chunks, the output is the ring's
     stream and the tags are exactly those due after the items produced.
     `nitemsWritten` is the scheduler's count of items returned so far.
     */
    method Work(output: array<T>, nitemsWritten: nat, looks: seq<Look<T>>) returns (r: Outcome, produced: nat)
      requires Valid() && output != ring.slots && nitemsWritten == counter.published
      modifies this, ring, ring.slots, counter, output
      ensures Valid() && old(ring.written) <= ring.written
      ensures produced <= output.Length && counter.published == old(counter.published) + produced
      ensures sent == old(sent) + output[..produced] == ring.written[..ring.taken]
      ensures counter.SamePlan()
      ensures counter.tags == counter.earlier
        + ItemByItem(counter.begin, counter.plan, counter.length, counter.PlanSince(), counter.published)
      ensures r.Returned? ==> r.items == produced
      ensures r.WorkDone? ==> produced == 0
    {
      produced := 0;
      r := Waiting;
      var i := 0;
      while produced < output.Length && i < |looks|
        invariant Valid() && r == Waiting && old(ring.written) <= ring.written
        invariant produced <= output.Length
        invariant counter.published == old(counter.published) + produced && counter.SamePlan()
        invariant sent == old(sent) + output[..produced]
        decreases |looks| - i
      {
        ghost var before, out, so := produced, output[..produced], sent;
        r, produced := Pass(output, produced, nitemsWritten + produced, looks[i]);
        SentJoins(old(sent), out, output[..produced], before, so, sent);
        i := i + 1;
        if !r.Waiting? { break; }
      }
      if produced == output.Length { r := Returned(produced); }
      counter.TagsAreDue();
    }
  }
}
