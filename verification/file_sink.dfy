/**
 The file sink and the SigMF sink over it: a producer that blocks rather than
 drops, and the metadata folded from the tags on exactly the items it accepted.
 */
module FileSink {
  import opened Ring
  import opened RingBuffer
  import opened SinkProtocol
  import Json
  import MM = MetaModel
  import MB = MetaBuilders
  import SigmfJson

  /** Items the writer drains, and the state word, at one pass of work()'s loop. */
  datatype Look = Look(drained: nat, state: State)

  datatype Outcome = Returned(items: nat) | WorkDone | Thrown | Waiting

  // ---- the tags on a stretch of the stream ------------------------------------------

  /** The scheduler keeps a stream's tags in offset order. */
  ghost predicate InOrder(tags: seq<MM.Tag>) {
    |tags| < 2 || (tags[0].offset <= tags[1].offset && InOrder(tags[1..]))
  }

  /** get_tags_in_range(): the tags from one offset up to another, in stream order. */
  function TagsIn(tags: seq<MM.Tag>, from: nat, to: nat): (found: seq<MM.Tag>)
    ensures forall t :: t in found <==> t in tags && from <= t.offset < to
  {
    if tags == [] then []
    else if from <= tags[0].offset < to then [tags[0]] + TagsIn(tags[1..], from, to)
    else TagsIn(tags[1..], from, to)
  }

  lemma {:induction false} NothingBefore(tags: seq<MM.Tag>, from: nat, to: nat)
    requires InOrder(tags) && (tags == [] || to <= tags[0].offset)
    ensures TagsIn(tags, from, to) == []
  {
    if tags != [] { NothingBefore(tags[1..], from, to); }
  }

  /** Adjoining stretches hold each tag once, and in order. */
  lemma {:induction false} StretchesJoin(tags: seq<MM.Tag>, from: nat, mid: nat, to: nat)
    requires InOrder(tags) && from <= mid <= to
    ensures TagsIn(tags, from, mid) + TagsIn(tags, mid, to) == TagsIn(tags, from, to)
  {
    if tags != [] {
      StretchesJoin(tags[1..], from, mid, to);
      if mid <= tags[0].offset {
        NothingBefore(tags, from, mid);
        NothingBefore(tags[1..], from, mid);
      }
    }
  }

  /** A window past the last tag holds them all, each as often as it was there. */
  lemma {:induction false} AllTags(tags: seq<MM.Tag>, to: nat)
    requires forall t :: t in tags ==> t.offset < to
    ensures TagsIn(tags, 0, to) == tags
  {
    if tags != [] {
      assert tags[0] in tags;
      AllTags(tags[1..], to);
    }
  }

  lemma SampleOf(offset: nat, itemsPerSample: nat)
    requires 0 < itemsPerSample
    ensures offset / itemsPerSample * itemsPerSample <= offset
    ensures offset < offset / itemsPerSample * itemsPerSample + itemsPerSample
  {
  }

  /** A tag's offset in samples. */
  function InSamples(tag: MM.Tag, itemsPerSample: nat): (scaled: MM.Tag)
    requires 0 < itemsPerSample
    ensures scaled.key == tag.key && scaled.value == tag.value
    ensures scaled.offset * itemsPerSample <= tag.offset < scaled.offset * itemsPerSample + itemsPerSample
  {
    SampleOf(tag.offset, itemsPerSample);
    tag.(offset := tag.offset / itemsPerSample)
  }

  function AllInSamples(tags: seq<MM.Tag>, itemsPerSample: nat): (scaled: seq<MM.Tag>)
    requires 0 < itemsPerSample
    ensures |scaled| == |tags|
    ensures forall i :: 0 <= i < |tags| ==> scaled[i] == InSamples(tags[i], itemsPerSample)
  {
    if tags == [] then []
    else AllInSamples(tags[..|tags| - 1], itemsPerSample) + [InSamples(tags[|tags| - 1], itemsPerSample)]
  }

  lemma {:induction false} SamplesJoin(a: seq<MM.Tag>, b: seq<MM.Tag>, itemsPerSample: nat)
    requires 0 < itemsPerSample
    ensures AllInSamples(a + b, itemsPerSample)
         == AllInSamples(a, itemsPerSample) + AllInSamples(b, itemsPerSample)
  {
    if b == [] {
      assert a + b == a;
    } else {
      SamplesJoin(a, b[..|b| - 1], itemsPerSample);
      assert (a + b)[..|a + b| - 1] == a + b[..|b| - 1];
    }
  }

  /** What the tags before an item offset make of the metadata. */
  function Recorded(start: MM.Doc, tags: seq<MM.Tag>, items: nat, itemsPerSample: nat,
                    stray: SigmfJson.Double -> nat): MM.Doc
    requires 0 < itemsPerSample
  {
    MM.FoldedAll(start, AllInSamples(TagsIn(tags, 0, items), itemsPerSample), stray)
  }

  lemma RecordedGrows(start: MM.Doc, tags: seq<MM.Tag>, items: nat, count: nat, itemsPerSample: nat,
                      stray: SigmfJson.Double -> nat)
    requires 0 < itemsPerSample && InOrder(tags)
    ensures Recorded(start, tags, items + count, itemsPerSample, stray)
         == MM.FoldedAll(Recorded(start, tags, items, itemsPerSample, stray),
                         AllInSamples(TagsIn(tags, items, items + count), itemsPerSample), stray)
  {
    var before, here := TagsIn(tags, 0, items), TagsIn(tags, items, items + count);
    StretchesJoin(tags, 0, items, items + count);
    SamplesJoin(before, here, itemsPerSample);
    MM.FoldedAppend(start, AllInSamples(before, itemsPerSample), AllInSamples(here, itemsPerSample), stray);
  }

  lemma FoldedOne(doc: MM.Doc, tags: seq<MM.Tag>, i: nat, itemsPerSample: nat, stray: SigmfJson.Double -> nat)
    requires 0 < itemsPerSample && i < |tags|
    ensures MM.FoldedAll(doc, AllInSamples(tags[..i + 1], itemsPerSample), stray)
         == MM.Folded(MM.FoldedAll(doc, AllInSamples(tags[..i], itemsPerSample), stray),
                      InSamples(tags[i], itemsPerSample), stray)
  {
    var here := tags[..i + 1];
    assert here[..i] == tags[..i];
    var scaled := AllInSamples(here, itemsPerSample);
    assert scaled[..i] == AllInSamples(tags[..i], itemsPerSample);
  }

  // ---- the base block ------------------------------------------------------------------

  class BrowserFileSink<T(0)> {
    const ring: Buffer<T>
    var itemsWritten: nat
    ghost var accepted: seq<T>   // every item copied into the ring
    ghost var file: seq<T>       // what the writer has taken

    ghost predicate Valid()
      reads this, ring, ring.slots
    {
      && ring.Valid()
      && ring.written == accepted
      && file == accepted[..ring.taken]
      && itemsWritten <= |accepted|
    }

    constructor (capacity: nat)
      requires 2 <= capacity
      ensures Valid() && fresh(ring) && fresh(ring.slots)
      ensures itemsWritten == 0 && accepted == []
    {
      ring := new Buffer(capacity);
      itemsWritten, accepted, file := 0, [], [];
    }

    /** The writer's side, between two passes of the loop. */
    method Listen(items: nat)
      requires Valid()
      modifies this`file, ring
      ensures Valid() && ring.written == old(ring.written)
    {
      var block := ring.Drain(items);
      file := file + block;
    }

    /** One block copy into the ring. */
    method Accept(rest: seq<T>) returns (take: nat)
      requires Valid() && rest != [] && 0 < ring.Free()
      modifies this`accepted, ring, ring.slots
      ensures Valid() && 0 < take <= |rest| && accepted == old(accepted) + rest[..take]
    {
      take := Min(Min(ring.Free(), |rest|), ring.slots.Length - ring.writePos);
      ring.Put(rest[..take]);
      accepted := accepted + rest[..take];
    }

    /** work()'s loop: every item is accepted, in order, unless the writer is gone. */
    method Fill(input: seq<T>, looks: seq<Look>) returns (r: Outcome, consumed: nat)
      requires Valid()
      modifies this`accepted, this`file, ring, ring.slots
      ensures Valid() && consumed <= |input| && accepted == old(accepted) + input[..consumed]
      ensures r.Returned? ==> r.items == consumed
      ensures !r.WorkDone?
      ensures (forall i :: 0 <= i < |looks| ==> looks[i].state == Initial || looks[i].state == Running) && r.Returned? ==>
        consumed == |input|
      ensures r.Thrown? ==> exists i :: 0 <= i < |looks| && looks[i].state == Error
    {
      consumed := 0;
      r := Waiting;
      var i := 0;
      while consumed < |input| && i < |looks|
        invariant Valid() && consumed <= |input| && accepted == old(accepted) + input[..consumed]
        decreases |looks| - i
      {
        var look := looks[i];
        i := i + 1;
        Listen(look.drained);
        if look.state == Error { r := Thrown; return; }
        if look.state == Cancelled || look.state == Closed { r := Returned(consumed); return; }
        if ring.Free() > 0 {
          var take := Accept(input[consumed..]);
          assert input[..consumed] + input[consumed..][..take] == input[..consumed + take];
          consumed := consumed + take;
        }
      }
      if consumed == |input| { r := Returned(consumed); }
    }

    method CountWritten(items: nat)
      requires Valid() && itemsWritten + items <= |accepted|
      modifies this`itemsWritten
      ensures Valid() && itemsWritten == old(itemsWritten) + items
    {
      itemsWritten := itemsWritten + items;
    }
  }

  // ---- the SigMF sink --------------------------------------------------------------------

  class SigmfSink<T(0)> {
    const sink: BrowserFileSink<T>
    const meta: MB.MetaBuilder
    const itemsPerSample: nat
    const annotateTags: bool
    const tags: seq<MM.Tag>      // what the input stream carries, in offset order
    ghost const start: MM.Doc    // the metadata before any tag

    ghost predicate Valid()
      reads this, sink, sink.ring, sink.ring.slots, meta
    {
      sink.Valid() && meta.Valid() && 0 < itemsPerSample && InOrder(tags)
    }

    /** No call is under way: every accepted item is counted and its tags folded once. */
    ghost predicate Settled()
      reads this, sink, sink.ring, sink.ring.slots, meta
    {
      && Valid()
      && sink.itemsWritten == |sink.accepted|
      && meta.Contents() == Due(sink.itemsWritten)
    }

    /** The metadata due once so many items are counted. */
    ghost function Due(items: nat): MM.Doc
      requires 0 < itemsPerSample
    {
      if annotateTags then Recorded(start, tags, items, itemsPerSample, meta.stray) else start
    }

    constructor (capacity: nat, itemsPerSample: nat, info: MB.Info, annotateTags: bool,
                 tags: seq<MM.Tag>, stray: SigmfJson.Double -> nat)
      requires 2 <= capacity && InOrder(tags)
      ensures Settled() && fresh(sink) && fresh(sink.ring) && fresh(sink.ring.slots) && fresh(meta)
      ensures sink.accepted == [] && meta.info == info && meta.stray == stray && this.tags == tags
      ensures start == MB.Initial(info) && this.annotateTags == annotateTags
      ensures this.itemsPerSample == if itemsPerSample == 0 then 1 else itemsPerSample
    {
      sink := new BrowserFileSink(capacity);
      meta := new MB.MetaBuilder(info, stray);
      this.itemsPerSample := if itemsPerSample == 0 then 1 else itemsPerSample;
      this.annotateTags, this.tags, this.start := annotateTags, tags, MB.Initial(info);
      new;
      NothingYet(tags);
    }

    /** on_written(): the tags on one accepted stretch. */
    method OnWritten(from: nat, count: nat) returns (thrown: bool)
      requires meta.Valid() && 0 < itemsPerSample && annotateTags
      modifies meta`captures, meta`annotations, meta`overflowed
      ensures meta.Valid()
      ensures !thrown ==>
        meta.Contents() == MM.FoldedAll(old(meta.Contents()),
                                        AllInSamples(TagsIn(tags, from, from + count), itemsPerSample), meta.stray)
    {
      var found := TagsIn(tags, from, from + count);
      thrown := false;
      for i := 0 to |found|
        invariant meta.Valid() && !thrown
        invariant meta.Contents()
               == MM.FoldedAll(old(meta.Contents()), AllInSamples(found[..i], itemsPerSample), meta.stray)
      {
        FoldedOne(old(meta.Contents()), found, i, itemsPerSample, meta.stray);
        thrown := meta.AddTag(InSamples(found[i], itemsPerSample));
        if thrown { return; }
      }
      assert found[..|found|] == found;
    }

    /** The tags of the stretch that follows what is folded already. */
    method FoldStretch(from: nat, count: nat) returns (thrown: bool)
      requires Valid() && meta.Contents() == Due(from)
      modifies meta`captures, meta`annotations, meta`overflowed
      ensures Valid()
      ensures !thrown ==> meta.Contents() == Due(from + count)
    {
      thrown := false;
      if annotateTags {
        RecordedGrows(start, tags, from, count, itemsPerSample, meta.stray);
        thrown := OnWritten(from, count);
      }
    }

    /** The stretch just accepted: its tags folded, its items counted. */
    method Record(from: nat, count: nat) returns (thrown: bool)
      requires Valid() && from == sink.itemsWritten && from + count == |sink.accepted|
      requires meta.Contents() == Due(from)
      modifies sink`itemsWritten, meta`captures, meta`annotations, meta`overflowed
      ensures Valid()
      ensures !thrown ==> Settled()
    {
      thrown := FoldStretch(from, count);
      if !thrown { CountStretch(count); }
    }

    /** Counting the items whose tags are folded settles the sink. */
    method CountStretch(count: nat)
      requires Valid() && sink.itemsWritten + count == |sink.accepted|
      requires meta.Contents() == Due(|sink.accepted|)
      modifies sink`itemsWritten
      ensures Settled() && meta.Contents() == old(meta.Contents())
    {
      sink.CountWritten(count);
    }

    /**
     work(): the windows handed to on_written tile the accepted stream, so that
     between calls each tag on it has been folded exactly once, at its sample.
     */
    method Work(input: seq<T>, nitemsRead: nat, looks: seq<Look>) returns (r: Outcome, consumed: nat)
      requires Settled() && nitemsRead == sink.itemsWritten
      modifies sink, sink.ring, sink.ring.slots, meta`captures, meta`annotations, meta`overflowed
      ensures Valid()
      ensures consumed <= |input| && sink.accepted == old(sink.accepted) + input[..consumed]
      ensures r.Returned? || r.WorkDone? ==> Settled()
      ensures r.Returned? ==> r.items == consumed && 0 < consumed
      ensures r.WorkDone? ==> consumed == 0
    {
      r, consumed := sink.Fill(input, looks);
      assert meta.Contents() == Due(sink.itemsWritten);
      if r.Returned? {
        if consumed == 0 { return WorkDone, 0; }
        var thrown := Record(nitemsRead, consumed);
        if thrown { r := Thrown; }
      }
    }

    /**
     finish_payload(): the metadata of a recording between calls is a JSON text
     that says what the tags on its items say, and how many samples it holds.
     */
    method FinishPayload() returns (payload: string)
      requires Settled()
      modifies meta`samples
      ensures meta.Contents() == old(meta.Contents())
      ensures Json.Parse(payload)
           == if MB.DocUtf8(meta.info, Due(|sink.accepted|))
              then Json.Got(MB.DocumentValue(meta.info, Due(|sink.accepted|), |sink.accepted| / itemsPerSample), "")
              else Json.Stop
    {
      meta.SetSampleCount(sink.itemsWritten / itemsPerSample);
      payload := meta.Document();
    }
  }

  lemma NothingYet(tags: seq<MM.Tag>)
    ensures TagsIn(tags, 0, 0) == []
  {
  }
}
