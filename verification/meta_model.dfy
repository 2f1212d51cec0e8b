/**
 What a run of stream tags means as SigMF captures and annotations: the fold
 that MetaBuilder in sigmf_tags.hpp performs, and the run's meaning stated
 without it.
 */
module MetaModel {
  import opened Json
  import opened JsonText
  import opened OrderedMap
  import opened Wrappers
  import opened SigmfJson
  import Timestamp

  const TAG_CAPTURE := "sigmf:capture"
  const TAG_ANNOTATION := "sigmf:annotation"
  const TAG_RX_FREQ := "rx_freq"
  const TAG_RX_RATE := "rx_rate"
  const TAG_RX_TIME := "rx_time"

  const CORE := "core:"
  const CORE_SAMPLE := CORE + "sample_"
  const KEY_SAMPLE_START := CORE_SAMPLE + "start"
  const KEY_SAMPLE_COUNT := CORE_SAMPLE + "count"
  const KEY_FREQUENCY := "core:frequency"
  const KEY_DATETIME := "core:datetime"
  const KEY_LABEL := CORE + "label"
  const KEY_TAG_VALUE := "gnuradio:value"

  const MAX_ANNOTATIONS: nat := 100000

  /** A SigMF obj: key to already-encoded JSON text. */
  type Members = seq<(string, string)>

  datatype Tag = Tag(offset: nat, key: Pmt, value: Pmt)

  datatype Doc = Doc(captures: seq<(nat, Members)>, annotations: seq<Members>, overflowed: bool)

  // ---- reading a tag's value ----------------------------------------------------------

  /** pmt::is_number() */
  predicate IsNumeric(v: Pmt) {
    v.UInt64? || v.Integer? || v.Real? || v.Complex?
  }

  /** pmt::to_double(), which throws on a complex number. */
  function ToDouble(v: Pmt): Option<Double> {
    match v
    case UInt64(_, near) => Some(near)
    case Integer(_, near) => Some(near)
    case Real(x) => Some(x)
    case _ => None
  }

  /**
   A double cast to an unsigned 64-bit integer.  The language leaves the cast of a
   value that does not fit open, so it is given as `stray`.
   */
  function ToUnsigned(d: Double, stray: Double -> nat): nat {
    if d.Finite? && -1.0 < d.value < 18446744073709551616.0 then
      if d.value < 0.0 then 0 else d.value.Floor
    else stray(d)
  }

  /** A fraction that is no number at all counts as none. */
  function FractionOf(d: Double): real {
    if d.Finite? then d.value else 0.0
  }

  /** datetime_from_rx_time(); nothing when a conversion throws. */
  function RxTimeStamp(value: Pmt, stray: Double -> nat): Option<string> {
    match value
    case Pair(secs, frac) =>
      if !IsNumeric(secs) then Some("")
      else if ToDouble(secs).None? || (IsNumeric(frac) && ToDouble(frac).None?) then None
      else Some(Timestamp.FromEpoch(ToUnsigned(ToDouble(secs).value, stray),
                                    if IsNumeric(frac) then FractionOf(ToDouble(frac).value) else 0.0))
    case _ =>
      if !IsNumeric(value) then Some("")
      else match ToDouble(value)
        case None => None
        case Some(Finite(x, text)) =>
          if x < 0.0 then Some("")
          else Some(Timestamp.FromEpoch(ToUnsigned(Finite(x, text), stray), x - x.Floor as real))
        case Some(d) =>
          if d == Infinite(true) then Some("") else Some(Timestamp.FromEpoch(ToUnsigned(d, stray), 0.0))
  }

  // ---- one tag ----------------------------------------------------------------------------

  datatype Kind = Unused | OfCapture | OfAnnotation

  /** What a tag's key makes of it. */
  function KindOf(key: Pmt): Kind {
    if !key.Symbol? || key.name == TAG_RX_RATE then Unused
    else if key.name == TAG_CAPTURE || key.name == TAG_RX_FREQ || key.name == TAG_RX_TIME then OfCapture
    else OfAnnotation
  }

  /** The names, spelt out. */
  lemma KindByName(name: string)
    ensures KindOf(Symbol(name)) == OfCapture <==> name in {"sigmf:capture", "rx_freq", "rx_time"}
    ensures KindOf(Symbol(name)) == Unused <==> name == "rx_rate"
  {
  }

  /** merge_dict(): the members of a dictionary written over the object's own. */
  function Merged(into: Members, value: Pmt): Members {
    if value.Dict? then MergedItems(into, value.items) else into
  }

  function MergedItems(into: Members, items: seq<Pmt>): Members {
    if items == [] then into
    else
      var item := items[|items| - 1];
      var before := MergedItems(into, items[..|items| - 1]);
      if IsMember(item) then Put(BytesLess, before, item.car.name, PmtText(item.cdr)) else before
  }

  /** A capture segment after a tag that describes it. */
  function Described(capture: Members, tag: Tag, stray: Double -> nat): Members
    requires KindOf(tag.key) == OfCapture
  {
    var start := Decimal(tag.offset);
    if tag.key.name == TAG_CAPTURE then Put(BytesLess, Merged(capture, tag.value), KEY_SAMPLE_START, start)
    else
      var begun := Put(BytesLess, capture, KEY_SAMPLE_START, start);
      if tag.key.name == TAG_RX_FREQ then
        match ToDouble(tag.value)
        case Some(d) => Put(BytesLess, begun, KEY_FREQUENCY, NumberTextOf(d))
        case None => begun
      else
        match RxTimeStamp(tag.value, stray)
        case Some(stamp) => if stamp == "" then begun else Put(BytesLess, begun, KEY_DATETIME, Escaped(stamp))
        case None => begun
  }

  /** The annotation a tag becomes. */
  function Annotated(tag: Tag): Members
    requires KindOf(tag.key) == OfAnnotation
  {
    var start := Decimal(tag.offset);
    if tag.key.name == TAG_ANNOTATION then Put(BytesLess, Merged([], tag.value), KEY_SAMPLE_START, start)
    else
      Put(BytesLess,
          Put(BytesLess,
              Put(BytesLess, Put(BytesLess, [], KEY_SAMPLE_START, start), KEY_SAMPLE_COUNT, "1"),
              KEY_LABEL, Escaped(tag.key.name)),
          KEY_TAG_VALUE, PmtText(tag.value))
  }

  /** Whether folding the tag ends in an exception. */
  predicate Throws(tag: Tag, stray: Double -> nat) {
    && tag.key.Symbol?
    && ((tag.key.name == TAG_RX_FREQ && tag.value.Complex?)
        || (tag.key.name == TAG_RX_TIME && RxTimeStamp(tag.value, stray).None?))
  }

  function ObjectAt(captures: seq<(nat, Members)>, offset: nat): Members {
    match Get(captures, offset)
    case Some(capture) => capture
    case None => []
  }

  /** The document after one more tag. */
  function Folded(doc: Doc, tag: Tag, stray: Double -> nat): Doc {
    match KindOf(tag.key)
    case Unused => doc
    case OfCapture =>
      doc.(captures := Put(NatLess, doc.captures, tag.offset,
                           Described(ObjectAt(doc.captures, tag.offset), tag, stray)))
    case OfAnnotation =>
      if |doc.annotations| >= MAX_ANNOTATIONS then doc.(overflowed := true)
      else doc.(annotations := doc.annotations + [Annotated(tag)])
  }

  function FoldedAll(doc: Doc, tags: seq<Tag>, stray: Double -> nat): Doc {
    if tags == [] then doc
    else Folded(FoldedAll(doc, tags[..|tags| - 1], stray), tags[|tags| - 1], stray)
  }

  lemma {:induction false} FoldedAppend(doc: Doc, a: seq<Tag>, b: seq<Tag>, stray: Double -> nat)
    ensures FoldedAll(doc, a + b, stray) == FoldedAll(FoldedAll(doc, a, stray), b, stray)
  {
    if b == [] {
      assert a + b == a;
    } else {
      FoldedAppend(doc, a, b[..|b| - 1], stray);
      assert (a + b)[..|a + b| - 1] == a + b[..|b| - 1];
    }
  }

  // ---- a run's meaning, without the fold ----------------------------------------------------

  /** Every annotation the tags ask for, in their order. */
  function AnnotationsOf(tags: seq<Tag>): seq<Members> {
    if tags == [] then []
    else
      var tag := tags[|tags| - 1];
      var before := AnnotationsOf(tags[..|tags| - 1]);
      if KindOf(tag.key) == OfAnnotation then before + [Annotated(tag)] else before
  }

  /** The tags that describe the capture at one offset. */
  function CaptureTags(tags: seq<Tag>, offset: nat): (own: seq<Tag>)
    ensures forall i :: 0 <= i < |own| ==> KindOf(own[i].key) == OfCapture && own[i].offset == offset
  {
    if tags == [] then []
    else
      var tag := tags[|tags| - 1];
      var before := CaptureTags(tags[..|tags| - 1], offset);
      if KindOf(tag.key) == OfCapture && tag.offset == offset then before + [tag] else before
  }

  /** One capture's own tags applied to it in order; no tag leaves no capture. */
  function DescribedBy(capture: Option<Members>, own: seq<Tag>, stray: Double -> nat): Option<Members>
    requires forall i :: 0 <= i < |own| ==> KindOf(own[i].key) == OfCapture
  {
    if own == [] then capture
    else
      var before := DescribedBy(capture, own[..|own| - 1], stray);
      Some(Described(match before case Some(c) => c case None => [], own[|own| - 1], stray))
  }

  function Truncated(all: seq<Members>): seq<Members> {
    if |all| <= MAX_ANNOTATIONS then all else all[..MAX_ANNOTATIONS]
  }

  lemma {:induction false} AnnotationsMeaning(doc: Doc, tags: seq<Tag>, stray: Double -> nat)
    requires doc.annotations == [] && !doc.overflowed
    ensures var r := FoldedAll(doc, tags, stray);
      && r.annotations == Truncated(AnnotationsOf(tags))
      && (r.overflowed <==> |AnnotationsOf(tags)| > MAX_ANNOTATIONS)
  {
    if tags != [] { AnnotationsMeaning(doc, tags[..|tags| - 1], stray); }
  }

  lemma {:induction false} CapturesMeaning(doc: Doc, tags: seq<Tag>, stray: Double -> nat, offset: nat)
    requires Ascending(NatLess, doc.captures)
    ensures var r := FoldedAll(doc, tags, stray);
      && Ascending(NatLess, r.captures)
      && Get(r.captures, offset) == DescribedBy(Get(doc.captures, offset), CaptureTags(tags, offset), stray)
  {
    if tags != [] {
      var front, tag := tags[..|tags| - 1], tags[|tags| - 1];
      CapturesMeaning(doc, front, stray, offset);
      if KindOf(tag.key) == OfCapture {
        CaptureStep(FoldedAll(doc, front, stray), tag, stray, offset);
        if tag.offset == offset {
          DescribedByAppend(Get(doc.captures, offset), CaptureTags(front, offset), tag, stray);
        }
      }
    }
  }

  lemma DescribedByAppend(capture: Option<Members>, own: seq<Tag>, tag: Tag, stray: Double -> nat)
    requires KindOf(tag.key) == OfCapture
    requires forall i :: 0 <= i < |own| ==> KindOf(own[i].key) == OfCapture
    ensures DescribedBy(capture, own + [tag], stray)
         == Some(Described(match DescribedBy(capture, own, stray) case Some(c) => c case None => [], tag, stray))
  {
    assert (own + [tag])[..|own|] == own;
  }

  /**
   The fold keeps exactly the first annotations asked for, reports an overflow
   exactly when there were more, and leaves each capture as its own tags make it.
   */
  lemma FoldMeaning(doc: Doc, tags: seq<Tag>, stray: Double -> nat, offset: nat)
    requires doc.annotations == [] && !doc.overflowed && Ascending(NatLess, doc.captures)
    ensures var r := FoldedAll(doc, tags, stray);
      && r.annotations == Truncated(AnnotationsOf(tags))
      && (r.overflowed <==> |AnnotationsOf(tags)| > 100000)
      && Ascending(NatLess, r.captures)
      && Get(r.captures, offset) == DescribedBy(Get(doc.captures, offset), CaptureTags(tags, offset), stray)
  {
    AnnotationsMeaning(doc, tags, stray);
    CapturesMeaning(doc, tags, stray, offset);
  }

  lemma CaptureStep(doc: Doc, tag: Tag, stray: Double -> nat, offset: nat)
    requires KindOf(tag.key) == OfCapture && Ascending(NatLess, doc.captures)
    ensures var r := Folded(doc, tag, stray);
      && Ascending(NatLess, r.captures)
      && Get(r.captures, offset)
         == if offset == tag.offset then Some(Described(ObjectAt(doc.captures, offset), tag, stray))
            else Get(doc.captures, offset)
  {
    OrdersHold();
    var made := Described(ObjectAt(doc.captures, tag.offset), tag, stray);
    PutAscending(NatLess, doc.captures, tag.offset, made);
    PutGet(NatLess, doc.captures, tag.offset, made, offset);
  }

  /**
   Tags at different offsets, and of different kinds, do not disturb one another:
   any interleaving of the same annotations and the same per-capture runs builds
   the same document.
   */
  lemma InterleavingsAgree(doc: Doc, a: seq<Tag>, b: seq<Tag>, stray: Double -> nat)
    requires doc.annotations == [] && !doc.overflowed && Ascending(NatLess, doc.captures)
    requires AnnotationsOf(a) == AnnotationsOf(b)
    requires forall offset: nat :: CaptureTags(a, offset) == CaptureTags(b, offset)
    ensures FoldedAll(doc, a, stray) == FoldedAll(doc, b, stray)
  {
    OrdersHold();
    FoldMeaning(doc, a, stray, 0);
    FoldMeaning(doc, b, stray, 0);
    var ra, rb := FoldedAll(doc, a, stray), FoldedAll(doc, b, stray);
    forall offset: nat
      ensures Get(ra.captures, offset) == Get(rb.captures, offset)
    {
      FoldMeaning(doc, a, stray, offset);
      FoldMeaning(doc, b, stray, offset);
      assert CaptureTags(a, offset) == CaptureTags(b, offset);
    }
    SameContents(NatLess, ra.captures, rb.captures);
  }

  // ---- what every run keeps ---------------------------------------------------------------------

  /** The value a member's text reads as. */
  function Denoting(text: string): Value {
    match ReadValue(text)
    case Got(v, _) => v
    case Stop => Null
  }

  ghost predicate Sound(text: string) {
    Reads(text, Denoting(text))
  }

  lemma ReadsIsSound(text: string, v: Value)
    requires Reads(text, v)
    ensures Sound(text) && Denoting(text) == v
  {
    assert text + "" == text;
    assert ReadValue(text + "") == Got(v, "");
  }

  /** Keys strictly ascending, every member's text a JSON value. */
  ghost predicate SoundObject(obj: Members) {
    Ascending(BytesLess, obj) && SoundMembers(obj)
  }

  ghost predicate SoundMembers(obj: Members) {
    obj == [] || (Sound(obj[0].1) && SoundMembers(obj[1..]))
  }

  lemma {:induction false} PutSoundMembers(obj: Members, key: string, text: string)
    requires SoundMembers(obj) && Sound(text)
    ensures SoundMembers(Put(BytesLess, obj, key, text))
  {
    var r := Put(BytesLess, obj, key, text);
    if obj == [] {
    } else if obj[0].0 == key {
      assert r[1..] == obj[1..];
    } else if BytesLess(key, obj[0].0) {
      assert r[1..] == obj;
    } else {
      PutSoundMembers(obj[1..], key, text);
      assert r[1..] == Put(BytesLess, obj[1..], key, text);
    }
  }

  lemma PutSound(obj: Members, key: string, text: string, v: Value)
    requires SoundObject(obj) && Reads(text, v)
    ensures SoundObject(Put(BytesLess, obj, key, text))
  {
    OrdersHold();
    ReadsIsSound(text, v);
    PutAscending(BytesLess, obj, key, text);
    PutSoundMembers(obj, key, text);
  }

  lemma {:induction false} MergedSound(into: Members, items: seq<Pmt>)
    requires SoundObject(into)
    ensures SoundObject(MergedItems(into, items))
  {
    if items != [] {
      var front, item := items[..|items| - 1], items[|items| - 1];
      MergedSound(into, front);
      if IsMember(item) {
        PmtFaithful(item.cdr);
        PutSound(MergedItems(into, front), item.car.name, PmtText(item.cdr), Denoted(item.cdr));
      }
    }
  }

  /** A merged dictionary wins key by key, and leaves every other key alone. */
  lemma {:induction false} MergedMeaning(into: Members, items: seq<Pmt>, key: string)
    ensures Get(MergedItems(into, items), key)
         == match LastFor(items, key) case Some(v) => Some(PmtText(v)) case None => Get(into, key)
  {
    if items != [] {
      var front, item := items[..|items| - 1], items[|items| - 1];
      MergedMeaning(into, front, key);
      if IsMember(item) {
        PutGet(BytesLess, MergedItems(into, front), item.car.name, PmtText(item.cdr), key);
      }
    }
  }

  ghost predicate StartsAt(obj: Members, offset: nat) {
    SoundObject(obj) && Get(obj, KEY_SAMPLE_START) == Some(Decimal(offset))
  }

  lemma StartWritten(obj: Members, offset: nat)
    requires SoundObject(obj)
    ensures StartsAt(Put(BytesLess, obj, KEY_SAMPLE_START, Decimal(offset)), offset)
  {
    IntegerFaithful(offset);
    PutSound(obj, KEY_SAMPLE_START, Decimal(offset), Number(Decimal(offset)));
    PutGet(BytesLess, obj, KEY_SAMPLE_START, Decimal(offset), KEY_SAMPLE_START);
  }

  lemma OtherWritten(obj: Members, offset: nat, key: string, text: string, v: Value)
    requires StartsAt(obj, offset) && key != KEY_SAMPLE_START && Reads(text, v)
    ensures StartsAt(Put(BytesLess, obj, key, text), offset)
  {
    PutSound(obj, key, text, v);
    PutGet(BytesLess, obj, key, text, KEY_SAMPLE_START);
  }

  lemma MergedObjectSound(into: Members, value: Pmt)
    requires SoundObject(into)
    ensures SoundObject(Merged(into, value))
  {
    if value.Dict? { MergedSound(into, value.items); }
  }

  /** Whatever a dictionary says, a capture's sample_start is where its tag is. */
  lemma DescribedStarts(capture: Members, tag: Tag, stray: Double -> nat)
    requires KindOf(tag.key) == OfCapture && SoundObject(capture)
    ensures StartsAt(Described(capture, tag, stray), tag.offset)
  {
    if tag.key.name == TAG_CAPTURE {
      MergedObjectSound(capture, tag.value);
      StartWritten(Merged(capture, tag.value), tag.offset);
    } else {
      StartWritten(capture, tag.offset);
      var begun := Put(BytesLess, capture, KEY_SAMPLE_START, Decimal(tag.offset));
      if tag.key.name == TAG_RX_FREQ {
        match ToDouble(tag.value) {
          case Some(d) =>
            NumberFaithful(d);
            OtherWritten(begun, tag.offset, KEY_FREQUENCY, NumberTextOf(d), NumberValue(d));
          case None =>
        }
      } else {
        match RxTimeStamp(tag.value, stray) {
          case Some(stamp) =>
            StringReads(stamp);
            OtherWritten(begun, tag.offset, KEY_DATETIME, Escaped(stamp), String(stamp));
          case None =>
        }
      }
    }
  }

  lemma KeysDiffer()
    ensures KEY_SAMPLE_COUNT != KEY_SAMPLE_START && KEY_LABEL != KEY_SAMPLE_START
  {
    assert |CORE_SAMPLE| == 12;
    assert KEY_SAMPLE_COUNT[12] == 'c' && KEY_SAMPLE_START[12] == 's';
  }

  lemma AnnotatedStarts(tag: Tag)
    requires KindOf(tag.key) == OfAnnotation
    ensures StartsAt(Annotated(tag), tag.offset)
  {
    if tag.key.name == TAG_ANNOTATION {
      MergedObjectSound([], tag.value);
      StartWritten(Merged([], tag.value), tag.offset);
    } else {
      var start := Decimal(tag.offset);
      var begun := Put(BytesLess, [], KEY_SAMPLE_START, start);
      var counted := Put(BytesLess, begun, KEY_SAMPLE_COUNT, "1");
      var labelled := Put(BytesLess, counted, KEY_LABEL, Escaped(tag.key.name));
      KeysDiffer();
      StartWritten([], tag.offset);
      IntegerFaithful(1);
      assert Decimal(1) == "1";
      OtherWritten(begun, tag.offset, KEY_SAMPLE_COUNT, "1", Number("1"));
      StringReads(tag.key.name);
      OtherWritten(counted, tag.offset, KEY_LABEL, Escaped(tag.key.name), String(tag.key.name));
      PmtFaithful(tag.value);
      OtherWritten(labelled, tag.offset, KEY_TAG_VALUE, PmtText(tag.value), Denoted(tag.value));
    }
  }

  /** Captures in strictly rising order from 0, each starting where its key says. */
  ghost predicate WellFormed(doc: Doc) {
    && Ascending(NatLess, doc.captures)
    && doc.captures != [] && doc.captures[0].0 == 0
    && CapturesStart(doc.captures)
    && SoundObjects(doc.annotations)
    && |doc.annotations| <= MAX_ANNOTATIONS
    && (doc.overflowed ==> |doc.annotations| == MAX_ANNOTATIONS)
  }

  ghost predicate CapturesStart(captures: seq<(nat, Members)>) {
    captures == [] || (StartsAt(captures[0].1, captures[0].0) && CapturesStart(captures[1..]))
  }

  ghost predicate SoundObjects(objects: seq<Members>) {
    objects == [] || (SoundObject(objects[|objects| - 1]) && SoundObjects(objects[..|objects| - 1]))
  }

  lemma {:induction false} PutCaptureStarts(captures: seq<(nat, Members)>, offset: nat, capture: Members)
    requires CapturesStart(captures) && StartsAt(capture, offset)
    ensures CapturesStart(Put(NatLess, captures, offset, capture))
  {
    var r := Put(NatLess, captures, offset, capture);
    if captures == [] {
    } else if captures[0].0 == offset {
      assert r[1..] == captures[1..];
    } else if offset < captures[0].0 {
      assert r[1..] == captures;
    } else {
      PutCaptureStarts(captures[1..], offset, capture);
      assert r[1..] == Put(NatLess, captures[1..], offset, capture);
    }
  }

  lemma {:induction false} CaptureSound(captures: seq<(nat, Members)>, offset: nat)
    requires CapturesStart(captures)
    ensures SoundObject(ObjectAt(captures, offset))
  {
    if captures != [] && captures[0].0 != offset { CaptureSound(captures[1..], offset); }
  }

  /** The invariant of the whole run. */
  lemma FoldedWellFormed(doc: Doc, tag: Tag, stray: Double -> nat)
    requires WellFormed(doc)
    ensures WellFormed(Folded(doc, tag, stray))
  {
    match KindOf(tag.key)
    case Unused =>
    case OfCapture =>
      OrdersHold();
      CaptureSound(doc.captures, tag.offset);
      var capture := Described(ObjectAt(doc.captures, tag.offset), tag, stray);
      DescribedStarts(ObjectAt(doc.captures, tag.offset), tag, stray);
      PutAscending(NatLess, doc.captures, tag.offset, capture);
      PutCaptureStarts(doc.captures, tag.offset, capture);
    case OfAnnotation =>
      AnnotatedStarts(tag);
      var grown := doc.annotations + [Annotated(tag)];
      assert grown[..|grown| - 1] == doc.annotations;
  }

  lemma {:induction false} RunWellFormed(doc: Doc, tags: seq<Tag>, stray: Double -> nat)
    requires WellFormed(doc)
    ensures WellFormed(FoldedAll(doc, tags, stray))
  {
    if tags != [] {
      RunWellFormed(doc, tags[..|tags| - 1], stray);
      FoldedWellFormed(FoldedAll(doc, tags[..|tags| - 1], stray), tags[|tags| - 1], stray);
    }
  }
}
