/**
 What the receiver's own tags leave in a capture: the instant of rx_time and the
 number of rx_freq, told from the tags and the text they make, over a whole run.
 */
module RxTags {
  import opened Json
  import opened JsonText
  import opened MetaBuilders
  import opened MetaModel
  import opened MetaUtf8
  import opened OrderedMap
  import opened SigmfJson
  import opened Wrappers
  import Scanner
  import T = Timestamp

  /** The double a tag value carries, if it is a real number. */
  function Carried(v: Pmt): Option<Double> {
    match v
    case UInt64(_, near) => Some(near)
    case Integer(_, near) => Some(near)
    case Real(x) => Some(x)
    case _ => None
  }

  predicate CarriesValue(v: Pmt, x: real) {
    match Carried(v)
    case Some(Finite(value, _)) => value == x
    case _ => false
  }

  predicate Numberless(v: Pmt) {
    !v.UInt64? && !v.Integer? && !v.Real? && !v.Complex?
  }

  /** A tag that has nothing to say under a key: another kind, a dictionary without it, or no number. */
  predicate Quiet(tag: Tag, key: string) {
    match tag.key
    case Symbol("sigmf:capture") => tag.value.Dict? ==> LastFor(tag.value.items, key).None?
    case Symbol("rx_freq") => key != "core:frequency" || Numberless(tag.value)
    case Symbol("rx_time") =>
      key != "core:datetime"
      || (if tag.value.Pair? then Numberless(tag.value.car) else Numberless(tag.value))
    case _ => false
  }

  lemma QuietWrites(tag: Tag, key: string, stray: Double -> nat)
    requires KindOf(tag.key) == OfCapture && Quiet(tag, key) && key != "core:sample_start"
    ensures Written(tag, key, stray) == None
  {
    assert KEY_SAMPLE_START == "core:sample_start";
  }

  /** The last tag to write a key has its text. */
  lemma {:induction false} LastOf(own: seq<Tag>, k: nat, key: string, stray: Double -> nat)
    requires forall i :: 0 <= i < |own| ==> KindOf(own[i].key) == OfCapture
    requires k < |own| && key != "core:sample_start" && forall i :: k < i < |own| ==> Quiet(own[i], key)
    requires Written(own[k], key, stray).Some?
    ensures LastWritten(own, key, stray) == Written(own[k], key, stray)
  {
    if k < |own| - 1 {
      QuietWrites(own[|own| - 1], key, stray);
      LastOf(own[..|own| - 1], k, key, stray);
    }
  }

  /** The text a run leaves under a key of the capture at an offset. */
  function Entry(info: Info, tags: seq<Tag>, stray: Double -> nat, offset: nat, key: string): Option<string> {
    Get(ObjectAt(FoldedAll(Initial(info), tags, stray).captures, offset), key)
  }

  lemma EntryOf(info: Info, tags: seq<Tag>, stray: Double -> nat, offset: nat, key: string, k: nat)
    requires var own := CaptureTags(tags, offset);
      k < |own| && Written(own[k], key, stray).Some? && forall i :: k < i < |own| ==> Quiet(own[i], key)
    requires key != "core:sample_start"
    ensures Entry(info, tags, stray, offset, key) == Written(CaptureTags(tags, offset)[k], key, stray)
  {
    var own := CaptureTags(tags, offset);
    InitialWellFormed(info);
    CapturesMeaning(Initial(info), tags, stray, offset);
    LastWriterWins(Get(Initial(info).captures, offset), own, stray, key);
    LastOf(own, k, key, stray);
  }

  // ---- rx_freq ----------------------------------------------------------------------------

  /** When rx_freq wrote last, core:frequency is the tag's own number. */
  lemma FrequencyIsTags(info: Info, tags: seq<Tag>, stray: Double -> nat, offset: nat, k: nat, d: Double)
    requires var own := CaptureTags(tags, offset);
      && k < |own| && own[k].key == Symbol("rx_freq") && Carried(own[k].value) == Some(d) && d.Finite?
      && forall i :: k < i < |own| ==> Quiet(own[i], "core:frequency")
    ensures var text := Entry(info, tags, stray, offset, "core:frequency"); text.Some? && text.value == d.text
    ensures Denoting(d.text) == Number(d.text)
  {
    OtherKeys();
    EntryOf(info, tags, stray, offset, "core:frequency", k);
    NumberReads(d.text);
    ReadsIsSound(d.text, Number(d.text));
  }

  // ---- rx_time ------------------------------------------------------------------------------

  /** An instant in seconds, and how far from it one read back may be. */
  ghost predicate Near(r: T.Instant, instant: real) {
    r.Instant? && -0.0005 - T.HALF_UNIT <= r.seconds as real + r.fraction - instant <= 0.0005 + T.HALF_UNIT
  }

  /** A number that is no fraction of a second. */
  predicate OffRange(frac: Pmt) {
    match Carried(frac)
    case Some(Finite(x, _)) => x < 0.0 || 1.0 <= x
    case Some(_) => true
    case None => false
  }

  /** What a value of rx_time says: seconds and a fraction apart, or seconds alone. */
  predicate Says(value: Pmt, seconds: nat, fraction: real) {
    && 0.0 <= fraction < 1.0
    && match value
       case Pair(secs, frac) =>
         CarriesValue(secs, seconds as real)
         && if Numberless(frac) || OffRange(frac) then fraction == 0.0 else CarriesValue(frac, fraction)
       case _ => CarriesValue(value, seconds as real + fraction)
  }

  lemma FloorOf(seconds: nat, fraction: real)
    requires 0.0 <= fraction < 1.0
    ensures (seconds as real).Floor == (seconds as real + fraction).Floor == seconds
  {
  }

  lemma BeforeLimit(seconds: nat, fraction: real)
    requires T.Rounded(seconds, fraction) < T.YEAR_10000
    ensures seconds < 18446744073709551615
  {
  }

  lemma CastFits(d: Double, seconds: nat, fraction: real, stray: Double -> nat)
    requires d.Finite? && d.value == seconds as real + fraction && 0.0 <= fraction < 1.0
    requires seconds < 18446744073709551615
    ensures ToUnsigned(d, stray) == seconds
  {
    FloorOf(seconds, fraction);
  }

  lemma PairSays(secs: Pmt, frac: Pmt, stray: Double -> nat, seconds: nat, fraction: real)
    requires Carried(secs).Some? && ToUnsigned(Carried(secs).value, stray) == seconds
    requires if Numberless(frac) || OffRange(frac) then fraction == 0.0 else CarriesValue(frac, fraction)
    ensures RxTimeStamp(Pair(secs, frac), stray) == Some(T.FromEpoch(seconds, fraction))
  {
    if OffRange(frac) && Carried(frac).value.Finite? { T.FractionOutside(seconds, Carried(frac).value.value); }
  }

  lemma PlainSays(value: Pmt, stray: Double -> nat, d: Double, seconds: nat, fraction: real)
    requires Carried(value) == Some(d) && d.Finite? && d.value >= 0.0
    requires ToUnsigned(d, stray) == seconds && fraction == d.value - d.value.Floor as real
    ensures RxTimeStamp(value, stray) == Some(T.FromEpoch(seconds, fraction))
  {
  }

  lemma StampSays(value: Pmt, stray: Double -> nat, seconds: nat, fraction: real, stamp: string)
    requires Says(value, seconds, fraction) && seconds < 18446744073709551615
    requires stamp == T.FromEpoch(seconds, fraction)
    ensures RxTimeStamp(value, stray) == Some(stamp)
  {
    FloorOf(seconds, fraction);
    if value.Pair? {
      CastFits(Carried(value.car).value, seconds, 0.0, stray);
      PairSays(value.car, value.cdr, stray, seconds, fraction);
    } else {
      CastFits(Carried(value).value, seconds, fraction, stray);
      PlainSays(value, stray, Carried(value).value, seconds, fraction);
    }
  }

  lemma StampWritten(tag: Tag, stray: Double -> nat, stamp: string)
    requires tag.key == Symbol("rx_time") && RxTimeStamp(tag.value, stray) == Some(stamp) && stamp != ""
    ensures Written(tag, "core:datetime", stray) == Some(Escaped(stamp))
  {
    OtherKeys();
  }

  lemma StampReads(round: Scanner.Rounding, seconds: nat, fraction: real, stamp: string)
    requires T.Nearest(round) && 0.0 <= fraction < 1.0 && T.Rounded(seconds, fraction) < T.YEAR_10000
    requires stamp == T.FromEpoch(seconds, fraction)
    ensures stamp != "" && Near(T.ToEpoch(round, stamp), seconds as real + fraction)
  {
    T.RoundTripNearest(round, seconds, fraction);
    T.EmptyRejected(round);
  }

  /**
   When rx_time wrote last, core:datetime is a string that reads back as the instant the
   tag says, to the millisecond.
   */
  lemma DatetimeReadsBack(round: Scanner.Rounding, info: Info, tags: seq<Tag>, stray: Double -> nat, offset: nat, k: nat,
                          seconds: nat, fraction: real, stamp: string)
    requires T.Nearest(round) && stamp == T.FromEpoch(seconds, fraction)
    requires T.Rounded(seconds, fraction) < T.YEAR_10000
    requires var own := CaptureTags(tags, offset);
      && k < |own| && own[k].key == Symbol("rx_time") && Says(own[k].value, seconds, fraction)
      && forall i :: k < i < |own| ==> Quiet(own[i], "core:datetime")
    ensures Entry(info, tags, stray, offset, "core:datetime") == Some(Escaped(stamp))
    ensures Denoting(Escaped(stamp)) == String(stamp)
    ensures Near(T.ToEpoch(round, stamp), seconds as real + fraction)
  {
    BeforeLimit(seconds, fraction);
    StampReads(round, seconds, fraction, stamp);
    StampSays(CaptureTags(tags, offset)[k].value, stray, seconds, fraction, stamp);
    StampWritten(CaptureTags(tags, offset)[k], stray, stamp);
    EntryOf(info, tags, stray, offset, "core:datetime", k);
    StringReads(stamp);
    ReadsIsSound(Escaped(stamp), String(stamp));
  }

  /** Seconds alone that are negative say nothing. */
  lemma NegativeIsSilent(tag: Tag, stray: Double -> nat, d: Double)
    requires tag.key == Symbol("rx_time") && Carried(tag.value) == Some(d)
    requires d == Infinite(true) || (d.Finite? && d.value < 0.0)
    ensures RxTimeStamp(tag.value, stray) == Some("") && Written(tag, "core:datetime", stray) == None
  {
    OtherKeys();
  }

  // ---- the first capture ----------------------------------------------------------------------

  lemma {:induction false} NoneWrites(own: seq<Tag>, key: string, stray: Double -> nat)
    requires forall i :: 0 <= i < |own| ==> KindOf(own[i].key) == OfCapture && Quiet(own[i], key)
    requires key != "core:sample_start"
    ensures LastWritten(own, key, stray) == None
  {
    if own != [] {
      QuietWrites(own[|own| - 1], key, stray);
      NoneWrites(own[..|own| - 1], key, stray);
    }
  }

  /** Until a tag at sample 0 says otherwise, the first capture has the block's own frequency. */
  lemma FrequencyIsBlocks(info: Info, tags: seq<Tag>, stray: Double -> nat)
    requires forall i :: 0 <= i < |CaptureTags(tags, 0)| ==> Quiet(CaptureTags(tags, 0)[i], "core:frequency")
    ensures var text := Entry(info, tags, stray, 0, "core:frequency");
      if info.centerFreq.Finite? then text.Some? && text.value == info.centerFreq.text else text.None?
  {
    var own := CaptureTags(tags, 0);
    InitialWellFormed(info);
    CapturesMeaning(Initial(info), tags, stray, 0);
    OtherKeys();
    NoneWrites(own, "core:frequency", stray);
    LastWriterWins(Get(Initial(info).captures, 0), own, stray, "core:frequency");
    FirstCapture(info);
  }

  lemma FirstCapture(info: Info)
    ensures var text := Get(ObjectAt(Initial(info).captures, 0), KEY_FREQUENCY);
      if info.centerFreq.Finite? then text.Some? && text.value == info.centerFreq.text else text.None?
  {
    OtherKeys();
    var first := Put(BytesLess, [], KEY_SAMPLE_START, "0");
    PutGet(BytesLess, [], KEY_SAMPLE_START, "0", KEY_FREQUENCY);
    if info.centerFreq.Finite? {
      PutGet(BytesLess, first, KEY_FREQUENCY, NumberTextOf(info.centerFreq), KEY_FREQUENCY);
    }
  }

  /** Folding a tag throws for a complex number alone, where a number is looked for. */
  lemma ThrowsIff(tag: Tag, stray: Double -> nat)
    ensures Throws(tag, stray)
       <==> || (tag.key == Symbol("rx_freq") && tag.value.Complex?)
            || (tag.key == Symbol("rx_time") && ComplexTime(tag.value))
  {
  }

  predicate ComplexTime(value: Pmt) {
    if value.Pair? then value.car.Complex? || (!Numberless(value.car) && value.cdr.Complex?) else value.Complex?
  }
}
