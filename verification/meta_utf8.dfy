/**
 Which runs of tags make a document of UTF-8, and so one that JSON parsers read:
 said of the tags and the parameters, without the document.
 */
module MetaUtf8 {
  import opened Json
  import opened JsonText
  import opened JsonUtf8
  import opened MetaBuilders
  import opened MetaModel
  import opened OrderedMap
  import opened SigmfJson
  import opened Unicode
  import opened Wrappers
  import Scanner
  import Timestamp

  // ---- an object, key by key -------------------------------------------------------------

  ghost predicate EntryUtf8(key: string, text: Option<string>) {
    text.Some? ==> IsUtf8(key) && IsUtf8(text.value)
  }

  ghost predicate KeysUtf8(obj: Members) {
    forall key :: EntryUtf8(key, Get(obj, key))
  }

  lemma MembersByKey(obj: Members)
    requires Ascending(BytesLess, obj)
    ensures MembersUtf8(obj) <==> KeysUtf8(obj)
  {
    if MembersUtf8(obj) {
      forall key
        ensures EntryUtf8(key, Get(obj, key))
      {
        if Get(obj, key).Some? {
          var i := GetIndex(obj, key);
          assert MemberUtf8(obj[i]);
        }
      }
    }
    if KeysUtf8(obj) {
      forall i | 0 <= i < |obj|
        ensures MemberUtf8(obj[i])
      {
        GetAt(obj, i);
        assert EntryUtf8(obj[i].0, Get(obj, obj[i].0));
      }
    }
  }

  // ---- what one tag writes ------------------------------------------------------------------

  /** The text a dictionary gives a key, if it names it. */
  function DictText(value: Pmt, key: string): Option<string> {
    if !value.Dict? then None
    else match LastFor(value.items, key)
      case Some(v) => Some(PmtText(v))
      case None => None
  }

  /** The text a capture's tag writes under a key, if any. */
  function Written(tag: Tag, key: string, stray: Double -> nat): Option<string>
    requires KindOf(tag.key) == OfCapture
  {
    if key == KEY_SAMPLE_START then Some(Decimal(tag.offset))
    else if tag.key.name == TAG_CAPTURE then DictText(tag.value, key)
    else if tag.key.name == TAG_RX_FREQ then
      if key == KEY_FREQUENCY && ToDouble(tag.value).Some? then Some(NumberTextOf(ToDouble(tag.value).value)) else None
    else
      var stamp := RxTimeStamp(tag.value, stray);
      if key == KEY_DATETIME && stamp.Some? && stamp.value != "" then Some(Escaped(stamp.value)) else None
  }

  lemma MergedGet(into: Members, value: Pmt, key: string)
    ensures Get(Merged(into, value), key)
         == match DictText(value, key) case Some(t) => Some(t) case None => Get(into, key)
  {
    if value.Dict? { MergedMeaning(into, value.items, key); }
  }

  /** A tag that describes a capture gives it what it writes, and leaves every other key alone. */
  lemma DescribedGet(capture: Members, tag: Tag, stray: Double -> nat, key: string)
    requires KindOf(tag.key) == OfCapture
    ensures Get(Described(capture, tag, stray), key)
         == match Written(tag, key, stray) case Some(t) => Some(t) case None => Get(capture, key)
  {
    var start := Decimal(tag.offset);
    if tag.key.name == TAG_CAPTURE {
      MergedGet(capture, tag.value, key);
      PutGet(BytesLess, Merged(capture, tag.value), KEY_SAMPLE_START, start, key);
    } else {
      var begun := Put(BytesLess, capture, KEY_SAMPLE_START, start);
      PutGet(BytesLess, capture, KEY_SAMPLE_START, start, key);
      OtherKeys();
      if tag.key.name == TAG_RX_FREQ {
        if ToDouble(tag.value).Some? {
          PutGet(BytesLess, begun, KEY_FREQUENCY, NumberTextOf(ToDouble(tag.value).value), key);
        }
      } else {
        var stamp := RxTimeStamp(tag.value, stray);
        if stamp.Some? && stamp.value != "" {
          PutGet(BytesLess, begun, KEY_DATETIME, Escaped(stamp.value), key);
        }
      }
    }
  }

  lemma OtherKeys()
    ensures KEY_FREQUENCY != KEY_SAMPLE_START && KEY_DATETIME != KEY_SAMPLE_START
  {
    assert KEY_SAMPLE_START[5] == 's' && KEY_FREQUENCY[5] == 'f' && KEY_DATETIME[5] == 'd';
  }

  /** The text the last of a capture's tags to write a key gives it. */
  function LastWritten(own: seq<Tag>, key: string, stray: Double -> nat): Option<string>
    requires forall i :: 0 <= i < |own| ==> KindOf(own[i].key) == OfCapture
  {
    if own == [] then None
    else
      var last := Written(own[|own| - 1], key, stray);
      if last.Some? then last else LastWritten(own[..|own| - 1], key, stray)
  }

  function OrEmpty(capture: Option<Members>): Members {
    match capture case Some(c) => c case None => []
  }

  /** A described capture, key by key: the last writer wins. */
  lemma {:induction false} LastWriterWins(capture: Option<Members>, own: seq<Tag>, stray: Double -> nat, key: string)
    requires forall i :: 0 <= i < |own| ==> KindOf(own[i].key) == OfCapture
    ensures Get(OrEmpty(DescribedBy(capture, own, stray)), key)
         == match LastWritten(own, key, stray) case Some(t) => Some(t) case None => Get(OrEmpty(capture), key)
  {
    if own != [] {
      var front, tag := own[..|own| - 1], own[|own| - 1];
      LastWriterWins(capture, front, stray, key);
      DescribedGet(OrEmpty(DescribedBy(capture, front, stray)), tag, stray, key);
    }
  }

  // ---- annotations ------------------------------------------------------------------------------

  /** What must be UTF-8 in a tag that becomes an annotation. */
  ghost predicate AnnotationStrings(tag: Tag)
    requires KindOf(tag.key) == OfAnnotation
  {
    if tag.key.name == TAG_ANNOTATION then
      forall key :: key != KEY_SAMPLE_START ==> EntryUtf8(key, DictText(tag.value, key))
    else IsUtf8(tag.key.name) && PrintsUtf8(tag.value)
  }

  lemma StartUtf8(offset: nat)
    ensures EntryUtf8(KEY_SAMPLE_START, Some(Decimal(offset)))
  {
    AsciiIsUtf8(KEY_SAMPLE_START);
    IntegerUtf8(offset);
  }

  /** A whole annotation is its dictionary, but for where it starts. */
  lemma WholeAnnotation(tag: Tag, key: string)
    requires KindOf(tag.key) == OfAnnotation && tag.key.name == TAG_ANNOTATION
    ensures Get(Annotated(tag), key)
         == if key == KEY_SAMPLE_START then Some(Decimal(tag.offset)) else DictText(tag.value, key)
  {
    MergedGet([], tag.value, key);
    PutGet(BytesLess, Merged([], tag.value), KEY_SAMPLE_START, Decimal(tag.offset), key);
  }

  lemma MergedAnnotation(tag: Tag)
    requires KindOf(tag.key) == OfAnnotation && tag.key.name == TAG_ANNOTATION
    ensures KeysUtf8(Annotated(tag)) <==> AnnotationStrings(tag)
  {
    StartUtf8(tag.offset);
    forall key
      ensures Get(Annotated(tag), key)
           == if key == KEY_SAMPLE_START then Some(Decimal(tag.offset)) else DictText(tag.value, key)
    {
      WholeAnnotation(tag, key);
    }
    if KeysUtf8(Annotated(tag)) {
      forall key | key != KEY_SAMPLE_START
        ensures EntryUtf8(key, DictText(tag.value, key))
      {
        assert EntryUtf8(key, Get(Annotated(tag), key));
      }
    }
  }

  lemma FourUtf8(a: string, x: string, b: string, y: string, c: string, z: string, d: string, w: string)
    requires AllAscii(a) && AllAscii(b) && AllAscii(c) && AllAscii(d) && AllAscii(y) && IsUtf8(z)
    ensures MembersUtf8([(a, x), (b, y), (c, z), (d, w)]) <==> IsUtf8(x) && IsUtf8(w)
  {
    AsciiIsUtf8(a);
    AsciiIsUtf8(b);
    AsciiIsUtf8(c);
    AsciiIsUtf8(d);
    AsciiIsUtf8(y);
    var members := [(a, x), (b, y), (c, z), (d, w)];
    assert MembersUtf8(members) ==> MemberUtf8(members[0]) && MemberUtf8(members[3]);
  }

  lemma AnnotationKeys()
    ensures AllAscii(KEY_LABEL) && AllAscii(KEY_SAMPLE_COUNT) && AllAscii(KEY_SAMPLE_START)
    ensures AllAscii(KEY_TAG_VALUE) && AllAscii("1")
  {
  }

  lemma OrdinaryUtf8(tag: Tag, caption: string, start: string, text: string)
    requires tag.key.Symbol? && caption == Escaped(tag.key.name)
    requires start == Decimal(tag.offset) && text == PmtText(tag.value)
    ensures MembersUtf8([(KEY_LABEL, caption), (KEY_SAMPLE_COUNT, "1"), (KEY_SAMPLE_START, start), (KEY_TAG_VALUE, text)])
       <==> IsUtf8(tag.key.name) && PrintsUtf8(tag.value)
  {
    AnnotationKeys();
    EscapedUtf8(tag.key.name);
    IntegerUtf8(tag.offset);
    TextUtf8(tag.value);
    FourUtf8(KEY_LABEL, caption, KEY_SAMPLE_COUNT, "1", KEY_SAMPLE_START, start, KEY_TAG_VALUE, text);
  }

  /** An annotation is of UTF-8 exactly when what its tag prints is. */
  lemma AnnotationUtf8(tag: Tag)
    requires KindOf(tag.key) == OfAnnotation
    ensures MembersUtf8(Annotated(tag)) <==> AnnotationStrings(tag)
  {
    if tag.key.name == TAG_ANNOTATION {
      AnnotatedStarts(tag);
      MembersByKey(Annotated(tag));
      MergedAnnotation(tag);
    } else {
      AnnotationOrder(tag);
      OrdinaryUtf8(tag, Escaped(tag.key.name), Decimal(tag.offset), PmtText(tag.value));
    }
  }

  /** The tags that become annotations, in order. */
  function AnnotationTags(tags: seq<Tag>): (own: seq<Tag>)
    ensures forall i :: 0 <= i < |own| ==> KindOf(own[i].key) == OfAnnotation
  {
    if tags == [] then []
    else
      var tag := tags[|tags| - 1];
      var before := AnnotationTags(tags[..|tags| - 1]);
      if KindOf(tag.key) == OfAnnotation then before + [tag] else before
  }

  lemma {:induction false} AnnotationsAre(tags: seq<Tag>)
    ensures |AnnotationsOf(tags)| == |AnnotationTags(tags)|
    ensures forall i :: 0 <= i < |AnnotationTags(tags)| ==> AnnotationsOf(tags)[i] == Annotated(AnnotationTags(tags)[i])
  {
    if tags != [] { AnnotationsAre(tags[..|tags| - 1]); }
  }

  // ---- a whole run --------------------------------------------------------------------------------

  ghost predicate AnnotationsUtf8(tags: seq<Tag>) {
    forall i :: 0 <= i < |AnnotationTags(tags)| && i < MAX_ANNOTATIONS ==> AnnotationStrings(AnnotationTags(tags)[i])
  }

  ghost predicate CaptureUtf8(tags: seq<Tag>, offset: nat, stray: Double -> nat) {
    forall key :: EntryUtf8(key, LastWritten(CaptureTags(tags, offset), key, stray))
  }

  /** The tags' own strings: of every annotation kept, and of every capture's last writers. */
  ghost predicate RunUtf8(tags: seq<Tag>, stray: Double -> nat) {
    AnnotationsUtf8(tags) && forall offset: nat :: CaptureUtf8(tags, offset, stray)
  }

  lemma AnnotationsIff(info: Info, tags: seq<Tag>, stray: Double -> nat)
    ensures ObjectsUtf8(FoldedAll(Initial(info), tags, stray).annotations) <==> AnnotationsUtf8(tags)
  {
    AnnotationsMeaning(Initial(info), tags, stray);
    AnnotationsAre(tags);
    var kept := FoldedAll(Initial(info), tags, stray).annotations;
    var own := AnnotationTags(tags);
    forall i | 0 <= i < |own| && i < MAX_ANNOTATIONS
      ensures MembersUtf8(kept[i]) <==> AnnotationStrings(own[i])
    {
      AnnotationUtf8(own[i]);
    }
  }

  /** The capture the parameters make is of UTF-8 at any offset. */
  lemma InitialUtf8(info: Info, offset: nat, key: string)
    ensures EntryUtf8(key, Get(ObjectAt(Initial(info).captures, offset), key))
  {
    StartUtf8(0);
    assert Decimal(0) == "0";
    var captures := Initial(info).captures;
    assert captures[1..] == [];
    assert Get(captures, offset) == if offset == 0 then Some(captures[0].1) else None;
    var first := Put(BytesLess, [], KEY_SAMPLE_START, "0");
    PutGet(BytesLess, [], KEY_SAMPLE_START, "0", key);
    AsciiIsUtf8(KEY_FREQUENCY);
    NumberUtf8(info.centerFreq);
    PutGet(BytesLess, first, KEY_FREQUENCY, NumberTextOf(info.centerFreq), key);
  }

  lemma CaptureIff(info: Info, tags: seq<Tag>, stray: Double -> nat, offset: nat)
    ensures KeysUtf8(ObjectAt(FoldedAll(Initial(info), tags, stray).captures, offset)) <==> CaptureUtf8(tags, offset, stray)
  {
    InitialWellFormed(info);
    CapturesMeaning(Initial(info), tags, stray, offset);
    var own := CaptureTags(tags, offset);
    var made := ObjectAt(FoldedAll(Initial(info), tags, stray).captures, offset);
    forall key
      ensures EntryUtf8(key, Get(made, key)) <==> EntryUtf8(key, LastWritten(own, key, stray))
    {
      LastWriterWins(Get(Initial(info).captures, offset), own, stray, key);
      InitialUtf8(info, offset, key);
    }
  }

  lemma {:induction false} CaptureAt(captures: seq<(nat, Members)>, i: nat)
    requires Ascending(NatLess, captures) && i < |captures|
    ensures ObjectAt(captures, captures[i].0) == captures[i].1
  {
    if i > 0 {
      CaptureAt(captures[1..], i - 1);
      FirstIsLeast(captures, i);
    }
  }

  lemma {:induction false} FirstIsLeast(captures: seq<(nat, Members)>, i: nat)
    requires Ascending(NatLess, captures) && 0 < i < |captures|
    ensures captures[0].0 < captures[i].0
  {
    if i > 1 { FirstIsLeast(captures[1..], i - 1); }
  }

  lemma CaptureMembers(captures: seq<(nat, Members)>, offset: nat)
    requires CapturesStart(captures)
    ensures MembersUtf8(ObjectAt(captures, offset)) <==> KeysUtf8(ObjectAt(captures, offset))
  {
    CaptureSound(captures, offset);
    MembersByKey(ObjectAt(captures, offset));
  }

  lemma CapturesByOffset(captures: seq<(nat, Members)>)
    requires Ascending(NatLess, captures) && CapturesStart(captures)
    ensures ObjectsUtf8(Segments(captures)) <==> forall offset: nat :: KeysUtf8(ObjectAt(captures, offset))
  {
    if ObjectsUtf8(Segments(captures)) {
      forall offset: nat
        ensures KeysUtf8(ObjectAt(captures, offset))
      {
        if Get(captures, offset).Some? {
          var i := GetIndex(captures, offset);
          assert MembersUtf8(Segments(captures)[i]);
        }
        CaptureMembers(captures, offset);
      }
    }
    if forall offset: nat :: KeysUtf8(ObjectAt(captures, offset)) {
      forall i | 0 <= i < |captures|
        ensures MembersUtf8(Segments(captures)[i])
      {
        CaptureAt(captures, i);
        CaptureMembers(captures, captures[i].0);
      }
    }
  }

  lemma CapturesIff(info: Info, tags: seq<Tag>, stray: Double -> nat)
    ensures ObjectsUtf8(Segments(FoldedAll(Initial(info), tags, stray).captures))
       <==> forall offset: nat :: CaptureUtf8(tags, offset, stray)
  {
    InitialWellFormed(info);
    RunWellFormed(Initial(info), tags, stray);
    var captures := FoldedAll(Initial(info), tags, stray).captures;
    CapturesByOffset(captures);
    forall offset: nat
      ensures KeysUtf8(ObjectAt(captures, offset)) <==> CaptureUtf8(tags, offset, stray)
    {
      CaptureIff(info, tags, stray, offset);
    }
  }

  /**
   The text of a run's document is JSON exactly when the parameters and the tags are of
   UTF-8: every annotation kept, and for every capture and key what was written last.
   */
  lemma RunParsesIff(info: Info, tags: seq<Tag>, stray: Double -> nat, samples: nat)
    ensures var doc := FoldedAll(Initial(info), tags, stray);
      Parse(DocumentText(info, doc, samples))
      == if InfoUtf8(info) && RunUtf8(tags, stray) then Got(DocumentValue(info, doc, samples), "") else Stop
  {
    EveryRunParses(info, tags, stray, samples);
    AnnotationsIff(info, tags, stray);
    CapturesIff(info, tags, stray);
  }

  // ---- tags of UTF-8 throughout ---------------------------------------------------------------------

  /** A tag whose strings are all UTF-8. */
  ghost predicate TagUtf8(tag: Tag) {
    PrintsUtf8(tag.key) && PrintsUtf8(tag.value)
  }

  lemma DictTextUtf8(value: Pmt, key: string)
    requires PrintsUtf8(value)
    ensures EntryUtf8(key, DictText(value, key))
  {
    if DictText(value, key).Some? { TextUtf8(LastFor(value.items, key).value); }
  }

  lemma {:induction false} FieldedAscii(fields: seq<string>, format: Scanner.Format, tail: string)
    requires |fields| == |format| && AllAscii(tail)
    requires forall i :: 0 <= i < |fields| ==> AllAscii(fields[i]) && Ascii(format[i].1)
    ensures AllAscii(Scanner.Fielded(fields, format, tail))
  {
    if fields != [] { FieldedAscii(fields[1..], format[1..], tail); }
  }

  lemma DecimalAscii(n: nat)
    ensures AllAscii(Decimal(n))
  {
    DecimalIsNumber(n);
    NumberIsAscii(DecimalInt(n));
  }

  lemma PartsAscii(t: Timestamp.Tm, millis: nat)
    requires Timestamp.ValidTm(t) && millis < 1000
    ensures AllAscii(Timestamp.YearText(t.year)) && AllAscii(Timestamp.SecondText(t.second, millis))
    ensures AllAscii(Timestamp.Pad2(t.month)) && AllAscii(Timestamp.Pad2(t.day))
    ensures AllAscii(Timestamp.Pad2(t.hour)) && AllAscii(Timestamp.Pad2(t.minute))
  {
    DecimalAscii(t.year);
  }

  lemma StampAscii(seconds: nat, fraction: real)
    ensures AllAscii(Timestamp.FromEpoch(seconds, fraction))
  {
    var whole, millis := Timestamp.Rounded(seconds, fraction), Timestamp.Millis(fraction) % 1000;
    Timestamp.GmtimeInverts(whole);
    var t := Timestamp.Gmtime(whole);
    if t.year - 1900 <= Timestamp.INT_MAX {
      PartsAscii(t, millis);
      FieldedAscii(Timestamp.DateFields(t), Timestamp.DATE_FORMAT, Timestamp.SecondText(t.second, millis));
    }
  }

  lemma RxTimeAscii(value: Pmt, stray: Double -> nat)
    ensures var stamp := RxTimeStamp(value, stray); stamp.Some? ==> AllAscii(stamp.value)
  {
    forall seconds: nat, fraction: real
      ensures AllAscii(Timestamp.FromEpoch(seconds, fraction))
    {
      StampAscii(seconds, fraction);
    }
  }

  lemma RxTimeUtf8(value: Pmt, stray: Double -> nat)
    ensures var stamp := RxTimeStamp(value, stray); stamp.Some? ==> IsUtf8(Escaped(stamp.value))
  {
    RxTimeAscii(value, stray);
    var stamp := RxTimeStamp(value, stray);
    if stamp.Some? {
      AsciiIsUtf8(stamp.value);
      EscapedUtf8(stamp.value);
    }
  }

  lemma WrittenUtf8(tag: Tag, key: string, stray: Double -> nat)
    requires KindOf(tag.key) == OfCapture && TagUtf8(tag)
    ensures EntryUtf8(key, Written(tag, key, stray))
  {
    StartUtf8(tag.offset);
    if tag.key.name == TAG_CAPTURE {
      DictTextUtf8(tag.value, key);
    } else if tag.key.name == TAG_RX_FREQ {
      AsciiIsUtf8(KEY_FREQUENCY);
      if ToDouble(tag.value).Some? { NumberUtf8(ToDouble(tag.value).value); }
    } else {
      AsciiIsUtf8(KEY_DATETIME);
      RxTimeUtf8(tag.value, stray);
    }
  }

  lemma {:induction false} LastWrittenUtf8(own: seq<Tag>, key: string, stray: Double -> nat)
    requires forall i :: 0 <= i < |own| ==> KindOf(own[i].key) == OfCapture && TagUtf8(own[i])
    ensures EntryUtf8(key, LastWritten(own, key, stray))
  {
    if own != [] {
      WrittenUtf8(own[|own| - 1], key, stray);
      LastWrittenUtf8(own[..|own| - 1], key, stray);
    }
  }

  lemma {:induction false} TagsAmong(tags: seq<Tag>, offset: nat)
    ensures forall tag :: tag in CaptureTags(tags, offset) ==> tag in tags
    ensures forall tag :: tag in AnnotationTags(tags) ==> tag in tags
  {
    if tags != [] { TagsAmong(tags[..|tags| - 1], offset); }
  }

  lemma TagAnnotation(tag: Tag)
    requires KindOf(tag.key) == OfAnnotation && TagUtf8(tag)
    ensures AnnotationStrings(tag)
  {
    forall key
      ensures EntryUtf8(key, DictText(tag.value, key))
    {
      DictTextUtf8(tag.value, key);
    }
  }

  lemma TagsRunUtf8(tags: seq<Tag>, stray: Double -> nat)
    requires forall tag :: tag in tags ==> TagUtf8(tag)
    ensures RunUtf8(tags, stray)
  {
    forall i | 0 <= i < |AnnotationTags(tags)|
      ensures AnnotationStrings(AnnotationTags(tags)[i])
    {
      TagsAmong(tags, 0);
      TagAnnotation(AnnotationTags(tags)[i]);
    }
    forall offset: nat
      ensures CaptureUtf8(tags, offset, stray)
    {
      TagsAmong(tags, offset);
      var own := CaptureTags(tags, offset);
      forall key
        ensures EntryUtf8(key, LastWritten(own, key, stray))
      {
        LastWrittenUtf8(own, key, stray);
      }
    }
  }

  /** No ill-formed string comes from anywhere else: tags of UTF-8 always make JSON. */
  lemma Utf8RunParses(info: Info, tags: seq<Tag>, stray: Double -> nat, samples: nat)
    requires InfoUtf8(info) && forall tag :: tag in tags ==> TagUtf8(tag)
    ensures var doc := FoldedAll(Initial(info), tags, stray);
      Parse(DocumentText(info, doc, samples)) == Got(DocumentValue(info, doc, samples), "")
  {
    TagsRunUtf8(tags, stray);
    RunParsesIff(info, tags, stray, samples);
  }

  /** One symbol of byte 0xFF, tagged anywhere in an otherwise empty run, and nothing parses. */
  lemma IllFormedTag(info: Info, offset: nat, stray: Double -> nat, samples: nat)
    ensures var tags := [Tag(offset, Symbol("note"), Symbol([0xFF as char]))];
      Parse(DocumentText(info, FoldedAll(Initial(info), tags, stray), samples)) == Stop
  {
    var tag := Tag(offset, Symbol("note"), Symbol([0xFF as char]));
    var tags := [tag];
    NotUtf8();
    assert tags[..0] == [];
    assert AnnotationTags(tags) == [tag];
    assert !AnnotationStrings(AnnotationTags(tags)[0]);
    RunParsesIff(info, tags, stray, samples);
  }
}
