# GNU Radio World: a verified model

GNU Radio World runs GNU Radio flowgraphs in a browser. This project models the
parts of its C++ blocks, and of one of its generators, whose correctness rests on
more than one line of code, and proves in Dafny what they are meant to guarantee.

`dafny verify dfyconfig.toml` checks the whole project.

**Sample transport and decimation.** `ring.dfy` and `ring_protocol.dfy` hold the
single-producer, single-consumer ring that the blocks share with their workers, the
latter as interleaved steps with stale loads; `ring_buffer.dfy` is the ring as one
block uses it, and `ring_refinement.dfy` proves that the first refines the second.
`cic.dfy` relates the wrapping integrators and combs to a moving sum, and
`bb60_source.dfy` builds the decimator and the BB60 source on them.
`audio_sink.dfy`, `audio_source.dfy`, `file_source.dfy` and `file_sink.dfy` are the other
blocks on the ring. `sink_protocol.dfy` and `source_protocol.dfy` are the ends of a recording
and of a file, where the block and its worker meet on a state word.

**SigMF metadata.** `json.dfy` is a reader for RFC 8259 (sections 2 to 8), with the UTF-8 of
RFC 3629 in `unicode.dfy`; `json_text.dfy` and `json_utf8.dfy` prove pieces of JSON text
against it, and `sigmf_json.dfy` proves the printer of tag values. `json_pmt.dfy` is the
reader at the other end and how far it undoes the printer. `timestamp.dfy` is the
timestamp pair over the calendar of section 4.16 of POSIX.1-2017 XBD, and `scanner.dfy`
the `sscanf` conversions it reads with. `meta_model.dfy` says what a run of tags means and `meta_builder.dfy` proves the
document builder; `meta_utf8.dfy` says which runs make JSON and `rx_tags.dfy` what the
receiver's tags leave in a capture. `ordered_map.dfy` is `std::map`.

**Stream rearrangements and constellations.** `streams.dfy` is the deinterleaver and
interleaver; `fec_workers.dfy`, `matrix_interleaver.dfy` and `channelizer.dfy` are
built from them. `bits.dfy`, `gray.dfy`, `constellation.dfy` and `modem.dfy` are the
label maps and the symbol chains.

**Small state machines.** `live_params.dfy` is the memoised walk of the generator,
`js_params.dfy` the parameter handoff of a JavaScript block, and `keyboard.dfy` the
piano keyboard.

Blocks whose methods change fields are classes; each method states its new state in
terms of functions whose properties are proved as lemmas. What the other side of a
shared structure does between two looks of a loop is a parameter of the call (`looks`);
a call that runs out of looks is still inside a bounded wait (`Waiting`).

## What the code does where its comments or tests say otherwise

- A timestamp of the year 10000 or later is printed but not read back: the year field
  scans at most four characters (`Timestamp.RoundTripIff`).
- A timestamp with anything between the seconds and a final `Z` is accepted as if the `Z`
  alone stood there, an offset such as `+05:00Z` included (`Timestamp.TrailingAccepted`,
  `Timestamp.OffsetIgnored`).
- A timestamp whose seconds are `nan`, such as `1970-01-01T00:00:nanZ`, passes the range
  check and is accepted, though it is no instant (`Timestamp.NanAccepted`).
  `Timestamp.UtcOnlyIff` says for every text when the promise is kept.
- Tag keys, tag values and parameters that are not well-formed UTF-8 are written as they
  are, and the text of the metadata is then not JSON (`MetaUtf8.RunParsesIff`,
  `MetaUtf8.IllFormedTag`, `JsonPmt.IllFormedLost`).
- A tag value written to a recording and read back does not print as it did when it holds a
  string that is not UTF-8, a complex number, a dictionary without a symbol key, a negative
  zero, or a whole double below -2^31 (`JsonPmt.TextRoundTripIff`,
  `JsonPmt.WholeDoubleWraps`), and comes back as the same value for fewer kinds still
  (`JsonPmt.SameIff`, `JsonPmt.RecordedSameIff`).
- The decimation split of the BB60 source leaves CIC factors above 4095 for the few
  decimations up to 4118 that have no factor from 2 to 5; for these the int64 reading is
  not exact on all 16-bit input (`Bb60.ZeroOffsetExactIff`); 70 MS/s over 4097 is an
  admitted rate that shows it (`Bb60.AdmittedMisreads`).
- A writer that opens its destination after `stop()` has stored FINISHING stores RUNNING
  over it and never closes the recording (`SinkProtocol.LateOpenStrands`); a `stop()` after
  a writer failure stores FINISHING over ERROR (`SinkProtocol.LateStopHidesError`). A
  recording can be closed exactly when `stop()` finds RUNNING (`SinkProtocol.StopClosesIff`).
- A file source loads the ring's positions before the state word. When the reader publishes
  its last items and stores EOF_REACHED between the two loads, the stream ends without
  them (`SourceProtocol.WholeFileStranded`, `SourceProtocol.EndsWholeIff`).
- The cache of the live-parameter walk is incomplete for helpers that reach each other
  (`LiveParams.SharedCacheExactIff`).
- A JavaScript block with more than 32 numeric parameters delivers parameters that were
  never set, with the value their slots were built with (`JsParams.OnlyGivenIff`,
  `JsParams.WideMaskAliases`).
- The channelizer bypasses its selector for some lists that repeat a channel
  (`Channelizer.DeliversIff`).
- `release_all` zeroes the keyboard's counts while the widget still remembers what is
  held (`Keyboard.PianoKeysWidget.ReleaseAll`).

## Model

| member | source | states |
|---|---|---|
| Cic.CascadeIsBoxcar | blocks/src/bb60_source.cpp:326-345 | Four running sums followed by four combs over unbounded integers equal the four-fold length-R moving sum, at every sample index |
| Cic.CombAppend | blocks/src/bb60_source.cpp:338-345 | A later sample never changes an earlier comb value, so combs can be taken while the integrators run on |
| Cic.SignedExactIff | blocks/src/bb60_source.cpp:346-348 | A 64-bit word read back as int64 gives the original value exactly when that value lies in the int64 range |
| Cic.BoxcarBound | blocks/src/bb60_source.cpp:284-288 | The R-fold moving sum of order k is at most R^k times the peak input |
| Cic.BoxcarOfPeak | blocks/src/bb60_source.cpp:284-288 | A full-scale constant input reaches that bound |
| Cic.ExactIff | blocks/src/bb60_source.cpp:326-348 | For every rate and peak, the wrapped CIC reads out exactly on all inputs within the peak if and only if rate^4 * peak < 2^63 |
| Bb60.DecimatedPrefix | blocks/src/bb60_source.cpp:289-369 | The decimated stream of a prefix is a prefix of the decimated stream: what comes out depends on the ring samples alone, not on how calls cut them |
| Bb60.DecimatedCount | blocks/src/bb60_source.cpp:333-364 | Exactly floor(consumed / (cic * post)) items come out |
| Bb60.DecimatedIsPlain | blocks/src/bb60_source.cpp:326-363 | Within the int64 range the whole chain equals one built on unbounded moving sums |
| Bb60.Decimation | blocks/src/bb60_source.cpp:80-88 | The native rate over the requested one, rounded to the nearest whole number with halves up; refused outside 17 kS/s to 70 MS/s, and never above 4118 |
| Bb60.PostDecim | blocks/src/bb60_source.cpp:95-101 | The smallest factor from 2 to 5 that divides the decimation, or 1 |
| Bb60.ChoosePost | blocks/src/bb60_source.cpp:95-101 | The constructor loop finds that factor |
| Bb60.SplitExactIff | blocks/src/bb60_source.cpp:88-102 | For every decimation the constructor admits, the split CIC is exact on 16-bit input if and only if the decimation is at most 4095 or has a factor from 2 to 5 |
| Bb60.ZeroOffsetExactIff | blocks/src/bb60_source.cpp:80-102 | The same condition on what the ring can hold: at the zero tuning offset every 16-bit recording comes through the CIC exactly if and only if the decimation is at most 4095 or has a factor from 2 to 5 |
| Bb60.HeldPeakMisreads | blocks/src/bb60_source.cpp:326-348 | At a CIC factor of 4097 or more, with the largest positive sample held for five periods, the fifth level the block computes is not that of the moving sum |
| Bb60.AdmittedMisreads | blocks/src/bb60_source.cpp:80-102 | 70 MS/s over 4097 is an admitted rate, is not split, and does not read out exactly |
| Bb60.FilterShape | blocks/src/bb60_source.cpp:104-122 | A bandwidth is refused exactly when it exceeds the output rate; otherwise the cutoff is within its limits and the tap count is odd, from 31 to 191 |
| Bb60.FilterFits | blocks/src/bb60_source.cpp:104-122 | The cutoff is half the bandwidth asked for, four fifths of the output rate when none is, and the taps are the fewest odd number that span what is left to the next channel, or a fortieth of the bandwidth, each within its limits |
| Bb60.Make | blocks/src/bb60_source.cpp:60-132 | The four argument errors, in order, are the only ones; otherwise the block has the decimation, split and taps its arguments call for |
| Bb60.PushSums | blocks/src/bb60_source.cpp:326-331 | The in-place integrator loop computes the stage-by-stage wrapped sums |
| Bb60.Rail.Push | blocks/src/bb60_source.cpp:326-331 | One sample into one rail: the four wrapped words stay the wrapped four-fold prefix sums of everything fed |
| Bb60.Rail.Dump | blocks/src/bb60_source.cpp:336-345 | The comb loop returns the CIC word of the four-fold moving sum ending at the latest sample, and leaves the comb delays one period on |
| Bb60.DotRails | blocks/src/bb60_source.cpp:356-361 | The dot product, rail by rail, is the sum over t of taps[t] times the level t back |
| Bb60.Fir | blocks/src/bb60_source.cpp:356-361 | Walking the circular history backwards computes the dot product of the taps with the latest levels |
| Bb60.Decimator.constructor | blocks/src/bb60_source.cpp:101-124 | A fresh decimator has absorbed nothing, emitted nothing, and holds silence |
| Bb60.Decimator.Dump | blocks/src/bb60_source.cpp:336-348 | A completed CIC block appends one scaled level to the delay line |
| Bb60.Decimator.Advance | blocks/src/bb60_source.cpp:350-363 | The FIR phase emits one output every post levels, and it is the dot product due |
| Bb60.Decimator.Absorb | blocks/src/bb60_source.cpp:313-365 | One mixed sample keeps the whole decimator equal to its reference stream and returns an output exactly when one falls due |
| Bb60.Bb60Source.constructor | blocks/src/bb60_source.cpp:88-132 | The ring holds whole decimation blocks, and the block starts with the split of its decimation, the designed taps and nothing absorbed |
| Bb60.Bb60Source.Absorb | blocks/src/bb60_source.cpp:308-368 | A contiguous stretch goes through in order, stopping just after the output that fills the buffer |
| Bb60.Bb60Source.Process | blocks/src/bb60_source.cpp:301-369 | One pass of the loop consumes at least one sample and releases exactly what it absorbed |
| Bb60.Bb60Source.Pass | blocks/src/bb60_source.cpp:283-370 | One look: with less than a block in the ring the call waits, returns, ends or throws as the state says, otherwise it goes on |
| Bb60.OutputIsFir | blocks/src/bb60_source.cpp:289-364 | On the int64 range every output is, rail by rail, the sum over t of taps[t] times the rail's moving sum t back, at unit gain and full scale 1 |
| Bb60.ZeroOffsetOutputs | blocks/src/bb60_source.cpp:289-364 | At the zero offset with a CIC factor up to 4095 that sum is over the recording itself, and every output is purely real |
| Bb60.HeldOutput | blocks/src/bb60_source.cpp:333-364 | A sample held comes out, once CIC and taps are full, as itself over 32768 times the sum of the taps |
| Bb60.Bb60Source.Work | blocks/src/bb60_source.cpp:261-371 | Whatever the availability, wrap points and buffer sizes, all output so far is the reference decimation of the samples released so far, at the zero offset the taps over their moving sums and purely real, and their count is released / decimation |
| Ring.UsedIsDifference | blocks/src/browser_audio.cpp:130-135 | The number in flight computed from the two wrapped words is the true difference of the counts behind them |
| Ring.AdvancedFits | blocks/src/browser_audio.cpp:137-153 | Advancing a wrapped word keeps it the count modulo the capacity |
| RingProtocol.ProducerCopyInv | blocks/src/browser_audio.cpp:348-361 | A slot copy by the producer overwrites no published, unreleased slot |
| RingProtocol.ConsumerCopyInv | blocks/src/browser_audio.cpp:464-474 | A slot copy by the consumer reads the oldest published item it has not copied |
| RingProtocol.StepKeepsInv | blocks/src/browser_audio.cpp:322-361 | Every step of either side, with a possibly stale load, is safe and keeps the invariant |
| RingProtocol.RunSafe | blocks/src/browser_audio.cpp:130-153 | On every interleaving one slot stays empty, nothing unread is overwritten, nothing unwritten is read, and what was delivered is a prefix of what was published |
| RingProtocol.SomeSideMoves | blocks/src/browser_audio.cpp:322-348 | With fresh loads the two sides are never both stuck |
| RingBuffer.Buffer.constructor | blocks/src/browser_file_sink.cpp:32-36 | A new ring is empty and holds at least two slots |
| RingBuffer.Buffer.Occupied | blocks/src/browser_audio.cpp:130-135 | The items in flight, from the two words |
| RingBuffer.Buffer.Free | blocks/src/browser_audio.cpp:322-324 | The room left, one slot always kept empty |
| RingBuffer.Buffer.View | blocks/src/browser_audio.cpp:464-472 | A contiguous stretch read at the read word is the next unread items |
| RingBuffer.Buffer.Take | blocks/src/browser_audio.cpp:464-474 | One copy out delivers the next items in order and releases them |
| RingBuffer.Buffer.Put | blocks/src/browser_audio.cpp:348-361 | One copy in appends the block and leaves every unread item in place |
| RingBuffer.Buffer.Drain | runner/src/browser_file_writer.js:161-196 | A worker that consumes takes the next items in order, in wrap-limited chunks |
| RingRefinement.Follow | blocks/src/browser_audio.cpp:348-365 | Of the interleaved steps, a publication is one block copy into the buffer and a release one copy out; every other step leaves it as it is |
| RingRefinement.FollowRun | blocks/src/browser_audio.cpp:130-153 | Every interleaved run takes a buffer driven by its publications through the same items and positions, and delivers what the buffer hands out |
| AudioSink.KeptPlusLost | blocks/src/browser_audio.cpp:341-365 | Frames kept and frames lost add up to the frames consumed |
| AudioSink.NothingLost | blocks/src/browser_audio.cpp:325-346 | The lost count is zero exactly when every consumed frame entered the ring |
| AudioSink.Word32Adds | blocks/src/browser_audio.cpp:170-174 | The 32-bit lost-frame word stays the wrapped count of frames lost |
| AudioSink.DueWhole | blocks/src/browser_audio.cpp:287-291 | The frames due are the whole ones the clock has let by |
| AudioSink.CopyChannel | blocks/src/browser_audio.cpp:351-359 | One channel goes to its own slots of the interleaved frames and to no other |
| AudioSink.CopyFrames | blocks/src/browser_audio.cpp:351-359 | The channel-by-channel copy leaves in every slot of the frames the sample of its channel and frame, and changes no other slot |
| AudioSink.BrowserAudioSink.PacedAllowance | blocks/src/browser_audio.cpp:280-299 | The clock lets go by exactly the frames due since the fallback began, and never more than wanted |
| AudioSink.FramesCopied | blocks/src/browser_audio.cpp:350-359 | Seen frame by frame, what the copy loop leaves is a block of input frames in their places and every other frame as it was |
| AudioSink.CopyKeepsFrames | blocks/src/browser_audio.cpp:348-361 | So the interleaved copy is one block put at the write position: every unread frame stays whole and the new ones follow them |
| AudioSink.BrowserAudioSink.Accept | blocks/src/browser_audio.cpp:348-365 | The copy loop and the advance together put the frames into the ring in order, with the samples of every unread frame in its place, and restart the fallback clock |
| AudioSink.BrowserAudioSink.Drop | blocks/src/browser_audio.cpp:341-344 | Dropped frames are counted, modulo 2^32, and nothing else changes |
| AudioSink.BrowserAudioSink.AwaitRead | blocks/src/browser_audio.cpp:334-339 | The watchdog counts waits in which the device took nothing, and forgets them when it takes something |
| AudioSink.BrowserAudioSink.WhenFull | blocks/src/browser_audio.cpp:325-346 | A full ring either waits or lets the clock drop; a device that takes something loses nothing |
| AudioSink.BrowserAudioSink.Pass | blocks/src/browser_audio.cpp:313-366 | One pass of the loop: what it accepts or drops, and how it ends |
| AudioSink.BrowserAudioSink.Work | blocks/src/browser_audio.cpp:301-368 | Every consumed frame, one sample of each input, is in the ring, in order, or counted lost, and the samples of the frames unread lie interleaved in their places; with blocking allowed and a lively device none is lost |
| AudioSource.BrowserAudioSource.Produce | blocks/src/browser_audio.cpp:464-474 | One chunk of the loop outputs the next frames of the ring |
| AudioSource.BrowserAudioSource.Work | blocks/src/browser_audio.cpp:428-476 | The output is the ring stream; frames in hand are returned rather than held, and a call with leave to block returns empty only for an empty buffer |
| FileSource.StableSortedIsStable | blocks/src/browser_file_source.cpp:93-106 | The sorted plan is ordered by offset, and entries that share an offset keep their order |
| FileSource.CursorSplits | blocks/src/browser_file_source.cpp:262-276 | The cursor separates exactly the entries before an offset from the rest |
| FileSource.DueEntries | blocks/src/browser_file_source.cpp:265-276 | The cursor loop emits exactly the entries that fall within the next items, at their stream offsets, in plan order; entries behind a plan set late go on the first item to come |
| FileSource.DueTags | blocks/src/browser_file_source.cpp:246-276 | With the begin tag first when a pass starts |
| FileSource.TagsItemByItem | blocks/src/browser_file_source.cpp:246-295 | Pass by pass or item by item, the tags due are one: each item carries the begin tag if it is its pass's first, then the entries at its place in the file, and the first item under a plan those behind it too |
| FileSource.BeginTags | blocks/src/browser_file_source.cpp:246-252 | The begin tags among them are, when asked for, one for each pass begun, on its first item with its number, and otherwise none |
| FileSource.BegunIff | blocks/src/browser_file_source.cpp:291-295 | A pass is begun if and only if its first item is among those out |
| FileSource.StreamOrdered | blocks/src/browser_file_source.cpp:246-276 | They come in stream order, each begin tag before every other tag of its pass |
| FileSource.TagsGrow | blocks/src/browser_file_source.cpp:246-276 | Tags emitted chunk by chunk add up to the tags of the whole stretch |
| FileSource.PlacedExactly | blocks/src/browser_file_source.cpp:265-276 | Under a plan there from the start of a pass, each entry goes on its own item |
| FileSource.PassCounter.SetTagPlan | blocks/src/browser_file_source.cpp:93-106 | Set at any time, the plan in use is the stable sort of the one given, and counts from the items to come |
| FileSource.PassCounter.EndPass | blocks/src/browser_file_source.cpp:291-295 | A boundary starts the next pass with nothing emitted of it yet |
| FileSource.PassCounter.Count | blocks/src/browser_file_source.cpp:246-295 | Any number of items within the pass keeps position, pass, cursor and tags consistent |
| FileSource.PassCounter.ProgressTracksWork | blocks/src/browser_file_source.cpp:186-206 | One counter gives back the position and pass that work() tracks, a boundary counted as the end of the finished pass |
| FileSource.PassCounter.TagsAreDue | blocks/src/browser_file_source.cpp:246-295 | After any number of items the tags emitted since the plan was set are exactly those of each item in turn |
| FileSource.BrowserFileSource.Produce | blocks/src/browser_file_source.cpp:254-289 | One chunk of the loop outputs the next ring items |
| FileSource.BrowserFileSource.Pass | blocks/src/browser_file_source.cpp:222-296 | One look: with nothing in the ring the call waits, returns, ends or throws as the state says, otherwise it produces |
| FileSource.BrowserFileSource.Work | blocks/src/browser_file_source.cpp:216-298 | Whatever the call sizes and ring chunks, the output is the ring stream and the tags are, item by item, those due between the setting of the plan and the items produced |
| SourceProtocol.StepKeepsInv | blocks/src/browser_file_source.cpp:223-244 | Every step of block, reader or stop() keeps: released within seen within published, and EOF_REACHED stored only over the whole file |
| SourceProtocol.EndsWholeIff | blocks/src/browser_file_source.cpp:223-244 | On every run, when an empty look ends the stream at EOF_REACHED, the whole file has come out if and only if the write position loaded was of the last publication made and none was made before the state was loaded |
| SourceProtocol.WholeFileStranded | runner/src/browser_file_reader.js:230-262 | Any file that fits the ring can be lost whole: all of it is published and EOF_REACHED stored between the two loads |
| SourceProtocol.TailStranded | runner/src/browser_file_reader.js:230-262 | And of a longer file, after a call has returned its beginning, the whole of the rest |
| SourceProtocol.ProducedIsSafe | blocks/src/browser_file_source.cpp:231-238 | A call that has produced something returns it instead, and after that no ending leaves an item behind |
| SourceProtocol.NothingLeftOnceSeen | blocks/src/browser_file_source.cpp:223-238 | Nor does any ending once the block has seen every item published |
| SourceProtocol.StateFirstIsWhole | blocks/src/browser_file_source.cpp:223-244 | Were the state word loaded before the positions, no run would leave an item behind |
| JsonText.StringReads | blocks/src/sigmf_tags.hpp:67-93 | An escaped string reads back as the original bytes, wherever it stands |
| JsonText.EscapeForms | blocks/src/sigmf_tags.hpp:67-93 | Seven characters have a two-character escape, other controls one of six, and everything else stands for itself |
| JsonText.NumberReads | blocks/src/sigmf_tags.hpp:97-104 | A number text reads back as itself, wherever it stands |
| JsonText.DecimalReadsBack | blocks/src/sigmf_tags.hpp:156-159 | A decimal integer reads back as the number it was written from |
| JsonText.ArrayReads | blocks/src/sigmf_tags.hpp:175-184 | Comma-joined items in brackets read back as the array of their values, for any white space between |
| JsonText.ObjectReads | blocks/src/sigmf_tags.hpp:203-209 | Comma-joined members in braces read back as the object of their values, for any white space between |
| JsonText.WholeTextParses | runner/src/registry.cpp:2836-2836 | Text made for a value parses to it if it is UTF-8, and not at all if it is not |
| Unicode.Utf8Joins | blocks/src/sigmf_tags.hpp:67-93 | Before text that starts with ASCII, or ends, a text can be cut and each part judged alone |
| JsonUtf8.EscapeKeepsUtf8 | blocks/src/sigmf_tags.hpp:67-93 | Escaping makes UTF-8 of UTF-8 and of no other bytes |
| JsonUtf8.CodePointWritten | runner/src/registry.cpp:2836-2836 | The reader writes every code point but a surrogate as its one sequence of UTF-8 |
| JsonUtf8.PairReads | runner/src/registry.cpp:2836-2836 | And reads a pair of \u surrogates as the code point they stand for |
| JsonUtf8.LoneSurrogate | runner/src/registry.cpp:2836-2836 | One of them on its own is refused |
| JsonUtf8.ObjectUtf8 | blocks/src/sigmf_tags.hpp:203-209 | An object text is UTF-8 if and only if its keys and its members are |
| OrderedMap.PutAscending | blocks/src/sigmf_tags.hpp:189-202 | Writing a key keeps the map strictly ascending |
| OrderedMap.PutGet | blocks/src/sigmf_tags.hpp:199-202 | A written key reads back its last value and no other key changes |
| OrderedMap.SameContents | blocks/src/sigmf_tags.hpp:199-201 | An ascending map is determined by what it maps keys to |
| SigmfJson.JsonEscape | blocks/src/sigmf_tags.hpp:67-93 | The escaping loop builds the escaped text |
| SigmfJson.UniformVectorJson | blocks/src/sigmf_tags.hpp:109-142 | The comma test on an empty body is enough, because no element prints as nothing |
| SigmfJson.VectorBody | blocks/src/sigmf_tags.hpp:175-184 | The vector loop builds the joined texts |
| SigmfJson.DictMembers | blocks/src/sigmf_tags.hpp:188-202 | The dictionary loop builds the sorted map of encoded members |
| SigmfJson.JoinMembers | blocks/src/sigmf_tags.hpp:203-209 | The member loop joins them in key order |
| SigmfJson.PmtToJson | blocks/src/sigmf_tags.hpp:146-217 | The recursive printer produces the specified text for every value |
| SigmfJson.LastForIff | blocks/src/sigmf_tags.hpp:189-201 | A key's last writer is the last pair with that symbol for its key; anything that is not such a pair writes nothing |
| SigmfJson.DictMeaning | blocks/src/sigmf_tags.hpp:188-202 | Members come out in strict key order, each with the value of its last writer; items that are not symbol-keyed pairs are skipped |
| SigmfJson.DictTextMeaning | blocks/src/sigmf_tags.hpp:188-202 | The same of the encoded members |
| SigmfJson.DictCanonical | blocks/src/sigmf_tags.hpp:199-201 | Two item lists with the same last writers print to the same text |
| SigmfJson.PmtFaithful | blocks/src/sigmf_tags.hpp:146-217 | Every value prints to text that is read, wherever it stands, as exactly its JSON value |
| SigmfJson.TextUtf8 | blocks/src/sigmf_tags.hpp:146-217 | The printed text is UTF-8 if and only if every string printed is: symbols, printed forms, and of a dictionary the keys and their last writers |
| SigmfJson.PmtRoundTrip | blocks/src/sigmf_tags.hpp:146-217 | By RFC 8259 the printed text of any value parses to exactly the value it stands for, with nothing left over, if every string printed is UTF-8, and to nothing otherwise |
| JsonPmt.NumberReturns | runner/src/sigmf_meta.hpp:33-38 | A number read and printed again is the same text if and only if it is not negative zero and not a negative integer below a 32-bit long |
| JsonPmt.Returns | runner/src/sigmf_meta.hpp:27-55 | A JSON value read and printed again is the same if and only if its numbers are, and its objects are not empty and hold their members in strict key order |
| JsonPmt.Settles | runner/src/sigmf_meta.hpp:27-55 | What has been read and printed once comes back the same ever after |
| JsonPmt.KeptIff | blocks/src/sigmf_tags.hpp:146-217 | Which tag values that means: no complex number, no dictionary without a symbol key, no such number, in any place that is printed |
| JsonPmt.SameTextIff | blocks/src/sigmf_tags.hpp:146-217 | Two tag values print to one text if and only if they stand for one JSON value |
| JsonPmt.TextRoundTripIff | runner/src/sigmf_meta.hpp:24-55 | Printed, parsed, read and printed again, a tag value gives the same text if and only if it is one of those and every string it prints is UTF-8 |
| JsonPmt.IllFormedLost | blocks/src/sigmf_tags.hpp:67-93 | A symbol of byte 0xFF prints to text that does not parse, so it comes back as nothing |
| JsonPmt.SecondTripKeeps | runner/src/sigmf_meta.hpp:24-55 | A first trip through a recording gives a value if and only if the strings printed are UTF-8, and a second changes no text |
| JsonPmt.WholeDoubleWraps | runner/src/sigmf_meta.hpp:35-36 | A whole double below a 32-bit long comes back as another integer |
| JsonPmt.SameIff | runner/src/sigmf_meta.hpp:24-55 | Reading undoes printing, kind and all, if and only if every integer is negative, every double is finite and not whole, every dictionary is built in key order, and there is no pair, complex number, uniform vector or unprintable value |
| JsonPmt.RecordedSameIff | runner/src/sigmf_meta.hpp:24-55 | By way of the text, those of them whose strings are UTF-8 and no others |
| JsonPmt.JsonToPmt | runner/src/sigmf_meta.hpp:27-55 | The recursive reader with its vector and dictionary loops computes the value specified |
| Timestamp.PosixFormula | blocks/src/sigmf_tags.hpp:269-276 | Counting days year by year agrees with the closed POSIX formula |
| Timestamp.GmtimeInverts | blocks/src/sigmf_tags.hpp:237-240 | The broken-down time of any instant is a valid date and names that instant |
| Timestamp.TimegmInverts | blocks/src/sigmf_tags.hpp:269-276 | Every valid date comes back from the instant it names |
| Timestamp.FirstDate | blocks/src/sigmf_tags.hpp:237-240 | The first day is 1 January 1970 |
| Timestamp.DatesSucceed | blocks/src/sigmf_tags.hpp:237-240 | Every day is the calendar's next: months 4, 6, 9 and 11 of 30 days, month 2 of 28 or in a leap year 29, the rest of 31 |
| Timestamp.TimegmCarries | blocks/src/sigmf_tags.hpp:269-276 | Days, hours and minutes past their ends carry over |
| Scanner.FieldsScan | blocks/src/sigmf_tags.hpp:260-263 | Fields as wide as their conversions scan back whatever follows |
| Scanner.ExponentReads | blocks/src/sigmf_tags.hpp:260-263 | An exponent multiplies by its power of ten, or after a minus divides by it |
| Scanner.RealKeepsZulu | blocks/src/sigmf_tags.hpp:260-265 | The conversion of the seconds, decimal, hexadecimal, infinity and NaN alike, never takes a final Z |
| Timestamp.LongYearStops | blocks/src/sigmf_tags.hpp:260-263 | A year of five or more digits stops the scan, with or without the plus printed before it |
| Timestamp.SecondScans | blocks/src/sigmf_tags.hpp:256-263 | The printed seconds and milliseconds scan back to the double their value rounds to, leaving the Z |
| Timestamp.StampReadsBack | blocks/src/sigmf_tags.hpp:237-286 | A printed date reads back as its instant up to the year 9999 and is rejected after |
| Timestamp.RoundTripIff | blocks/src/sigmf_tags.hpp:225-286 | For every instant and fraction, print then parse returns the instant rounded to the millisecond, carries included and the fraction as the nearest double, if and only if it falls before the year 10000 |
| Timestamp.RoundTripNearest | blocks/src/sigmf_tags.hpp:227-236 | The instant read back is within half a millisecond, and the error of one double, of the one printed |
| Timestamp.PrintedShape | blocks/src/sigmf_tags.hpp:225-247 | The text of an instant before the year 10000, place by place: YYYY-MM-DDThh:mm:ss.mmmZ with the digits of its date, clock and milliseconds |
| Timestamp.FractionOutside | blocks/src/sigmf_tags.hpp:227-228 | A fraction outside [0, 1) prints as none |
| Timestamp.NoTextIff | blocks/src/sigmf_tags.hpp:237-239 | There is no text exactly for a year that, counted from 1900, 32 bits do not hold |
| Timestamp.TextKeepsZulu | blocks/src/sigmf_tags.hpp:258-265 | The scan never takes a final Z: what it leaves unread ends as the text does |
| Timestamp.UtcOnlyIff | blocks/src/sigmf_tags.hpp:258-286 | For every text, the result is that of a scanner that takes nothing but a Z after the seconds if and only if no more than the Z trails them and they spell a number; the texts accepted are the promised ones, those that trail, and those of a date in range, NaN seconds and a final Z, no others |
| Timestamp.ReadToEndIff | blocks/src/sigmf_tags.hpp:258-286 | An accepted text is read to its end if and only if what the seconds leave is one Z or z |
| Timestamp.TrailingAccepted | blocks/src/sigmf_tags.hpp:258-286 | Any date before the year 10000, whole seconds and any text that ends in Z and does not go on with the number is accepted, as if the Z alone stood there |
| Timestamp.OffsetIgnored | blocks/src/sigmf_tags.hpp:258-286 | +05:00Z names the same instant as Z |
| Timestamp.NanAccepted | blocks/src/sigmf_tags.hpp:278-285 | Any date before the year 10000 with nan for its seconds and any ending in Z is accepted, its seconds a cast C++ leaves open |
| Timestamp.InfinityRejected | blocks/src/sigmf_tags.hpp:278-281 | Infinite seconds of either sign are rejected |
| Timestamp.HexSecondsRead | blocks/src/sigmf_tags.hpp:260-285 | 0x10Z is sixteen seconds, read to the Z |
| MetaModel.MergedMeaning | blocks/src/sigmf_tags.hpp:454-468 | A merged dictionary wins key by key and leaves every other key alone |
| MetaModel.KindByName | blocks/src/sigmf_tags.hpp:326-391 | sigmf:capture, rx_freq and rx_time describe captures, rx_rate nothing, and any other name makes an annotation |
| MetaModel.FoldMeaning | blocks/src/sigmf_tags.hpp:326-391 | For every tag run: the first 100000 annotations asked for, overflow exactly when there were more, and each capture as its own tags make it |
| MetaModel.InterleavingsAgree | blocks/src/sigmf_tags.hpp:326-391 | Any interleaving of the same annotations and the same per-offset capture tags builds the same document |
| MetaModel.DescribedStarts | blocks/src/sigmf_tags.hpp:335-372 | A described capture has sound members and starts where its tag is, whatever a merged dictionary said |
| MetaModel.AnnotatedStarts | blocks/src/sigmf_tags.hpp:344-391 | An annotation has sound members and starts where its tag is |
| MetaModel.FoldedWellFormed | blocks/src/sigmf_tags.hpp:326-391 | One tag keeps the document well formed |
| MetaModel.RunWellFormed | blocks/src/sigmf_tags.hpp:326-391 | So does every run of tags |
| MetaBuilders.InitialWellFormed | blocks/src/sigmf_tags.hpp:303-323 | The document starts with one capture at sample 0 |
| MetaBuilders.OrdinaryAnnotation | blocks/src/sigmf_tags.hpp:379-390 | An ordinary tag becomes exactly four members: core:label, a core:sample_count of 1, its core:sample_start, and its whole value as gnuradio:value |
| MetaBuilders.RateSaid | blocks/src/sigmf_tags.hpp:405-406 | core:sample_rate is said, as the number given, if and only if that is finite and above zero |
| RxTags.DatetimeReadsBack | blocks/src/sigmf_tags.hpp:472-492 | After any run where rx_time wrote last at an offset, core:datetime there is a string that reads back as the instant the tag says, seconds and fraction apart or together, to the millisecond |
| RxTags.NegativeIsSilent | blocks/src/sigmf_tags.hpp:484-487 | A negative count of seconds alone writes nothing |
| RxTags.FrequencyIsTags | blocks/src/sigmf_tags.hpp:357-364 | After any run where rx_freq wrote last, core:frequency is the tag's own number |
| RxTags.FrequencyIsBlocks | blocks/src/sigmf_tags.hpp:303-323 | Until a tag at sample 0 says otherwise, core:frequency of the first capture is the block's centre frequency, and absent when that is not finite |
| RxTags.ThrowsIff | blocks/src/sigmf_tags.hpp:357-372 | Folding a tag throws for a complex number alone, where a number is looked for |
| MetaBuilders.DocumentUtf8 | blocks/src/sigmf_tags.hpp:400-438 | The document text is UTF-8 if and only if the strings of the parameters and every key and text held are |
| MetaBuilders.DocumentParses | blocks/src/sigmf_tags.hpp:400-438 | By RFC 8259 the text of a well-formed document parses to exactly the global, capture and annotation values it holds if those strings are UTF-8, and to nothing otherwise |
| MetaBuilders.EveryRunParses | blocks/src/sigmf_tags.hpp:303-438 | After any tag run the document is well formed, and its text parses to what it holds if and only if the strings in it are UTF-8 |
| MetaUtf8.LastWriterWins | blocks/src/sigmf_tags.hpp:335-372 | A described capture key by key: what the last of its tags to write the key gave it |
| MetaUtf8.WholeAnnotation | blocks/src/sigmf_tags.hpp:344-354 | A sigmf:annotation is its dictionary, key by key, but for where it starts |
| MetaUtf8.AnnotationUtf8 | blocks/src/sigmf_tags.hpp:374-391 | An annotation is of UTF-8 if and only if what its tag prints is |
| MetaUtf8.RunParsesIff | blocks/src/sigmf_tags.hpp:303-438 | Said of the run alone: its document parses if and only if the parameters are UTF-8, every tag among the first 100000 annotations prints UTF-8, and so does the last writer of every key of every capture |
| MetaUtf8.Utf8RunParses | blocks/src/sigmf_tags.hpp:303-438 | Tags and parameters of UTF-8 always make JSON |
| MetaUtf8.IllFormedTag | blocks/src/sigmf_tags.hpp:67-93 | One tag whose symbol is byte 0xFF and nothing of the document parses |
| MetaBuilders.EncodeObject | blocks/src/sigmf_tags.hpp:441-450 | The member loop builds the object text |
| MetaBuilders.EncodeLines | blocks/src/sigmf_tags.hpp:417-436 | The line loop builds the list text, empty list included |
| MetaBuilders.GatherGlobal | blocks/src/sigmf_tags.hpp:402-414 | The global members, the optional ones only when given |
| MetaBuilders.MetaBuilder.constructor | blocks/src/sigmf_tags.hpp:303-323 | A new builder holds the starting document |
| MetaBuilders.MetaBuilder.MergeDict | blocks/src/sigmf_tags.hpp:454-468 | The merge loop |
| MetaBuilders.MetaBuilder.AddTag | blocks/src/sigmf_tags.hpp:326-391 | One call folds one tag, and throws exactly when a conversion to double does, the capture then already opened |
| MetaBuilders.MetaBuilder.Document | blocks/src/sigmf_tags.hpp:400-438 | The document text, which parses to the value of the contents if and only if its strings are UTF-8 |
| SinkProtocol.StepKeepsInv | runner/src/browser_file_writer.js:149-199 | Every step of block or writer keeps: the file with the chunk in hand is what was released, and CLOSED stands only over the whole recording |
| SinkProtocol.ClosedIsComplete | blocks/src/browser_file_sink.cpp:103-153 | On every interleaving, CLOSED means the file holds every accepted item and the metadata posted |
| SinkProtocol.StrandedNeverCloses | runner/src/browser_file_writer.js:149-177 | A stopped recording whose writer will not see FINISHING never closes |
| SinkProtocol.ClosableCloses | runner/src/browser_file_writer.js:151-177 | Otherwise the writer closes it in finitely many of its own steps |
| SinkProtocol.ClosesIff | blocks/src/browser_file_sink.cpp:119-139 | After stop() has stored FINISHING, whatever happened since, the recording can still close if and only if it is closed, or FINISHING still stands and the writer has opened its destination and neither failed nor been ended |
| SinkProtocol.StopClosesIff | blocks/src/browser_file_sink.cpp:111-139 | On every run, when stop() is about to store FINISHING, the recording can still be closed afterwards if and only if the state word reads RUNNING |
| SinkProtocol.LateOpenStrands | runner/src/browser_file_writer.js:147-149 | A stop that overtakes the opening is lost: RUNNING is stored over FINISHING and the recording can never be closed |
| SinkProtocol.LateStopHidesError | blocks/src/browser_file_sink.cpp:111-142 | A stop after the writer has failed stores FINISHING over ERROR, and the recording can never be closed |
| FileSink.StretchesJoin | blocks/src/sigmf_sink.hpp:58-69 | Adjoining windows hold each tag once and in order |
| FileSink.AllTags | blocks/src/sigmf_sink.hpp:58-69 | And a window past the last tag holds all of them |
| FileSink.InSamples | blocks/src/sigmf_sink.hpp:68-68 | A tag's sample is the one its item lies in |
| FileSink.RecordedGrows | blocks/src/sigmf_sink.hpp:58-69 | Folding the tags of the next window continues the fold over the whole stream |
| FileSink.BrowserFileSink.Accept | blocks/src/browser_file_sink.cpp:195-210 | One copy accepts the next items in order |
| FileSink.BrowserFileSink.Fill | blocks/src/browser_file_sink.cpp:170-211 | The loop accepts a prefix of the input in order, all of it unless the writer is gone, and throws only on ERROR |
| FileSink.SigmfSink.constructor | blocks/src/sigmf_sink.hpp:82-102 | A new sink is settled: nothing accepted, nothing folded |
| FileSink.SigmfSink.OnWritten | blocks/src/sigmf_sink.hpp:58-69 | A window folds exactly its own tags, at their offsets in samples |
| FileSink.SigmfSink.Work | blocks/src/browser_file_sink.cpp:163-222 | The windows tile the accepted stream, so between calls each tag on it has been folded exactly once |
| FileSink.SigmfSink.FinishPayload | blocks/src/sigmf_sink.hpp:71-79 | The payload parses to what the tags on the accepted items say, with their count in samples, if and only if the strings in it are UTF-8 |
| Streams.CollectDealt | blocks/src/fec_hier.hpp:94-101 | Round-robin collection undoes dealing, for any number of blocks and ports |
| Streams.DealCollected | blocks/src/blocks_hier.hpp:48-54 | Dealing undoes collection, for ports as a deal leaves them |
| Streams.DealtAt | blocks/src/fec_hier.hpp:94-101 | Port p holds blocks p, p + n, p + 2n and so on |
| Streams.InterleaveUndoes | blocks/src/blocks_hier.hpp:48-54 | Interleaving undoes deinterleaving on whole blocks |
| Streams.DeinterleaveUndoes | blocks/src/blocks_hier.hpp:48-54 | Deinterleaving undoes interleaving on equal ports of whole blocks |
| Bits.AndPredecessor | blocks/src/fec_hier.hpp:107-107 | n & (n - 1) is zero exactly for a power of two |
| FecWorkers.OutputCycles | blocks/src/fec_hier.hpp:93-127 | Whatever the shape, a balanced arrangement gives block j to coder j modulo their number and puts the results back in block order |
| FecWorkers.OrdinaryOrder | blocks/src/fec_hier.hpp:93-102 | The N-way split meets the coders in their own order |
| FecWorkers.TreeOrder | blocks/src/fec_hier.hpp:110-127 | The binary tree meets them in bit-reversed order |
| FecWorkers.ReversedDistinct | blocks/src/fec_hier.hpp:110-127 | In one round no two blocks meet the same coder |
| FecWorkers.BuildFecWorkers | blocks/src/fec_hier.hpp:77-128 | Exactly the errors, shapes and orders of the three arrangements |
| FecWorkers.AgreesIff | blocks/src/fec_hier.hpp:57-61 | An arrangement produces the single worker's stream on every input if and only if each of its coders computes what that worker's does |
| MatrixInterleaver.Wire | blocks/src/blocks_hier.hpp:35-51 | The constructor's errors and wiring |
| MatrixInterleaver.Transposes | blocks/src/blocks_hier.hpp:48-55 | Row r, column c of every frame moves from its place by rows to its place by columns |
| MatrixInterleaver.RestoredUndoes | blocks/src/blocks_hier.hpp:48-55 | Deinterleaving undoes interleaving on whole frames |
| MatrixInterleaver.InterleavedUndoes | blocks/src/blocks_hier.hpp:48-55 | And interleaving undoes deinterleaving |
| MatrixInterleaver.UnitaryIsCopy | blocks/src/blocks_hier.hpp:41-46 | With one row or one column both are the copy the constructor wires |
| MatrixInterleaver.WiringsInverse | blocks/src/blocks_hier.hpp:41-55 | Whichever wiring the constructor chose, the two directions undo each other |
| Gray.CodeBelow | blocks/src/digital_hier.hpp:69-71 | The Gray code of a label stays among the labels |
| Gray.CodeInjective | blocks/src/digital_hier.hpp:69-71 | Distinct labels have distinct codes |
| Gray.DecodedInverts | blocks/src/digital_hier.hpp:76-78 | Every label is a code |
| Gray.NeighboursOneBit | blocks/src/digital_hier.hpp:69-71 | Successive codes differ in exactly one bit |
| Gray.WrapOneBit | blocks/src/digital_hier.hpp:69-71 | So do the last and the first, for every width |
| Gray.FillInverse | blocks/src/digital_hier.hpp:254-256 | The loop inverse[code[i]] = i fills the inverse of any permutation |
| Gray.PermutationCovers | blocks/src/digital_hier.hpp:254-256 | So no entry of the table is left unfilled |
| Gray.InverseIsDecoded | blocks/src/digital_hier.hpp:76-78 | For Gray codes the table holds the decoded label everywhere |
| Constellation.MakePsk | blocks/src/digital_hier.hpp:54-85 | Errors, the order of the points, and the pre-difference code of a PSK constellation |
| Constellation.CircleNeighbours | blocks/src/digital_hier.hpp:69-83 | On the Gray circle neighbouring labels differ in exactly one bit, wrap-around included |
| Constellation.TurnAddsQuarter | blocks/src/digital_hier.hpp:110-127 | A quarter turn moves each differential QAM point to the label a quarter of the labels on |
| Constellation.TurnedDistinct | blocks/src/digital_hier.hpp:110-127 | Differential QAM points are distinct |
| Constellation.GridDistinct | blocks/src/digital_hier.hpp:128-139 | Grid QAM points are distinct, Gray coded or not |
| Constellation.GridLabelStands | blocks/src/digital_hier.hpp:128-139 | The label of column x, row y stands at column x, row y |
| Constellation.PlainLabelStands | blocks/src/digital_hier.hpp:128-139 | Without the Gray code too, counted along the rows |
| Constellation.TurnedLabelStands | blocks/src/digital_hier.hpp:110-127 | And in the first quadrant of the differential layout |
| Constellation.GridCentred | blocks/src/digital_hier.hpp:132-135 | The grid runs from -1 to 1 in equal steps and is the same from either end |
| Constellation.QuadrantCentred | blocks/src/digital_hier.hpp:113-116 | A quadrant's grid ends at 1 and starts half a step from the axis |
| Constellation.GridNeighbours | blocks/src/digital_hier.hpp:128-139 | On the Gray grid neighbours along a row or a column differ in exactly one bit |
| Constellation.FourIff | blocks/src/digital_hier.hpp:96-100 | The constructor's test accepts exactly the powers of four from 4 up |
| Constellation.MakeQam | blocks/src/digital_hier.hpp:92-144 | Errors and points of a QAM constellation |
| Modem.EncodedAt | blocks/src/digital_hier.hpp:189-190 | The differential encoder adds modulo the arity |
| Modem.DecodedAt | blocks/src/digital_hier.hpp:250-251 | The differential decoder subtracts modulo the arity |
| Modem.ModulatorChain | blocks/src/digital_hier.hpp:186-190 | The stages the modulator appends |
| Modem.MadeIsValid | blocks/src/digital_hier.hpp:54-85 | The code a constellation is made with is none or a permutation of its labels, as the chains ask |
| Modem.DemodulatorChain | blocks/src/digital_hier.hpp:250-258 | The stages the demodulator appends, with the inverse of the code |
| Modem.UnrotatedReturns | blocks/src/digital_hier.hpp:186-258 | Unrotated, every combination of code and encoding returns every symbol |
| Modem.MovedRecovers | blocks/src/digital_hier.hpp:186-258 | With every label moved by a constant, a symbol comes back if and only if it is not the first or the constant is a multiple of the arity |
| Modem.RotationProof | blocks/src/digital_hier.hpp:110-127 | Turning a constellation that a turn only relabels moves every label by a constant, so every symbol after the first comes back, and the first exactly when the turns come round |
| Modem.PskTurns | blocks/src/digital_hier.hpp:63-75 | A differential PSK constellation is such a one |
| Modem.QamTurns | blocks/src/digital_hier.hpp:110-127 | And so is a differential QAM one |
| LiveParams.Reader.FromBody | runner/gen_registry.py:204-212 | The recursive walk over the shared cache terminates and computes the specified walk |
| LiveParams.Reader.ReadFactories | runner/gen_registry.py:214-219 | All factories in turn over one cache |
| LiveParams.WalkSound | runner/gen_registry.py:204-212 | Everything found or cached is set by a helper that is reached |
| LiveParams.WalkCovers | runner/gen_registry.py:204-212 | Everything newly cached calls only cached helpers or helpers on the path, and contributes its own setters |
| LiveParams.FirstIsExact | runner/gen_registry.py:204-216 | Over an empty cache the result is exactly what is live, on any call graph |
| LiveParams.WalkComplete | runner/gen_registry.py:204-212 | Without mutual recursion everything cached is complete |
| LiveParams.NothingExtra | runner/gen_registry.py:196-219 | On every call graph nothing is reported live that is not |
| LiveParams.NothingMissed | runner/gen_registry.py:196-219 | Without mutual recursion nothing live is missed |
| LiveParams.MutualMisses | runner/gen_registry.py:209-211 | Two helpers that reach each other give a setter and two factories for which the second result is incomplete |
| LiveParams.SharedCacheExactIff | runner/gen_registry.py:196-219 | The shared cache is exact for all factories and setters if and only if no two distinct helpers reach each other |
| JsParams.StepKeepsInv | blocks/src/js_block.hpp:113-118 | Every step keeps what was delivered the value its count says, each value given delivered, marked, taken or about to be marked, and no delivery goes back to an older value |
| JsParams.NoUpdateLost | blocks/src/js_block.hpp:106-118 | On every interleaving, at rest, what was last delivered for each parameter given a value is the last value given |
| JsParams.DrainSettles | blocks/src/js_block.hpp:448-457 | One undisturbed drain delivers the last value of everything given one |
| JsParams.NothingUnasked | blocks/src/js_block.hpp:448-457 | With at most 32 numeric parameters only parameters given a value are delivered |
| JsParams.UnaskedIsInitial | blocks/src/js_block.hpp:448-457 | On every run a parameter never given a value is delivered, if at all, with the value its slot was built with |
| JsParams.WideMaskAliases | blocks/src/js_block.hpp:450-455 | With more, setting the first delivers the 33rd, which nobody set, with the value its slot was built with |
| JsParams.OnlyGivenIff | blocks/src/js_block.hpp:448-457 | Only given parameters are delivered on every run if and only if there are at most 32 |
| Keyboard.NoteState.PressRoot | blocks/src/musical_keyboard_synth.hpp:78-85 | A press counts, and the first captures the selected chord |
| Keyboard.NoteState.ReleaseRoot | blocks/src/musical_keyboard_synth.hpp:87-95 | A release uncounts, and never below zero |
| Keyboard.SinceIsLast | blocks/src/musical_keyboard_synth.hpp:78-95 | Over any sequence of presses, releases, selections and silencings, a held root has one last press that found it unheld, and is held from then on without a break |
| Keyboard.NoteState.HeldChord | blocks/src/musical_keyboard_synth.hpp:78-95 | A held root keeps the chord that was selected when it last went from unheld to held, whatever has happened |
| Keyboard.IntervalsSpelt | blocks/src/musical_keyboard_synth.hpp:33-55 | The semitones each kind of chord sounds above its root |
| Keyboard.AddChord | blocks/src/musical_keyboard_synth.hpp:113-117 | One root's chord laid over the notes |
| Keyboard.NoteState.Snap | blocks/src/musical_keyboard_synth.hpp:103-120 | A root shows if and only if it is counted; a note sounds if and only if some counted root's captured chord names it |
| Keyboard.PianoKeysWidget.constructor | blocks/src/musical_keyboard_source.hpp:35-48 | The first note clamped to 0 to 120, the last 12 notes on for each of 1 to 5 octaves and at most 127, and nothing held |
| Keyboard.PianoKeysWidget.NoteForKey | blocks/src/musical_keyboard_source.hpp:280-303 | The key k places along A W S E D F T G Y H U J K is the note k above the first, if that is not past the last; any other key is none |
| Keyboard.PianoKeysWidget.SetMouseNote | blocks/src/musical_keyboard_source.hpp:305-315 | Pointer events keep every count equal to the inputs holding the root |
| Keyboard.PianoKeysWidget.KeyPress | blocks/src/musical_keyboard_source.hpp:129-144 | A press of such a key, not repeated and not held already, counts its note once more; any other press changes no count; and counts stay those of the inputs held |
| Keyboard.PianoKeysWidget.KeyRelease | blocks/src/musical_keyboard_source.hpp:146-161 | So do key releases |
| Keyboard.PianoKeysWidget.FocusOut | blocks/src/musical_keyboard_source.hpp:163-172 | So does losing the focus, which lets every key go |
| Keyboard.PianoKeysWidget.LiftTouches | blocks/src/musical_keyboard_source.hpp:192-196 | Lifted and moved touches release exactly their roots |
| Keyboard.PianoKeysWidget.LandTouches | blocks/src/musical_keyboard_source.hpp:197-201 | New and moved touches press exactly theirs, capturing chords only for roots nothing held throughout |
| Keyboard.TouchingIff | blocks/src/musical_keyboard_source.hpp:181-191 | The touches on keys: of the points with an id the last one there and on a key |
| Keyboard.PianoKeysWidget.TouchEvent | blocks/src/musical_keyboard_source.hpp:174-206 | Any touch event keeps the counts equal to the holders |
| Keyboard.PianoKeysWidget.ReleaseAll | blocks/src/musical_keyboard_synth.hpp:97-101 | Releasing all leaves the counts right if and only if nothing was held |
| Keyboard.PianoKeysWidget.Show | blocks/src/musical_keyboard_synth.hpp:103-120 | What shows and sounds in terms of the inputs held, each root with the chord selected at its press, silence when none is, and one root alone its chord's notes: for a major triad 0, 4 and 7 above, for a minor one 0, 3 and 7 |
| Channelizer.Padded | blocks/src/filter_hier.hpp:208-210 | The prototype padded with zeros to a whole number of taps per channel |
| Channelizer.ChannelTaps | blocks/src/filter_hier.hpp:212-216 | A channel's taps are its share of the prototype, reversed |
| Channelizer.TapsReinterleave | blocks/src/filter_hier.hpp:208-216 | Turned back and taken in turn, the channels' taps are the padded prototype |
| Channelizer.BankSizes | blocks/src/filter_hier.hpp:218-224 | Bank sizes cover the channels and differ by at most one, the larger first |
| Channelizer.SpreadBanks | blocks/src/filter_hier.hpp:226-245 | The splitter and combiner mappings match each other, and each bank gets the taps of the channels the splitter sends it |
| Channelizer.CombineUndoesSplit | blocks/src/filter_hier.hpp:247-252 | The combiner after the splitter is the identity on channels |
| Channelizer.EveryChannelItsTaps | blocks/src/filter_hier.hpp:232-263 | From the splitter through the banks to the combiner, whatever the filters compute, place i holds channel i filtered by channel i's own taps |
| Channelizer.BypassIsIdentity | blocks/src/filter_hier.hpp:265-278 | The lists that bypass the selector without a repeat are every channel in order, and no other |
| Channelizer.DeliversIff | blocks/src/filter_hier.hpp:265-280 | The outputs are the channels asked for on every input, unless the list is as long as there are channels, starts at 0, never falls and repeats one |
| Channelizer.RepeatSlipsThrough | blocks/src/filter_hier.hpp:265-267 | 0, 0, 2, 3 of four channels is a list that bypasses it with a repeat |
| Channelizer.Build | blocks/src/filter_hier.hpp:193-245 | The constructor's errors, taps, banks with their own channels' taps, and outputs |

## Left out

- Floating point: samples after mixing are integers, levels and taps are reals; rotator rounding and drift and the values of FIR taps are not modelled, and the mixer is any function of the sample's index and value.
- Retuning: the BB60 model covers a run at one tuning offset, and its command mailboxes are not modelled.
- The text `%.17g` produces: a double carries its own number text, assumed to be a JSON number, and its value.
- Timestamp.ToEpoch: the double a decimal or hexadecimal text rounds to is a parameter, taken to be the nearest one where that matters; the year, month, day, hour and minute are unbounded integers of their field's width.
- Timestamp.Millis: the arithmetic that rounds a fraction to milliseconds is over reals.
- Bb60.Make: the tap design is a function of the cutoff, the tap count and the CIC factor, assumed to return as many taps as asked.
- JsonPmt.FromJson: the double a text reads as is a parameter.
- FileSink.SigmfSink.FinishPayload: on its way to the writer the payload becomes a JavaScript string, in which ill-formed bytes are replaced; `UTF8ToString` is not part of this model, and neither is what such a document then says.
- SinkProtocol.StopClosesIff: the fifteen seconds that stop() waits are not timed; the end of the worker may come at any time after.
- Timestamp.FromEpoch: seconds of 2^63 or more, which wrap to a negative `time_t`, are not modelled, and neither is the wrap of the 64-bit second counter.
- MetaModel.ToUnsigned: the cast of a double that does not fit an unsigned 64-bit integer is left open in C++; the result is a parameter.
- MetaBuilders.GatherGlobal: the keys and fixed strings of the global object are written through the escaper rather than as literals; the text is the same.
- AudioSink.BrowserAudioSink.Work: the ring is held twice, frame by frame and as the interleaved samples the code writes; the signed overflow of the lost-frame word, open in C++, is taken to wrap.
- AudioSource.BrowserAudioSource.Work: a frame is one item of the ring, its channels not told apart; the one-time notice after twenty silent waits is logging and not modelled.
- Byte sizes: ring items are opaque, so the conversion between item sizes and bytes, and the ring's capacity in bytes, are not modelled.
- The other radio blocks (RTL-SDR, HackRF, Pluto, network sources), which repeat the ring with other sample conversions.
- The scheduler, message ports, logging and device reports; a block's `work()` is called with any input and buffer sizes.
- FecWorkers.OutputCycles: streams are finite, and a part of a block at the end is not processed, as the leaf blocks do.
- Modem.RotationProof: the receiver decides on the exact point that arrives; filtering, timing, carrier loops and noise are not modelled. PSK points are phases in steps of the circle rather than rounded sines.
- Constellation.MakeQam: the side of the grid is the exact power of two, which the rounded square root of a power of four is.
- JsParams.StepKeepsInv: a stored double is one step, and `1u << i` for i of 32 or more takes the shift count modulo 32, as on WebAssembly.
- LiveParams.Walk: a helper's calls and own setters are given; the regular expressions that find them in C++ text are not modelled, and a set is iterated in any fixed order.
- Keyboard.PianoKeysWidget.FocusOut: keys are let go one at a time, which ends in the same state as releasing all and then clearing the map.
- Keyboard.PianoKeysWidget.SetMouseNote: the key under a pointer is a parameter; painting and geometry are not modelled, nor are the synthesizer's oscillators and envelopes.
- Channelizer.EveryChannelItsTaps: what a filter of given taps computes is any function of what its channel has carried; the Fourier transform between the combiner and the selector is not modelled.
- SourceProtocol.StepKeepsInv: a source that repeats its file never stores EOF_REACHED, and is not covered; the contents of the ring are RingProtocol's.
- Qt widgets, maps, video and spectrum displays, the editor, palette and documentation generation.
