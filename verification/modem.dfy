/**
 The symbol chains of digital_hier.hpp: pre-difference map, differential encoder
 and points on the way out; decision, differential decoder and inverse map back.
 */
module Modem {
  import opened Arithmetic
  import opened Bits
  import opened Sequences
  import Gray
  import C = Constellation

  /** What the constructors append to their chains, between symbols and points. */
  datatype Stage = Map(code: seq<nat>) | DiffEncode(arity: nat) | DiffDecode(arity: nat)

  ghost predicate Accepts(stage: Stage, symbols: seq<nat>, arity: nat) {
    && (forall n :: 0 <= n < |symbols| ==> symbols[n] < arity)
    && (stage.Map? ==> |stage.code| == arity && forall i :: 0 <= i < arity ==> stage.code[i] < arity)
    && (stage.DiffEncode? ==> stage.arity == arity > 0)
    && (stage.DiffDecode? ==> stage.arity == arity > 0)
  }

  function Mapped(code: seq<nat>, symbols: seq<nat>): (out: seq<nat>)
    requires forall n :: 0 <= n < |symbols| ==> symbols[n] < |code|
    ensures |out| == |symbols|
    ensures forall n :: 0 <= n < |out| ==> out[n] == code[symbols[n]]
  {
    if symbols == [] then []
    else Mapped(code, symbols[..|symbols| - 1]) + [code[symbols[|symbols| - 1]]]
  }

  /** The output before position n, which starts from 0. */
  function Previous(out: seq<nat>, n: nat): nat
    requires n <= |out|
  {
    if n == 0 then 0 else out[n - 1]
  }

  /** diff_encoder_bb: each output is the input added to the output before it. */
  function Encoded(symbols: seq<nat>, arity: nat): (out: seq<nat>)
    requires 0 < arity
    ensures |out| == |symbols| && forall n :: 0 <= n < |out| ==> out[n] < arity
  {
    if symbols == [] then []
    else
      var n := |symbols| - 1;
      var before := Encoded(symbols[..n], arity);
      before + [(symbols[n] + Previous(before, n)) % arity]
  }

  /** diff_decoder_bb: each output is the input less the input before it. */
  function Decoded(labels: seq<nat>, arity: nat): (out: seq<nat>)
    requires 0 < arity
    ensures |out| == |labels| && forall n :: 0 <= n < |out| ==> out[n] < arity
  {
    if labels == [] then []
    else
      var n := |labels| - 1;
      Decoded(labels[..n], arity) + [(labels[n] - Previous(labels, n)) % arity]
  }

  lemma {:induction false} EncodedAt(symbols: seq<nat>, arity: nat, n: nat)
    requires 0 < arity && n < |symbols|
    ensures Encoded(symbols, arity)[n] == (symbols[n] + Previous(Encoded(symbols, arity), n)) % arity
  {
    if n < |symbols| - 1 { EncodedAt(symbols[..|symbols| - 1], arity, n); }
  }

  lemma {:induction false} DecodedAt(labels: seq<nat>, arity: nat, n: nat)
    requires 0 < arity && n < |labels|
    ensures Decoded(labels, arity)[n] == (labels[n] - Previous(labels, n)) % arity
  {
    if n < |labels| - 1 { DecodedAt(labels[..|labels| - 1], arity, n); }
  }

  function Through(stage: Stage, symbols: seq<nat>, arity: nat): (out: seq<nat>)
    requires Accepts(stage, symbols, arity)
    ensures |out| == |symbols| && forall n :: 0 <= n < |out| ==> out[n] < arity
  {
    match stage
    case Map(code) => Mapped(code, symbols)
    case DiffEncode(_) => Encoded(symbols, arity)
    case DiffDecode(_) => Decoded(symbols, arity)
  }

  ghost predicate AcceptsAll(chain: seq<Stage>, arity: nat) {
    forall i :: 0 <= i < |chain| ==> Accepts(chain[i], [], arity)
  }

  /** A chain of stages, each fed by the one before. */
  function Run(chain: seq<Stage>, symbols: seq<nat>, arity: nat): (out: seq<nat>)
    requires AcceptsAll(chain, arity) && forall n :: 0 <= n < |symbols| ==> symbols[n] < arity
    ensures |out| == |symbols| && forall n :: 0 <= n < |out| ==> out[n] < arity
  {
    if chain == [] then symbols
    else
      assert Accepts(chain[0], [], arity);
      Run(chain[1..], Through(chain[0], symbols, arity), arity)
  }

  // ---- building the chains ----------------------------------------------------------------

  /** A constellation's pre-difference code: none, or a permutation of its labels. */
  ghost predicate ValidCode(preDiff: seq<nat>, arity: nat) {
    preDiff == [] || (|preDiff| == arity && Gray.Permutation(preDiff))
  }

  /** What a constellation is made with: no code, or the Gray code of its labels. */
  lemma MadeIsValid(preDiff: seq<nat>, k: nat)
    requires preDiff == [] || preDiff == Gray.Codes(PowerOfTwo(k))
    ensures ValidCode(preDiff, PowerOfTwo(k))
  {
    Gray.CodesPermute(k);
  }

  /** What stands between symbols and labels, and between labels and symbols. */
  function Outgoing(preDiff: seq<nat>, differential: bool, arity: nat): seq<Stage> {
    (if preDiff == [] then [] else [Map(preDiff)]) + (if differential then [DiffEncode(arity)] else [])
  }

  function Incoming(inverse: seq<nat>, differential: bool, arity: nat): seq<Stage> {
    (if differential then [DiffDecode(arity)] else []) + (if inverse == [] then [] else [Map(inverse)])
  }

  ghost predicate Undoes(preDiff: seq<nat>, inverse: seq<nat>) {
    && Gray.Inverse(preDiff, inverse)
    && forall v :: 0 <= v < |inverse| ==> inverse[v] < |preDiff|
  }

  method ModulatorChain(preDiff: seq<nat>, differential: bool, arity: nat) returns (chain: seq<Stage>)
    requires 0 < arity && ValidCode(preDiff, arity)
    ensures chain == Outgoing(preDiff, differential, arity)
    ensures AcceptsAll(chain, arity)
  {
    chain := [];
    if preDiff != [] { chain := chain + [Map(preDiff)]; }
    if differential { chain := chain + [DiffEncode(arity)]; }
  }

  method DemodulatorChain(preDiff: seq<nat>, differential: bool, arity: nat)
    returns (chain: seq<Stage>, inverse: seq<nat>)
    requires 0 < arity && ValidCode(preDiff, arity)
    ensures Undoes(preDiff, inverse)
    ensures chain == Incoming(inverse, differential, arity)
    ensures AcceptsAll(chain, arity)
  {
    chain, inverse := [], [];
    if differential { chain := chain + [DiffDecode(arity)]; }
    if preDiff != [] {
      inverse := Gray.FillInverse(preDiff);
      chain := chain + [Map(inverse)];
    }
  }

  // ---- a rotation on the way ------------------------------------------------------------------

  /** Every label moved on by the same amount. */
  function Moved(labels: seq<nat>, shift: nat, arity: nat): (out: seq<nat>)
    requires 0 < arity
    ensures |out| == |labels| && Below(out, arity)
  {
    if labels == [] then []
    else Moved(labels[..|labels| - 1], shift, arity) + [(labels[|labels| - 1] + shift) % arity]
  }

  lemma {:induction false} MovedAt(labels: seq<nat>, shift: nat, arity: nat, n: nat)
    requires 0 < arity && n < |labels|
    ensures Moved(labels, shift, arity)[n] == (labels[n] + shift) % arity
  {
    if n < |labels| - 1 { MovedAt(labels[..|labels| - 1], shift, arity, n); }
  }

  /** The difference of two moved labels is the symbol that was added. */
  lemma DifferenceRecovers(symbol: nat, last: nat, shift: nat, arity: nat, a: nat, b: nat)
    requires 0 < arity && symbol < arity
    requires a == ((symbol + last) % arity + shift) % arity && b == (last + shift) % arity
    ensures (a - b) % arity == symbol
  {
    var sum := symbol + last;
    WholePart(sum, arity);
    WholePart(sum % arity + shift, arity);
    WholePart(last + shift, arity);
    var turns := (last + shift) / arity - sum / arity - (sum % arity + shift) / arity;
    Gathered(sum / arity, (sum % arity + shift) / arity, (last + shift) / arity, arity);
    ModUnique(a - b, arity, turns, symbol);
  }

  lemma Gathered(x: int, y: int, z: int, m: nat)
    ensures (z - x - y) * m == z * m - x * m - y * m
  {
  }

  lemma FirstShifted(symbol: nat, shift: nat, arity: nat, sent: nat, moved: nat, out: nat)
    requires 0 < arity && symbol < arity
    requires sent == symbol % arity && moved == (sent + shift) % arity && out == moved % arity
    ensures out == (symbol + shift) % arity
  {
    ModUnique(symbol, arity, 0, symbol);
    ModUnique(moved, arity, 0, moved);
  }

  /** Decoding the moved stream gives back every symbol after the first. */
  lemma LaterRecovered(symbols: seq<nat>, shift: nat, arity: nat, n: nat)
    requires 0 < arity && 0 < n < |symbols| && symbols[n] < arity
    ensures Decoded(Moved(Encoded(symbols, arity), shift, arity), arity)[n] == symbols[n]
  {
    var sent := Encoded(symbols, arity);
    var moved := Moved(sent, shift, arity);
    EncodedAt(symbols, arity, n);
    DecodedAt(moved, arity, n);
    MovedAt(sent, shift, arity, n);
    MovedAt(sent, shift, arity, n - 1);
    DifferenceRecovers(symbols[n], sent[n - 1], shift, arity, moved[n], moved[n - 1]);
  }

  lemma FirstMoved(symbols: seq<nat>, shift: nat, arity: nat)
    requires 0 < arity && symbols != [] && symbols[0] < arity
    ensures Decoded(Moved(Encoded(symbols, arity), shift, arity), arity)[0] == (symbols[0] + shift) % arity
  {
    var sent := Encoded(symbols, arity);
    var moved := Moved(sent, shift, arity);
    EncodedAt(symbols, arity, 0);
    DecodedAt(moved, arity, 0);
    MovedAt(sent, shift, arity, 0);
    FirstShifted(symbols[0], shift, arity, sent[0], moved[0], Decoded(moved, arity)[0]);
  }

  lemma ShiftIsNone(symbol: nat, shift: nat, arity: nat)
    requires 0 < arity && symbol < arity
    ensures (symbol + shift) % arity == symbol <==> shift % arity == 0
  {
    WholePart(shift, arity);
    var r := shift % arity;
    if symbol + r < arity {
      ModUnique(symbol + shift, arity, shift / arity, symbol + r);
    } else {
      ModUnique(symbol + shift, arity, shift / arity + 1, symbol + r - arity);
    }
  }

  // ---- the whole way, differentially ---------------------------------------------------------------

  ghost predicate Below(symbols: seq<nat>, arity: nat) {
    forall n :: 0 <= n < |symbols| ==> symbols[n] < arity
  }

  /** The symbols that reach the differential encoder. */
  function Coded(preDiff: seq<nat>, symbols: seq<nat>): (out: seq<nat>)
    requires preDiff == [] || Below(symbols, |preDiff|)
    ensures |out| == |symbols|
  {
    if preDiff == [] then symbols else Mapped(preDiff, symbols)
  }

  lemma OutgoingIs(preDiff: seq<nat>, differential: bool, arity: nat, symbols: seq<nat>)
    requires 0 < arity && ValidCode(preDiff, arity) && Below(symbols, arity)
    ensures AcceptsAll(Outgoing(preDiff, differential, arity), arity)
    ensures Below(Coded(preDiff, symbols), arity)
    ensures Run(Outgoing(preDiff, differential, arity), symbols, arity)
         == if differential then Encoded(Coded(preDiff, symbols), arity) else Coded(preDiff, symbols)
  {
    var chain := Outgoing(preDiff, differential, arity);
    if preDiff == [] {
      if differential { OneStage(DiffEncode(arity), symbols, arity); assert chain == [DiffEncode(arity)]; }
    } else if differential {
      OneStage(DiffEncode(arity), Mapped(preDiff, symbols), arity);
      assert chain[1..] == [DiffEncode(arity)];
    } else {
      OneStage(Map(preDiff), symbols, arity);
      assert chain == [Map(preDiff)];
    }
  }

  lemma OneStage(stage: Stage, symbols: seq<nat>, arity: nat)
    requires Accepts(stage, symbols, arity) && Below(symbols, arity)
    ensures AcceptsAll([stage], arity) && Run([stage], symbols, arity) == Through(stage, symbols, arity)
  {
    assert [stage][1..] == [];
  }

  lemma IncomingIs(inverse: seq<nat>, differential: bool, arity: nat, labels: seq<nat>)
    requires 0 < arity && Below(labels, arity)
    requires inverse != [] ==> |inverse| == arity && Below(inverse, arity)
    ensures AcceptsAll(Incoming(inverse, differential, arity), arity)
    ensures Run(Incoming(inverse, differential, arity), labels, arity)
         == Coded(inverse, if differential then Decoded(labels, arity) else labels)
  {
    var chain := Incoming(inverse, differential, arity);
    if !differential {
      if inverse != [] { OneStage(Map(inverse), labels, arity); assert chain == [Map(inverse)]; }
    } else if inverse == [] {
      OneStage(DiffDecode(arity), labels, arity);
      assert chain == [DiffDecode(arity)];
    } else {
      OneStage(Map(inverse), Decoded(labels, arity), arity);
      assert chain[1..] == [Map(inverse)];
    }
  }

  /** One symbol of the differential link, before the inverse map. */
  lemma CodedRecovers(coded: seq<nat>, arity: nat, shift: nat, n: nat)
    requires 0 < arity && Below(coded, arity) && n < |coded|
    ensures Decoded(Moved(Encoded(coded, arity), shift, arity), arity)[n] == coded[n] <==> n > 0 || shift % arity == 0
  {
    if n > 0 {
      LaterRecovered(coded, shift, arity, n);
    } else {
      FirstMoved(coded, shift, arity);
      ShiftIsNone(coded[0], shift, arity);
    }
  }

  /**
   Labels moved by a rotation: every symbol after the first still arrives, and the
   first does exactly when the rotation is none.
   */
  lemma MovedRecovers(preDiff: seq<nat>, inverse: seq<nat>, arity: nat, symbols: seq<nat>, shift: nat, n: nat)
    requires 0 < arity && ValidCode(preDiff, arity) && Undoes(preDiff, inverse)
    requires Below(symbols, arity) && n < |symbols|
    ensures AcceptsAll(Outgoing(preDiff, true, arity), arity) && AcceptsAll(Incoming(inverse, true, arity), arity)
    ensures var sent := Run(Outgoing(preDiff, true, arity), symbols, arity);
      var back := Run(Incoming(inverse, true, arity), Moved(sent, shift, arity), arity);
      back[n] == symbols[n] <==> n > 0 || shift % arity == 0
  {
    OutgoingIs(preDiff, true, arity, symbols);
    var coded := Coded(preDiff, symbols);
    var moved := Moved(Encoded(coded, arity), shift, arity);
    IncomingIs(inverse, true, arity, moved);
    CodedRecovers(coded, arity, shift, n);
    if preDiff != [] { InverseApart(preDiff, inverse, symbols[n], Decoded(moved, arity)[n]); }
  }

  /** The inverse map returns a symbol only from its own code. */
  lemma InverseApart(preDiff: seq<nat>, inverse: seq<nat>, symbol: nat, v: nat)
    requires Gray.Permutation(preDiff) && Undoes(preDiff, inverse) && symbol < |preDiff| && v < |inverse|
    ensures inverse[v] == symbol <==> v == preDiff[symbol]
  {
    Gray.PermutationCovers(preDiff, v);
  }

  lemma {:induction false} MovedNowhere(labels: seq<nat>, arity: nat)
    requires 0 < arity && Below(labels, arity)
    ensures Moved(labels, 0, arity) == labels
  {
    if labels != [] {
      var n := |labels| - 1;
      MovedNowhere(labels[..n], arity);
      ModUnique(labels[n], arity, 0, labels[n]);
    }
  }

  /** With nothing on the way, every combination of code and encoding returns every symbol. */
  lemma UnrotatedReturns(preDiff: seq<nat>, inverse: seq<nat>, differential: bool, arity: nat, symbols: seq<nat>)
    requires 0 < arity && ValidCode(preDiff, arity) && Undoes(preDiff, inverse) && Below(symbols, arity)
    ensures AcceptsAll(Outgoing(preDiff, differential, arity), arity)
    ensures AcceptsAll(Incoming(inverse, differential, arity), arity)
    ensures Run(Incoming(inverse, differential, arity),
                Run(Outgoing(preDiff, differential, arity), symbols, arity), arity) == symbols
  {
    var coded := Coded(preDiff, symbols);
    OutgoingIs(preDiff, differential, arity, symbols);
    CodeReturns(preDiff, inverse, arity, symbols);
    if differential {
      IncomingIs(inverse, true, arity, Encoded(coded, arity));
      EncodedReturns(coded, arity);
    } else {
      IncomingIs(inverse, false, arity, coded);
    }
  }

  /** The inverse map returns every symbol the code took. */
  lemma CodeReturns(preDiff: seq<nat>, inverse: seq<nat>, arity: nat, symbols: seq<nat>)
    requires ValidCode(preDiff, arity) && Undoes(preDiff, inverse) && Below(symbols, arity)
    ensures inverse == [] || Below(Coded(preDiff, symbols), |inverse|)
    ensures Coded(inverse, Coded(preDiff, symbols)) == symbols
  {
    if preDiff != [] {
      assert Below(Mapped(preDiff, symbols), |inverse|);
      assert Mapped(inverse, Mapped(preDiff, symbols)) == symbols;
    }
  }

  lemma EncodedReturns(coded: seq<nat>, arity: nat)
    requires 0 < arity && Below(coded, arity)
    ensures Decoded(Encoded(coded, arity), arity) == coded
  {
    MovedNowhere(Encoded(coded, arity), arity);
    ModUnique(0, arity, 0, 0);
    var back := Decoded(Encoded(coded, arity), arity);
    forall n | 0 <= n < |coded|
      ensures back[n] == coded[n]
    {
      CodedRecovers(coded, arity, 0, n);
    }
  }

  // ---- rotations of the points themselves ------------------------------------------------------------

  ghost predicate Distinct<P>(points: seq<P>) {
    forall i, j :: 0 <= i < j < |points| ==> points[i] != points[j]
  }

  /** One turn takes each point to the one `step` labels on. */
  ghost predicate TurnSteps<P>(points: seq<P>, turn: P -> P, step: nat) {
    forall i :: 0 <= i < |points| ==> turn(points[i]) == points[(i + step) % |points|]
  }

  function TurnedTimes<P>(turn: P -> P, times: nat, p: P): P {
    if times == 0 then p else turn(TurnedTimes(turn, times - 1, p))
  }

  lemma {:induction false} TimesStep<P>(points: seq<P>, turn: P -> P, step: nat, times: nat, i: nat)
    requires TurnSteps(points, turn, step) && i < |points|
    ensures TurnedTimes(turn, times, points[i]) == points[(i + times * step) % |points|]
  {
    if times == 0 {
      ModUnique(i, |points|, 0, i);
    } else {
      TimesStep(points, turn, step, times - 1, i);
      var at := i + (times - 1) * step;
      assert at + step == i + times * step;
      WholePart(at, |points|);
      ModShift(at % |points| + step, at / |points|, |points|);
    }
  }

  /** The receiver's decisions: the label of the point that arrived. */
  ghost predicate Decides<P>(points: seq<P>, received: seq<P>, labels: seq<nat>) {
    && |labels| == |received|
    && forall n :: 0 <= n < |labels| ==> labels[n] < |points| && points[labels[n]] == received[n]
  }

  ghost predicate SentTurned<P>(points: seq<P>, turn: P -> P, times: nat, sent: seq<nat>, received: seq<P>) {
    && |received| == |sent|
    && forall n :: 0 <= n < |sent| ==>
         sent[n] < |points| && received[n] == TurnedTimes(turn, times, points[sent[n]])
  }

  lemma TurnIsMove<P>(points: seq<P>, turn: P -> P, step: nat, times: nat, shift: nat,
                      sent: seq<nat>, received: seq<P>, labels: seq<nat>)
    requires points != [] && Distinct(points) && TurnSteps(points, turn, step) && shift == times * step
    requires SentTurned(points, turn, times, sent, received) && Decides(points, received, labels)
    ensures labels == Moved(sent, shift, |points|)
  {
    forall n | 0 <= n < |labels|
      ensures labels[n] == Moved(sent, shift, |points|)[n]
    {
      MovedAt(sent, shift, |points|, n);
      TimesStep(points, turn, step, times, sent[n]);
      assert points[labels[n]] == points[(sent[n] + shift) % |points|];
    }
  }

  /**
   A differential link over points that a rotation only relabels: however often the
   channel turns the whole constellation, the receiver returns every symbol after
   the first, and the first exactly when the turns come back to the start.
   */
  lemma RotationProof<P>(points: seq<P>, arity: nat, turn: P -> P, step: nat, times: nat, shift: nat,
                         preDiff: seq<nat>, inverse: seq<nat>,
                         symbols: seq<nat>, sent: seq<nat>, received: seq<P>, labels: seq<nat>, n: nat)
    requires points != [] && |points| == arity && Distinct(points)
    requires TurnSteps(points, turn, step) && shift == times * step
    requires ValidCode(preDiff, arity) && Undoes(preDiff, inverse)
    requires Below(symbols, arity) && n < |symbols|
    requires AcceptsAll(Outgoing(preDiff, true, arity), arity)
    requires sent == Run(Outgoing(preDiff, true, arity), symbols, arity)
    requires SentTurned(points, turn, times, sent, received) && Decides(points, received, labels)
    ensures AcceptsAll(Incoming(inverse, true, arity), arity) && |labels| == |symbols|
    ensures Run(Incoming(inverse, true, arity), labels, arity)[n] == symbols[n] <==> n > 0 || shift % arity == 0
  {
    TurnIsMove(points, turn, step, times, shift, sent, received, labels);
    MovedRecovers(preDiff, inverse, arity, symbols, shift, n);
  }

  /** One step of the circle. */
  function CircleTurn(count: nat): nat -> nat {
    p => if count == 0 then p else (p + 1) % count
  }

  /** A differential PSK constellation is such a one, a single label to the step. */
  lemma PskTurns(points: seq<nat>)
    requires points == Upto(|points|)
    ensures Distinct(points) && TurnSteps(points, CircleTurn(|points|), 1)
  {
  }

  /** And so is a differential QAM one, a quarter of its labels to the quarter turn. */
  lemma QamTurns(points: seq<C.Point>, half: nat)
    requires |points| == PowerOfTwo(2 * half + 2)
    requires forall i :: 0 <= i < |points| ==> points[i] == C.TurnedPoint(half, i)
    ensures Distinct(points) && TurnSteps(points, p => C.Turned(p), PowerOfTwo(2 * half))
  {
    forall i, j | 0 <= i < j < |points|
      ensures points[i] != points[j]
    {
      if points[i] == points[j] { C.TurnedDistinct(half, i, j); }
    }
    forall i | 0 <= i < |points|
      ensures C.Turned(points[i]) == points[(i + PowerOfTwo(2 * half)) % |points|]
    {
      C.TurnAddsQuarter(half, i);
    }
  }
}
