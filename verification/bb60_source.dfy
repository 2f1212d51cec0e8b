/**
 The BB60 source: a shared ring of raw samples, mixed down, decimated by a CIC
 in wrap-around arithmetic and then by an FIR over a circular history.
 */
module Bb60 {
  import opened Arithmetic
  import opened Cic
  import opened Ring
  import opened RingBuffer
  import opened Wrappers

  const NATIVE_RING_SAMPLES := 8_400_000   // 70 MS/s for 0.12 s
  const MAX_DECIMATION := 4118             // 70 MS/s down to 17 kS/s, rounded
  const MIXED_PEAK := 32768                // a 16-bit sample times a unit rotator

  // ---- the reference: what the sample stream decimates to ---------------------

  datatype Iq = Iq(re: real, im: real)

  const SILENCE := Iq(0.0, 0.0)

  function Accumulate(sum: Iq, level: Iq, tap: real): Iq {
    Iq(sum.re + level.re * tap, sum.im + level.im * tap)
  }

  /** A CIC word as the FIR sees it: signed, unit gain, full scale 1. */
  function Scaled(word: nat, rate: nat): real
    requires word < WORD && 0 < rate
  {
    PowerPositive(rate, ORDER);
    Signed(word) as real * (1.0 / Power(rate, ORDER) as real) / 32768.0
  }

  lemma PowerPositive(base: nat, e: nat)
    requires 0 < base
    ensures 0 < Power(base, e)
  {
  }

  function Level(re: seq<int>, im: seq<int>, rate: nat, q: nat): Iq
    requires 0 < rate
  {
    Iq(Scaled(CicWord(re, rate, (q + 1) * rate - 1), rate),
       Scaled(CicWord(im, rate, (q + 1) * rate - 1), rate))
  }

  /** One CIC output for every `rate` samples. */
  function Levels(re: seq<int>, im: seq<int>, rate: nat): (levels: seq<Iq>)
    requires 0 < rate
    ensures |levels| == |re| / rate
  {
    seq(|re| / rate, q requires 0 <= q => Level(re, im, rate, q))
  }

  function LevelAt(levels: seq<Iq>, q: int): Iq {
    if 0 <= q < |levels| then levels[q] else SILENCE
  }

  /** The first `t` terms of the FIR's dot product, newest level first. */
  function Dot(levels: seq<Iq>, taps: seq<real>, newest: int, t: nat): Iq
    requires t <= |taps|
  {
    if t == 0 then SILENCE
    else Accumulate(Dot(levels, taps, newest, t - 1), LevelAt(levels, newest - (t - 1)), taps[t - 1])
  }

  /** One FIR output for every `post` levels. */
  function Filtered(levels: seq<Iq>, post: nat, taps: seq<real>): (out: seq<Iq>)
    requires 0 < post
    ensures |out| == |levels| / post
  {
    seq(|levels| / post, k requires 0 <= k => Dot(levels, taps, (k + 1) * post - 1, |taps|))
  }

  /** The two rails of the mixed stream; the mixer's phase depends only on n. */
  function MixedRe(mixer: (nat, int) -> (int, int), raw: seq<int>): (x: seq<int>)
    ensures |x| == |raw|
  {
    seq(|raw|, n requires 0 <= n < |raw| => mixer(n, raw[n]).0)
  }

  function MixedIm(mixer: (nat, int) -> (int, int), raw: seq<int>): (x: seq<int>)
    ensures |x| == |raw|
  {
    seq(|raw|, n requires 0 <= n < |raw| => mixer(n, raw[n]).1)
  }

  function Decimated(mixer: (nat, int) -> (int, int), rate: nat, post: nat, taps: seq<real>, raw: seq<int>): seq<Iq>
    requires 0 < rate && 0 < post
  {
    Filtered(Levels(MixedRe(mixer, raw), MixedIm(mixer, raw), rate), post, taps)
  }

  // ---- the reference looks only at the past -----------------------------------

  lemma LevelsPrefix(re: seq<int>, im: seq<int>, moreRe: seq<int>, moreIm: seq<int>, rate: nat)
    requires 0 < rate && |re| == |im|
    ensures Levels(re, im, rate) <= Levels(re + moreRe, im + moreIm, rate)
  {
    QuotientMonotone(|re|, |re + moreRe|, rate);
    forall q | 0 <= q < |re| / rate
      ensures Level(re + moreRe, im + moreIm, rate, q) == Level(re, im, rate, q)
    {
      QuotientBound(|re|, rate, q);
      BoxcarPrefix(re, moreRe, rate, ORDER, (q + 1) * rate - 1);
      BoxcarPrefix(im, moreIm, rate, ORDER, (q + 1) * rate - 1);
    }
  }

  lemma {:induction false} DotPrefix(levels: seq<Iq>, more: seq<Iq>, taps: seq<real>, newest: int, t: nat)
    requires t <= |taps| && newest < |levels|
    ensures Dot(levels + more, taps, newest, t) == Dot(levels, taps, newest, t)
  {
    if t > 0 { DotPrefix(levels, more, taps, newest, t - 1); }
  }

  lemma FilteredPrefix(levels: seq<Iq>, more: seq<Iq>, post: nat, taps: seq<real>)
    requires 0 < post
    ensures Filtered(levels, post, taps) <= Filtered(levels + more, post, taps)
  {
    QuotientMonotone(|levels|, |levels + more|, post);
    forall k | 0 <= k < |levels| / post
      ensures Filtered(levels + more, post, taps)[k] == Filtered(levels, post, taps)[k]
    {
      QuotientBound(|levels|, post, k);
      DotPrefix(levels, more, taps, (k + 1) * post - 1, |taps|);
    }
  }

  /**
   More input never changes the outputs already implied, so what the source has
   emitted depends on the samples alone and not on how calls cut them up.
   */
  lemma DecimatedPrefix(mixer: (nat, int) -> (int, int), rate: nat, post: nat, taps: seq<real>,
                        raw: seq<int>, more: seq<int>)
    requires 0 < rate && 0 < post
    ensures Decimated(mixer, rate, post, taps, raw) <= Decimated(mixer, rate, post, taps, raw + more)
  {
    var re, im := MixedRe(mixer, raw), MixedIm(mixer, raw);
    var all := raw + more;
    var re', im' := MixedRe(mixer, all), MixedIm(mixer, all);
    assert re' == re + re'[|re|..] && im' == im + im'[|im|..];
    LevelsPrefix(re, im, re'[|re|..], im'[|im|..], rate);
    var levels, levels' := Levels(re, im, rate), Levels(re', im', rate);
    assert levels' == levels + levels'[|levels|..];
    FilteredPrefix(levels, levels'[|levels|..], post, taps);
  }

  /** Exactly floor(consumed / (rate * post)) outputs. */
  lemma DecimatedCount(mixer: (nat, int) -> (int, int), rate: nat, post: nat, taps: seq<real>, raw: seq<int>)
    requires 0 < rate && 0 < post
    ensures 0 < rate * post
    ensures |Decimated(mixer, rate, post, taps, raw)| == |raw| / (rate * post)
  {
    ScaleUp(post, rate);
    NestedQuotient(|raw|, rate, post);
  }

  // ---- one rail of the CIC ----------------------------------------------------

  /** What integrator `s` holds once `fed` has gone through it. */
  ghost function SumWord(fed: seq<int>, s: nat): nat {
    Wrap(At(Integrated(fed, s + 1), |fed| - 1))
  }

  /** What comb `s` outputs when the latest sample is n. */
  ghost function CombWord(fed: seq<int>, rate: nat, s: nat, n: int): nat {
    Wrap(Comb(Integrated(fed, ORDER), rate, s, n))
  }

  lemma SumWordStep(fed: seq<int>, x: int, s: nat)
    ensures SumWord(fed + [x], s)
         == Wrap(SumWord(fed, s) + if s == 0 then Wrap(x) else SumWord(fed + [x], s - 1))
  {
    var next, n := fed + [x], |fed|;
    IntegratedAppend(fed, x, s + 1);
    WrapAdd(At(Integrated(fed, s + 1), n - 1), At(Integrated(next, s), n));
    if s == 0 { assert At(next, n) == x; }
  }

  lemma CombWordStep(fed: seq<int>, rate: nat, s: nat, n: int)
    ensures CombWord(fed, rate, s + 1, n)
         == Wrap(CombWord(fed, rate, s, n) - CombWord(fed, rate, s, n - rate))
  {
    var y := Integrated(fed, ORDER);
    WrapSub(Comb(y, rate, s, n), Comb(y, rate, s, n - rate));
  }

  lemma CombWordAppend(fed: seq<int>, x: int, rate: nat, s: nat, n: int)
    requires n < |fed|
    ensures CombWord(fed + [x], rate, s, n) == CombWord(fed, rate, s, n)
  {
    CombAppend(fed, x, rate, ORDER, s, n);
  }

  lemma CombWordEnds(fed: seq<int>, rate: nat)
    ensures CombWord(fed, rate, 0, |fed| - 1) == SumWord(fed, ORDER - 1)
    ensures CombWord(fed, rate, ORDER, |fed| - 1) == CicWord(fed, rate, |fed| - 1)
    ensures forall s: nat :: CombWord(fed, rate, s, -1) == 0
  {
    CascadeIsBoxcar(fed, rate, |fed| - 1);
    forall s: nat
      ensures CombWord(fed, rate, s, -1) == 0
    {
      CombOfNothing(Integrated(fed, ORDER), rate, s, -1);
    }
  }

  ghost predicate SumsHold(words: seq<nat>, fed: seq<int>) {
    |words| == ORDER && forall s :: 0 <= s < ORDER ==> words[s] == SumWord(fed, s)
  }

  ghost predicate CombsHold(words: seq<nat>, fed: seq<int>, rate: nat, n: int) {
    |words| == ORDER && forall s :: 0 <= s < ORDER ==> words[s] == CombWord(fed, rate, s, n)
  }

  /** The first `stages` integrators updated in order, each from the one before. */
  function Stepped(words: seq<nat>, x: int, stages: nat): (next: seq<nat>)
    requires stages <= |words|
    ensures |next| == |words|
  {
    if stages == 0 then words
    else
      var before, s := Stepped(words, x, stages - 1), stages - 1;
      before[s := Wrap(before[s] + if s == 0 then Wrap(x) else before[s - 1])]
  }

  lemma {:induction false} SteppedSums(words: seq<nat>, fed: seq<int>, x: int, stages: nat)
    requires SumsHold(words, fed) && stages <= ORDER
    ensures forall s :: 0 <= s < ORDER ==>
      Stepped(words, x, stages)[s] == SumWord(if s < stages then fed + [x] else fed, s)
  {
    if stages > 0 {
      SteppedSums(words, fed, x, stages - 1);
      SumWordStep(fed, x, stages - 1);
    }
  }

  lemma CombsHoldAppend(words: seq<nat>, fed: seq<int>, x: int, rate: nat, n: int)
    requires n < |fed| && CombsHold(words, fed, rate, n)
    ensures CombsHold(words, fed + [x], rate, n)
  {
    forall s | 0 <= s < ORDER
      ensures words[s] == CombWord(fed + [x], rate, s, n)
    {
      CombWordAppend(fed, x, rate, s, n);
    }
  }

  /** The stage loop: each running sum takes in the one before it, modulo 2^64. */
  method PushSums(integrator: array<nat>, x: int)
    requires integrator.Length == ORDER
    modifies integrator
    ensures integrator[..] == Stepped(old(integrator[..]), x, ORDER)
  {
    ghost var was := integrator[..];
    assert Stepped(was, x, 0) == was;
    integrator[0] := Wrap(integrator[0] + Wrap(x));
    for stage := 1 to ORDER
      invariant integrator[..] == Stepped(was, x, stage)
    {
      ghost var before := integrator[..];
      integrator[stage] := Wrap(integrator[stage] + integrator[stage - 1]);
      assert integrator[..] == before[stage := Wrap(before[stage] + before[stage - 1])];
    }
  }

  class Rail {
    const rate: nat
    const integrator: array<nat>
    const comb: array<nat>
    ghost var fed: seq<int>
    ghost var dumps: nat

    ghost predicate Valid()
      reads this, integrator, comb
    {
      && 0 < rate && integrator != comb
      && dumps * rate <= |fed|
      && SumsHold(integrator[..], fed)
      && CombsHold(comb[..], fed, rate, dumps * rate - 1)
    }

    constructor (rate: nat)
      requires 0 < rate
      ensures Valid() && fresh(integrator) && fresh(comb)
      ensures this.rate == rate && fed == [] && dumps == 0
    {
      this.rate := rate;
      integrator := new nat[ORDER](_ => 0);
      comb := new nat[ORDER](_ => 0);
      fed, dumps := [], 0;
      new;
      CombWordEnds([], rate);
    }

    /** One sample through the four running sums, each wrapping at 64 bits. */
    method Push(x: int)
      requires Valid()
      modifies this, integrator
      ensures Valid() && fed == old(fed) + [x] && dumps == old(dumps)
    {
      SteppedSums(integrator[..], fed, x, ORDER);
      PushSums(integrator, x);
      CombsHoldAppend(comb[..], fed, x, rate, dumps * rate - 1);
      fed := fed + [x];
    }

    /** The four combs at the decimated rate. */
    method Dump() returns (word: nat)
      requires Valid() && |fed| == (dumps + 1) * rate
      modifies this, comb
      ensures Valid() && fed == old(fed) && dumps == old(dumps) + 1
      ensures word == CicWord(fed, rate, |fed| - 1)
    {
      ghost var n := |fed| - 1;
      assert dumps * rate - 1 == n - rate;
      CombWordEnds(fed, rate);
      word := integrator[ORDER - 1];
      for stage := 0 to ORDER
        modifies comb
        invariant word == CombWord(fed, rate, stage, n)
        invariant forall s :: 0 <= s < stage ==> comb[s] == CombWord(fed, rate, s, n)
        invariant forall s :: stage <= s < ORDER ==> comb[s] == CombWord(fed, rate, s, n - rate)
        invariant SumsHold(integrator[..], fed)
      {
        CombWordStep(fed, rate, stage, n);
        var difference := Wrap(word - comb[stage]);
        comb[stage] := word;
        word := difference;
      }
      dumps := dumps + 1;
    }
  }

  // ---- rails, circular history and FIR ------------------------------------------

  /** The delay line holds the latest levels, each in the slot of its index. */
  ghost predicate HistoryHolds(h: seq<Iq>, levels: seq<Iq>) {
    && 0 < |h|
    && forall q {:trigger LevelAt(levels, q)} :: |levels| - |h| <= q < |levels| ==>
         h[q % |h|] == LevelAt(levels, q)
  }

  lemma HistoryPut(h: seq<Iq>, levels: seq<Iq>, level: Iq)
    requires HistoryHolds(h, levels)
    ensures HistoryHolds(h[|levels| % |h| := level], levels + [level])
  {
    var h', levels' := h[|levels| % |h| := level], levels + [level];
    forall q {:trigger LevelAt(levels', q)} | |levels'| - |h| <= q < |levels'|
      ensures h'[q % |h'|] == LevelAt(levels', q)
    {
      if q < |levels| {
        SlotsDistinct(|h|, |levels|, q);
        assert h[q % |h|] == LevelAt(levels, q);
      }
    }
  }

  lemma StepBack(pos: int, m: nat)
    requires 0 < m
    ensures (pos - 1) % m == if pos % m == 0 then m - 1 else pos % m - 1
  {
    if pos % m == 0 {
      ModUnique(pos - 1, m, pos / m - 1, m - 1);
    } else {
      ModUnique(pos - 1, m, pos / m, pos % m - 1);
    }
  }

  lemma StepForward(pos: nat, m: nat)
    requires 0 < m
    ensures (pos + 1) % m == if pos % m + 1 == m then 0 else pos % m + 1
  {
    if pos % m + 1 == m {
      ModUnique(pos + 1, m, pos / m + 1, 0);
    } else {
      ModUnique(pos + 1, m, pos / m, pos % m + 1);
    }
  }

  /** The dot product, walking the delay line backwards from its newest entry. */
  method Fir(history: array<Iq>, taps: seq<real>, newest: nat, ghost levels: seq<Iq>) returns (sum: Iq)
    requires HistoryHolds(history[..], levels) && history.Length == |taps|
    requires levels != [] && newest == (|levels| - 1) % |taps|
    ensures sum == Dot(levels, taps, |levels| - 1, |taps|)
  {
    sum := SILENCE;
    var index := newest;
    for t := 0 to |taps|
      invariant index == (|levels| - 1 - t) % |taps|
      invariant sum == Dot(levels, taps, |levels| - 1, t)
    {
      ghost var q := |levels| - 1 - t;
      assert history[..][q % |taps|] == LevelAt(levels, q);
      sum := Accumulate(sum, history[index], taps[t]);
      StepBack(|levels| - 1 - t, |taps|);
      index := if index != 0 then index - 1 else |taps| - 1;
    }
  }

  lemma LevelsSteady(re: seq<int>, im: seq<int>, xr: int, xi: int, rate: nat)
    requires 0 < rate && |re| == |im|
    requires |re| + 1 < |Levels(re, im, rate)| * rate + rate
    ensures Levels(re + [xr], im + [xi], rate) == Levels(re, im, rate)
  {
    LevelsPrefix(re, im, [xr], [xi], rate);
    WholePart(|re|, rate);
    Quotient(|re| + 1, rate, |re| / rate);
  }

  lemma LevelsGrow(re: seq<int>, im: seq<int>, xr: int, xi: int, rate: nat)
    requires 0 < rate && |re| == |im|
    requires |re| + 1 == |Levels(re, im, rate)| * rate + rate
    ensures Levels(re + [xr], im + [xi], rate)
         == Levels(re, im, rate) + [Level(re + [xr], im + [xi], rate, |Levels(re, im, rate)|)]
  {
    var q := |re| / rate;
    LevelsPrefix(re, im, [xr], [xi], rate);
    assert (q + 1) * rate == q * rate + rate;
    Quotient(|re| + 1, rate, q + 1);
  }

  lemma FilteredSteady(levels: seq<Iq>, level: Iq, post: nat, taps: seq<real>)
    requires 0 < post
    requires |levels| + 1 < |Filtered(levels, post, taps)| * post + post
    ensures Filtered(levels + [level], post, taps) == Filtered(levels, post, taps)
  {
    FilteredPrefix(levels, [level], post, taps);
    WholePart(|levels|, post);
    Quotient(|levels| + 1, post, |levels| / post);
  }

  lemma FilteredGrow(levels: seq<Iq>, level: Iq, post: nat, taps: seq<real>)
    requires 0 < post
    requires |levels| + 1 == |Filtered(levels, post, taps)| * post + post
    ensures Filtered(levels + [level], post, taps)
         == Filtered(levels, post, taps) + [Dot(levels + [level], taps, |levels|, |taps|)]
  {
    var k := |levels| / post;
    FilteredPrefix(levels, [level], post, taps);
    assert (k + 1) * post == k * post + post;
    Quotient(|levels| + 1, post, k + 1);
  }

  class Decimator {
    const rate: nat          // CIC rate change
    const post: nat          // further decimation by the FIR
    const taps: seq<real>
    const re: Rail
    const im: Rail
    const history: array<Iq>
    var historyPos: nat
    var cicPhase: nat
    var firPhase: nat
    ghost var levels: seq<Iq>
    ghost var emitted: seq<Iq>

    ghost function Repr(): (parts: set<object>)
      reads this
      ensures {this, re, re.integrator, re.comb, im, im.integrator, im.comb, history} == parts
    {
      {this, re, re.integrator, re.comb, im, im.integrator, im.comb, history}
    }

    ghost predicate Apart()
      reads this
    {
      && re != im
      && {re.integrator, re.comb} !! {im.integrator, im.comb}
      && history !in {re.integrator as object, re.comb as object, im.integrator as object, im.comb as object}
    }

    ghost predicate Counts()
      reads this, re, im
    {
      && |re.fed| == |im.fed| == |levels| * rate + cicPhase
      && cicPhase < rate
      && |levels| == |emitted| * post + firPhase
      && firPhase < post
    }

    ghost predicate Valid()
      reads Repr()
    {
      && Apart() && Counts()
      && re.Valid() && im.Valid()
      && re.rate == im.rate == rate
      && re.dumps == im.dumps == |levels|
      && |taps| == history.Length && 0 < |taps|
      && historyPos == |levels| % |taps|
      && HistoryHolds(history[..], levels)
      && levels == Levels(re.fed, im.fed, rate)
      && emitted == Filtered(levels, post, taps)
    }

    constructor (rate: nat, post: nat, taps: seq<real>)
      requires 0 < rate && 0 < post && 0 < |taps|
      ensures Valid() && fresh(Repr())
      ensures this.rate == rate && this.post == post && this.taps == taps
      ensures re.fed == im.fed == [] && emitted == []
    {
      this.rate, this.post, this.taps := rate, post, taps;
      re := new Rail(rate);
      im := new Rail(rate);
      history := new Iq[|taps|](_ => SILENCE);
      historyPos, cicPhase, firPhase := 0, 0, 0;
      levels, emitted := [], [];
      new;
      forall q {:trigger LevelAt([], q)} | -|taps| <= q < 0
        ensures history[..][q % |taps|] == LevelAt([], q)
      {
      }
    }

    /** The mixed sample into both rails. */
    method Feed(xr: int, xi: int)
      requires Apart() && re.Valid() && im.Valid()
      modifies re, re.integrator, im, im.integrator
      ensures re.Valid() && im.Valid()
      ensures re.fed == old(re.fed) + [xr] && im.fed == old(im.fed) + [xi]
      ensures re.dumps == old(re.dumps) && im.dumps == old(im.dumps)
    {
      re.Push(xr);
      im.Push(xi);
    }

    /** The two combs, and the level they leave in the delay line. */
    method Dump()
      requires Apart() && re.Valid() && im.Valid()
      requires re.rate == im.rate == rate && re.dumps == im.dumps == |levels|
      requires |re.fed| == |im.fed| == (|levels| + 1) * rate
      requires 0 < |taps| == history.Length && historyPos == |levels| % |taps|
      requires HistoryHolds(history[..], levels)
      modifies this`levels, re, re.comb, im, im.comb, history
      ensures re.Valid() && im.Valid()
      ensures re.fed == old(re.fed) && im.fed == old(im.fed)
      ensures levels == old(levels) + [Level(re.fed, im.fed, rate, |old(levels)|)]
      ensures re.dumps == im.dumps == |levels|
      ensures HistoryHolds(history[..], levels)
    {
      var vr := re.Dump();
      var vi := im.Dump();
      var level := Iq(Scaled(vr, rate), Scaled(vi, rate));
      HistoryPut(history[..], levels, level);
      ghost var was := history[..];
      history[historyPos] := level;
      assert history[..] == was[historyPos := level];
      levels := levels + [level];
    }

    /** The FIR phase after a new level: an output once every `post` levels. */
    method Advance(ghost before: seq<Iq>) returns (out: Option<Iq>)
      requires 0 < |taps| == history.Length && firPhase < post
      requires |levels| == |before| + 1 && before == levels[..|before|]
      requires historyPos == |before| % |taps|
      requires HistoryHolds(history[..], levels)
      requires |before| == |emitted| * post + firPhase && emitted == Filtered(before, post, taps)
      modifies this`historyPos, this`firPhase, this`emitted
      ensures firPhase < post && historyPos == |levels| % |taps|
      ensures |levels| == |emitted| * post + firPhase && emitted == Filtered(levels, post, taps)
      ensures emitted == old(emitted) + if out.Some? then [out.value] else []
    {
      assert levels == before + [levels[|before|]];
      StepForward(|before|, |taps|);
      firPhase := firPhase + 1;
      if firPhase < post {
        FilteredSteady(before, levels[|before|], post, taps);
        out := None;
      } else {
        FilteredGrow(before, levels[|before|], post, taps);
        firPhase := 0;
        OneMore(|emitted|, post);
        var sum := Fir(history, taps, historyPos, levels);
        emitted := emitted + [sum];
        out := Some(sum);
      }
      historyPos := if historyPos + 1 == |taps| then 0 else historyPos + 1;
    }

    /** The sample that completes a CIC block: combs, delay line, FIR phase. */
    method Finish(ghost fedRe: seq<int>, ghost fedIm: seq<int>, ghost xr: int, ghost xi: int) returns (out: Option<Iq>)
      requires Apart() && re.Valid() && im.Valid()
      requires re.fed == fedRe + [xr] && im.fed == fedIm + [xi]
      requires |re.fed| == |im.fed| == |levels| * rate + rate
      requires re.rate == im.rate == rate && re.dumps == im.dumps == |levels|
      requires 0 < |taps| == history.Length && historyPos == |levels| % |taps|
      requires HistoryHolds(history[..], levels)
      requires levels == Levels(fedRe, fedIm, rate)
      requires firPhase < post && |levels| == |emitted| * post + firPhase
      requires emitted == Filtered(levels, post, taps)
      modifies this, re, re.comb, im, im.comb, history
      ensures Valid() && re.fed == old(re.fed) && im.fed == old(im.fed)
      ensures emitted == old(emitted) + if out.Some? then [out.value] else []
    {
      ghost var before := levels;
      LevelsGrow(fedRe, fedIm, xr, xi, rate);
      cicPhase := 0;
      Dump();
      out := Advance(before);
    }

    /** One mixed sample through the decimator; an output when one falls due. */
    method Absorb(xr: int, xi: int) returns (out: Option<Iq>)
      requires Valid()
      modifies Repr()
      ensures Valid()
      ensures re.fed == old(re.fed) + [xr] && im.fed == old(im.fed) + [xi]
      ensures emitted == old(emitted) + if out.Some? then [out.value] else []
    {
      ghost var fedRe, fedIm := re.fed, im.fed;
      Feed(xr, xi);
      cicPhase := cicPhase + 1;
      if cicPhase < rate {
        LevelsSteady(fedRe, fedIm, xr, xi, rate);
        return None;
      }
      out := Finish(fedRe, fedIm, xr, xi);
    }
  }

  // ---- the decimation split -------------------------------------------------------

  const MIN_RATE := 17000.0
  const NATIVE_RATE := 70000000.0

  /** The decimation for a requested rate, or nothing when the rate is refused. */
  function Decimation(sampleRate: real): (d: Option<nat>)
    ensures d.Some? <==> MIN_RATE <= sampleRate <= NATIVE_RATE
    ensures d.Some? ==> 1 <= d.value <= MAX_DECIMATION
    ensures d.Some? ==> d.value as real - 0.5 <= NATIVE_RATE / sampleRate < d.value as real + 0.5
  {
    if MIN_RATE <= sampleRate <= NATIVE_RATE then
      RatioBounds(sampleRate);
      Some((NATIVE_RATE / sampleRate + 0.5).Floor)
    else None
  }

  lemma RatioBounds(sampleRate: real)
    requires MIN_RATE <= sampleRate <= NATIVE_RATE
    ensures 1.0 <= NATIVE_RATE / sampleRate <= 4118.0
  {
    var q := NATIVE_RATE / sampleRate;
    assert q * sampleRate == NATIVE_RATE;
    ScaleReal(q, 4118.0, sampleRate);
    ScaleReal(1.0, q, sampleRate);
  }

  lemma ScaleReal(a: real, b: real, c: real)
    requires 0.0 < c
    ensures a * c <= b * c <==> a <= b
  {
  }

  /** The FIR's share: the smallest factor from 2 to 5, else 1. */
  function PostDecim(decimation: nat): (post: nat)
    ensures 1 <= post <= 5 && decimation % post == 0
    ensures forall f :: 2 <= f <= 5 && decimation % f == 0 ==> 2 <= post <= f
  {
    if decimation % 2 == 0 then 2
    else if decimation % 3 == 0 then 3
    else if decimation % 4 == 0 then 4
    else if decimation % 5 == 0 then 5
    else 1
  }

  lemma PowerMonotone(a: nat, b: nat, e: nat)
    requires a <= b
    ensures Power(a, e) <= Power(b, e)
  {
    if e > 0 {
      PowerMonotone(a, b, e - 1);
      ProductMonotone(a, b, Power(a, e - 1), Power(b, e - 1));
    }
  }

  lemma ProductMonotone(a: nat, b: nat, c: nat, d: nat)
    requires a <= b && c <= d
    ensures a * c <= b * d
  {
  }

  lemma FourthPower(n: nat)
    ensures Power(n, ORDER) == n * (n * (n * n))
  {
    assert Power(n, 1) == n;
    assert Power(n, 2) == n * n;
    assert Power(n, 3) == n * (n * n);
  }

  /**
   For every decimation the constructor admits, the CIC reads out exactly on all
   full-scale inputs unless the decimation exceeds 4095 and has no factor from
   2 to 5 to hand to the FIR.
   */
  lemma SplitExactIff(decimation: nat)
    requires 1 <= decimation <= MAX_DECIMATION
    ensures ExactFor(decimation / PostDecim(decimation), MIXED_PEAK)
       <==> decimation <= 4095 || PostDecim(decimation) > 1
  {
    var post := PostDecim(decimation);
    var factor := decimation / post;
    ExactIff(factor, MIXED_PEAK);
    if factor <= 4095 {
      PowerMonotone(factor, 4095, ORDER);
      FourthPower(4095);
    } else {
      PowerMonotone(4096, factor, ORDER);
      FourthPower(4096);
    }
  }

  /** The levels a decimator over unbounded integers would produce. */
  function PlainLevels(re: seq<int>, im: seq<int>, rate: nat): (levels: seq<Iq>)
    requires 0 < rate
    ensures |levels| == |re| / rate
  {
    PowerPositive(rate, ORDER);
    var scale := 1.0 / Power(rate, ORDER) as real;
    seq(|re| / rate, q requires 0 <= q =>
      Iq(Boxcar(re, rate, ORDER, (q + 1) * rate - 1) as real * scale / 32768.0,
         Boxcar(im, rate, ORDER, (q + 1) * rate - 1) as real * scale / 32768.0))
  }

  /** On the int64 range every level is the plain one. */
  lemma LevelsPlain(re: seq<int>, im: seq<int>, rate: nat, peak: nat)
    requires 0 < rate && Power(rate, ORDER) * peak < HALF
    requires |re| == |im| && Bounded(re, peak) && Bounded(im, peak)
    ensures Levels(re, im, rate) == PlainLevels(re, im, rate)
  {
    ExactIff(rate, peak);
    var wrapped, plain := Levels(re, im, rate), PlainLevels(re, im, rate);
    forall q | 0 <= q < |wrapped|
      ensures wrapped[q] == plain[q]
    {
      var n := (q + 1) * rate - 1;
      assert Signed(CicWord(re, rate, n)) == Boxcar(re, rate, ORDER, n);
      assert Signed(CicWord(im, rate, n)) == Boxcar(im, rate, ORDER, n);
    }
  }

  /** The mixer while the tuning offset is zero: the rotator stays at (1, 0). */
  function Still(n: nat, sample: int): (int, int) {
    (sample, 0)
  }

  /** What the worker puts in the ring: samples of 16 bits. */
  ghost predicate SixteenBit(raw: seq<int>) {
    forall n :: 0 <= n < |raw| ==> -32768 <= raw[n] <= 32767
  }

  /** At the zero offset the levels of every 16-bit recording are those of unbounded arithmetic. */
  ghost predicate ReadsExactly(rate: nat)
    requires 0 < rate
  {
    forall raw: seq<int> :: SixteenBit(raw) ==> LevelsOf(raw, rate) == PlainLevelsOf(raw, rate)
  }

  function LevelsOf(raw: seq<int>, rate: nat): seq<Iq>
    requires 0 < rate
  {
    Levels(MixedRe(Still, raw), MixedIm(Still, raw), rate)
  }

  function PlainLevelsOf(raw: seq<int>, rate: nat): seq<Iq>
    requires 0 < rate
  {
    PlainLevels(MixedRe(Still, raw), MixedIm(Still, raw), rate)
  }

  lemma StillKeeps(raw: seq<int>)
    ensures MixedRe(Still, raw) == raw
    ensures |MixedIm(Still, raw)| == |raw| && forall n :: 0 <= n < |raw| ==> MixedIm(Still, raw)[n] == 0
  {
    forall n | 0 <= n < |raw|
      ensures MixedRe(Still, raw)[n] == raw[n] && MixedIm(Still, raw)[n] == 0
    {
      assert Still(n, raw[n]) == (raw[n], 0);
    }
  }

  /** Words that read as different numbers make different levels. */
  lemma ScaleApart(a: int, b: int, gain: real)
    requires 0.0 < gain
    ensures a as real * gain / 32768.0 == b as real * gain / 32768.0 <==> a == b
  {
    if a < b { ScaleReal(b as real, a as real, gain); }
    if b < a { ScaleReal(a as real, b as real, gain); }
  }

  lemma PositiveGain(rate: nat)
    requires 0 < rate
    ensures 0 < Power(rate, ORDER) && 0.0 < 1.0 / Power(rate, ORDER) as real
  {
    PowerPositive(rate, ORDER);
  }

  /**
   The largest positive sample held long enough: the fifth level the block computes
   is not the moving sum it stands for.
   */
  lemma HeldPeakMisreads(rate: nat, raw: seq<int>)
    requires 4097 <= rate && |raw| == 5 * rate
    requires forall k :: 0 <= k < |raw| ==> raw[k] == 32767
    ensures SixteenBit(raw)
    ensures LevelsOf(raw, rate) != PlainLevelsOf(raw, rate)
  {
    var n := 5 * rate - 1;
    StillKeeps(raw);
    HeldPeakWraps(rate, raw, n);
    ModUnique(5 * rate, rate, 5, 0);
    PositiveGain(rate);
    ScaleApart(Signed(CicWord(raw, rate, n)), Boxcar(raw, rate, ORDER, n), 1.0 / Power(rate, ORDER) as real);
    FifthLevel(raw, rate, n);
  }

  lemma HeldPeakWraps(rate: nat, raw: seq<int>, n: nat)
    requires 4097 <= rate && ORDER * rate <= n < |raw|
    requires forall k :: 0 <= k < |raw| ==> raw[k] == 32767
    ensures Signed(CicWord(raw, rate, n)) != Boxcar(raw, rate, ORDER, n)
  {
    BoxcarOfPeak(raw, rate, ORDER, n, 32767);
    PowerMonotone(4097, rate, ORDER);
    FourthPower(4097);
    ProductMonotone(4097 * (4097 * (4097 * 4097)), Power(rate, ORDER), 32767, 32767);
    SignedExactIff(Boxcar(raw, rate, ORDER, n));
  }

  /** The fifth level on each side, before the gain. */
  lemma FifthLevel(raw: seq<int>, rate: nat, n: int)
    requires 0 < rate && |raw| / rate == 5 && n == 5 * rate - 1
    requires 0 < Power(rate, ORDER) && MixedRe(Still, raw) == raw
    ensures |LevelsOf(raw, rate)| == |PlainLevelsOf(raw, rate)| == 5
    ensures var gain := 1.0 / Power(rate, ORDER) as real;
      && LevelsOf(raw, rate)[4].re == Signed(CicWord(raw, rate, n)) as real * gain / 32768.0
      && PlainLevelsOf(raw, rate)[4].re == Boxcar(raw, rate, ORDER, n) as real * gain / 32768.0
  {
    assert (4 + 1) * rate - 1 == n;
  }

  /**
   The same condition on what the code can receive: for every admitted decimation,
   the levels of all 16-bit recordings at the zero offset are exact if and only if
   the decimation is at most 4095 or has a factor from 2 to 5.
   */
  lemma ZeroOffsetExactIff(decimation: nat)
    requires 1 <= decimation <= MAX_DECIMATION
    ensures 0 < decimation / PostDecim(decimation)
    ensures ReadsExactly(decimation / PostDecim(decimation)) <==> decimation <= 4095 || PostDecim(decimation) > 1
  {
    var factor := decimation / PostDecim(decimation);
    SplitWhole(decimation, PostDecim(decimation));
    SplitExactIff(decimation);
    if decimation <= 4095 || PostDecim(decimation) > 1 {
      ExactIff(factor, MIXED_PEAK);
      forall raw: seq<int> | SixteenBit(raw)
        ensures LevelsOf(raw, factor) == PlainLevelsOf(raw, factor)
      {
        StillKeeps(raw);
        LevelsPlain(MixedRe(Still, raw), MixedIm(Still, raw), factor, MIXED_PEAK);
      }
    } else {
      var raw: seq<int> := seq(5 * factor, _ => 32767);
      HeldPeakMisreads(factor, raw);
      assert !ReadsExactly(factor);
    }
  }

  lemma RateBetween(d: real, sampleRate: real)
    requires 1.0 <= d <= 4117.0 && sampleRate * d == NATIVE_RATE
    ensures MIN_RATE <= sampleRate <= NATIVE_RATE
  {
    assert MIN_RATE * d <= NATIVE_RATE <= NATIVE_RATE * d;
    ScaleReal(MIN_RATE, sampleRate, d);
    ScaleReal(sampleRate, NATIVE_RATE, d);
  }

  lemma RatioIs(d: real, sampleRate: real)
    requires 0.0 < sampleRate && sampleRate * d == NATIVE_RATE
    ensures NATIVE_RATE / sampleRate == d
  {
    var q := NATIVE_RATE / sampleRate;
    assert q * sampleRate == NATIVE_RATE;
    ScaleReal(q, d, sampleRate);
    ScaleReal(d, q, sampleRate);
  }

  lemma RatioOf(d: nat, sampleRate: real)
    requires 1 <= d < MAX_DECIMATION && sampleRate * d as real == NATIVE_RATE
    ensures Decimation(sampleRate) == Some(d)
  {
    RateBetween(d as real, sampleRate);
    RatioIs(d as real, sampleRate);
    assert (d as real + 0.5).Floor == d;
  }

  /** A rate the constructor admits whose decimation, 17 times 241, is one of those. */
  lemma AdmittedMisreads() returns (d: nat)
    ensures d == 4097 && Decimation(NATIVE_RATE / 4097.0) == Some(d)
    ensures PostDecim(d) == 1 && !ReadsExactly(d)
  {
    d := 4097;
    RatioOf(d, NATIVE_RATE / 4097.0);
    ZeroOffsetExactIff(d);
  }

  /** On the int64 range the wrapped arithmetic leaves no trace in the output. */
  lemma DecimatedIsPlain(mixer: (nat, int) -> (int, int), rate: nat, post: nat, taps: seq<real>,
                         raw: seq<int>, peak: nat)
    requires 0 < rate && 0 < post && Power(rate, ORDER) * peak < HALF
    requires Bounded(MixedRe(mixer, raw), peak) && Bounded(MixedIm(mixer, raw), peak)
    ensures Decimated(mixer, rate, post, taps, raw)
         == Filtered(PlainLevels(MixedRe(mixer, raw), MixedIm(mixer, raw), rate), post, taps)
  {
    LevelsPlain(MixedRe(mixer, raw), MixedIm(mixer, raw), rate, peak);
  }

  // ---- each rail on its own, in plain arithmetic ---------------------------------------

  function RailAt(x: seq<real>, n: int): real {
    if 0 <= n < |x| then x[n] else 0.0
  }

  /** The sum over t of taps[t] times the value t places before `newest`. */
  function FirSum(x: seq<real>, taps: seq<real>, newest: int): real {
    if taps == [] then 0.0 else RailAt(x, newest) * taps[0] + FirSum(x, taps[1..], newest - 1)
  }

  lemma {:induction false} FirSumAppend(x: seq<real>, taps: seq<real>, tap: real, newest: int)
    ensures FirSum(x, taps + [tap], newest) == FirSum(x, taps, newest) + RailAt(x, newest - |taps|) * tap
  {
    if taps != [] {
      FirSumAppend(x, taps[1..], tap, newest - 1);
      assert (taps + [tap])[1..] == taps[1..] + [tap];
    } else {
      assert ([tap])[1..] == [];
    }
  }

  function ReRail(levels: seq<Iq>): (x: seq<real>)
    ensures |x| == |levels| && forall q :: 0 <= q < |x| ==> x[q] == levels[q].re
  {
    seq(|levels|, q requires 0 <= q < |levels| => levels[q].re)
  }

  function ImRail(levels: seq<Iq>): (x: seq<real>)
    ensures |x| == |levels| && forall q :: 0 <= q < |x| ==> x[q] == levels[q].im
  {
    seq(|levels|, q requires 0 <= q < |levels| => levels[q].im)
  }

  lemma {:induction false} DotRails(levels: seq<Iq>, taps: seq<real>, newest: int, t: nat)
    requires t <= |taps|
    ensures Dot(levels, taps, newest, t).re == FirSum(ReRail(levels), taps[..t], newest)
    ensures Dot(levels, taps, newest, t).im == FirSum(ImRail(levels), taps[..t], newest)
  {
    if t > 0 {
      DotRails(levels, taps, newest, t - 1);
      assert taps[..t] == taps[..t - 1] + [taps[t - 1]];
      FirSumAppend(ReRail(levels), taps[..t - 1], taps[t - 1], newest);
      FirSumAppend(ImRail(levels), taps[..t - 1], taps[t - 1], newest);
    }
  }

  /** The moving sums of one rail at the decimated rate, with unit gain and full scale 1. */
  function PlainRail(x: seq<int>, rate: nat): (r: seq<real>)
    requires 0 < rate
    ensures |r| == |x| / rate
  {
    PowerPositive(rate, ORDER);
    seq(|x| / rate, q requires 0 <= q =>
      Boxcar(x, rate, ORDER, (q + 1) * rate - 1) as real / (Power(rate, ORDER) as real * 32768.0))
  }

  lemma GainOnce(v: real, power: real)
    requires 0.0 < power
    ensures v * (1.0 / power) / 32768.0 == v / (power * 32768.0)
  {
    var a, b := v * (1.0 / power) / 32768.0, v / (power * 32768.0);
    assert a * 32768.0 == v * (1.0 / power);
    assert (1.0 / power) * power == 1.0;
    assert b * (power * 32768.0) == v;
    assert (a * 32768.0) * power == v * ((1.0 / power) * power);
    assert (a - b) * (power * 32768.0) == 0.0;
  }

  lemma PlainLevelsRails(re: seq<int>, im: seq<int>, rate: nat)
    requires 0 < rate && |re| == |im|
    ensures ReRail(PlainLevels(re, im, rate)) == PlainRail(re, rate)
    ensures ImRail(PlainLevels(re, im, rate)) == PlainRail(im, rate)
  {
    PowerPositive(rate, ORDER);
    forall q | 0 <= q < |re| / rate
      ensures ReRail(PlainLevels(re, im, rate))[q] == PlainRail(re, rate)[q]
      ensures ImRail(PlainLevels(re, im, rate))[q] == PlainRail(im, rate)[q]
    {
      GainOnce(Boxcar(re, rate, ORDER, (q + 1) * rate - 1) as real, Power(rate, ORDER) as real);
      GainOnce(Boxcar(im, rate, ORDER, (q + 1) * rate - 1) as real, Power(rate, ORDER) as real);
    }
  }

  /** On the int64 range every output is, rail by rail, the taps over the rail's moving sums. */
  lemma OutputIsFir(mixer: (nat, int) -> (int, int), rate: nat, post: nat, taps: seq<real>,
                    raw: seq<int>, peak: nat, k: nat)
    requires 0 < rate && 0 < post && Power(rate, ORDER) * peak < HALF
    requires Bounded(MixedRe(mixer, raw), peak) && Bounded(MixedIm(mixer, raw), peak)
    requires k < |Decimated(mixer, rate, post, taps, raw)|
    ensures var out := Decimated(mixer, rate, post, taps, raw)[k];
      && out.re == FirSum(PlainRail(MixedRe(mixer, raw), rate), taps, (k + 1) * post - 1)
      && out.im == FirSum(PlainRail(MixedIm(mixer, raw), rate), taps, (k + 1) * post - 1)
  {
    var re, im := MixedRe(mixer, raw), MixedIm(mixer, raw);
    DecimatedIsPlain(mixer, rate, post, taps, raw, peak);
    PlainLevelsRails(re, im, rate);
    DotRails(PlainLevels(re, im, rate), taps, (k + 1) * post - 1, |taps|);
    assert taps[..|taps|] == taps;
  }

  // ---- the zero offset, and a held sample ---------------------------------------------------

  lemma RailOfSilence(x: seq<int>, rate: nat, q: int)
    requires 0 < rate && forall k :: 0 <= k < |x| ==> x[k] == 0
    ensures RailAt(PlainRail(x, rate), q) == 0.0
  {
    if 0 <= q < |x| / rate {
      BoxcarBound(x, rate, ORDER, (q + 1) * rate - 1, 0);
      PowerPositive(rate, ORDER);
    }
  }

  /** Once the CIC is full its moving sum of a held value is that value, at full scale 1. */
  lemma RailOfHeld(x: seq<int>, rate: nat, c: int, q: nat)
    requires 0 < rate && forall k :: 0 <= k < |x| ==> x[k] == c
    requires ORDER <= q < |x| / rate
    ensures RailAt(PlainRail(x, rate), q) == c as real / 32768.0
  {
    var n := (q + 1) * rate - 1;
    QuotientBound(|x|, rate, q);
    ScaleDown(q - ORDER, rate);
    assert (q - ORDER) * rate == q * rate - ORDER * rate && (q + 1) * rate == q * rate + rate;
    BoxcarOfPeak(x, rate, ORDER, n, c);
    PowerPositive(rate, ORDER);
    UnitGain(Power(rate, ORDER), c);
  }

  lemma UnitGain(power: nat, c: int)
    requires 0 < power
    ensures (power * c) as real / (power as real * 32768.0) == c as real / 32768.0
  {
    var p, a := power as real, (power * c) as real / (power as real * 32768.0);
    assert (power * c) as real == p * c as real;
    assert a * (p * 32768.0) == p * c as real;
    assert p * (a * 32768.0 - c as real) == 0.0;
  }

  function TapSum(taps: seq<real>): real {
    if taps == [] then 0.0 else taps[0] + TapSum(taps[1..])
  }

  /** Taps over a stretch that holds one value. */
  lemma {:induction false} FirOfHeld(x: seq<real>, taps: seq<real>, newest: int, v: real)
    requires forall q :: newest - |taps| < q <= newest ==> RailAt(x, q) == v
    ensures FirSum(x, taps, newest) == TapSum(taps) * v
  {
    if taps != [] {
      assert RailAt(x, newest) == v;
      FirOfHeld(x, taps[1..], newest - 1, v);
    }
  }

  /** At the zero offset, with a CIC factor in range, the ring's samples are what is filtered. */
  ghost predicate FiltersRaw(out: seq<Iq>, raw: seq<int>, rate: nat, post: nat, taps: seq<real>)
    requires 0 < rate
  {
    forall k :: 0 <= k < |out| ==>
      out[k].re == FirSum(PlainRail(raw, rate), taps, (k + 1) * post - 1) && out[k].im == 0.0
  }

  ghost predicate ZeroOffset(mixer: (nat, int) -> (int, int)) {
    forall n: nat, sample: int :: mixer(n, sample) == Still(n, sample)
  }

  lemma ZeroOffsetMixed(mixer: (nat, int) -> (int, int), raw: seq<int>)
    requires ZeroOffset(mixer)
    ensures MixedRe(mixer, raw) == raw
    ensures |MixedIm(mixer, raw)| == |raw| && forall n :: 0 <= n < |raw| ==> MixedIm(mixer, raw)[n] == 0
  {
    forall n | 0 <= n < |raw|
      ensures MixedRe(mixer, raw)[n] == raw[n] && MixedIm(mixer, raw)[n] == 0
    {
      assert Still(n, raw[n]) == (raw[n], 0);
    }
  }

  lemma FactorInRange(rate: nat)
    requires rate <= 4095
    ensures Power(rate, ORDER) * MIXED_PEAK < HALF
  {
    PowerMonotone(rate, 4095, ORDER);
    FourthPower(4095);
  }

  /** Every output then is the taps over the recording's moving sums, and purely real. */
  lemma ZeroOffsetOutputs(mixer: (nat, int) -> (int, int), rate: nat, post: nat, taps: seq<real>, raw: seq<int>)
    requires 0 < rate <= 4095 && 0 < post && ZeroOffset(mixer) && SixteenBit(raw)
    ensures FiltersRaw(Decimated(mixer, rate, post, taps, raw), raw, rate, post, taps)
  {
    FactorInRange(rate);
    ZeroOffsetMixed(mixer, raw);
    var im := MixedIm(mixer, raw);
    forall k | 0 <= k < |Decimated(mixer, rate, post, taps, raw)|
      ensures var out := Decimated(mixer, rate, post, taps, raw)[k];
        out.re == FirSum(PlainRail(raw, rate), taps, (k + 1) * post - 1) && out.im == 0.0
    {
      OutputIsFir(mixer, rate, post, taps, raw, MIXED_PEAK, k);
      forall q | (k + 1) * post - 1 - |taps| < q <= (k + 1) * post - 1
        ensures RailAt(PlainRail(im, rate), q) == 0.0
      {
        RailOfSilence(im, rate, q);
      }
      FirOfHeld(PlainRail(im, rate), taps, (k + 1) * post - 1, 0.0);
    }
  }

  lemma LevelInside(levels: nat, post: nat, k: nat, newest: int)
    requires 0 < post && k < levels / post && newest == (k + 1) * post - 1
    ensures newest < levels
  {
    QuotientBound(levels, post, k);
  }

  lemma OutputOf(out: seq<Iq>, raw: seq<int>, rate: nat, post: nat, taps: seq<real>, k: nat, newest: int)
    requires 0 < rate && FiltersRaw(out, raw, rate, post, taps) && k < |out| && newest == (k + 1) * post - 1
    ensures out[k] == Iq(FirSum(PlainRail(raw, rate), taps, newest), 0.0)
  {
  }

  /**
   One sample held, and what work() promises of its output: once CIC and taps are full
   it is that sample, at full scale 1, times the taps' sum.
   */
  lemma HeldOutput(out: seq<Iq>, raw: seq<int>, rate: nat, post: nat, decimation: nat, taps: seq<real>, c: int, v: real,
                   k: nat, newest: int)
    requires 0 < rate && 0 < post && FiltersRaw(out, raw, rate, post, taps)
    requires 0 < decimation == rate * post && |out| == |raw| / decimation
    requires (forall n :: 0 <= n < |raw| ==> raw[n] == c) && v == c as real / 32768.0
    requires k < |out| && newest == (k + 1) * post - 1 && ORDER + |taps| <= newest + 1
    ensures out[k] == Iq(TapSum(taps) * v, 0.0)
  {
    NestedQuotient(|raw|, rate, post);
    LevelInside(|raw| / rate, post, k, newest);
    OutputOf(out, raw, rate, post, taps, k, newest);
    HeldAt(raw, rate, taps, c, newest, v);
  }

  lemma HeldAt(raw: seq<int>, rate: nat, taps: seq<real>, c: int, newest: int, v: real)
    requires 0 < rate && forall n :: 0 <= n < |raw| ==> raw[n] == c
    requires ORDER + |taps| <= newest + 1 <= |raw| / rate && v == c as real / 32768.0
    ensures FirSum(PlainRail(raw, rate), taps, newest) == TapSum(taps) * v
  {
    HeldStretch(raw, rate, c, newest, |taps|);
    FirOfHeld(PlainRail(raw, rate), taps, newest, v);
  }

  lemma HeldStretch(raw: seq<int>, rate: nat, c: int, newest: int, width: nat)
    requires 0 < rate && forall n :: 0 <= n < |raw| ==> raw[n] == c
    requires ORDER + width <= newest + 1 <= |raw| / rate
    ensures forall q :: newest - width < q <= newest ==> RailAt(PlainRail(raw, rate), q) == c as real / 32768.0
  {
    forall q | newest - width < q <= newest
      ensures RailAt(PlainRail(raw, rate), q) == c as real / 32768.0
    {
      RailOfHeld(raw, rate, c, q);
    }
  }

  // ---- the block --------------------------------------------------------------------

  datatype WorkerState = Initial | Running | Error | Cancelled

  /** What the worker does before the block next looks: samples published, state. */
  datatype Look = Look(batch: seq<int>, state: WorkerState)

  /** How a call to work() ends; `Waiting` is still inside its bounded wait. */
  datatype Outcome = Returned(items: nat) | WorkDone | Thrown | Waiting

  lemma MixedAppend(mixer: (nat, int) -> (int, int), raw: seq<int>, sample: int)
    ensures MixedRe(mixer, raw + [sample]) == MixedRe(mixer, raw) + [mixer(|raw|, sample).0]
    ensures MixedIm(mixer, raw + [sample]) == MixedIm(mixer, raw) + [mixer(|raw|, sample).1]
  {
  }

  /** The constructor's search for the smallest usable factor. */
  method ChoosePost(decimation: nat) returns (post: nat)
    requires 1 <= decimation
    ensures post == PostDecim(decimation)
  {
    post := 1;
    for factor := 2 to 6
      invariant post == 1
      invariant forall f :: 2 <= f < factor ==> decimation % f != 0
    {
      if decimation % factor == 0 && decimation / factor >= 1 {
        post := factor;
        return;
      }
    }
  }

  // ---- the constructor's arguments ------------------------------------------------------

  /** What the tap design is asked for. */
  datatype Shape = Shape(cutoff: real, tapCount: nat)

  function MaxReal(a: real, b: real): real {
    if a < b then b else a
  }

  function Clamp(v: real, low: real, high: real): (r: real)
    requires low <= high
    ensures low <= r <= high
  {
    if v < low then low else if high < v then high else v
  }

  function Ceiling(v: real): int {
    -((-v).Floor)
  }

  /** An odd number of taps, at least 31 and at most 191. */
  function TapCount(transition: real): (taps: nat)
    requires 0.0 < transition
    ensures 31 <= taps <= 191 && taps % 2 == 1
  {
    OddWithin(Ceiling(5.5 / transition))
  }

  function OddWithin(wide: int): (taps: nat)
    ensures 31 <= taps <= 191 && taps % 2 == 1
  {
    var odd := if wide % 2 == 0 then wide + 1 else wide;
    if odd < 31 then 31 else if 191 < odd then 191 else odd
  }

  /** The filter for a bandwidth, or nothing when it is wider than the output rate. */
  function FilterShape(decimation: nat, bandwidth: real): (shape: Option<Shape>)
    requires 1 <= decimation
    ensures shape.Some? <==> bandwidth <= NATIVE_RATE / decimation as real
    ensures shape.Some? ==> 0.002 <= shape.value.cutoff <= 0.47
    ensures shape.Some? ==> 31 <= shape.value.tapCount <= 191 && shape.value.tapCount % 2 == 1
  {
    var outputRate := NATIVE_RATE / decimation as real;
    var wanted := if bandwidth > 0.0 then bandwidth else outputRate * 0.8;
    if wanted > outputRate then None
    else
      SplitWhole(decimation, PostDecim(decimation));
      var firRate := NATIVE_RATE / (decimation / PostDecim(decimation)) as real;
      Some(Designed(outputRate, firRate, wanted))
  }

  function Designed(outputRate: real, firRate: real, wanted: real): (shape: Shape)
    requires 0.0 < firRate
    ensures 0.002 <= shape.cutoff <= 0.47 && 31 <= shape.tapCount <= 191 && shape.tapCount % 2 == 1
  {
    var edge := wanted / 2.0;
    var stopband := MaxReal(outputRate - edge, edge * 1.05);
    var transition := MaxReal((stopband - edge) / firRate, 0.0001);
    Shape(Clamp(edge / firRate, 0.002, 0.47), TapCount(transition))
  }

  lemma TapsAbout(q: real, n: nat)
    requires n == OddWithin(Ceiling(q))
    ensures n < 191 ==> q <= n as real
    ensures n > 31 ==> n as real - 2.0 < q
  {
    assert Ceiling(q) as real - 1.0 < q <= Ceiling(q) as real;
  }

  /** The fewest taps, oddly many, that fit the transition, between the two limits. */
  lemma TapsFit(transition: real, n: nat, fewer: real, span: real)
    requires 0.0 < transition && n == TapCount(transition) && fewer == n as real - 2.0 && span == 5.5
    ensures n < 191 ==> span <= n as real * transition
    ensures n > 31 ==> fewer * transition < span
  {
    var q := span / transition;
    QuotientTimes(span, transition, q);
    TapsAbout(q, n);
    if n < 191 { AtLeast(q, n as real, transition, span); }
    if n > 31 { Below(q, fewer, transition, span); }
  }

  lemma AtLeast(q: real, m: real, t: real, span: real)
    requires 0.0 < t && q * t == span && q <= m
    ensures span <= m * t
  {
    ScaleReal(q, m, t);
  }

  lemma Below(q: real, m: real, t: real, span: real)
    requires 0.0 < t && q * t == span && m < q
    ensures m * t < span
  {
    ScaleReal(q, m, t);
  }

  lemma HalfWanted(wanted: real, firRate: real, edge: real, cutoff: real)
    requires 0.0 < firRate && edge * firRate == wanted / 2.0 && cutoff == Clamp(edge, 0.002, 0.47)
    ensures 0.002 < cutoff < 0.47 ==> 2.0 * (cutoff * firRate) == wanted
    ensures cutoff == 0.002 ==> wanted <= 0.004 * firRate
    ensures cutoff == 0.47 ==> wanted >= 0.94 * firRate
  {
    if cutoff == 0.002 { ScaleReal(edge, 0.002, firRate); }
    if cutoff == 0.47 { ScaleReal(0.47, edge, firRate); }
  }

  /** A cutoff of half the bandwidth and the fewest odd taps over a band, within their limits. */
  predicate Fits(cutoff: real, taps: nat, firRate: real, wanted: real, band: real) {
    && (0.002 < cutoff < 0.47 ==> 2.0 * (cutoff * firRate) == wanted)
    && (cutoff == 0.002 ==> wanted <= 0.004 * firRate)
    && (cutoff == 0.47 ==> wanted >= 0.94 * firRate)
    && Spans(taps, firRate, band)
  }

  predicate Spans(taps: nat, firRate: real, band: real) {
    && (taps < 191 ==> 5.5 * firRate <= taps as real * band)
    && (taps > 31 ==> (taps as real - 2.0) * band < 5.5 * firRate)
  }

  /**
   What the design is asked for, in the terms of the request: the cutoff is half the
   bandwidth, four fifths of the output rate when none is given, and the taps span what
   is left to the next channel, or a fortieth of the bandwidth if that is more.
   */
  lemma FilterFits(decimation: nat, cic: nat, bandwidth: real, outputRate: real, firRate: real, wanted: real, band: real)
    requires 1 <= decimation && FilterShape(decimation, bandwidth).Some?
    requires cic == decimation / PostDecim(decimation) > 0
    requires outputRate == 70000000.0 / decimation as real && firRate == 70000000.0 / cic as real
    requires wanted == if bandwidth > 0.0 then bandwidth else outputRate * 0.8
    requires band == MaxReal(outputRate - wanted, wanted / 40.0)
    ensures var shape := FilterShape(decimation, bandwidth).value; Fits(shape.cutoff, shape.tapCount, firRate, wanted, band)
  {
    QuotientPositive(70000000.0, cic as real, firRate);
    ShapeIs(decimation, cic, bandwidth, outputRate, firRate, wanted);
    DesignFits(outputRate, firRate, wanted, band, Designed(outputRate, firRate, wanted));
  }

  lemma QuotientPositive(a: real, b: real, q: real)
    requires 0.0 < a && 0.0 < b && q == a / b
    ensures 0.0 < q
  {
  }

  lemma ShapeIs(decimation: nat, cic: nat, bandwidth: real, outputRate: real, firRate: real, wanted: real)
    requires 1 <= decimation && FilterShape(decimation, bandwidth).Some? && 0.0 < firRate
    requires cic == decimation / PostDecim(decimation) > 0
    requires outputRate == NATIVE_RATE / decimation as real && firRate == NATIVE_RATE / cic as real
    requires wanted == if bandwidth > 0.0 then bandwidth else outputRate * 0.8
    ensures FilterShape(decimation, bandwidth) == Some(Designed(outputRate, firRate, wanted))
  {
  }

  lemma DesignFits(outputRate: real, firRate: real, wanted: real, band: real, shape: Shape)
    requires 0.0 < firRate && shape == Designed(outputRate, firRate, wanted)
    requires band == MaxReal(outputRate - wanted, wanted / 40.0)
    ensures Fits(shape.cutoff, shape.tapCount, firRate, wanted, band)
  {
    var edge, raw := wanted / 2.0 / firRate, band / firRate;
    BandIs(outputRate, wanted, band);
    QuotientTimes(wanted / 2.0, firRate, edge);
    QuotientTimes(band, firRate, raw);
    HalfWanted(wanted, firRate, edge, shape.cutoff);
    TapsSpan(shape.tapCount, raw, band, firRate);
  }

  lemma TapsSpan(n: nat, raw: real, band: real, firRate: real)
    requires 0.0 < firRate && raw * firRate == band && n == TapCount(MaxReal(raw, 0.0001))
    ensures Spans(n, firRate, band)
  {
    TapsFit(MaxReal(raw, 0.0001), n, n as real - 2.0, 5.5);
    BandFits(n, raw, MaxReal(raw, 0.0001), n as real - 2.0, 5.5, band, firRate);
  }

  lemma QuotientTimes(a: real, b: real, q: real)
    requires 0.0 < b && q == a / b
    ensures q * b == a
  {
  }

  lemma BandIs(outputRate: real, wanted: real, band: real)
    requires band == MaxReal(outputRate - wanted, wanted / 40.0)
    ensures MaxReal(outputRate - wanted / 2.0, wanted / 2.0 * 1.05) - wanted / 2.0 == band
  {
  }

  lemma BandFits(n: nat, raw: real, t: real, fewer: real, span: real, band: real, firRate: real)
    requires 0.0 < firRate && raw * firRate == band && 31 <= n <= 191 && t == MaxReal(raw, 0.0001)
    requires fewer == n as real - 2.0 && span == 5.5
    requires (n < 191 ==> span <= n as real * t) && (n > 31 ==> fewer * t < span)
    ensures n < 191 ==> span * firRate <= n as real * band
    ensures n > 31 ==> fewer * band < span * firRate
  {
    if n < 191 {
      assert t == raw;
      ScaledUp(n as real, raw, band, firRate, span);
    }
    if n > 31 {
      ScaleReal(raw, t, fewer);
      Swap(raw, fewer, t);
      ScaledUp(fewer, raw, band, firRate, span);
    }
  }

  lemma Swap(a: real, b: real, c: real)
    ensures a * b == b * a && c * b == b * c
  {
  }

  lemma ScaledUp(n: real, raw: real, band: real, firRate: real, span: real)
    requires 0.0 < firRate && raw * firRate == band
    ensures span <= n * raw <==> span * firRate <= n * band
  {
    assert (n * raw) * firRate == n * (raw * firRate);
    ScaleReal(span, n * raw, firRate);
  }

  const RATE_ERROR := "BB60 Source: sample rate must be 17 kS/s to 70 MS/s"
  const FREQUENCY_ERROR := "BB60 Source: centre frequency must be 9 kHz to 6.4 GHz"
  const LEVEL_ERROR := "BB60 Source: reference level must be -100 to +20 dBm"
  const BANDWIDTH_ERROR := "BB60 Source: filter bandwidth exceeds the output sample rate"

  /** make(): the argument checks in order, the split, and a block with the taps designed for it. */
  method Make(mixer: (nat, int) -> (int, int), design: (Shape, nat) -> seq<real>,
              sampleRate: real, centerFreq: real, bandwidth: real, refLevel: real)
    returns (r: Result<Bb60Source>)
    requires forall shape: Shape, rate: nat :: |design(shape, rate)| == shape.tapCount
    ensures var inRate := MIN_RATE <= sampleRate <= NATIVE_RATE;
      var inBand := 9000.0 <= centerFreq <= 6400000000.0;
      var inLevel := -100.0 <= refLevel <= 20.0;
      && (!inRate ==> r == Err("BB60 Source: sample rate must be 17 kS/s to 70 MS/s"))
      && (inRate && !inBand ==> r == Err("BB60 Source: centre frequency must be 9 kHz to 6.4 GHz"))
      && (inRate && inBand && !inLevel ==> r == Err("BB60 Source: reference level must be -100 to +20 dBm"))
      && (inRate && inBand && inLevel ==>
            if bandwidth <= NATIVE_RATE / Decimation(sampleRate).value as real then r.Ok?
            else r == Err("BB60 Source: filter bandwidth exceeds the output sample rate"))
    ensures r.Ok? ==> fresh(r.value) && r.value.Valid() && r.value.mixer == mixer
    ensures r.Ok? ==>
      var d := Decimation(sampleRate).value;
      && r.value.decimation == d && r.value.decimator.post == PostDecim(d)
      && r.value.decimator.taps == design(FilterShape(d, bandwidth).value, d / PostDecim(d))
      && r.value.ring.taken == 0 && r.value.decimator.emitted == []
  {
    var d := Decimation(sampleRate);
    if d.None? { return Err(RATE_ERROR); }
    if !(9000.0 <= centerFreq <= 6400000000.0) { return Err(FREQUENCY_ERROR); }
    if !(-100.0 <= refLevel <= 20.0) { return Err(LEVEL_ERROR); }
    var shape := FilterShape(d.value, bandwidth);
    if shape.None? { return Err(BANDWIDTH_ERROR); }
    var source := new Bb60Source(mixer, d.value, design(shape.value, d.value / PostDecim(d.value)));
    r := Ok(source);
  }

  /** What a call does with less than a block in the ring. */
  function WhenShort(state: WorkerState, produced: nat): (r: Outcome)
    ensures r.Thrown? <==> state == Error
    ensures r.WorkDone? <==> state == Cancelled && produced == 0
    ensures r.Waiting? <==> state != Error && state != Cancelled && produced == 0
    ensures r.Returned? ==> r.items == produced > 0
  {
    if state == Error then Thrown
    else if produced > 0 then Returned(produced)
    else if state == Cancelled then WorkDone
    else Waiting
  }

  class Bb60Source {
    const mixer: (nat, int) -> (int, int)
    const decimation: nat
    const decimator: Decimator
    const ring: Buffer<int>
    var mixed: nat   // samples since the last retune: all the rotator's state depends on

    /** The decimator has absorbed exactly `raw`. */
    ghost predicate Absorbed(raw: seq<int>)
      reads this, decimator.Repr()
    {
      && mixed == |raw|
      && decimator.re.fed == MixedRe(mixer, raw)
      && decimator.im.fed == MixedIm(mixer, raw)
    }

    ghost predicate Valid()
      reads this, ring, ring.slots, decimator.Repr()
    {
      && {this, ring, ring.slots} !! decimator.Repr()
      && ring.Valid() && decimator.Valid()
      && decimation == decimator.rate * decimator.post
      && Absorbed(ring.written[..ring.taken])
    }

    constructor (mixer: (nat, int) -> (int, int), decimation: nat, taps: seq<real>)
      requires 1 <= decimation <= MAX_DECIMATION && 0 < |taps|
      ensures Valid() && fresh(ring) && fresh(ring.slots) && fresh(decimator.Repr())
      ensures this.mixer == mixer && this.decimation == decimation && decimator.taps == taps
      ensures decimator.post == PostDecim(decimation) && decimator.rate == decimation / PostDecim(decimation)
      ensures ring.slots.Length % decimation == 0 && 8_400_000 - decimation < ring.slots.Length <= 8_400_000
      ensures ring.written == [] && ring.taken == 0 && decimator.emitted == []
    {
      var post := ChoosePost(decimation);
      this.mixer := mixer;
      this.decimation := decimation;
      decimator := new Decimator(decimation / post, post, taps);
      var capacity := NATIVE_RING_SAMPLES - NATIVE_RING_SAMPLES % decimation;
      ring := new Buffer(capacity);
      mixed := 0;
      new;
      SplitWhole(decimation, post);
      RingWhole(decimation);
    }

    /** One sample mixed down and into the decimator. */
    method Mix(ghost before: seq<int>, sample: int) returns (out: Option<Iq>)
      requires decimator.Valid() && Absorbed(before) && this !in decimator.Repr()
      modifies this`mixed, decimator.Repr()
      ensures decimator.Valid() && Absorbed(before + [sample])
      ensures decimator.emitted == old(decimator.emitted) + if out.Some? then [out.value] else []
    {
      MixedAppend(mixer, before, sample);
      var m := mixer(mixed, sample);
      mixed := mixed + 1;
      out := decimator.Absorb(m.0, m.1);
    }

    /**
     A contiguous stretch through the decimator, stopping early at the output
     that fills the caller's buffer.
     */
    method Absorb(ghost before: seq<int>, stretch: seq<int>, output: array<Iq>, produced: nat)
      returns (consumed: nat, filled: nat)
      requires decimator.Valid() && Absorbed(before)
      requires output !in decimator.Repr() && this !in decimator.Repr()
      requires produced < output.Length
      modifies this`mixed, decimator.Repr(), output
      ensures decimator.Valid()
      ensures consumed <= |stretch| && Absorbed(before + stretch[..consumed])
      ensures stretch != [] ==> 0 < consumed
      ensures produced <= filled <= output.Length
      ensures output[..produced] == old(output[..produced])
      ensures decimator.emitted == old(decimator.emitted) + output[produced..filled]
    {
      consumed, filled := 0, produced;
      assert before + stretch[..0] == before;
      while consumed < |stretch| && filled < output.Length
        invariant decimator.Valid()
        invariant consumed <= |stretch| && Absorbed(before + stretch[..consumed])
        invariant consumed == 0 ==> filled == produced
        invariant produced <= filled <= output.Length
        invariant output[..produced] == old(output[..produced])
        invariant decimator.emitted == old(decimator.emitted) + output[produced..filled]
        decreases |stretch| - consumed
      {
        assert before + stretch[..consumed] + [stretch[consumed]] == before + stretch[..consumed + 1];
        var out := Mix(before + stretch[..consumed], stretch[consumed]);
        consumed := consumed + 1;
        if out.Some? {
          output[filled] := out.value;
          filled := filled + 1;
        }
      }
    }

    /** One pass of work()'s loop over the samples now available. */
    method Process(output: array<Iq>, produced: nat) returns (filled: nat)
      requires Valid() && output !in decimator.Repr() && output != ring.slots as object
      requires 0 < ring.Occupied() && produced < output.Length
      modifies this`mixed, ring, decimator.Repr(), output
      ensures Valid() && ring.written == old(ring.written)
      ensures old(ring.taken) < ring.taken
      ensures produced <= filled <= output.Length
      ensures output[..produced] == old(output[..produced])
      ensures decimator.emitted == old(decimator.emitted) + output[produced..filled]
    {
      var contiguous := ring.slots.Length - ring.readPos;
      var room := output.Length - produced;
      var usable := Min(Min(ring.Occupied(), contiguous), room * decimation + decimation);
      DecimationPositive(room, decimator.rate, decimator.post);
      var stretch := ring.View(usable);
      ghost var raw, taken := ring.written, ring.taken;
      var consumed;
      consumed, filled := Absorb(raw[..taken], stretch, output, produced);
      assert raw[..taken] + stretch[..consumed] == raw[..taken + consumed];
      ring.AdvanceRead(consumed);
    }

    /** One look, and one pass of the loop if it finds a whole block. */
    method Pass(output: array<Iq>, produced: nat, look: Look) returns (r: Outcome, filled: nat)
      requires Valid() && output !in decimator.Repr() && output != ring.slots as object
      requires produced < output.Length
      modifies this`mixed, ring, ring.slots, decimator.Repr(), output
      ensures Valid() && old(ring.written) <= ring.written
      ensures produced <= filled <= output.Length
      ensures output[..produced] == old(output[..produced])
      ensures decimator.emitted == old(decimator.emitted) + output[produced..filled]
      ensures if |ring.written| - old(ring.taken) < decimation
              then r == WhenShort(look.state, produced) && filled == produced && ring.taken == old(ring.taken)
              else r == Waiting && old(ring.taken) < ring.taken
    {
      ring.Deliver(look.batch);
      assert Valid();
      if ring.Occupied() < decimation {
        r, filled := WhenShort(look.state, produced), produced;
      } else {
        DecimationPositive(1, decimator.rate, decimator.post);
        filled := Process(output, produced);
        r := Waiting;
      }
    }

    /** What has come out is the decimation of what has been drained. */
    lemma EmittedSoFar()
      requires Valid()
      ensures decimator.emitted
           == Decimated(mixer, decimator.rate, decimator.post, decimator.taps, ring.written[..ring.taken])
      ensures |decimator.emitted| == ring.taken / decimation
    {
      DecimatedCount(mixer, decimator.rate, decimator.post, decimator.taps, ring.written[..ring.taken]);
    }

    /** At the zero offset what has come out is the taps over the moving sums of what was drained. */
    lemma PlainSoFar()
      requires Valid()
      ensures ZeroOffset(mixer) && decimator.rate <= 4095 && SixteenBit(ring.written[..ring.taken]) ==>
        FiltersRaw(decimator.emitted, ring.written[..ring.taken], decimator.rate, decimator.post, decimator.taps)
      ensures |decimator.emitted| == ring.taken / decimation
    {
      EmittedSoFar();
      if ZeroOffset(mixer) && decimator.rate <= 4095 && SixteenBit(ring.written[..ring.taken]) {
        ZeroOffsetOutputs(mixer, decimator.rate, decimator.post, decimator.taps, ring.written[..ring.taken]);
      }
    }

    /**
     work(): drain the ring into the caller's buffer.  Whatever the call sizes,
     the arrivals and the wrap points, everything emitted so far is the
     decimation of everything drained so far.
     */
    method Work(output: array<Iq>, looks: seq<Look>) returns (r: Outcome, produced: nat)
      requires Valid() && output !in decimator.Repr() && output != ring.slots as object
      modifies this, ring, ring.slots, decimator.Repr(), output
      ensures Valid()
      ensures old(ring.written) <= ring.written
      ensures produced <= output.Length
      ensures decimator.emitted == old(decimator.emitted) + output[..produced]
      ensures decimator.emitted
           == Decimated(mixer, decimator.rate, decimator.post, decimator.taps, ring.written[..ring.taken])
      ensures |decimator.emitted| == ring.taken / decimation
      ensures ZeroOffset(mixer) && decimator.rate <= 4095 && SixteenBit(ring.written[..ring.taken]) ==>
        FiltersRaw(decimator.emitted, ring.written[..ring.taken], decimator.rate, decimator.post, decimator.taps)
      ensures r.Returned? ==> r.items == produced && (0 < output.Length ==> 0 < produced)
      ensures r.WorkDone? ==> produced == 0
    {
      produced := 0;
      r := Waiting;
      var i := 0;
      while produced < output.Length && i < |looks|
        invariant Valid() && r == Waiting
        invariant old(ring.written) <= ring.written
        invariant produced <= output.Length
        invariant decimator.emitted == old(decimator.emitted) + output[..produced]
        decreases |looks| - i
      {
        r, produced := Pass(output, produced, looks[i]);
        i := i + 1;
        if !r.Waiting? { break; }
      }
      if produced == output.Length { r := Returned(produced); }
      EmittedSoFar();
      PlainSoFar();
    }
  }

  lemma DecimationPositive(room: nat, rate: nat, post: nat)
    requires 0 < room && 0 < rate && 0 < post
    ensures 0 < rate * post && 0 < room * (rate * post)
  {
    ScaleUp(rate, post);
    ScaleUp(room, rate * post);
  }

  lemma SplitWhole(decimation: nat, post: nat)
    requires 0 < post && decimation % post == 0
    ensures decimation == (decimation / post) * post
  {
  }

  lemma RingWhole(decimation: nat)
    requires 1 <= decimation <= MAX_DECIMATION
    ensures 2 <= NATIVE_RING_SAMPLES - NATIVE_RING_SAMPLES % decimation
    ensures (NATIVE_RING_SAMPLES - NATIVE_RING_SAMPLES % decimation) % decimation == 0
  {
    var q := NATIVE_RING_SAMPLES / decimation;
    ModUnique(NATIVE_RING_SAMPLES - NATIVE_RING_SAMPLES % decimation, decimation, q, 0);
  }
}
