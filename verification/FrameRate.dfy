/** MEncoder's frame rate control (the per-frame block of mencoder.c): two error
    accumulators decide how often each input frame is written to the output.  Times are
    reals and the output frame period is any positive real. */
module FrameRate {
  import opened Wrappers

  /** Settings that do not change during a run.  `encodes` is false for the copying codecs,
      which cannot fail on a frame. */
  datatype Settings = Settings(period: real, skipLimit: int, speed: real, audioDelay: real,
                               defaultMaxPts: real, encodes: bool)
  {
    ghost predicate Valid() { period > 0.0 && speed > 0.0 }
  }

  /** One input frame: its duration as the demuxer gives it, whether the filter chain let it
      through to the encoder, and the clocks for A-V correction if there is sound. */
  datatype Frame = Frame(frameTime: real, blit: bool, audio: Option<Clocks>)

  datatype Clocks = Clocks(aPts: real, vPts: real, aMuxer: real, vMuxer: real, frametime: real)

  /** v_timer_corr, v_pts_corr, skip_flag, c_total, max_pts_correction, the counters, and two
      totals: output frames written and input time consumed. */
  datatype State = State(timer: real, pts: real, skip: int, cTotal: real, maxPts: real,
                         duplicated: nat, skipped: nat, bad: nat, written: nat, input: real)

  const START := State(0.0, 0.0, 0, 0.0, 0.0, 0, 0, 0, 0, 0.0)

  // ------------------------------------------------------ the correction loops in closed form

  function Max(a: int, b: int): int { if a > b then a else b }
  function Min(a: int, b: int): int { if a < b then a else b }

  /** How many whole periods x lies below zero. */
  function Lag(x: real, period: real): (r: nat)
    requires period > 0.0
  {
    if x > -period then 0
    else
      LagPositive(x, period);
      (-x / period).Floor
  }

  lemma MulLess(a: real, b: real, period: real)
    requires period > 0.0
    ensures a < b <==> a * period < b * period
  {
    assert (b - a) * period == b * period - a * period;
  }

  lemma LagPositive(x: real, period: real)
    requires period > 0.0 && x <= -period
    ensures (-x / period).Floor >= 1
  {
    var q := -x / period;
    assert q * period == -x;
    MulLess(q, 1.0, period);
  }

  /** k periods. */
  function Periods(k: int, period: real): real {
    k as real * period
  }

  lemma PeriodsNext(k: int, period: real)
    ensures Periods(k + 1, period) == Periods(k, period) + period && Periods(0, period) == 0.0
  {
  }

  /** After k periods have been added x is still a whole period low exactly while k < Lag. */
  lemma LagAfter(x: real, period: real, k: nat)
    requires period > 0.0
    ensures x + Periods(k, period) <= -period <==> k < Lag(x, period)
    ensures x + Periods(k, period) <= -2.0 * period <==> k + 1 < Lag(x, period)
  {
    hide Lag, Periods;
    Crosses(x, period, k + 1);
    Crosses(x, period, k + 2);
    PeriodsNext(k, period);
    PeriodsNext(k + 1, period);
  }

  lemma Crosses(x: real, period: real, m: nat)
    requires period > 0.0 && m > 0
    ensures x + Periods(m, period) <= 0.0 <==> m <= Lag(x, period)
  {
    var q := -x / period;
    assert q * period == -x;
    MulLess(q, m as real, period);
    MulLess(q, 1.0, period);
    assert q < m as real <==> x + Periods(m, period) > 0.0;
    assert q < 1.0 <==> x > -period;
    assert m as real <= q <==> m <= q.Floor;
  }

  /** Rounds of the first duplication loop. */
  function TimerDups(c: Settings, timer: real, skip: int): (r: nat)
    requires c.Valid()
  {
    if c.skipLimit < 0 then Lag(timer, c.period)
    else Min(Lag(timer, c.period), Max(0, c.skipLimit + skip))
  }

  /** Rounds of the second one: it goes on to within two periods, and while there is a skip
      to cancel to within one. */
  function PtsDups(c: Settings, pts: real, skip: int): (r: nat)
    requires c.Valid()
  {
    var lag := Lag(pts, c.period);
    Max(Max(lag - 1, 0), Min(Max(skip, 0), lag))
  }

  // ------------------------------------------------------ one frame

  function FrameTime(c: Settings, f: Frame): real
    requires c.Valid()
  {
    f.frameTime / c.speed
  }

  function Arrive(c: Settings, s: State, f: Frame): State
    requires c.Valid()
  {
    s.(timer := s.timer - (FrameTime(c, f) - c.period), input := s.input + FrameTime(c, f))
  }

  function SkipForTimer(c: Settings, s: State): State {
    if s.timer >= c.period && (c.skipLimit < 0 || s.skip < c.skipLimit)
    then s.(timer := s.timer - c.period, skip := s.skip + 1) else s
  }

  function DupForTimer(c: Settings, s: State): State
    requires c.Valid()
  {
    var k := TimerDups(c, s.timer, s.skip);
    s.(timer := s.timer + Periods(k, c.period), skip := s.skip - k)
  }

  function DupForPts(c: Settings, s: State): State
    requires c.Valid()
  {
    var k := PtsDups(c, s.pts, s.skip);
    s.(pts := s.pts + Periods(k, c.period), skip := s.skip - k)
  }

  function SkipForPts(c: Settings, s: State): State {
    if ((s.pts >= c.period && s.skip < 0) || s.pts >= 2.0 * c.period) && s.skip <= 0
    then s.(pts := s.pts - c.period, skip := s.skip + 1) else s
  }

  /** The frame goes to the muxer unless it is to be skipped or the filters swallow it. */
  function Encode(c: Settings, s: State, blit: bool): State {
    var passed := blit || !c.encodes;
    var s1 := if passed then s else s.(bad := s.bad + 1);
    if s.skip > 0 then s1
    else if passed then s1.(written := s.written + 1)
    else s1.(timer := s.timer - c.period)
  }

  /** Pending duplicates are written, a pending skip is consumed. */
  function Settle(s: State): State {
    if s.skip < 0 then s.(duplicated := s.duplicated - s.skip, written := s.written - s.skip, skip := 0)
    else if s.skip > 0 then s.(skipped := s.skipped + 1, skip := s.skip - 1)
    else s
  }

  function Clamp(x: real, bound: real): real {
    if x < -bound then -bound else if x > bound then bound else x
  }

  function Correction(c: Settings, s: State, a: Clocks): real
    requires c.Valid()
  {
    var delay := (a.aPts - a.vPts - c.audioDelay) / c.speed - (a.aMuxer - (a.vMuxer - (s.timer + s.pts)));
    Clamp(delay * 0.1, s.maxPts)
  }

  function Synchronise(c: Settings, s: State, audio: Option<Clocks>): State
    requires c.Valid()
  {
    match audio
    case None => s
    case Some(a) =>
      var x := Correction(c, s, a);
      s.(cTotal := s.cTotal + x, pts := s.pts + x,
         maxPts := if c.defaultMaxPts >= 0.0 then c.defaultMaxPts * c.speed else a.frametime * 0.1 * c.speed)
  }

  function Corrected(c: Settings, s: State): State
    requires c.Valid()
  {
    SkipForPts(c, DupForPts(c, DupForTimer(c, SkipForTimer(c, s))))
  }

  function Step(c: Settings, s: State, f: Frame): State
    requires c.Valid()
  {
    Synchronise(c, Settle(Encode(c, Corrected(c, Arrive(c, s, f)), f.blit)), f.audio)
  }

  function Run(c: Settings, s: State, fs: seq<Frame>): State
    requires c.Valid()
    decreases |fs|
  {
    if fs == [] then s else Run(c, Step(c, s, fs[0]), fs[1..])
  }

  // ------------------------------------------------------ conservation

  /** Between frames no skip or duplicate is pending, and the two accumulators together are
      exactly the output written, less the input consumed, plus the corrections made. */
  ghost predicate Balanced(c: Settings, s: State) {
    s.skip == 0 && s.timer + s.pts == c.period * s.written as real - s.input + s.cTotal
  }

  /** The same account while a frame is being processed. */
  ghost predicate Account(c: Settings, s: State, due: real) {
    s.timer + s.pts + c.period * s.skip as real == c.period * s.written as real - s.input + s.cTotal + due
  }

  lemma Moved(period: real, skip: int, k: int)
    ensures period * (skip + k) as real == period * skip as real + Periods(k, period) && Periods(-k, period) == -Periods(k, period)
  {
  }

  lemma CorrectionsConserve(c: Settings, s: State, due: real)
    requires c.Valid() && Account(c, s, due) && s.skip <= 0
    ensures Account(c, Corrected(c, s), due) && Corrected(c, s).skip <= 1
  {
    hide TimerDups, PtsDups, Periods;
    PeriodsNext(0, c.period);
    var s1 := SkipForTimer(c, s);
    Moved(c.period, s.skip, 1);
    assert Account(c, s1, due) && s1.skip <= 1;
    var s2 := DupForTimer(c, s1);
    Moved(c.period, s1.skip, 0 - TimerDups(c, s1.timer, s1.skip));
    assert Account(c, s2, due) && s2.skip <= 1;
    var s3 := DupForPts(c, s2);
    Moved(c.period, s2.skip, 0 - PtsDups(c, s2.pts, s2.skip));
    assert Account(c, s3, due) && s3.skip <= 1;
    Moved(c.period, s3.skip, 1);
  }

  lemma SettleConserves(c: Settings, s: State, blit: bool)
    requires c.Valid() && Account(c, s, c.period) && s.skip <= 1
    ensures Balanced(c, Settle(Encode(c, s, blit)))
  {
    var e := Encode(c, s, blit);
    if s.skip > 0 {
      assert s.skip == 1;
    } else {
      Moved(c.period, s.written, 1);
      assert Account(c, e, 0.0);
      Moved(c.period, e.written, 0 - s.skip);
    }
  }

  lemma StepBalanced(c: Settings, s: State, f: Frame)
    requires c.Valid() && Balanced(c, s)
    ensures Balanced(c, Step(c, s, f))
  {
    hide Corrected, Settle, Encode, Correction;
    var a := Arrive(c, s, f);
    assert Account(c, a, c.period);
    CorrectionsConserve(c, a, c.period);
    SettleConserves(c, Corrected(c, a), f.blit);
  }

  /** Conservation: over any run -- any frame times, any sound, any limit, frames lost in the
      filters included -- the account is exact after every frame. */
  lemma {:induction false} RunBalanced(c: Settings, s: State, fs: seq<Frame>)
    requires c.Valid() && Balanced(c, s)
    ensures Balanced(c, Run(c, s, fs))
    decreases |fs|
  {
    if fs != [] {
      StepBalanced(c, s, fs[0]);
      RunBalanced(c, Step(c, s, fs[0]), fs[1..]);
    }
  }

  // ------------------------------------------------------ drift

  /** The timer accumulator stays within a period, or within two below after a lost frame. */
  ghost predicate OnTime(c: Settings, s: State, lost: bool) {
    (if lost then -2.0 * c.period else -c.period) < s.timer < c.period
  }

  predicate Lost(c: Settings, f: Frame) {
    c.encodes && !f.blit
  }

  lemma DupBound(c: Settings, s: State)
    requires c.Valid() && c.skipLimit < 0 && s.timer < c.period
    ensures -c.period < DupForTimer(c, s).timer < c.period
  {
    hide Lag, Periods;
    var k: int := Lag(s.timer, c.period);
    LagAfter(s.timer, c.period, k);
    PeriodsNext(k - 1, c.period);
    if k > 0 { LagAfter(s.timer, c.period, k - 1); }
  }

  lemma StepOnTime(c: Settings, s: State, f: Frame, lost: bool)
    requires c.Valid() && c.skipLimit < 0 && f.frameTime >= 0.0 && OnTime(c, s, lost) && s.skip <= 0
    ensures OnTime(c, Step(c, s, f), Lost(c, f))
  {
    hide DupForTimer, PtsDups, Correction;
    var a := Arrive(c, s, f);
    assert FrameTime(c, f) >= 0.0 by { Quotient(f.frameTime, c.speed); }
    var s1 := SkipForTimer(c, a);
    assert s1.timer < c.period;
    DupBound(c, s1);
    assert Corrected(c, a).timer == DupForTimer(c, s1).timer;
  }

  lemma Quotient(x: real, d: real)
    requires x >= 0.0 && d > 0.0
    ensures x / d >= 0.0
  {
  }

  ghost predicate Forward(fs: seq<Frame>) {
    forall f :: f in fs ==> f.frameTime >= 0.0
  }

  /** Drift: without a skip limit the timer error stays below one output period after every
      frame, and after a frame lost in the filters below two. */
  lemma {:induction false} RunOnTime(c: Settings, s: State, fs: seq<Frame>, lost: bool)
    requires c.Valid() && c.skipLimit < 0 && Forward(fs) && Balanced(c, s) && OnTime(c, s, lost)
    ensures OnTime(c, Run(c, s, fs), if fs == [] then lost else Lost(c, fs[|fs| - 1]))
    decreases |fs|
  {
    if fs != [] {
      assert fs[0] in fs;
      StepOnTime(c, s, fs[0], lost);
      StepBalanced(c, s, fs[0]);
      forall f | f in fs[1..] ensures f in fs { }
      RunOnTime(c, Step(c, s, fs[0]), fs[1..], Lost(c, fs[0]));
    }
  }

  /** Without sound the pts accumulator never moves. */
  lemma {:induction false} SilentPts(c: Settings, s: State, fs: seq<Frame>)
    requires c.Valid() && s.pts == 0.0 && s.cTotal == 0.0 && forall f :: f in fs ==> f.audio.None?
    ensures Run(c, s, fs).pts == 0.0 && Run(c, s, fs).cTotal == 0.0
    decreases |fs|
  {
    if fs != [] {
      assert fs[0] in fs;
      forall f | f in fs[1..] ensures f in fs { }
      SilentPts(c, Step(c, s, fs[0]), fs[1..]);
    }
  }

  /** With no sound and no lost frame, the output made of whole frames is never a full period
      longer or shorter than the input, however irregular the input's frame times are. */
  lemma OutputTracksInput(c: Settings, fs: seq<Frame>)
    requires c.Valid() && c.skipLimit < 0 && Forward(fs)
    requires forall f :: f in fs ==> f.audio.None? && !Lost(c, f)
    ensures var s := Run(c, START, fs);
            -c.period < c.period * s.written as real - s.input < c.period
  {
    hide Run, Step;
    RunBalanced(c, START, fs);
    RunOnTime(c, START, fs, false);
    SilentPts(c, START, fs);
    if fs != [] { assert fs[|fs| - 1] in fs; }
  }

  /** The pts accumulator never falls further than two periods and one correction. */
  lemma StepPtsBound(c: Settings, s: State, f: Frame)
    requires c.Valid() && s.maxPts >= 0.0
    ensures Step(c, s, f).pts > -2.0 * c.period - s.maxPts
  {
    hide Lag, Periods;
    var s2 := DupForTimer(c, SkipForTimer(c, Arrive(c, s, f)));
    var k := PtsDups(c, s2.pts, s2.skip);
    LagAfter(s2.pts, c.period, k);
    assert DupForPts(c, s2).pts > -2.0 * c.period;
  }

  // ------------------------------------------------------ sound and picture

  /** How far the sound is ahead of the picture, buffering and pending corrections included. */
  function Gap(c: Settings, timer: real, pts: real, a: Clocks): real
    requires c.Valid()
  {
    (a.aPts - a.vPts - c.audioDelay) / c.speed - a.aMuxer + a.vMuxer - timer - pts
  }

  function Abs(x: real): real {
    if x < 0.0 then 0.0 - x else x
  }

  /** y lies between 0 and x. */
  predicate Between(y: real, x: real) {
    if x >= 0.0 then 0.0 <= y <= x else x <= y <= 0.0
  }

  /** A correction closes the gap: by the same clocks the gap after it is smaller by just what
      was added, which is a tenth of the gap, or the bound in the gap's direction if that is
      less. */
  lemma CorrectionCloses(c: Settings, s: State, a: Clocks)
    requires c.Valid() && s.maxPts >= 0.0
    ensures var t := Synchronise(c, s, Some(a));
            var (x, gap) := (t.pts - s.pts, Gap(c, s.timer, s.pts, a));
            && t.timer == s.timer && t.cTotal == s.cTotal + x
            && Gap(c, t.timer, t.pts, a) == gap - x
            && Between(x, gap)
            && (Abs(gap) <= 10.0 * s.maxPts ==> x == gap / 10.0)
            && (Abs(gap) > 10.0 * s.maxPts ==> x == if gap > 0.0 then s.maxPts else 0.0 - s.maxPts)
  {
  }

  /** The bound for the next frame's correction. */
  lemma NextBound(c: Settings, s: State, a: Clocks)
    requires c.Valid()
    ensures c.defaultMaxPts >= 0.0 ==> Synchronise(c, s, Some(a)).maxPts == c.defaultMaxPts * c.speed
    ensures c.defaultMaxPts < 0.0 ==> Synchronise(c, s, Some(a)).maxPts == a.frametime * c.speed / 10.0
  {
  }

  /** The clocks of every frame are steady: but for the output written and the input consumed,
      the sound stays the same `ahead` of the picture. */
  ghost predicate Steady(c: Settings, s: State, fs: seq<Frame>, ahead: real)
    requires c.Valid()
    decreases |fs|
  {
    fs == [] ||
    var t := Step(c, s, fs[0]);
    && fs[0].audio.Some?
    && var a := fs[0].audio.value;
    && a.frametime >= 0.0
    && (a.aPts - a.vPts - c.audioDelay) / c.speed - a.aMuxer + a.vMuxer
       == ahead + c.period * t.written as real - t.input
    && Steady(c, t, fs[1..], ahead)
  }

  /** One frame with steady clocks, whether it is written, skipped, repeated or lost. */
  lemma StepCloses(c: Settings, s: State, f: Frame, ahead: real)
    requires c.Valid() && Balanced(c, s) && s.maxPts >= 0.0 && Steady(c, s, [f], ahead)
    ensures var t := Step(c, s, f);
            var (before, after) := (ahead - s.cTotal, ahead - t.cTotal);
            && t.maxPts >= 0.0 && (c.defaultMaxPts >= 0.0 ==> t.maxPts == c.defaultMaxPts * c.speed)
            && Between(after, before)
            && (Abs(before) <= 10.0 * s.maxPts ==> after == 9.0 * before / 10.0)
            && (Abs(before) > 10.0 * s.maxPts ==> Abs(after) == Abs(before) - s.maxPts)
  {
    hide Corrected, Settle, Encode, Correction;
    var e := Settle(Encode(c, Corrected(c, Arrive(c, s, f)), f.blit));
    CorrectionsConserve(c, Arrive(c, s, f), c.period);
    SettleConserves(c, Corrected(c, Arrive(c, s, f)), f.blit);
    Untouched(c, s, f);
    CorrectionCloses(c, e, f.audio.value);
    NextBound(c, e, f.audio.value);
    Product(c.defaultMaxPts, c.speed);
    Product(f.audio.value.frametime, c.speed);
    assert e.written == Step(c, s, f).written && e.input == Step(c, s, f).input;
  }

  lemma Product(x: real, y: real)
    ensures x >= 0.0 && y >= 0.0 ==> x * y >= 0.0
  {
  }

  /** Up to the A-V correction a frame changes neither the total nor the bound. */
  lemma Untouched(c: Settings, s: State, f: Frame)
    requires c.Valid()
    ensures var e := Settle(Encode(c, Corrected(c, Arrive(c, s, f)), f.blit));
            e.cTotal == s.cTotal && e.maxPts == s.maxPts
  {
  }

  /** With steady clocks the sound's lead falls towards zero over any run of frames, and never
      overshoots. */
  lemma {:induction false} RunCloses(c: Settings, s: State, fs: seq<Frame>, ahead: real)
    requires c.Valid() && Balanced(c, s) && s.maxPts >= 0.0 && Steady(c, s, fs, ahead)
    ensures Between(ahead - Run(c, s, fs).cTotal, ahead - s.cTotal)
    decreases |fs|
  {
    hide Step;
    if fs != [] {
      assert [fs[0]][1..] == [];
      StepCloses(c, s, fs[0], ahead);
      StepBalanced(c, s, fs[0]);
      RunCloses(c, Step(c, s, fs[0]), fs[1..], ahead);
    }
  }

  function NineTenths(x: real, n: nat): real
    decreases n
  {
    if n == 0 then x else NineTenths(9.0 * x / 10.0, n - 1)
  }

  /** While it is within ten times the bound it falls by a tenth with every frame. */
  lemma {:induction false} RunClosesByTenths(c: Settings, s: State, fs: seq<Frame>, ahead: real)
    requires c.Valid() && Balanced(c, s) && Steady(c, s, fs, ahead)
    requires c.defaultMaxPts >= 0.0 && s.maxPts == c.defaultMaxPts * c.speed && Abs(ahead - s.cTotal) <= 10.0 * s.maxPts
    ensures ahead - Run(c, s, fs).cTotal == NineTenths(ahead - s.cTotal, |fs|)
    decreases |fs|
  {
    hide Step;
    Product(c.defaultMaxPts, c.speed);
    if fs != [] {
      assert [fs[0]][1..] == [];
      StepCloses(c, s, fs[0], ahead);
      StepBalanced(c, s, fs[0]);
      RunClosesByTenths(c, Step(c, s, fs[0]), fs[1..], ahead);
    }
  }

  /** Sound half a second ahead, and a bound of a tenth: the correction is 50 ms. */
  lemma CorrectionWitness()
    ensures var c := Settings(0.04, -1, 1.0, 0.0, 0.1, true);
            var s := START.(maxPts := 0.1);
            Synchronise(c, s, Some(Clocks(0.5, 0.0, 0.0, 0.0, 0.04))).pts == 0.05
  {
  }

  // ------------------------------------------------------ when frames are skipped and repeated

  /** With a skip limit of 0 (no skipping, no repeating) and the pts accumulator within two
      periods, every frame that gets through is written exactly once. */
  lemma NoSkipWritesOnce(c: Settings, s: State, f: Frame)
    requires c.Valid() && c.skipLimit == 0 && s.skip == 0
    requires -2.0 * c.period < s.pts < 2.0 * c.period
    ensures Step(c, s, f).written == s.written + if f.blit || !c.encodes then 1 else 0
    ensures Step(c, s, f).timer == s.timer + c.period - f.frameTime / c.speed - if f.blit || !c.encodes then 0.0 else c.period
  {
    hide Periods, Correction;
    PeriodsNext(0, c.period);
    LagAfter(s.pts, c.period, 0);
    assert Lag(s.pts, c.period) <= 1;
    assert TimerDups(c, Arrive(c, s, f).timer, 0) == 0 && PtsDups(c, s.pts, 0) == 0;
  }

  /** The counters: a frame that gets through is written once unless it is skipped, every
      duplicate is written too, and lost frames are counted. */
  lemma StepCounts(c: Settings, s: State, f: Frame)
    requires c.Valid() && s.skip == 0
    ensures var t := Step(c, s, f);
            && t.written - s.written == (t.duplicated - s.duplicated) + (if Lost(c, f) || t.skipped > s.skipped then 0 else 1)
            && s.skipped <= t.skipped <= s.skipped + 1 && t.bad == s.bad + (if Lost(c, f) then 1 else 0)
            && (t.skipped > s.skipped ==> t.duplicated == s.duplicated)
  {
    hide TimerDups, PtsDups, Periods, Correction;
  }

  /** When both accumulators are small a frame is written once, whatever the limit. */
  lemma SmallErrorsWriteOnce(c: Settings, s: State, f: Frame)
    requires c.Valid() && s.skip == 0 && (f.blit || !c.encodes)
    requires -2.0 * c.period < s.pts < 2.0 * c.period
    requires -c.period < s.timer + c.period - f.frameTime / c.speed < c.period
    ensures Step(c, s, f).written == s.written + 1
  {
    hide Periods, Correction;
    PeriodsNext(0, c.period);
    LagAfter(s.pts, c.period, 0);
    LagAfter(Arrive(c, s, f).timer, c.period, 0);
    assert PtsDups(c, s.pts, 0) == 0;
  }

  /** Without a limit, a frame that finds the output a whole period long is skipped, and one
      that finds it k whole periods short is written k times more, so long as the pts
      accumulator is below a period. */
  lemma TimerIsFollowed(c: Settings, s: State, f: Frame, k: nat)
    requires c.Valid() && c.skipLimit < 0 && s.skip == 0 && (f.blit || !c.encodes) && -c.period < s.pts < c.period
    ensures var timer := s.timer + c.period - f.frameTime / c.speed;
            && (timer >= c.period ==> timer < 2.0 * c.period ==> Step(c, s, f).written == s.written)
            && (-(k as real + 1.0) * c.period < timer <= -(k as real) * c.period && timer < c.period
                ==> Step(c, s, f).written == s.written + 1 + k)
  {
    hide Periods, Correction;
    var a := Arrive(c, s, f);
    PeriodsNext(0, c.period);
    LagAfter(s.pts, c.period, 0);
    assert Lag(s.pts, c.period) == 0;
    if a.timer >= c.period {
      LagAfter(a.timer - c.period, c.period, 0);
    } else {
      WholeLag(a.timer, c.period, k);
    }
  }

  /** With a quiet timer a frame is skipped once the pts accumulator is two periods ahead ... */
  lemma PtsAheadIsFollowed(c: Settings, s: State, f: Frame)
    requires c.Valid() && s.skip == 0 && (f.blit || !c.encodes) && f.audio.None?
    requires -c.period < s.timer + c.period - f.frameTime / c.speed < c.period && s.pts >= 2.0 * c.period
    ensures Step(c, s, f).written == s.written && Step(c, s, f).pts == s.pts - c.period
  {
    hide Periods;
    PeriodsNext(0, c.period);
    LagAfter(Arrive(c, s, f).timer, c.period, 0);
    LagAfter(s.pts, c.period, 0);
  }

  /** ... and repeated until it is less than two periods behind. */
  lemma PtsBehindIsFollowed(c: Settings, s: State, f: Frame, k: nat)
    requires c.Valid() && s.skip == 0 && (f.blit || !c.encodes) && f.audio.None?
    requires -c.period < s.timer + c.period - f.frameTime / c.speed < c.period
    requires k >= 2 && -(k as real + 1.0) * c.period < s.pts <= -(k as real) * c.period
    ensures Step(c, s, f).written == s.written + k && Step(c, s, f).pts == s.pts + Periods(k - 1, c.period)
  {
    hide Periods, Lag;
    WholeLag(s.pts, c.period, k);
    LagAfter(s.pts, c.period, k - 1);
    QuietTimer(c, Arrive(c, s, f));
  }

  lemma QuietTimer(c: Settings, a: State)
    requires c.Valid() && a.skip == 0 && -c.period < a.timer < c.period
    ensures DupForTimer(c, SkipForTimer(c, a)) == a
  {
    hide Periods;
    PeriodsNext(0, c.period);
    LagAfter(a.timer, c.period, 0);
  }

  /** When the two accumulators disagree by a period each, they cancel out and the frame is
      written once. */
  lemma Cancels(c: Settings, s: State, f: Frame)
    requires c.Valid() && c.skipLimit < 0 && s.skip == 0 && (f.blit || !c.encodes) && f.audio.None?
    ensures var timer := s.timer + c.period - f.frameTime / c.speed;
            && (c.period <= timer < 2.0 * c.period && -2.0 * c.period < s.pts <= -c.period
                ==> Step(c, s, f).written == s.written + 1 && Step(c, s, f).pts == s.pts + c.period)
            && (-2.0 * c.period < timer <= -c.period && c.period <= s.pts < 2.0 * c.period
                ==> Step(c, s, f).written == s.written + 1 && Step(c, s, f).pts == s.pts - c.period)
  {
    hide Periods;
    var a := Arrive(c, s, f);
    PeriodsNext(0, c.period);
    PeriodsNext(1, c.period);
    if c.period <= a.timer < 2.0 * c.period && -2.0 * c.period < s.pts <= -c.period {
      LagAfter(a.timer - c.period, c.period, 0);
      WholeLag(s.pts, c.period, 1);
    }
    if -2.0 * c.period < a.timer <= -c.period && c.period <= s.pts < 2.0 * c.period {
      WholeLag(a.timer, c.period, 1);
      LagAfter(s.pts, c.period, 0);
    }
  }

  lemma WholeLag(x: real, period: real, k: nat)
    requires period > 0.0
    ensures -(k as real + 1.0) * period < x <= -(k as real) * period ==> Lag(x, period) == k
  {
    hide Lag;
    Crosses(x, period, k + 1);
    if k > 0 { Crosses(x, period, k); }
    assert Periods(k, period) == k as real * period && Periods(k + 1, period) == (k as real + 1.0) * period;
  }

  // ------------------------------------------------------ the block as written

  class Controller {
    const c: Settings
    var timer: real
    var pts: real
    var skip: int
    var cTotal: real
    var maxPts: real
    var duplicated: nat
    var skipped: nat
    var bad: nat
    var written: nat
    ghost var input: real

    ghost function Abs(): State
      reads this
    {
      State(timer, pts, skip, cTotal, maxPts, duplicated, skipped, bad, written, input)
    }

    constructor (c: Settings)
      requires c.Valid()
      ensures this.c == c && Abs() == START
    {
      this.c := c;
      timer, pts, skip, cTotal, maxPts := 0.0, 0.0, 0, 0.0, 0.0;
      duplicated, skipped, bad, written, input := 0, 0, 0, 0, 0.0;
    }

    method ProcessFrame(f: Frame)
      requires c.Valid()
      modifies this
      ensures Abs() == Step(c, old(Abs()), f)
    {
      hide Arrive, SkipForTimer, DupForTimer, DupForPts, SkipForPts, Encode, Settle, Synchronise;
      TakeFrame(f);
      SkipTimer();
      DuplicateForTimer();
      DuplicateForPts();
      SkipPts();
      EncodeFrame(f.blit);
      WriteDuplicates();
      CorrectAV(f.audio);
    }

    method TakeFrame(f: Frame)
      requires c.Valid()
      modifies `timer, `input
      ensures Abs() == Arrive(c, old(Abs()), f)
    {
      var frameTime := f.frameTime / c.speed;
      timer := timer - (frameTime - c.period);
      input := input + frameTime;
    }

    method SkipTimer()
      modifies `timer, `skip
      ensures Abs() == SkipForTimer(c, old(Abs()))
    {
      if timer >= c.period && (c.skipLimit < 0 || skip < c.skipLimit) {
        timer := timer - c.period;
        skip := skip + 1;
      }
    }

    method SkipPts()
      modifies `pts, `skip
      ensures Abs() == SkipForPts(c, old(Abs()))
    {
      if (pts >= c.period && skip < 0) || pts >= 2.0 * c.period {
        if skip <= 0 {
          pts := pts - c.period;
          skip := skip + 1;
        }
      }
    }

    method DuplicateForTimer()
      requires c.Valid()
      modifies `timer, `skip
      ensures Abs() == DupForTimer(c, old(Abs()))
    {
      hide Lag, Periods;
      ghost var k: nat := 0;
      PeriodsNext(0, c.period);
      ghost var n := TimerDups(c, timer, skip);
      LagAfter(timer, c.period, 0);
      while timer <= -c.period && (c.skipLimit < 0 || -skip < c.skipLimit)
        invariant k <= n && timer == old(timer) + Periods(k, c.period) && skip == old(skip) - k
        decreases n - k
      {
        LagAfter(old(timer), c.period, k);
        PeriodsNext(k, c.period);
        timer := timer + c.period;
        skip := skip - 1;
        k := k + 1;
      }
      LagAfter(old(timer), c.period, k);
    }

    method DuplicateForPts()
      requires c.Valid()
      modifies `pts, `skip
      ensures Abs() == DupForPts(c, old(Abs()))
    {
      hide Lag, Periods;
      ghost var k: nat := 0;
      PeriodsNext(0, c.period);
      ghost var n := PtsDups(c, pts, skip);
      while (pts <= -c.period && skip > 0) || pts <= -2.0 * c.period
        invariant k <= n && pts == old(pts) + Periods(k, c.period) && skip == old(skip) - k
        decreases n - k
      {
        LagAfter(old(pts), c.period, k);
        PeriodsNext(k, c.period);
        pts := pts + c.period;
        skip := skip - 1;
        k := k + 1;
      }
      LagAfter(old(pts), c.period, k);
    }

    method EncodeFrame(blit: bool)
      modifies `timer, `bad, `written
      ensures Abs() == Encode(c, old(Abs()), blit)
    {
      if c.encodes {
        if blit && skip <= 0 { written := written + 1; }
        if !blit {
          bad := bad + 1;
          if skip <= 0 { timer := timer - c.period; }
        }
      } else if skip <= 0 {
        written := written + 1;
      }
    }

    method WriteDuplicates()
      modifies `skip, `duplicated, `skipped, `written
      ensures Abs() == Settle(old(Abs()))
    {
      if skip < 0 {
        while skip < 0
          invariant old(skip) <= skip <= 0
          invariant duplicated == old(duplicated) + skip - old(skip)
          invariant written == old(written) + skip - old(skip)
          invariant skipped == old(skipped)
        {
          duplicated := duplicated + 1;
          written := written + 1;
          skip := skip + 1;
        }
      } else if skip > 0 {
        skipped := skipped + 1;
        skip := skip - 1;
      }
    }

    method CorrectAV(audio: Option<Clocks>)
      requires c.Valid()
      modifies `pts, `cTotal, `maxPts
      ensures Abs() == Synchronise(c, old(Abs()), audio)
    {
      if audio.None? { return; }
      var a := audio.value;
      var delay := a.aPts - a.vPts;
      delay := delay - c.audioDelay;
      delay := delay / c.speed;
      delay := delay - (a.aMuxer - (a.vMuxer - (timer + pts)));
      var x := delay * 0.1;
      if x < -maxPts { x := -maxPts; } else if x > maxPts { x := maxPts; }
      if c.defaultMaxPts >= 0.0 {
        maxPts := c.defaultMaxPts * c.speed;
      } else {
        maxPts := a.frametime * 0.1 * c.speed;
      }
      cTotal := cTotal + x;
      pts := pts + x;
    }
  }
}
