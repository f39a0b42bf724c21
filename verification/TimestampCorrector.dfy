/** The timestamp corrector (dt_tsproc_process in mctools.c): two clocks, one
    following the stamps of the device and one advancing by whole frame periods,
    kept together over every run. */
module TimestampCorrector {
  import opened Bytes

  const MAX_REF := 1001000000
  const MS := 1000000
  /** TIMESTAMP_JITTER_DAMPING_LIMIT, SLOW_DRIFT_EVAL_MIN_SAMPLES,
      EPOCH_MAX_FORWARD_JUMP, MAX_EPOCH_PEDANTRY_TOWARDS_TIMESTAMP. */
  const DAMPING := 4
  const MIN_SAMPLES := 1000
  const MAX_JUMP := 30
  const MAX_PEDANTRY := 5

  /** Arithmetic of the C types, or of the integers. */
  datatype Arith = Machine | Ideal

  /** uint64_t. */
  function U(m: Arith, x: int): int
  {
    if m.Machine? then Wrap(x) else x
  }

  /** int64_t. */
  function I(m: Arith, x: int): int
  {
    if m.Machine? then
      var y := Wrap(x);
      if y < TWO_63 then y else y - TWO_64
    else x
  }

  /** Division of C: towards zero. */
  function Trunc(a: int, b: int): int
    requires b > 0
  {
    if a >= 0 then a / b else -((-a) / b)
  }

  function Abs(x: int): nat
  {
    if x >= 0 then x else -x
  }

  /** What the corrector reads of a frame: reference period in ns, epoch in
      seconds, and the 16-bit millisecond stamp. */
  datatype Frame = Frame(ref: int, epoch: nat, stamp: nat)

  /** t_mc_tsproc: device clock, output clock, the slow-drift accumulators, and
      stamp and epoch of the last frame. */
  datatype Clocks = Clocks(first: bool, vDhav: int, v: int,
                           tDhav: int, tRef: int, tEff: int, frames: int,
                           stamp: nat, epoch: nat)

  /** Milliseconds between two 16-bit stamps. */
  function PeriodMs(cur: nat, prev: nat): (ms: nat)
    ensures ms < TWO_16
  {
    (cur - prev) % TWO_16
  }

  /** The last actions of every branch. */
  function Advance(m: Arith, s: Clocks, f: Frame, vDhav: int, period: int, use: int): Clocks
  {
    s.(first := false, stamp := f.stamp, epoch := f.epoch,
       v := U(m, s.v + use), vDhav := U(m, vDhav + period))
  }

  function Reset(s: Clocks): Clocks
  {
    s.(tDhav := 0, tRef := 0, tEff := 0, frames := 0)
  }

  /** One frame period, moved by the whole periods in `a`. */
  function Shift(m: Arith, ref: int, a: int): int
    requires ref > 0
  {
    I(m, ref + Trunc(a, ref) * ref)
  }

  /** Statistics of one more frame, which may be counted twice as effective. */
  function Ticked(m: Arith, s: Clocks, f: Frame, period: int, twice: bool): Clocks
  {
    var eff := I(m, s.tEff + f.ref);
    s.(tDhav := I(m, s.tDhav + period), tRef := I(m, s.tRef + f.ref),
       tEff := if twice then I(m, eff + f.ref) else eff, frames := I(m, s.frames + 1))
  }

  datatype Branch = EpochReset | DriftReset | SlowReset | SlowOneFrame | Ordinary

  /** Which branch is taken, given the drift, the slow drift, the whole frames in
      it and the number of frames counted. */
  function Choose(s: Clocks, f: Frame, drift: int, slow: int, j: int, frames: int): Branch
  {
    if f.epoch < s.epoch || f.epoch - s.epoch > MAX_JUMP then EpochReset
    else if Abs(drift) > DAMPING * f.ref then DriftReset
    else if Abs(slow) > 2 * f.ref && frames >= MIN_SAMPLES then
      if Abs(j) > 2 then SlowReset else SlowOneFrame
    else Ordinary
  }

  /** What the branch does, with the corrections for drift and slow drift. */
  function Take(m: Arith, b: Branch, s: Clocks, f: Frame, period: int, driftUse: int, slowUse: int): Clocks
  {
    match b
    case EpochReset => Advance(m, Reset(s), f, s.v, f.ref, f.ref)
    case DriftReset => Advance(m, Reset(s), f, s.vDhav, period, driftUse)
    case SlowReset => Advance(m, Reset(s), f, s.vDhav, period, slowUse)
    case SlowOneFrame => Advance(m, Ticked(m, s, f, period, true), f, s.vDhav, period, 2 * f.ref)
    case Ordinary => Advance(m, Ticked(m, s, f, period, false), f, s.vDhav, period, f.ref)
  }

  function Period(m: Arith, s: Clocks, f: Frame): int
  {
    I(m, U(m, PeriodMs(f.stamp, s.stamp) * MS))
  }

  function Drift(m: Arith, s: Clocks, f: Frame): int
  {
    I(m, U(m, U(m, s.vDhav + Period(m, s, f)) - U(m, s.v + f.ref)))
  }

  function SlowDrift(m: Arith, s: Clocks, f: Frame): int
  {
    I(m, I(m, s.tDhav + Period(m, s, f)) - I(m, s.tEff + f.ref))
  }

  /** One video frame. */
  function Step(m: Arith, s: Clocks, f: Frame): Clocks
    requires f.ref > 0
  {
    if s.first then Clocks(false, 0, 0, 0, 0, 0, 0, f.stamp, f.epoch)
    else
      var drift, slow := Drift(m, s, f), SlowDrift(m, s, f);
      var b := Choose(s, f, drift, slow, Trunc(slow, f.ref), I(m, s.frames + 1));
      Take(m, b, s, f, Period(m, s, f), Shift(m, f.ref, drift), Shift(m, f.ref, slow))
  }

  /** All frames so far, starting from an arbitrary, not yet used structure. */
  function Run(m: Arith, s: Clocks, fs: seq<Frame>): Clocks
    requires forall i :: 0 <= i < |fs| ==> fs[i].ref > 0
  {
    if fs == [] then s else Step(m, Run(m, s, fs[..|fs| - 1]), fs[|fs| - 1])
  }

  lemma RunSnoc(s: Clocks, fs: seq<Frame>, f: Frame)
    requires (forall i :: 0 <= i < |fs| ==> fs[i].ref > 0) && f.ref > 0
    ensures Run(Ideal, s, fs + [f]) == Step(Ideal, Run(Ideal, s, fs), f)
  {
    assert (fs + [f])[..|fs|] == fs;
  }

  /** The branch a frame takes, on the integers. */
  function BranchOf(s: Clocks, f: Frame): Branch
    requires f.ref > 0
  {
    var slow := SlowDrift(Ideal, s, f);
    Choose(s, f, Drift(Ideal, s, f), slow, Trunc(slow, f.ref), s.frames + 1)
  }

  // ------------------------------------------------------- the invariant

  /** How far the device clock is ahead of the output clock. */
  function Lead(s: Clocks): int { s.vDhav - s.v }

  /** The same as far as the accumulators know. */
  function Measured(s: Clocks): int { s.tDhav - s.tEff }

  /** What the accumulators do not see: constant between resets. */
  function Unseen(s: Clocks): int { Lead(s) - Measured(s) }

  /** `rmax` bounds the reference periods of the run.  What is unseen stays
      strictly inside two periods; that is what keeps the lead bounded. */
  predicate Inv(s: Clocks, rmax: int)
  {
    && -2 * rmax < Unseen(s) < 2 * rmax
    && -5 * rmax <= Lead(s) <= 4 * rmax
    && 0 <= s.vDhav && 0 <= s.tDhav && 0 <= s.frames
    && 0 <= s.tRef <= s.tEff <= s.v
  }

  lemma DivFacts(a: nat, b: int)
    requires b > 0
    ensures 0 <= a / b * b <= a < a / b * b + b
  {
  }

  lemma AtLeastThree(q: int, b: int)
    requires b > 0 && q >= 3
    ensures q * b >= 3 * b
  {
  }

  /** `use` is a frame period plus the whole periods in `a`. */
  predicate Shifted(a: int, ref: int, j: int, use: int)
  {
    var c := use - ref;
    && -ref < a - c < ref
    && (a >= 0 ==> 0 <= c <= a) && (a <= 0 ==> a <= c <= 0)
    && (j > 2 ==> c >= 3 * ref) && (j < -2 ==> c <= -3 * ref)
  }

  lemma ShiftFacts(a: int, ref: int)
    requires ref > 0
    ensures Shifted(a, ref, Trunc(a, ref), Shift(Ideal, ref, a))
  {
    DivFacts(Abs(a), ref);
    var q := Trunc(a, ref);
    if a < 0 { assert q * ref == -(Abs(a) / ref * ref); }
    if q > 2 { AtLeastThree(q, ref); }
    if q < -2 { AtLeastThree(-q, ref); assert (-q) * ref == -(q * ref); }
  }

  /** Back by at most five periods; forward by at most seven, or by what one
      16-bit stamp can jump and four more. */
  predicate MovesLittle(d: int, rmax: int)
  {
    -5 * rmax <= d && (d <= 7 * rmax || d <= 4 * rmax + (TWO_16 - 1) * MS)
  }

  /** What every step has to keep. */
  predicate Kept(s: Clocks, f: Frame, rmax: int, e: Clocks)
  {
    && Inv(e, rmax) && !e.first
    && MovesLittle(e.v - s.v, rmax)
    && e.tDhav <= s.tDhav + (TWO_16 - 1) * MS && e.tRef <= s.tRef + f.ref
    && e.tEff <= s.tEff + 2 * f.ref && e.frames <= s.frames + 1
  }

  /** Large drift: what is left of the lead is less than a period. */
  lemma DriftBranchKeeps(s: Clocks, f: Frame, rmax: int, period: int, drift: int, i: int, use: int)
    requires 0 < f.ref <= rmax && Inv(s, rmax) && 0 <= period <= (TWO_16 - 1) * MS
    requires drift == s.vDhav + period - (s.v + f.ref) && Shifted(drift, f.ref, i, use)
    ensures Kept(s, f, rmax, Advance(Ideal, Reset(s), f, s.vDhav, period, use))
    ensures -f.ref < Lead(Advance(Ideal, Reset(s), f, s.vDhav, period, use)) < f.ref
  {
    var c := use - f.ref;
    assert -f.ref < drift - c < f.ref;
    if drift >= 0 { assert 0 <= c <= drift; } else { assert drift <= c <= 0; }
    assert s.v + use >= 0;
  }

  /** Slow drift of three frames or more: what was unseen stays, and less than a
      period of what was seen. */
  lemma SlowResetKeeps(s: Clocks, f: Frame, rmax: int, period: int, slow: int, j: int, use: int)
    requires 0 < f.ref <= rmax && Inv(s, rmax) && 0 <= period <= (TWO_16 - 1) * MS
    requires -4 * f.ref <= s.vDhav + period - (s.v + f.ref) <= 4 * f.ref
    requires slow == s.tDhav + period - (s.tEff + f.ref) && Shifted(slow, f.ref, j, use)
    requires j > 2 || j < -2
    ensures Kept(s, f, rmax, Advance(Ideal, Reset(s), f, s.vDhav, period, use))
  {
    var c := use - f.ref;
    var unseen := s.vDhav + period - (s.v + f.ref) - slow;
    assert -2 * rmax < unseen < 2 * rmax;
    if j > 2 {
      assert 3 * f.ref <= c <= slow;
    } else {
      assert slow <= c <= -3 * f.ref;
    }
  }

  /** No correction, or one frame for slow drift of up to two. */
  lemma OrdinaryKeeps(s: Clocks, f: Frame, rmax: int, period: int, twice: bool)
    requires 0 < f.ref <= rmax && Inv(s, rmax) && 0 <= period <= (TWO_16 - 1) * MS
    requires -4 * f.ref <= s.vDhav + period - (s.v + f.ref) <= 4 * f.ref
    ensures var use := if twice then 2 * f.ref else f.ref;
            Kept(s, f, rmax, Advance(Ideal, Ticked(Ideal, s, f, period, twice), f, s.vDhav, period, use))
  {
  }

  /** All branches keep the invariant, whatever corrections of the right size
      they apply. */
  lemma BranchKeeps(s: Clocks, f: Frame, rmax: int, period: int,
                    drift: int, i: int, driftUse: int, slow: int, j: int, slowUse: int)
    requires 0 < f.ref <= rmax && Inv(s, rmax) && 0 <= period <= (TWO_16 - 1) * MS
    requires drift == s.vDhav + period - (s.v + f.ref) && slow == s.tDhav + period - (s.tEff + f.ref)
    requires Shifted(drift, f.ref, i, driftUse) && Shifted(slow, f.ref, j, slowUse)
    ensures var b := Choose(s, f, drift, slow, j, s.frames + 1);
            Kept(s, f, rmax, Take(Ideal, b, s, f, period, driftUse, slowUse))
  {
    match Choose(s, f, drift, slow, j, s.frames + 1) {
      case EpochReset =>
      case DriftReset => DriftBranchKeeps(s, f, rmax, period, drift, i, driftUse);
      case SlowReset => SlowResetKeeps(s, f, rmax, period, slow, j, slowUse);
      case SlowOneFrame => OrdinaryKeeps(s, f, rmax, period, true);
      case Ordinary => OrdinaryKeeps(s, f, rmax, period, false);
    }
  }

  /** Every step keeps the invariant, in all four correction branches and the
      ordinary one; it moves the output clock back by at most five periods and
      forward by less than 70 seconds at any frame rate.  Between resets the
      unseen part of the lead does not change; a reset makes the lead unseen. */
  lemma StepKeepsInv(s: Clocks, f: Frame, rmax: int)
    requires 0 < f.ref <= rmax && (s.first || Inv(s, rmax))
    ensures var e := Step(Ideal, s, f);
            && Inv(e, rmax) && !e.first
            && (!s.first ==> Kept(s, f, rmax, e))
            && (!s.first ==> if BranchOf(s, f) in {SlowOneFrame, Ordinary} then Unseen(e) == Unseen(s)
                             else Measured(e) == 0)
  {
    if !s.first {
      var drift, slow := Drift(Ideal, s, f), SlowDrift(Ideal, s, f);
      ShiftFacts(drift, f.ref);
      ShiftFacts(slow, f.ref);
      BranchKeeps(s, f, rmax, Period(Ideal, s, f), drift, Trunc(drift, f.ref), Shift(Ideal, f.ref, drift),
                      slow, Trunc(slow, f.ref), Shift(Ideal, f.ref, slow));
    }
  }

  /** The drift bound over whole runs: for any sequence of epochs and stamps,
      and frame rates that may change, the device clock is never more than five
      periods behind the output clock nor more than four ahead of it. */
  lemma {:induction false} DriftBounded(s: Clocks, fs: seq<Frame>, rmax: int)
    requires s.first && fs != []
    requires forall i :: 0 <= i < |fs| ==> 0 < fs[i].ref <= rmax
    ensures var e := Run(Ideal, s, fs);
            && -5 * rmax <= e.vDhav - e.v <= 4 * rmax
            && e.v >= 0 && e.vDhav >= 0
            && Inv(e, rmax) && !e.first
    decreases |fs|
  {
    var n := |fs| - 1;
    if n > 0 {
      DriftBounded(s, fs[..n], rmax);
    }
    StepKeepsInv(Run(Ideal, s, fs[..n]), fs[n], rmax);
  }

  /** The output clock goes back: large negative drift, or slow drift of minus three
      frames or more. */
  predicate GoesBack(s: Clocks, f: Frame)
    requires f.ref > 0
  {
    && !s.first
    && match BranchOf(s, f)
       case DriftReset => Drift(Ideal, s, f) < 0
       case SlowReset => SlowDrift(Ideal, s, f) < 0
       case _ => false
  }

  /** It does so exactly then, and every step is at least one period. */
  lemma MonotoneUnlessGoesBack(s: Clocks, f: Frame)
    requires f.ref > 0 && !s.first
    ensures Step(Ideal, s, f).v < s.v <==> GoesBack(s, f)
    ensures Abs(Step(Ideal, s, f).v - s.v) >= f.ref
  {
    var drift, slow := Drift(Ideal, s, f), SlowDrift(Ideal, s, f);
    ShiftFacts(drift, f.ref);
    ShiftFacts(slow, f.ref);
    assert Shifted(drift, f.ref, Trunc(drift, f.ref), Shift(Ideal, f.ref, drift));
    assert Shifted(slow, f.ref, Trunc(slow, f.ref), Shift(Ideal, f.ref, slow));
  }

  /** With a constant frame rate the output clock only ever stands on multiples
      of the period, at or beyond the frames counted since the last reset. */
  lemma {:induction false} ConstantRate(s: Clocks, fs: seq<Frame>, ref: int)
    requires s.first && fs != [] && ref > 0
    requires forall i :: 0 <= i < |fs| ==> fs[i].ref == ref
    ensures var e := Run(Ideal, s, fs);
            e.v % ref == 0 && e.tRef == e.frames * ref && e.v >= e.frames * ref
    decreases |fs|
  {
    var n := |fs| - 1;
    var p := Run(Ideal, s, fs[..n]);
    DriftBounded(s, fs, ref);
    if n > 0 {
      ConstantRate(s, fs[..n], ref);
      ConstantRateStep(p, fs[n], ref);
    } else {
      assert 0 % ref == 0;
    }
  }

  lemma MultipleOf(a: int, k: int, b: int)
    requires b > 0 && a % b == 0
    ensures (a + k * b) % b == 0
  {
    var q := a / b;
    assert a + k * b == (q + k) * b;
    MultipleRemainder(q + k, b);
  }

  lemma MultipleRemainder(q: int, b: int)
    requires b > 0
    ensures (q * b) % b == 0
  {
    var r, d := (q * b) % b, (q * b) / b;
    assert q * b == d * b + r;
    assert (q - d) * b == r;
    if q - d >= 1 {
      AtLeastOne(q - d, b);
    } else if q - d <= -1 {
      AtLeastOne(d - q, b);
    }
  }

  lemma ShiftIsMultiple(v: int, ref: int, a: int)
    requires ref > 0 && v % ref == 0
    ensures (v + Shift(Ideal, ref, a)) % ref == 0
  {
    var j := Trunc(a, ref);
    assert ref + j * ref == (1 + j) * ref;
    MultipleOf(v, 1 + j, ref);
  }

  lemma BranchKeepsMultiple(p: Clocks, f: Frame, period: int, b: Branch, driftUse: int, slowUse: int)
    requires f.ref > 0 && p.v % f.ref == 0 && p.tRef == p.frames * f.ref
    requires (p.v + driftUse) % f.ref == 0 && (p.v + slowUse) % f.ref == 0
    requires (p.v + f.ref) % f.ref == 0 && (p.v + 2 * f.ref) % f.ref == 0
    ensures var e := Take(Ideal, b, p, f, period, driftUse, slowUse);
            e.v % f.ref == 0 && e.tRef == e.frames * f.ref
  {
    assert (p.frames + 1) * f.ref == p.frames * f.ref + f.ref;
  }

  lemma ConstantRateStep(p: Clocks, f: Frame, ref: int)
    requires !p.first && f.ref == ref > 0
    requires p.v % ref == 0 && p.tRef == p.frames * ref
    ensures var e := Step(Ideal, p, f);
            e.v % ref == 0 && e.tRef == e.frames * ref
  {
    var drift, slow := Drift(Ideal, p, f), SlowDrift(Ideal, p, f);
    ShiftIsMultiple(p.v, ref, drift);
    ShiftIsMultiple(p.v, ref, slow);
    MultipleOf(p.v, 1, ref);
    MultipleOf(p.v, 2, ref);
    var b := Choose(p, f, drift, slow, Trunc(slow, ref), p.frames + 1);
    BranchKeepsMultiple(p, f, Period(Ideal, p, f), b, Shift(Ideal, ref, drift), Shift(Ideal, ref, slow));
  }

  // ------------------------------------------------------- no wrap-around

  /** Far from every limit of the 64-bit types. */
  predicate InRange(s: Clocks)
  {
    && 0 <= s.v <= TWO_63 - 2 * TWO_32 * TWO_8 && 0 <= s.vDhav <= TWO_63 - TWO_32 * TWO_8
    && 0 <= s.tDhav <= TWO_63 - TWO_32 * TWO_8 && 0 <= s.tRef <= TWO_63 - TWO_32
    && 0 <= s.tEff <= TWO_63 - TWO_32 * TWO_8 && 0 <= s.frames < TWO_32
  }

  lemma SameU(x: int)
    requires 0 <= x < TWO_64
    ensures U(Machine, x) == x
  {
  }

  lemma SameI(x: int)
    requires -TWO_63 <= x < TWO_63
    ensures I(Machine, x) == x && I(Machine, U(Machine, x)) == x
  {
    if x < 0 {
      assert Wrap(x + TWO_64) == x + TWO_64;
    }
  }

  /** The values the branches decide on do not wrap. */
  lemma MachineValues(s: Clocks, f: Frame)
    requires 0 < f.ref <= MAX_REF && InRange(s)
    ensures Period(Machine, s, f) == Period(Ideal, s, f)
    ensures Drift(Machine, s, f) == Drift(Ideal, s, f)
    ensures SlowDrift(Machine, s, f) == SlowDrift(Ideal, s, f)
  {
    var period := PeriodMs(f.stamp, s.stamp) * MS;
    SameI(period);
    SameU(s.vDhav + period);
    SameU(s.v + f.ref);
    SameI(s.vDhav + period - (s.v + f.ref));
    SameI(s.tDhav + period);
    SameI(s.tEff + f.ref);
    SameI(s.tDhav + period - (s.tEff + f.ref));
  }

  lemma MachineShift(ref: int, a: int)
    requires 0 < ref <= MAX_REF && -TWO_63 + TWO_32 < a < TWO_63 - TWO_32
    ensures Shift(Machine, ref, a) == Shift(Ideal, ref, a)
  {
    ShiftFacts(a, ref);
    SameI(ref + Trunc(a, ref) * ref);
  }

  lemma MachineTicked(s: Clocks, f: Frame, period: int, twice: bool)
    requires 0 < f.ref <= MAX_REF && InRange(s) && 0 <= period <= (TWO_16 - 1) * MS
    ensures Ticked(Machine, s, f, period, twice) == Ticked(Ideal, s, f, period, twice)
  {
    SameI(s.tDhav + period);
    SameI(s.tRef + f.ref);
    SameI(s.tEff + f.ref);
    SameI(s.tEff + f.ref + f.ref);
    SameI(s.frames + 1);
  }

  /** A branch whose result is in range does not wrap. */
  lemma MachineBranch(b: Branch, s: Clocks, f: Frame, period: int, driftUse: int, slowUse: int)
    requires 0 < f.ref <= MAX_REF && InRange(s) && 0 <= period <= (TWO_16 - 1) * MS
    requires Inv(s, MAX_REF) && Kept(s, f, MAX_REF, Take(Ideal, b, s, f, period, driftUse, slowUse))
    ensures Take(Machine, b, s, f, period, driftUse, slowUse) == Take(Ideal, b, s, f, period, driftUse, slowUse)
  {
    var e := Take(Ideal, b, s, f, period, driftUse, slowUse);
    MachineTicked(s, f, period, false);
    MachineTicked(s, f, period, true);
    SameU(e.v);
    SameU(e.vDhav);
  }

  /** In range, a step gives what it gives on the integers. */
  lemma MachineStep(s: Clocks, f: Frame)
    requires 0 < f.ref <= MAX_REF && (s.first || (Inv(s, MAX_REF) && InRange(s)))
    ensures Step(Machine, s, f) == Step(Ideal, s, f)
  {
    if !s.first {
      var drift, slow := Drift(Ideal, s, f), SlowDrift(Ideal, s, f);
      MachineValues(s, f);
      ShiftFacts(drift, f.ref);
      ShiftFacts(slow, f.ref);
      MachineShift(f.ref, drift);
      MachineShift(f.ref, slow);
      SameI(s.frames + 1);
      StepKeepsInv(s, f, MAX_REF);
      var b := Choose(s, f, drift, slow, Trunc(slow, f.ref), s.frames + 1);
      MachineBranch(b, s, f, Period(Ideal, s, f), Shift(Ideal, f.ref, drift), Shift(Ideal, f.ref, slow));
    }
  }

  /** What the branches decide on has its integer value: the unsigned difference of
      the clocks wraps, but its conversion to int64_t undoes that. */
  predicate SameValues(s: Clocks, f: Frame)
  {
    && Period(Machine, s, f) == Period(Ideal, s, f)
    && Drift(Machine, s, f) == Drift(Ideal, s, f)
    && SlowDrift(Machine, s, f) == SlowDrift(Ideal, s, f)
  }

  /** The unsigned difference itself is right exactly when the drift is not
      negative. */
  lemma DifferenceWrapsIffNegative(s: Clocks, f: Frame)
    requires 0 < f.ref <= MAX_REF && InRange(s)
    ensures U(Machine, U(Machine, s.vDhav + Period(Machine, s, f)) - U(Machine, s.v + f.ref)) == Drift(Ideal, s, f)
            <==> Drift(Ideal, s, f) >= 0
  {
    MachineValues(s, f);
    SameU(s.vDhav + Period(Ideal, s, f));
    SameU(s.v + f.ref);
    if Drift(Ideal, s, f) >= 0 {
      SameU(Drift(Ideal, s, f));
    }
  }

  /** How far the clocks and counters can have come after n frames. */
  predicate Grown(e: Clocks, n: nat)
  {
    && e.v <= n * 73000000000 && e.tDhav <= n * 66000000000
    && e.tRef <= n * 1100000000 && e.tEff <= n * 2200000000 && e.frames <= n
  }

  lemma GrownIsInRange(e: Clocks, n: nat)
    requires Inv(e, MAX_REF) && Grown(e, n) && n < 100000000
    ensures InRange(e)
  {
  }

  lemma Grows(s: Clocks, f: Frame, e: Clocks, n: nat)
    requires Kept(s, f, MAX_REF, e) && Grown(s, n) && 0 < f.ref <= MAX_REF
    ensures Grown(e, n + 1)
  {
  }

  lemma {:induction false} MachineStates(s: Clocks, fs: seq<Frame>)
    requires s.first && 0 < |fs| <= 100000000
    requires forall i :: 0 <= i < |fs| ==> 0 < fs[i].ref <= MAX_REF
    ensures Run(Machine, s, fs) == Run(Ideal, s, fs)
    ensures Grown(Run(Ideal, s, fs), |fs|)
    decreases |fs|
  {
    var n := |fs| - 1;
    var p, f := Run(Ideal, s, fs[..n]), fs[n];
    if n == 0 {
      MachineStep(s, f);
    } else {
      MachineStates(s, fs[..n]);
      DriftBounded(s, fs[..n], MAX_REF);
      GrownIsInRange(p, n);
      StepKeepsInv(p, f, MAX_REF);
      MachineStep(p, f);
      Grows(p, f, Step(Ideal, p, f), n);
    }
  }

  /** For runs of up to 10^8 frames the machine gives what the integers give, in
      every state and in every value it decides on; so the drift bound holds of the
      machine. */
  lemma MachineRun(s: Clocks, fs: seq<Frame>)
    requires s.first && 0 < |fs| <= 100000000
    requires forall i :: 0 <= i < |fs| ==> 0 < fs[i].ref <= MAX_REF
    ensures Run(Machine, s, fs) == Run(Ideal, s, fs)
    ensures forall i :: 0 < i < |fs| ==> SameValues(Run(Machine, s, fs[..i]), fs[i])
  {
    MachineStates(s, fs);
    forall i | 0 < i < |fs| ensures SameValues(Run(Machine, s, fs[..i]), fs[i]) {
      MachineStates(s, fs[..i]);
      DriftBounded(s, fs[..i], MAX_REF);
      GrownIsInRange(Run(Ideal, s, fs[..i]), i);
      MachineValues(Run(Ideal, s, fs[..i]), fs[i]);
    }
  }

  // ------------------------------------------------------- "j == 2 always"

  /** The branch in which the frames of drift are said to be two. */
  predicate CorrectsOneFrame(s: Clocks, f: Frame)
    requires f.ref > 0
  {
    !s.first && BranchOf(s, f) == SlowOneFrame
  }

  /** They are two exactly when the slow drift is positive, and minus two exactly
      when it is negative.  The added frame brings the accumulators closer exactly
      in the first case, and the clocks exactly when the drift is more than half a
      period. */
  lemma OneFrameCorrection(s: Clocks, f: Frame)
    requires f.ref > 0 && CorrectsOneFrame(s, f)
    ensures var drift, slow, e := Drift(Ideal, s, f), SlowDrift(Ideal, s, f), Step(Ideal, s, f);
            && (Trunc(slow, f.ref) == 2 <==> slow > 0)
            && (Trunc(slow, f.ref) == -2 <==> slow < 0)
            && (Abs(Measured(e)) < Abs(slow) <==> slow > 0)
            && (Abs(Lead(e)) < Abs(drift) <==> 2 * drift > f.ref)
  {
    var slow := SlowDrift(Ideal, s, f);
    TwoFrames(slow, f.ref);
    var e := Step(Ideal, s, f);
    assert Measured(e) == slow - f.ref && Lead(e) == Drift(Ideal, s, f) - f.ref;
  }

  /** Between two and three periods either way. */
  lemma TwoFrames(slow: int, ref: int)
    requires ref > 0 && Abs(slow) > 2 * ref && Abs(Trunc(slow, ref)) <= 2
    ensures Trunc(slow, ref) == if slow > 0 then 2 else -2
  {
    var q := Abs(slow) / ref;
    DivFacts(Abs(slow), ref);
    if q <= 1 {
      AtMostOne(q, ref);
    }
  }

  lemma AtMostOne(q: nat, b: int)
    requires b > 0 && q <= 1
    ensures q * b <= b
  {
  }

  // ------------------------------------------------------- the code

  type uint64 = x: int | 0 <= x < TWO_64

  /** What the last actions are to make of the state. */
  function Finished(s: Clocks, f: Frame, periodToUse: int, dhavPeriod: int, resetSf: bool): Clocks
  {
    Advance(Machine, if resetSf then Reset(s) else s, f, s.vDhav, dhavPeriod, periodToUse)
  }

  /** The corrector's own structure, updated in place. */
  class TsProc {
    var vFirstFrame: bool
    var vDhavTimestamp: uint64
    var vTimestamp: uint64
    var sdcTDhav: int
    var sdcTRef: int
    var sdcTEff: int
    var sdcTFrames: int
    var vDhavTs: nat
    var vDhavTsPrev: nat
    var dhavEpoch: nat
    var dhavEpochPrev: nat

    function State(): (s: Clocks)
      reads this
      ensures 0 <= s.v < TWO_64
    {
      Clocks(vFirstFrame, vDhavTimestamp, vTimestamp, sdcTDhav, sdcTRef, sdcTEff, sdcTFrames, vDhavTs, dhavEpoch)
    }

    /** dt_tsproc_init: all but the first-frame flag is left as it was found. */
    constructor ()
      ensures vFirstFrame
    {
      vFirstFrame := true;
    }

    /** dt_tsproc_process for a video frame whose parameters are known. */
    method Process(f: Frame)
      requires f.ref > 0
      modifies this
      ensures State() == Step(Machine, old(State()), f)
    {
      if vFirstFrame {
        vFirstFrame := false;
        vDhavTimestamp, vTimestamp := 0, 0;
        sdcTDhav, sdcTRef, sdcTEff, sdcTFrames := 0, 0, 0, 0;
        dhavEpoch, vDhavTs := f.epoch, f.stamp;
        return;
      }
      dhavEpochPrev, dhavEpoch := dhavEpoch, f.epoch;
      vDhavTsPrev, vDhavTs := vDhavTs, f.stamp;
      var periodToUse, dhavPeriod, resetSf, b := Decide(old(State()), f);
      StepTakes(old(State()), f, b);
      Finish(f, periodToUse, dhavPeriod, resetSf);
    }

    /** From the reference period to the label last_actions; `s` is the state
        before this frame. */
    method Decide(ghost s: Clocks, f: Frame)
      returns (periodToUse: int, dhavPeriod: int, resetSf: bool, ghost b: Branch)
      requires f.ref > 0 && !s.first
      requires vDhavTs == f.stamp && dhavEpoch == f.epoch
      requires State() == s.(stamp := f.stamp, epoch := f.epoch)
      requires vDhavTsPrev == s.stamp && dhavEpochPrev == s.epoch
      modifies this`vDhavTimestamp, this`sdcTDhav, this`sdcTRef, this`sdcTEff, this`sdcTFrames
      ensures var drift, slow := Drift(Machine, s, f), SlowDrift(Machine, s, f);
              && b == Choose(s, f, drift, slow, Trunc(slow, f.ref), I(Machine, s.frames + 1))
              && Finished(State(), f, periodToUse, dhavPeriod, resetSf) ==
                 Take(Machine, b, s, f, Period(Machine, s, f),
                      Shift(Machine, f.ref, drift), Shift(Machine, f.ref, slow))
    {
      var refPeriod := f.ref;
      var dhavPeriodMs := (vDhavTs - vDhavTsPrev) % TWO_16;
      dhavPeriod := I(Machine, U(Machine, dhavPeriodMs * MS));
      assert dhavPeriod == Period(Machine, s, f);
      periodToUse := refPeriod;
      resetSf := false;
      if dhavEpoch < dhavEpochPrev {
        vDhavTimestamp := vTimestamp;
        dhavPeriod := periodToUse;
        resetSf := true;
        b := EpochReset;
      } else if dhavEpoch - dhavEpochPrev > MAX_JUMP {
        if dhavEpoch - dhavEpochPrev > MAX_PEDANTRY {
          vDhavTimestamp := vTimestamp;
          dhavPeriod := periodToUse;
          resetSf := true;
          b := EpochReset;
        } else {
          // enforcing the epoch difference (lines 1031-1043) is dead code
          assert false;
        }
      } else {
        periodToUse, resetSf, b := CheckDrift(s, f, refPeriod, dhavPeriod);
      }
    }

    /** Epochs agree: comparing the clocks, then the statistics. */
    method CheckDrift(ghost s: Clocks, ghost f: Frame, refPeriod: int, dhavPeriod: int)
      returns (periodToUse: int, resetSf: bool, ghost b: Branch)
      requires refPeriod == f.ref > 0 && dhavPeriod == Period(Machine, s, f)
      requires s.epoch <= f.epoch <= s.epoch + MAX_JUMP
      requires State() == s.(stamp := f.stamp, epoch := f.epoch)
      modifies this`sdcTDhav, this`sdcTRef, this`sdcTEff, this`sdcTFrames
      ensures var drift, slow := Drift(Machine, s, f), SlowDrift(Machine, s, f);
              && b == Choose(s, f, drift, slow, Trunc(slow, f.ref), I(Machine, s.frames + 1))
              && Finished(State(), f, periodToUse, dhavPeriod, resetSf) ==
                 Take(Machine, b, s, f, dhavPeriod, Shift(Machine, f.ref, drift), Shift(Machine, f.ref, slow))
    {
      var drift := I(Machine, U(Machine, U(Machine, vDhavTimestamp + dhavPeriod) - U(Machine, vTimestamp + refPeriod)));
      assert drift == Drift(Machine, s, f);
      var driftAbs := if drift >= 0 then drift else 0 - drift;
      if driftAbs > DAMPING * refPeriod {
        var j := Trunc(drift, refPeriod);
        periodToUse := I(Machine, refPeriod + j * refPeriod);
        resetSf := true;
        b := DriftReset;
      } else {
        StampsDoNotMatter(s, State(), f, dhavPeriod, drift);
        periodToUse, resetSf, b := CheckSlowDrift(f, refPeriod, dhavPeriod, drift);
      }
    }

    lemma StampsDoNotMatter(s: Clocks, s1: Clocks, f: Frame, period: int, drift: int)
      requires f.ref > 0 && s1 == s.(stamp := f.stamp, epoch := f.epoch)
      ensures forall b: Branch, driftUse: int, slowUse: int ::
                Take(Machine, b, s1, f, period, driftUse, slowUse) == Take(Machine, b, s, f, period, driftUse, slowUse)
    {
    }

    lemma StepTakes(s: Clocks, f: Frame, b: Branch)
      requires f.ref > 0 && !s.first
      requires b == Choose(s, f, Drift(Machine, s, f), SlowDrift(Machine, s, f),
                           Trunc(SlowDrift(Machine, s, f), f.ref), I(Machine, s.frames + 1))
      ensures Step(Machine, s, f) ==
              Take(Machine, b, s, f, Period(Machine, s, f), Shift(Machine, f.ref, Drift(Machine, s, f)),
                   Shift(Machine, f.ref, SlowDrift(Machine, s, f)))
    {
    }

    /** The last actions. */
    method Finish(ghost f: Frame, periodToUse: int, dhavPeriod: int, resetSf: bool)
      requires !vFirstFrame && vDhavTs == f.stamp && dhavEpoch == f.epoch
      modifies this
      ensures State() == Finished(old(State()), f, periodToUse, dhavPeriod, resetSf)
    {
      if resetSf {
        sdcTDhav, sdcTRef, sdcTEff, sdcTFrames := 0, 0, 0, 0;
      }
      vTimestamp := U(Machine, vTimestamp + periodToUse);
      vDhavTimestamp := U(Machine, vDhavTimestamp + dhavPeriod);
    }

    /** Updating the statistics and checking for slow drift. */
    method CheckSlowDrift(ghost f: Frame, refPeriod: int, dhavPeriod: int, ghost drift: int)
      returns (periodToUse: int, resetSf: bool, ghost b: Branch)
      requires refPeriod == f.ref > 0
      modifies this`sdcTDhav, this`sdcTRef, this`sdcTEff, this`sdcTFrames
      ensures var s := old(State());
              var slow := I(Machine, I(Machine, s.tDhav + dhavPeriod) - I(Machine, s.tEff + f.ref));
              && b == (if Abs(slow) > 2 * f.ref && I(Machine, s.frames + 1) >= MIN_SAMPLES
                       then if Abs(Trunc(slow, f.ref)) > 2 then SlowReset else SlowOneFrame
                       else Ordinary)
              && Finished(State(), f, periodToUse, dhavPeriod, resetSf) ==
                 Take(Machine, b, s, f, dhavPeriod, Shift(Machine, f.ref, drift), Shift(Machine, f.ref, slow))
    {
      periodToUse, resetSf, b := refPeriod, false, Ordinary;
      sdcTDhav := I(Machine, sdcTDhav + dhavPeriod);
      sdcTRef := I(Machine, sdcTRef + refPeriod);
      sdcTEff := I(Machine, sdcTEff + refPeriod);
      sdcTFrames := I(Machine, sdcTFrames + 1);
      var diff := I(Machine, sdcTDhav - sdcTEff);
      var diffAbs := if diff >= 0 then diff else 0 - diff;
      if diffAbs > refPeriod * 2 && sdcTFrames >= MIN_SAMPLES {
        var j := Trunc(diff, refPeriod);
        var jAbs := if j >= 0 then j else 0 - j;
        if jAbs > 2 {
          periodToUse := I(Machine, refPeriod + j * refPeriod);
          resetSf, b := true, SlowReset;
        } else {
          periodToUse := refPeriod + 1 * refPeriod;
          sdcTEff := I(Machine, sdcTEff + periodToUse - refPeriod);
          b := SlowOneFrame;
        }
      }
    }
  }
}
