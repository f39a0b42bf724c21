/** Runs of the timestamp corrector at 25 Hz, from the first frame on, that show
    what it may come to. */
module CorrectorRuns {
  import opened Bytes
  import opened TimestampCorrector

  const PAL_REF := 40 * MS

  /** A frame stamped at `t` ms. */
  function At(t: nat): Frame
  {
    Frame(PAL_REF, 0, t % TWO_16)
  }

  /** n frames 40 ms apart, behind one at `t`. */
  function Steady(t: nat, n: nat): (fs: seq<Frame>)
    ensures |fs| == n && forall i :: 0 <= i < n ==> fs[i] == At(t + 40 * (i + 1))
  {
    seq(n, (i: nat) => At(t + 40 * (i + 1)))
  }

  /** State `s` after them. */
  function SteadyState(s: Clocks, t: nat, n: nat): Clocks
  {
    s.(vDhav := s.vDhav + n * PAL_REF, v := s.v + n * PAL_REF, tDhav := s.tDhav + n * PAL_REF,
       tRef := s.tRef + n * PAL_REF, tEff := s.tEff + n * PAL_REF, frames := s.frames + n,
       stamp := (t + 40 * n) % TWO_16)
  }

  ghost predicate AllAt25Hz(fs: seq<Frame>)
  {
    forall i :: 0 <= i < |fs| ==> fs[i].ref == PAL_REF
  }

  lemma {:induction false} SteadyRun(s0: Clocks, fs: seq<Frame>, s: Clocks, t: nat, n: nat)
    requires AllAt25Hz(fs) && Run(Ideal, s0, fs) == s
    requires !s.first && s.epoch == 0 && s.stamp == t % TWO_16
    requires Abs(Lead(s)) <= DAMPING * PAL_REF && Abs(Measured(s)) <= 2 * PAL_REF
    ensures AllAt25Hz(fs + Steady(t, n)) && Run(Ideal, s0, fs + Steady(t, n)) == SteadyState(s, t, n)
    decreases n
  {
    hide Run, Step, Period;
    if n == 0 {
      assert fs + Steady(t, 0) == fs;
    } else {
      SteadyRun(s0, fs, s, t, n - 1);
      var f := At(t + 40 * n);
      assert fs + Steady(t, n) == (fs + Steady(t, n - 1)) + [f];
      RunSnoc(s0, fs + Steady(t, n - 1), f);
      PeriodAt(SteadyState(s, t, n - 1), t + 40 * (n - 1), 40);
      QuietStep(SteadyState(s, t, n - 1), f, 40 * MS);
    }
  }

  lemma PeriodAt(s: Clocks, t: nat, gap: nat)
    requires gap < TWO_16 && s.stamp == t % TWO_16
    ensures Period(Ideal, s, At(t + gap)) == gap * MS
  {
  }

  lemma FirstFrame(s: Clocks)
    requires s.first
    ensures Run(Ideal, s, [At(0)]) == Clocks(false, 0, 0, 0, 0, 0, 0, 0, 0)
  {
    assert [At(0)][..0] == [];
  }

  /** A step in which no correction is due. */
  lemma QuietStep(s: Clocks, f: Frame, period: int)
    requires f.ref > 0 && !s.first && s.epoch == f.epoch
    requires Period(Ideal, s, f) == period
    requires Abs(Lead(s) + period - f.ref) <= DAMPING * f.ref
    requires Abs(Measured(s) + period - f.ref) <= 2 * f.ref || s.frames + 1 < MIN_SAMPLES
    ensures Step(Ideal, s, f) ==
            Clocks(false, s.vDhav + period, s.v + f.ref, s.tDhav + period, s.tRef + f.ref, s.tEff + f.ref,
                   s.frames + 1, f.stamp, f.epoch)
  {
  }

  /** A step in which slow drift of two whole frames is found. */
  lemma SlowStep(s: Clocks, f: Frame, period: int)
    requires f.ref > 0 && !s.first && s.epoch == f.epoch && s.frames + 1 >= MIN_SAMPLES
    requires Period(Ideal, s, f) == period
    requires Abs(Lead(s) + period - f.ref) <= DAMPING * f.ref
    requires 2 * f.ref < Abs(Measured(s) + period - f.ref)
    requires Abs(Trunc(Measured(s) + period - f.ref, f.ref)) <= 2
    ensures Lead(Step(Ideal, s, f)) == Lead(s) + period - 2 * f.ref
  {
  }

  // ------------------------------------------------------- the wrong way

  /** 1001 exact frames, then three that are 10 ms apart. */
  const EXACT: seq<Frame> := [At(0)] + Steady(0, 1000)
  const LATE: seq<Frame> := [At(40010), At(40020), At(40030)]

  /** With the output clock already 90 ms ahead, j is -2, and the frame that is
      added puts the output clock 130 ms ahead. */
  lemma SlowDriftCorrectsTheWrongWay(s: Clocks)
    requires s.first
    ensures Lead(Run(Ideal, s, EXACT + LATE[..2])) == -60 * MS
    ensures Lead(Run(Ideal, s, EXACT + LATE)) == -130 * MS
  {
    hide Run, Step, Period;
    var s0 := ExactRun(s);
    var s1, s2 := Step(Ideal, s0, LATE[0]), Step(Ideal, Step(Ideal, s0, LATE[0]), LATE[1]);
    RunSnoc(s, EXACT, LATE[0]);
    RunSnoc(s, EXACT + [LATE[0]], LATE[1]);
    RunSnoc(s, EXACT + [LATE[0]] + [LATE[1]], LATE[2]);
    assert EXACT + [LATE[0]] + [LATE[1]] == EXACT + LATE[..2];
    assert EXACT + [LATE[0]] + [LATE[1]] + [LATE[2]] == EXACT + LATE;
    PeriodAt(s0, 40000, 10);
    QuietStep(s0, LATE[0], 10 * MS);
    PeriodAt(s1, 40010, 10);
    QuietStep(s1, LATE[1], 10 * MS);
    PeriodAt(s2, 40020, 10);
    SlowStep(s2, LATE[2], 10 * MS);
  }

  lemma ExactRun(s: Clocks) returns (e: Clocks)
    requires s.first
    ensures AllAt25Hz(EXACT) && e == Run(Ideal, s, EXACT)
    ensures !e.first && e.epoch == 0 && e.stamp == 40000 && Lead(e) == Measured(e) == 0 && e.frames == 1000
  {
    hide Run, Step;
    FirstFrame(s);
    var first := Run(Ideal, s, [At(0)]);
    SteadyRun(s, [At(0)], first, 0, 1000);
    e := SteadyState(first, 0, 1000);
  }

  // ------------------------------------------------------- back to the start

  /** n frames with one and the same stamp. */
  function Still(n: nat): (fs: seq<Frame>)
    ensures |fs| == n && AllAt25Hz(fs)
  {
    seq(n, _ => At(0))
  }

  lemma {:induction false} StillRun(s: Clocks, k: nat)
    requires s.first && k <= 4
    ensures Run(Ideal, s, Still(k + 1)) == Clocks(false, 0, k * PAL_REF, 0, k * PAL_REF, k * PAL_REF, k, 0, 0)
    decreases k
  {
    hide Run, Step, Period;
    if k == 0 {
      FirstFrame(s);
      assert Still(1) == [At(0)];
    } else {
      StillRun(s, k - 1);
      assert Still(k + 1) == Still(k) + [At(0)];
      RunSnoc(s, Still(k), At(0));
      PeriodAt(Run(Ideal, s, Still(k)), 0, 0);
      QuietStep(Run(Ideal, s, Still(k)), At(0), 0);
    }
  }

  /** The output clock is not monotone: six frames with one stamp take it through
      0, 40, 80, 120, 160 and 0 ms. */
  lemma SameStampsGoBack(s: Clocks)
    requires s.first
    ensures forall k: nat :: k <= 4 ==> Run(Ideal, s, Still(k + 1)).v == 40 * k * MS
    ensures GoesBack(Run(Ideal, s, Still(5)), At(0)) && Run(Ideal, s, Still(6)).v == 0
  {
    hide Run, Step, Period, GoesBack;
    forall k: nat | k <= 4 ensures Run(Ideal, s, Still(k + 1)).v == 40 * k * MS {
      StillRun(s, k);
    }
    StillRun(s, 4);
    assert Still(6) == Still(5) + [At(0)];
    RunSnoc(s, Still(5), At(0));
    PeriodAt(AHEAD, 0, 0);
    FastStep(AHEAD, At(0), 0);
  }

  /** The state after five frames with one stamp. */
  const AHEAD := Clocks(false, 0, 160 * MS, 0, 160 * MS, 160 * MS, 4, 0, 0)

  /** A step in which fast drift of the output clock is corrected. */
  lemma FastStep(s: Clocks, f: Frame, period: int)
    requires f.ref > 0 && !s.first && s.epoch == f.epoch && Period(Ideal, s, f) == period
    requires Lead(s) + period - f.ref < -DAMPING * f.ref
    ensures GoesBack(s, f)
    ensures Step(Ideal, s, f) ==
            Clocks(false, s.vDhav + period, s.v + f.ref + Trunc(Lead(s) + period - f.ref, f.ref) * f.ref,
                   0, 0, 0, 0, f.stamp, f.epoch)
  {
  }

  /** Already at the second of them the unsigned difference of the clocks is not
      the drift. */
  lemma DifferenceWraps(s: Clocks)
    requires s.first
    ensures var e := Run(Machine, s, Still(1));
            && Drift(Machine, e, At(0)) == -40 * MS
            && U(Machine, U(Machine, e.vDhav + Period(Machine, e, At(0))) - U(Machine, e.v + PAL_REF)) ==
               TWO_64 - 40 * MS
  {
    hide Run, Step, Period, Wrap;
    MachineRun(s, Still(1));
    StillRun(s, 0);
    var e := Run(Ideal, s, Still(1));
    PeriodAt(e, 0, 0);
    MachineValues(e, At(0));
    SameU(0);
    SameU(PAL_REF);
    BelowZero(-40 * MS);
  }

  lemma BelowZero(x: int)
    requires -TWO_64 <= x < 0
    ensures U(Machine, x) == x + TWO_64
  {
    assert Wrap(x + TWO_64) == x + TWO_64;
  }

  // ------------------------------------------------------- close to the bound

  /** A fast correction leaves the output clock 39 ms ahead, 997 exact frames
      keep that out of the accumulators, and two frames with one stamp and one
      1 ms behind them do the rest. */
  const CREEP: seq<Frame> := Still(5) + [At(1)] + Steady(1, 997)
  const LAST: seq<Frame> := [At(39881), At(39881), At(39882)]

  /** The fifth period of the bound is needed: 198 of its 200 ms are reached. */
  lemma NearlyFivePeriods(s: Clocks)
    requires s.first
    ensures AllAt25Hz(CREEP + LAST) && Lead(Run(Ideal, s, CREEP + LAST)) == -198 * MS
    ensures -198 * MS < -4 * PAL_REF
  {
    hide Run, Step, Period;
    var s0 := CreepRun(s);
    var s1, s2 := Step(Ideal, s0, LAST[0]), Step(Ideal, Step(Ideal, s0, LAST[0]), LAST[1]);
    RunSnoc(s, CREEP, LAST[0]);
    RunSnoc(s, CREEP + [LAST[0]], LAST[1]);
    RunSnoc(s, CREEP + [LAST[0]] + [LAST[1]], LAST[2]);
    assert CREEP + [LAST[0]] + [LAST[1]] + [LAST[2]] == CREEP + LAST;
    PeriodAt(s0, 39881, 0);
    QuietStep(s0, LAST[0], 0);
    PeriodAt(s1, 39881, 0);
    QuietStep(s1, LAST[1], 0);
    PeriodAt(s2, 39881, 1);
    SlowStep(s2, LAST[2], MS);
  }

  lemma CreepRun(s: Clocks) returns (e: Clocks)
    requires s.first
    ensures AllAt25Hz(CREEP) && e == Run(Ideal, s, CREEP)
    ensures !e.first && e.epoch == 0 && e.stamp == 39881 && Lead(e) == -39 * MS && Measured(e) == 0 && e.frames == 997
  {
    hide Run, Step, Period;
    StillRun(s, 4);
    RunSnoc(s, Still(5), At(1));
    PeriodAt(AHEAD, 0, 1);
    FastStep(AHEAD, At(1), MS);
    var corrected := Clocks(false, MS, PAL_REF, 0, 0, 0, 0, 1, 0);
    SteadyRun(s, Still(5) + [At(1)], corrected, 1, 997);
    e := SteadyState(corrected, 1, 997);
  }
}
