/** What the timestamp corrector makes of the clock of the device: which time it
    takes from the stamps, what a jump of the epoch does, and exactly which jitter
    it smooths away. */
module DeviceClock {
  import opened Bytes
  import opened TimestampCorrector

  /** Frames stamped with the low 16 bits of a true clock. */
  ghost predicate Stamped(fs: seq<Frame>, t: seq<nat>)
  {
    && |fs| == |t| && TrueClock(t)
    && forall i :: 0 <= i < |fs| ==> fs[i].ref > 0 && fs[i].stamp == t[i] % TWO_16
  }

  /** The epoch goes from `a` to `b`, seconds both, without going back or leaping. */
  predicate Continues(a: nat, b: nat)
  {
    a <= b <= a + 30
  }

  ghost predicate NoLeap(fs: seq<Frame>)
  {
    forall i :: 0 <= i < |fs| - 1 ==> Continues(fs[i].epoch, fs[i + 1].epoch)
  }

  /** A leap of the epoch, exactly: both clocks go on by one reference period from
      where the output clock was, and the accumulators start over.  Without one the
      device clock goes on by the difference of the stamps. */
  lemma EpochLeap(s: Clocks, f: Frame)
    requires f.ref > 0 && !s.first
    ensures BranchOf(s, f) == EpochReset <==> !Continues(s.epoch, f.epoch)
    ensures var e := Step(Ideal, s, f);
            if Continues(s.epoch, f.epoch) then e.vDhav == s.vDhav + PeriodMs(f.stamp, s.stamp) * MS
            else e == Clocks(false, s.v + f.ref, s.v + f.ref, 0, 0, 0, 0, f.stamp, f.epoch)
  {
  }

  /** The first frame starts both clocks at 0, whatever its stamp and epoch. */
  lemma FirstStep(m: Arith, s: Clocks, f: Frame)
    requires f.ref > 0 && s.first
    ensures Run(m, s, [f]) == Step(m, s, f) == Clocks(false, 0, 0, 0, 0, 0, 0, f.stamp, f.epoch)
  {
    assert [f][..0] == [];
  }

  lemma PeriodMsIs(a: nat, b: nat)
    requires a <= b < a + TWO_16
    ensures PeriodMs(b % TWO_16, a % TWO_16) == b - a
  {
  }

  lemma RunStep(m: Arith, s: Clocks, fs: seq<Frame>)
    requires |fs| > 1 && forall i :: 0 <= i < |fs| ==> fs[i].ref > 0
    ensures Run(m, s, fs) == Step(m, Run(m, s, fs[..|fs| - 1]), fs[|fs| - 1])
  {
  }

  /** Without leaps the device clock is the true time since the first frame, with
      whatever corrections the output clock is brought after it. */
  lemma {:induction false} TrueTime(s: Clocks, fs: seq<Frame>, t: seq<nat>)
    requires s.first && fs != [] && Stamped(fs, t) && NoLeap(fs)
    ensures var n := |fs| - 1; var e := Run(Ideal, s, fs);
            t[n] >= t[0] && e.vDhav == (t[n] - t[0]) * MS
            && !e.first && e.stamp == fs[n].stamp && e.epoch == fs[n].epoch
    decreases |fs|
  {
    hide Run, Step, BranchOf;
    var n := |fs| - 1;
    if n == 0 {
      assert fs == [fs[0]];
      FirstStep(Ideal, s, fs[0]);
    } else {
      var p := Run(Ideal, s, fs[..n]);
      TrueTime(s, fs[..n], t[..n]);
      RunStep(Ideal, s, fs);
      EpochLeap(p, fs[n]);
      PeriodMsIs(t[n - 1], t[n]);
      StepKeepsStamp(p, fs[n]);
    }
  }

  lemma StepKeepsStamp(s: Clocks, f: Frame)
    requires f.ref > 0
    ensures var e := Step(Ideal, s, f); !e.first && e.stamp == f.stamp && e.epoch == f.epoch
  {
  }

  // ------------------------------------------------------- jitter

  /** How far frame n of a stream with period `ref` is from where it should be. */
  function Jitter(t: seq<nat>, ref: int, n: nat): int
    requires n < |t|
  {
    (t[n] - t[0]) * MS - n * ref
  }

  /** Jitter that is smoothed away at frame n: up to four periods, and from frame
      1000 on up to two. */
  predicate Smooth(t: seq<nat>, ref: int, n: nat)
    requires n < |t|
  {
    var j := Abs(Jitter(t, ref, n));
    j <= 4 * ref && (n >= 1000 ==> j <= 2 * ref)
  }

  ghost predicate AllSmooth(t: seq<nat>, ref: int, n: nat)
    requires n < |t|
  {
    forall i: nat :: i <= n ==> Smooth(t, ref, i)
  }

  /** The output clock has so far gone on by one period a frame. */
  ghost predicate Steady(s: Clocks, fs: seq<Frame>, ref: int, n: nat)
    requires n < |fs| && forall i :: 0 <= i < |fs| ==> fs[i].ref > 0
  {
    forall i: nat :: i <= n ==> Run(Ideal, s, fs[..i + 1]).v == i * ref
  }

  ghost predicate Recorded(s: Clocks, fs: seq<Frame>, t: seq<nat>, ref: int)
  {
    s.first && fs != [] && Stamped(fs, t) && NoLeap(fs) && forall i :: 0 <= i < |fs| ==> fs[i].ref == ref
  }

  /** One step behind `n` frames without correction. */
  lemma SmoothStep(p: Clocks, f: Frame, n: nat, time: int)
    requires f.ref > 0 && Continues(p.epoch, f.epoch)
    requires !p.first && Lead(p) == Measured(p) && p.v == n * f.ref && p.frames == n
    requires time == p.vDhav + PeriodMs(f.stamp, p.stamp) * MS
    ensures var e, j := Step(Ideal, p, f), Abs(time - (n * f.ref + f.ref));
            && (e.v == n * f.ref + f.ref <==> j <= 4 * f.ref && (n + 1 >= 1000 ==> j <= 2 * f.ref))
            && (e.v == n * f.ref + f.ref ==> Lead(e) == Measured(e) && e.frames == n + 1)
  {
    var drift, slow := Drift(Ideal, p, f), SlowDrift(Ideal, p, f);
    assert drift == slow == time - (n * f.ref + f.ref);
    ShiftFacts(drift, f.ref);
    MonotoneUnlessGoesBack(p, f);
    assert Shifted(drift, f.ref, Trunc(drift, f.ref), Shift(Ideal, f.ref, drift));
  }

  lemma Extend(s: Clocks, fs: seq<Frame>, t: seq<nat>, ref: int, n: nat)
    requires Recorded(s, fs, t, ref) && 0 < n < |fs|
    ensures Steady(s, fs, ref, n) <==> Steady(s, fs, ref, n - 1) && Run(Ideal, s, fs[..n + 1]).v == n * ref
    ensures AllSmooth(t, ref, n) <==> AllSmooth(t, ref, n - 1) && Smooth(t, ref, n)
  {
  }

  lemma Succ(n: nat, ref: int)
    ensures (n + 1) * ref == n * ref + ref
  {
  }

  /** Exactly which jitter is smoothed away: the output clock goes on evenly, frame
      after frame, if and only if it never exceeds the limits. */
  lemma {:induction false} SmoothedIff(s: Clocks, fs: seq<Frame>, t: seq<nat>, ref: int, n: nat)
    requires Recorded(s, fs, t, ref) && n < |fs|
    ensures Steady(s, fs, ref, n) <==> AllSmooth(t, ref, n)
    ensures Steady(s, fs, ref, n) ==> var e := Run(Ideal, s, fs[..n + 1]); Lead(e) == Measured(e) && e.frames == n
    decreases n
  {
    hide Run, Step, TrueClock;
    if n == 0 {
      assert fs[..1] == [fs[0]];
      FirstStep(Ideal, s, fs[0]);
      assert 0 * ref == 0;
    } else {
      var m := n - 1;
      SmoothedIff(s, fs, t, ref, m);
      Extend(s, fs, t, ref, n);
      if Steady(s, fs, ref, m) {
        var p := Run(Ideal, s, fs[..n]);
        assert m + 1 == n && p.v == m * ref;
        OneMore(s, fs, t, ref, n);
        SmoothStep(p, fs[n], m, (t[n] - t[0]) * MS);
        Succ(m, ref);
        assert Jitter(t, ref, n) == (t[n] - t[0]) * MS - (m * ref + ref);
      }
    }
  }

  lemma OneMore(s: Clocks, fs: seq<Frame>, t: seq<nat>, ref: int, n: nat)
    requires Recorded(s, fs, t, ref) && 0 < n < |fs|
    ensures var p := Run(Ideal, s, fs[..n]);
            && Run(Ideal, s, fs[..n + 1]) == Step(Ideal, p, fs[n])
            && !p.first && Continues(p.epoch, fs[n].epoch)
            && (t[n] - t[0]) * MS == p.vDhav + PeriodMs(fs[n].stamp, p.stamp) * MS
  {
    hide Run, Step;
    TrueTime(s, fs[..n], t[..n]);
    assert fs[..n + 1][..n] == fs[..n];
    RunStep(Ideal, s, fs[..n + 1]);
    PeriodMsIs(t[n - 1], t[n]);
  }
}
