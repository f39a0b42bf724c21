/** From a device to the file: what a recording, written frame by frame as a device
    does, comes to be in Matroska, in terms of what the device meant. */
module Recording {
  import opened Bytes
  import opened Ebml
  import opened MkvFormat
  import opened MkvWriter
  import opened FrameInfo
  import opened Conversion
  import opened DhavLayout
  import opened StreamParsing
  import S = DhavStream
  import TC = TimestampCorrector
  import DC = DeviceClock
  import D2M = Dhav2Mkv
  import V = DhavDrain

  ghost predicate AllProper(fs: seq<Frame>)
  {
    forall i :: 0 <= i < |fs| ==> Proper(fs[i])
  }

  ghost function Written(fs: seq<Frame>): (ss: seq<seq<byte>>)
    requires AllProper(fs)
    ensures |ss| == |fs| && forall i :: 0 <= i < |fs| ==> ss[i] == Octets(fs[i])
  {
    if fs == [] then [] else [Octets(fs[0])] + Written(fs[1..])
  }

  /** An I-frame that tells the frame rate and a height. */
  predicate Picture(f: Frame)
  {
    f.kind == 0xfd && Field(f, 0x81, 3) != 0 && Field(f, 0x80, 3) != 0
  }

  /** The recording from its first picture on. */
  function FromPicture(fs: seq<Frame>): (r: seq<Frame>)
    ensures r != [] ==> Picture(r[0])
    ensures forall f :: f in r ==> f in fs
  {
    if fs == [] then [] else if Picture(fs[0]) then fs else FromPicture(fs[1..])
  }

  /** Its video, in order. */
  function Video(fs: seq<Frame>): (vs: seq<Frame>)
    ensures forall i :: 0 <= i < |vs| ==> vs[i] in fs && (vs[i].kind == 0xfc || Picture(vs[i]))
    ensures fs != [] && Picture(fs[0]) ==> vs != [] && vs[0] == fs[0]
  {
    if fs == [] then [] else (if fs[0].kind == 0xfc || Picture(fs[0]) then [fs[0]] else []) + Video(fs[1..])
  }

  function Shows(fs: seq<Frame>): (vs: seq<Frame>)
    ensures forall i :: 0 <= i < |vs| ==> vs[i] in fs && (vs[i].kind == 0xfc || Picture(vs[i]))
    ensures FromPicture(fs) != [] ==> vs != [] && Picture(vs[0])
  {
    Video(FromPicture(fs))
  }

  lemma ProperParts(fs: seq<Frame>)
    requires AllProper(fs)
    ensures AllProper(FromPicture(fs)) && AllProper(Video(fs)) && AllProper(Shows(fs))
  {
  }

  lemma {:induction false} VideoWritten(fs: seq<Frame>)
    requires AllProper(fs)
    ensures AllProper(Video(fs)) && Videos(Written(fs)) == Written(Video(fs))
    decreases |fs|
  {
    ProperParts(fs);
    if fs != [] {
      ReadsBack(fs[0]);
      VideoWritten(fs[1..]);
      var rest := Video(fs[1..]);
      if fs[0].kind == 0xfc || Picture(fs[0]) {
        assert ([fs[0]] + rest)[1..] == rest;
      } else {
        assert [] + rest == rest;
      }
    }
  }

  lemma {:induction false} PictureWritten(fs: seq<Frame>)
    requires AllProper(fs)
    ensures AllProper(FromPicture(fs)) && FromFirstI(Written(fs)) == Written(FromPicture(fs))
    decreases |fs|
  {
    ProperParts(fs);
    if fs != [] {
      ReadsBack(fs[0]);
      PictureWritten(fs[1..]);
    }
  }

  lemma ShowsWritten(fs: seq<Frame>)
    requires AllProper(fs)
    ensures AllProper(FromPicture(fs)) && FromFirstI(Written(fs)) == Written(FromPicture(fs))
    ensures AllProper(Shows(fs)) && Videos(FromFirstI(Written(fs))) == Written(Shows(fs))
    ensures FromPicture(fs) != [] ==> FromFirstI(Written(fs)) != []
  {
    PictureWritten(fs);
    VideoWritten(FromPicture(fs));
  }

  // ------------------------------------------------------- the document

  /** What the file says of a recording, its times left open: the track is the first
      picture's, and there is one block of it for each video frame, with the body of
      that frame. */
  ghost predicate Depicts(m: Mkv, fs: seq<Frame>)
    requires FromPicture(fs) != []
  {
    var vs := Shows(fs);
    var w, h := Field(vs[0], 0x80, 2) * 8, Field(vs[0], 0x80, 3) * 8;
    && m.scale == 1000 && m.track.number == 1 && m.track.kind == 1 && m.track.width == w && m.track.height == h
    && (m.track.displayWidth, m.track.displayHeight) ==
       (if 1777 * h <= 1000 * w < 1778 * h then (16, 9) else (4, 3))
    && |m.clusters| == |vs|
    && forall i :: 0 <= i < |vs| ==>
                     m.clusters[i].block == Block(1, 0, if vs[i].kind == 0xfd then 1 else 0, vs[i].body)
  }

  lemma RecordingDepicted(o: Options, exact60: bool, t: TC.Clocks, k: StampClock, fs: seq<Frame>)
    requires AllProper(fs) && FromPicture(fs) != []
    ensures FromFirstI(Written(fs)) != [] && Depicts(MkvOf(o, exact60, t, k, Written(fs)), fs)
  {
    hide FromFirstI, Videos, FromPicture, Video, Expected, TrackFor, TimesOf, Written, Octets;
    ShowsWritten(fs);
    FirstFound(fs);
    TrackDepicted(o, exact60, Shows(fs)[0]);
    BlocksDepicted(Shows(fs), TimesOf(o, Written(Shows(fs)), exact60, TC.MAX_REF, t, k));
  }

  lemma TrackDepicted(o: Options, exact60: bool, f: Frame)
    requires Proper(f) && Picture(f)
    ensures UsableI(Octets(f))
    ensures var t := TrackFor(o, exact60, Octets(f));
            var w, h := Field(f, 0x80, 2) * 8, Field(f, 0x80, 3) * 8;
            && t.number == 1 && t.kind == 1 && t.width == w && t.height == h
            && (t.displayWidth, t.displayHeight) == if 1777 * h <= 1000 * w < 1778 * h then (16, 9) else (4, 3)
  {
    hide Aspect, NtscGuess, Field, Octets;
    ReadsBack(f);
    AspectMeaning(Width(Octets(f)), Height(Octets(f)));
  }

  lemma BlocksDepicted(vs: seq<Frame>, ns: seq<nat>)
    requires AllProper(vs) && AllShown(Written(vs)) && |ns| == |vs|
    ensures forall i :: 0 <= i < |vs| ==>
              Expected(Written(vs), ns)[i].block == Block(1, 0, if vs[i].kind == 0xfd then 1 else 0, vs[i].body)
  {
    hide Octets, Body, Expected, Proper, Shown;
    var ss := Written(vs);
    var cs := Expected(ss, ns);
    forall i | 0 <= i < |vs|
      ensures cs[i].block == Block(1, 0, if vs[i].kind == 0xfd then 1 else 0, vs[i].body)
    {
      ReadsBack(vs[i]);
      assert ss[i] == Octets(vs[i]) && cs[i] == ClusterOf(ns[i] / 1000, ss[i][4] == TYPE_I_FRAME, Body(ss[i]));
    }
  }

  lemma FirstFound(fs: seq<Frame>)
    requires AllProper(fs) && FromPicture(fs) != []
    ensures FromFirstI(Written(fs)) != [] && FromFirstI(Written(fs))[0] == Octets(Shows(fs)[0])
    ensures var f := Shows(fs)[0];
            Height(Octets(f)) == Field(f, 0x80, 3) * 8 && Fps(Octets(f)) == Field(f, 0x81, 3)
  {
    ShowsWritten(fs);
    ReadsBack(Shows(fs)[0]);
  }

  /** The file of a recording; `t` and `k` are unused clocks. */
  ghost function FileOf(o: Options, exact60: bool, t: TC.Clocks, k: StampClock, fs: seq<Frame>): (m: Mkv)
    requires AllProper(fs) && FromPicture(fs) != []
    ensures Depicts(m, fs)
    ensures var f := Shows(fs)[0];
            m.app == AppField(o.sw) && m.track.rate ==
            o.rate(Field(f, 0x81, 3), NtscGuess(Field(f, 0x80, 3) * 8, Field(f, 0x81, 3)), exact60)
  {
    RecordingDepicted(o, exact60, t, k, fs);
    FirstFound(fs);
    MkvOf(o, exact60, t, k, Written(fs))
  }

  lemma FileTimes(o: Options, exact60: bool, t: TC.Clocks, k: StampClock, fs: seq<Frame>)
    requires AllProper(fs) && FromPicture(fs) != []
    ensures AllProper(Shows(fs)) && AllShown(Written(Shows(fs)))
    ensures var vs := Written(Shows(fs));
            FileOf(o, exact60, t, k, fs).clusters == Expected(vs, TimesOf(o, vs, exact60, TC.MAX_REF, t, k))
  {
    RecordingDepicted(o, exact60, t, k, fs);
    ShowsWritten(fs);
  }

  // ------------------------------------------------------- its times

  /** Stamped by a true clock. */
  predicate StampedBy(vs: seq<Frame>, ms: seq<nat>)
  {
    |vs| == |ms| && TrueClock(ms) && forall i :: 0 <= i < |ms| ==> vs[i].stamp == ms[i] % 0x1_0000
  }

  /** Without correction: the time since the first of them. */
  lemma DirectTimes(o: Options, exact60: bool, t: TC.Clocks, k: StampClock, fs: seq<Frame>, ms: seq<nat>, i: nat)
    requires AllProper(fs) && FromPicture(fs) != [] && !o.tsproc && k.first
    requires StampedBy(Shows(fs), ms) && i < |ms|
    ensures ms[i] >= ms[0]
    ensures FileOf(o, exact60, t, k, fs).clusters[i].timestamp == (ms[i] - ms[0]) * 1000000 % TWO_64 / 1000
  {
    hide Shows, FileOf, Expected, TimesOf, Depicts;
    FileTimes(o, exact60, t, k, fs);
    var vs := Shows(fs);
    forall j | 0 <= j < |ms| ensures StampedAt(Octets(vs[j]), ms[j]) {
      StampWritten(vs[j], ms[j]);
    }
    DirectTimesAreElapsed(o, Written(vs), exact60, t, k, ms, i);
  }

  lemma StampWritten(f: Frame, t: nat)
    requires Proper(f) && f.stamp == t % 0x1_0000
    ensures StampedAt(Octets(f), t)
  {
    ReadsBack(f);
    var s, u := Octets(f), t % 0x1_0000;
    LE16RoundTrip(u, s[20..22]);
    LowOctets(t);
    assert s[20..22] == [s[20], s[21]];
  }

  /** The reference period a picture tells. */
  function PeriodOf(f: Frame, exact60: bool): int
    requires Picture(f)
  {
    RefPeriod(NtscGuess(Field(f, 0x80, 3) * 8, Field(f, 0x81, 3)), exact60, Field(f, 0x81, 3))
  }

  ghost predicate OneRate(vs: seq<Frame>, exact60: bool, ref: int)
  {
    forall i :: 0 <= i < |vs| && Picture(vs[i]) ==> PeriodOf(vs[i], exact60) == ref
  }

  lemma TimingWritten(f: Frame, exact60: bool, r: int, ref: int)
    requires Proper(f) && (f.kind == 0xfc || Picture(f)) && 0 < r <= TC.MAX_REF
    requires if Picture(f) then PeriodOf(f, exact60) == ref else r == ref
    ensures Shown(Octets(f)) && RefAt(Octets(f), exact60, r) == ref
    ensures Timing(Octets(f), ref) == TC.Frame(ref, f.epoch, f.stamp)
  {
    ReadsBack(f);
  }

  lemma {:induction false} TimingsWritten(vs: seq<Frame>, exact60: bool, r: int, ref: int)
    requires AllProper(vs) && OneRate(vs, exact60, ref) && 0 < r <= TC.MAX_REF
    requires forall i :: 0 <= i < |vs| ==> vs[i].kind == 0xfc || Picture(vs[i])
    requires vs != [] ==> r == ref || Picture(vs[0])
    requires AllShown(Written(vs))
    ensures forall i :: 0 <= i < |vs| ==>
                          Timings(Written(vs), exact60, r)[i] == TC.Frame(ref, vs[i].epoch, vs[i].stamp)
    decreases |vs|
  {
    hide RefAt, Timing, Octets, Proper, PeriodOf, Picture, Shown;
    if vs != [] {
      var ss := Written(vs);
      assert ss[1..] == Written(vs[1..]);
      TimingWritten(vs[0], exact60, r, ref);
      TimingsWritten(vs[1..], exact60, ref, ref);
    }
  }

  /** The epoch neither goes back nor leaps. */
  ghost predicate NoLeaps(vs: seq<Frame>)
  {
    forall j :: 0 <= j < |vs| - 1 ==> DC.Continues(vs[j].epoch, vs[j + 1].epoch)
  }

  /** With correction, at one rate: jitter within the limits is gone, and the times
      are those of an even stream. */
  lemma SmoothTimes(o: Options, exact60: bool, t: TC.Clocks, k: StampClock, fs: seq<Frame>, ms: seq<nat>, ref: int,
                    i: nat)
    requires AllProper(fs) && FromPicture(fs) != [] && o.tsproc && t.first
    requires i < |Shows(fs)| && i < 100000000 && StampedBy(Shows(fs), ms) && NoLeaps(Shows(fs))
    requires OneRate(Shows(fs), exact60, ref) && DC.AllSmooth(ms, ref, i)
    ensures FileOf(o, exact60, t, k, fs).clusters[i].timestamp == i * ref / 1000
  {
    hide *;
    FileTimes(o, exact60, t, k, fs);
    SmoothExpected(o, exact60, t, k, Shows(fs), ms, ref, i);
  }

  lemma SmoothExpected(o: Options, exact60: bool, t: TC.Clocks, k: StampClock, vs: seq<Frame>, ms: seq<nat>, ref: int,
                       i: nat)
    requires AllProper(vs) && AllShown(Written(vs)) && o.tsproc && t.first && i < |vs| && i < 100000000
    requires Picture(vs[0]) && forall j :: 0 <= j < |vs| ==> vs[j].kind == 0xfc || Picture(vs[j])
    requires StampedBy(vs, ms) && OneRate(vs, exact60, ref) && DC.AllSmooth(ms, ref, i)
    requires NoLeaps(vs)
    ensures Expected(Written(vs), TimesOf(o, Written(vs), exact60, TC.MAX_REF, t, k))[i].timestamp == i * ref / 1000
  {
    hide Expected, TimesOf, Timings, DC.AllSmooth, TC.Run, StampedBy, DC.Recorded, DC.Continues, Picture, Written;
    assert PeriodOf(vs[0], exact60) == ref;
    var ss := Written(vs);
    TimingsWritten(vs, exact60, TC.MAX_REF, ref);
    var ts := Timings(ss, exact60, TC.MAX_REF);
    CorrectedTimes(o, ss, exact60, TC.MAX_REF, t, k, i);
    TimingsRecorded(vs, ts, ms, ref, t);
    SmoothRun(t, ts, ms, ref, i);
  }

  lemma TimingsRecorded(vs: seq<Frame>, ts: seq<TC.Frame>, ms: seq<nat>, ref: int, t: TC.Clocks)
    requires t.first && vs != [] && StampedBy(vs, ms) && |ts| == |vs| && ref > 0
    requires NoLeaps(vs)
    requires forall j :: 0 <= j < |vs| ==> ts[j] == TC.Frame(ref, vs[j].epoch, vs[j].stamp)
    ensures DC.Recorded(t, ts, ms, ref)
  {
  }

  lemma SmoothRun(t: TC.Clocks, ts: seq<TC.Frame>, ms: seq<nat>, ref: int, i: nat)
    requires DC.Recorded(t, ts, ms, ref) && 0 < ref <= TC.MAX_REF && i < |ts| && i < 100000000
    requires DC.AllSmooth(ms, ref, i)
    ensures TC.Run(TC.Machine, t, ts[..i + 1]).v == i * ref
  {
    hide TC.Run, TC.Inv, DC.AllSmooth, TrueClock;
    TC.MachineRun(t, ts[..i + 1]);
    DC.SmoothedIff(t, ts, ms, ref, i);
  }

  // ------------------------------------------------------- from the stream

  /** A stream with the frames of a recording in it, and mark-free garbage. */
  ghost predicate Carries(stream: seq<byte>, gs: seq<seq<byte>>, fs: seq<Frame>, tail: seq<byte>, maxlen: nat)
  {
    && AllProper(fs) && |gs| == |fs| && S.MarkFree(tail)
    && (forall i :: 0 <= i < |fs| ==> S.MarkFree(gs[i]) && Length(fs[i]) <= maxlen)
    && stream == S.Interleave(gs, Written(fs), tail)
  }

  /** The frames are found in it, and no zero header is. */
  lemma RecordingFound(stream: seq<byte>, gs: seq<seq<byte>>, fs: seq<Frame>, tail: seq<byte>, maxlen: nat)
    requires Carries(stream, gs, fs, tail, maxlen)
    ensures Parse(S.DhavRule(maxlen), stream).frames == Written(fs) && !S.MeetsZeroHeader(stream, maxlen)
  {
    forall i | 0 <= i < |fs| ensures S.WellFormed(Written(fs)[i], maxlen) && |Written(fs)[i]| >= 32 {
      IsWellFormed(fs[i], maxlen);
    }
    LongAreClosed(gs, Written(fs), tail);
    S.DeframingInvertsFraming(gs, Written(fs), tail, maxlen);
  }

  /** It is identified as DHAV, whatever else is in it. */
  lemma RecordingIdentified(stream: seq<byte>, gs: seq<seq<byte>>, fs: seq<Frame>, tail: seq<byte>, maxlen: nat)
    requires Carries(stream, gs, fs, tail, maxlen) && fs != []
    ensures D2M.FormatOf(stream) == D2M.Dhav
  {
    var g, f := gs[0], Octets(fs[0]);
    var more := S.Interleave(gs[1..], Written(fs)[1..], tail);
    hide Octets;
    IsWellFormed(fs[0], maxlen);
    assert stream == g + (f + more);
    Inside(g, f, more, 0, 4);
    Inside(g, f, more, |f| - 8, |f| - 4);
    assert f[0..4] == f[..4];
    assert D2M.OccursAt(stream, DHAV_MARK, |g|) && D2M.OccursAt(stream, TRAILER_MARK, |g| + (|f| - 8));
  }

  lemma Inside(g: seq<byte>, f: seq<byte>, more: seq<byte>, i: nat, j: nat)
    requires i <= j <= |f|
    ensures (g + (f + more))[|g| + i..|g| + j] == f[i..j]
  {
  }

  lemma {:induction false} LongAreClosed(gs: seq<seq<byte>>, ss: seq<seq<byte>>, tail: seq<byte>)
    requires |gs| == |ss| && forall i :: 0 <= i < |ss| ==> |ss[i]| >= 32
    ensures S.Closed(gs, ss, tail)
    decreases |gs|
  {
    if gs != [] {
      LongAreClosed(gs[1..], ss[1..], tail);
    }
  }

  /** Every I-frame tells a frame rate and a height. */
  ghost predicate Complete(fs: seq<Frame>)
  {
    forall i :: 0 <= i < |fs| && fs[i].kind == 0xfd ==> Picture(fs[i])
  }

  lemma {:induction false} CompleteIsAcceptable(tsproc: bool, k: Rate, fs: seq<Frame>)
    requires AllProper(fs) && Complete(fs) && k != Zero
    ensures AllAcceptable(tsproc, k, Written(fs))
    decreases |fs|
  {
    if fs != [] {
      ReadsBack(fs[0]);
      CompleteIsAcceptable(tsproc, NextRate(k, Octets(fs[0])), fs[1..]);
    }
  }

  lemma ReadsMakeUp(input: seq<seq<byte>>, i: nat)
    requires i <= |input|
    ensures Concat(input[..i]) + Concat(D2M.Reads(input, i)) == Concat(input)
  {
    ConcatCut(input, i);
    ConcatSnoc(input[i..], []);
    Assoc(Concat(input[i..]), [], []);
  }

  /** The program can do what a complete recording asks of it, however the stream is
      cut into reads and whatever lies in memory. */
  lemma RecordingIsProcessable(under: seq<byte>, maxlen: nat, g: nat, input: seq<seq<byte>>, o: Options,
                               gs: seq<seq<byte>>, fs: seq<Frame>, tail: seq<byte>)
    requires |under| == 8 && Carries(Concat(input), gs, fs, tail, maxlen) && Complete(fs)
    ensures D2M.Processable(under, maxlen, g, input, o)
  {
    hide Parse, AllAcceptable, V.RunsStuck, S.MeetsZeroHeader, D2M.PreloadEnd;
    RecordingFound(Concat(input), gs, fs, tail, maxlen);
    CompleteIsAcceptable(o.tsproc, Rate.Unknown, fs);
    var pre := D2M.PreloadEnd(input, maxlen, g, 0);
    var start := Concat(input[..pre]);
    assert input[..|input|] == input;
    D2M.GoodUpTo(o, Rate.Unknown, maxlen, input, D2M.Used(input, pre, maxlen), |input|);
    ReadsMakeUp(input, pre);
    V.NoZeroHeaderNeverRuns(under, maxlen, V.Queue(0, under, start), D2M.Reads(input, pre));
  }

  /** So the file of a recording shows it: `out` is what process_dhav_stream writes
      for `input`, whose reads make up the stream, however it is cut. */
  lemma RecordingSurvives(o: Options, exact60: bool, t: TC.Clocks, k: StampClock, maxlen: nat, input: seq<seq<byte>>,
                          gs: seq<seq<byte>>, fs: seq<Frame>, tail: seq<byte>, out: seq<byte>)
    requires Carries(Concat(input), gs, fs, tail, maxlen) && FromPicture(fs) != []
    requires D2M.OutputIs(o, exact60, t, k, out, D2M.FramesOfReads(input, |input|, maxlen))
    ensures var m := ReadMkv(out);
            m.Some? && Depicts(m.value, fs) && m.value == FileOf(o, exact60, t, k, fs)
  {
    hide Parse;
    assert input[..|input|] == input;
    RecordingFound(Concat(input), gs, fs, tail, maxlen);
    RecordingDepicted(o, exact60, t, k, fs);
  }
}
