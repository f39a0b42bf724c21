/** Frame after frame into Matroska: what process_dhav_stream writes, and the
    proof that the reader finds in it exactly the video of the stream. */
module Conversion {
  import opened Bytes
  import opened FrameInfo
  import opened MkvFormat
  import opened MkvWriter
  import opened Ebml
  import TC = TimestampCorrector

  type uint32 = x: int | 0 <= x < TWO_32

  /** Timestamp correction on or off, the frame rate as an opaque 32-bit value,
      the software string, and the size of the output buffer. */
  datatype Options = Options(tsproc: bool, rate: (nat, bool, bool) -> uint32, sw: seq<byte>, maxDst: nat)

  /** What changes from frame to frame. */
  datatype Conv = Conv(p: Parms, tsc: TC.Clocks, pending: bool)

  /** Reference period of a frame rate. */
  function RefPeriod(ntsc: bool, exact60: bool, fps: nat): (ref: int)
    requires 0 < fps < 256
    ensures 0 < ref <= TC.MAX_REF
  {
    var second := if ntsc && !exact60 then 1001000000 else 1000000000;
    QuotientPositive(second, fps);
    second / fps
  }

  lemma QuotientPositive(a: nat, b: nat)
    requires 0 < b <= a
    ensures 0 < a / b <= a
  {
    TC.DivFacts(a, b);
    AtLeast(a / b, b);
  }

  lemma AtLeast(q: nat, b: nat)
    requires b > 0
    ensures q * b >= q && (q == 0 ==> q * b == 0)
  {
  }

  /** `fps` periods make up a second, or 1.001 seconds for NTSC without the
      exact-60 option, less what whole nanoseconds leave over. */
  lemma RefPeriodMeaning(ntsc: bool, exact60: bool, fps: nat)
    requires 0 < fps < 256
    ensures var r := fps * RefPeriod(ntsc, exact60, fps);
            if ntsc && !exact60 then r <= 1001000000 < r + fps else r <= 1000000000 < r + fps
  {
    TC.DivFacts(if ntsc && !exact60 then 1001000000 else 1000000000, fps);
  }

  /** A frame the loop may meet, given what is known of the frame rate: it may be
      collected, and the corrector does not divide by a frame rate of zero. */
  predicate Acceptable(tsproc: bool, k: Rate, f: seq<byte>)
  {
    Collectable(k, f) && (tsproc && f[4] == TYPE_VIDEO ==> k != Zero)
  }

  predicate AllAcceptable(tsproc: bool, k: Rate, fs: seq<seq<byte>>)
    decreases |fs|
  {
    fs == [] || (Acceptable(tsproc, k, fs[0]) && AllAcceptable(tsproc, NextRate(k, fs[0]), fs[1..]))
  }

  lemma {:induction false} AcceptableAppend(tsproc: bool, k: Rate, a: seq<seq<byte>>, b: seq<seq<byte>>)
    ensures RateAfter(k, a + b) == RateAfter(RateAfter(k, a), b)
    ensures AllAcceptable(tsproc, k, a + b) <==>
            AllAcceptable(tsproc, k, a) && AllAcceptable(tsproc, RateAfter(k, a), b)
    decreases |a|
  {
    if a == [] {
      assert a + b == b;
    } else {
      assert (a + b)[1..] == a[1..] + b;
      AcceptableAppend(tsproc, NextRate(k, a[0]), a[1..], b);
    }
  }

  /** Clocks and frame rate are in the range of their types. */
  predicate ValidConv(c: Conv)
  {
    0 <= c.tsc.v && c.p.fps < 256
  }

  function TimingOf(p: Parms): TC.Frame
    requires 0 < p.fps < 256
  {
    TC.Frame(RefPeriod(p.ntsc, p.exact60, p.fps), p.epoch, p.stamp)
  }

  /** The corrector, as the driver calls it. */
  function Correct(o: Options, p: Parms, t: TC.Clocks): (t': TC.Clocks)
    requires 0 <= t.v && p.fps < 256 && (o.tsproc && IsVideo(p) && p.hasV ==> p.fps != 0)
    ensures 0 <= t'.v
  {
    if o.tsproc && IsVideo(p) && p.hasV then
      TC.Step(TC.Machine, t, TimingOf(p))
    else t
  }

  /** One frame: collect, correct, override the timestamp. */
  function Advance(o: Options, c: Conv, f: seq<byte>): (c': Conv)
    requires ValidConv(c) && Acceptable(o.tsproc, RateOf(c.p), f)
    ensures ValidConv(c') && RateOf(c'.p) == NextRate(RateOf(c.p), f)
  {
    var p := Collect(c.p, f).0;
    var t := Correct(o, p, c.tsc);
    Conv(if o.tsproc then p.(clock := p.clock.(ns := t.v)) else p, t, c.pending)
  }

  /** The body of a frame that counts as video. */
  function BodyOf(f: seq<byte>): seq<byte>
  {
    if Framed(f) then Body(f) else []
  }

  /** One frame: the output, and whether the header is still to be written. */
  function ConvertOne(o: Options, c: Conv, f: seq<byte>): (r: (Conv, seq<byte>))
    requires ValidConv(c) && Acceptable(o.tsproc, RateOf(c.p), f)
    ensures ValidConv(r.0) && RateOf(r.0.p) == NextRate(RateOf(c.p), f)
  {
    var c' := Advance(o, c, f);
    var rate := o.rate(c'.p.fps, c'.p.ntsc, c'.p.exact60);
    var (ret, bytes) := Convert(c'.p, |f|, BodyOf(f), o.maxDst, c.pending, true, rate, o.sw);
    (c'.(pending := c.pending && ret != 0), bytes)
  }

  /** After a frame that counts as video, body_p and body_len are its body. */
  lemma BodyCollected(o: Options, c: Conv, f: seq<byte>)
    requires ValidConv(c) && Acceptable(o.tsproc, RateOf(c.p), f)
    ensures var p := Advance(o, c, f).p;
            IsVideo(p) ==> p.bodyOffs + p.bodyLen <= |f| && f[p.bodyOffs..p.bodyOffs + p.bodyLen] == BodyOf(f)
  {
    hide Tick, Aspect, NtscGuess, Width, Height, Fps, LE32, LE16, TC.Step;
  }

  function ConvertAll(o: Options, c: Conv, fs: seq<seq<byte>>): (r: (Conv, seq<byte>))
    requires ValidConv(c) && AllAcceptable(o.tsproc, RateOf(c.p), fs)
    ensures ValidConv(r.0) && RateOf(r.0.p) == RateAfter(RateOf(c.p), fs)
    decreases |fs|
  {
    if fs == [] then (c, [])
    else
      var (c1, b1) := ConvertOne(o, c, fs[0]);
      var (c2, b2) := ConvertAll(o, c1, fs[1..]);
      (c2, b1 + b2)
  }

  lemma ConvertSingle(o: Options, c: Conv, f: seq<byte>)
    requires ValidConv(c) && AllAcceptable(o.tsproc, RateOf(c.p), [f])
    ensures Acceptable(o.tsproc, RateOf(c.p), f) && ConvertAll(o, c, [f]) == ConvertOne(o, c, f)
  {
    var (c1, b1) := ConvertOne(o, c, f);
    assert b1 + [] == b1;
  }

  /** Converting in two parts. */
  lemma {:induction false} ConvertAppend(o: Options, c: Conv, a: seq<seq<byte>>, b: seq<seq<byte>>)
    requires ValidConv(c) && AllAcceptable(o.tsproc, RateOf(c.p), a + b)
    ensures AllAcceptable(o.tsproc, RateOf(c.p), a)
    ensures AllAcceptable(o.tsproc, RateOf(ConvertAll(o, c, a).0.p), b)
    ensures var (c1, out1) := ConvertAll(o, c, a);
            var (c2, out2) := ConvertAll(o, c1, b);
            ConvertAll(o, c, a + b) == (c2, out1 + out2)
    decreases |a|
  {
    AcceptableAppend(o.tsproc, RateOf(c.p), a, b);
    if a == [] {
      assert a + b == b;
      assert [] + ConvertAll(o, c, b).1 == ConvertAll(o, c, b).1;
    } else {
      assert (a + b)[1..] == a[1..] + b;
      var (c0, out0) := ConvertOne(o, c, a[0]);
      ConvertAppend(o, c0, a[1..], b);
      var (c1, out1) := ConvertAll(o, c0, a[1..]);
      Assoc(out0, out1, ConvertAll(o, c1, b).1);
    }
  }

  // ------------------------------------------------------- what should come out

  /** The stream from its first usable I-frame on. */
  function FromFirstI(fs: seq<seq<byte>>): (r: seq<seq<byte>>)
    ensures r != [] ==> UsableI(r[0])
  {
    if fs == [] then [] else if UsableI(fs[0]) then fs else FromFirstI(fs[1..])
  }

  /** A video frame, or an I-frame that can be shown. */
  predicate Shown(f: seq<byte>)
  {
    UsableI(f) || (Framed(f) && f[4] == TYPE_VIDEO)
  }

  ghost predicate AllShown(vs: seq<seq<byte>>)
  {
    forall i :: 0 <= i < |vs| ==> Shown(vs[i])
  }

  /** These frames, in order. */
  function Videos(fs: seq<seq<byte>>): (r: seq<seq<byte>>)
    ensures forall i :: 0 <= i < |r| ==> Shown(r[i])
  {
    if fs == [] then []
    else (if Shown(fs[0]) then [fs[0]] else []) + Videos(fs[1..])
  }

  /** Reference period in force at a video frame: that of the last I-frame. */
  function RefAt(f: seq<byte>, exact60: bool, ref: int): (r: int)
    requires Shown(f)
    ensures 0 < ref <= TC.MAX_REF ==> 0 < r <= TC.MAX_REF
  {
    if f[4] == TYPE_I_FRAME then RefPeriod(NtscGuess(Height(f), Fps(f)), exact60, Fps(f)) else ref
  }

  function Timing(f: seq<byte>, ref: int): TC.Frame
    requires Shown(f)
  {
    TC.Frame(ref, LE32(f[16..20]), LE16(f[20..22]))
  }

  /** What the corrector is to see of the video frames. */
  function Timings(vs: seq<seq<byte>>, exact60: bool, ref: int): (ts: seq<TC.Frame>)
    requires AllShown(vs) && 0 < ref <= TC.MAX_REF
    ensures |ts| == |vs| && forall i :: 0 <= i < |ts| ==> 0 < ts[i].ref <= TC.MAX_REF
  {
    if vs == [] then []
    else
      var r := RefAt(vs[0], exact60, ref);
      [Timing(vs[0], r)] + Timings(vs[1..], exact60, r)
  }

  /** Timestamp of each video frame in ns: the corrected clock, or the direct one. */
  function TimesOf(o: Options, vs: seq<seq<byte>>, exact60: bool, ref: int, t: TC.Clocks, c: StampClock): (ns: seq<nat>)
    requires AllShown(vs) && 0 < ref <= TC.MAX_REF
    ensures |ns| == |vs| && forall i :: 0 <= i < |ns| ==> ns[i] < TWO_64
    decreases |vs|
  {
    if vs == [] then []
    else
      var r := RefAt(vs[0], exact60, ref);
      [NsOf(o, t, c, vs[0], r)] +
      TimesOf(o, vs[1..], exact60, r, NextT(o, t, vs[0], r), NextK(o, c, LE16(vs[0][20..22])))
  }

  /** One cluster per video frame. */
  function Expected(vs: seq<seq<byte>>, ns: seq<nat>): (cs: seq<Cluster>)
    requires AllShown(vs) && |ns| == |vs|
    ensures |cs| == |vs|
    ensures forall i :: 0 <= i < |vs| ==> cs[i] == ClusterOf(ns[i] / 1000, vs[i][4] == TYPE_I_FRAME, Body(vs[i]))
  {
    seq(|vs|, i requires 0 <= i < |vs| && Shown(vs[i]) =>
                  ClusterOf(ns[i] / 1000, vs[i][4] == TYPE_I_FRAME, Body(vs[i])))
  }

  /** The track an I-frame describes. */
  function TrackFor(o: Options, exact60: bool, f: seq<byte>): Track
    requires UsableI(f)
  {
    TrackOf(HeadFor(o, exact60, f))
  }

  function HeadFor(o: Options, exact60: bool, f: seq<byte>): (h: Head)
    requires UsableI(f)
    ensures ValidHead(h)
  {
    var (x, y) := Aspect(Width(f), Height(f));
    Head(AVC, Width(f), Height(f), x, y, o.rate(Fps(f), NtscGuess(Height(f), Fps(f)), exact60), AppField(o.sw))
  }

  // ------------------------------------------------------- the proof

  /** Frames the output buffer has room for. */
  ghost predicate Fits(o: Options, fs: seq<seq<byte>>)
  {
    forall i :: 0 <= i < |fs| ==> |fs[i]| + 423 <= o.maxDst && |fs[i]| < TWO_31
  }

  /** Once the first I-frame has been seen: how the state follows from what the
      video frames say. */
  predicate Following(o: Options, c: Conv, exact60: bool, ref: int, t: TC.Clocks, k: StampClock)
  {
    && ValidConv(c) && !c.pending && c.p.hasV && c.p.exact60 == exact60 && RefIs(c.p, ref)
    && c.tsc == t && (o.tsproc || c.p.clock == k)
  }

  /** Unless the last I-frame carried no frame rate, `ref` is its period. */
  predicate RefIs(p: Parms, ref: int)
    requires p.fps < 256
  {
    p.fps != 0 ==> RefPeriod(p.ntsc, p.exact60, p.fps) == ref
  }

  /** Collecting a video frame whose parameters are, or become, known. */
  lemma CollectVideo(p: Parms, f: seq<byte>, ref: int)
    requires Shown(f) && (p.hasV || f[4] == TYPE_I_FRAME) && p.fps < 256 && (p.hasV ==> RefIs(p, ref))
    ensures var q := Collect(p, f).0;
            && IsVideo(q) && (q.frameType == VideoIFrame <==> f[4] == TYPE_I_FRAME)
            && q.hasV && q.exact60 == p.exact60 && q.fps < 256 && (f[4] == TYPE_I_FRAME ==> q.fps != 0)
            && (q.fps != 0 ==> TimingOf(q) == Timing(f, RefAt(f, p.exact60, ref)))
            && q.clock == Tick(p.clock, LE16(f[20..22]))
  {
  }

  /** The state after a video frame. */
  lemma AdvanceVideo(o: Options, c: Conv, f: seq<byte>, ref: int)
    requires ValidConv(c) && Acceptable(o.tsproc, RateOf(c.p), f) && Shown(f) && (c.p.hasV || f[4] == TYPE_I_FRAME)
    requires c.p.hasV ==> RefIs(c.p, ref)
    ensures var c' := Advance(o, c, f);
            var r := RefAt(f, c.p.exact60, ref);
            && IsVideo(c'.p) && (c'.p.frameType == VideoIFrame <==> f[4] == TYPE_I_FRAME)
            && c'.p.hasV && c'.p.exact60 == c.p.exact60 && RefIs(c'.p, r)
            && (o.tsproc ==> r > 0 && c'.tsc == TC.Step(TC.Machine, c.tsc, Timing(f, r)) && c'.p.clock.ns == c'.tsc.v)
            && (!o.tsproc ==> c'.tsc == c.tsc && c'.p.clock == Tick(c.p.clock, LE16(f[20..22])))
            && c'.pending == c.pending
  {
    CollectVideo(c.p, f, ref);
    var q := Collect(c.p, f).0;
    if q.fps != 0 {
      assert TimingOf(q).ref == RefAt(f, c.p.exact60, ref);
    }
  }

  /** A video frame, the header being written already. */
  lemma VideoStep(o: Options, c: Conv, f: seq<byte>, exact60: bool, ref: int, t: TC.Clocks, k: StampClock)
    requires Following(o, c, exact60, ref, t, k) && 0 < ref <= TC.MAX_REF
    requires Acceptable(o.tsproc, RateOf(c.p), f) && Shown(f) && |f| + 423 <= o.maxDst
    ensures var (c', bytes) := ConvertOne(o, c, f);
            var r, stamp := RefAt(f, exact60, ref), LE16(f[20..22]);
            && Following(o, c', exact60, r, NextT(o, t, f, r), NextK(o, k, stamp))
            && bytes == ClusterBytes(NsOf(o, t, k, f, r) / 1000, f[4] == TYPE_I_FRAME, Body(f))
  {
    AdvanceVideo(o, c, f, ref);
  }

  /** The corrector's clocks and the direct clock after a video frame; only the
      one in use is looked at. */
  function NextT(o: Options, t: TC.Clocks, f: seq<byte>, r: int): TC.Clocks
    requires Shown(f) && r > 0
  {
    if o.tsproc then TC.Step(TC.Machine, t, Timing(f, r)) else t
  }

  function NextK(o: Options, k: StampClock, stamp: nat): StampClock
  {
    if o.tsproc then k else Tick(k, stamp)
  }

  function NsOf(o: Options, t: TC.Clocks, k: StampClock, f: seq<byte>, r: int): (ns: nat)
    requires Shown(f) && r > 0
    ensures ns < TWO_64
  {
    if o.tsproc then TC.Step(TC.Machine, t, Timing(f, r)).v else Tick(k, LE16(f[20..22])).ns
  }

  /** Any other frame adds nothing. */
  lemma OtherStep(o: Options, c: Conv, f: seq<byte>)
    requires ValidConv(c) && Acceptable(o.tsproc, RateOf(c.p), f) && !Shown(f) && c.p.hasV
    ensures var (c', bytes) := ConvertOne(o, c, f);
            && bytes == [] && c'.tsc == c.tsc && c'.pending == c.pending
            && c'.p.hasV && c'.p.exact60 == c.p.exact60 && c'.p.ntsc == c.p.ntsc && c'.p.fps in {0, c.p.fps}
            && (!o.tsproc ==> c'.p.clock == c.p.clock) && c'.p.clock.first == c.p.clock.first
  {
  }

  /** From the first I-frame on: the clusters written read back as expected. */
  lemma {:induction false} TailReads(o: Options, c: Conv, fs: seq<seq<byte>>, exact60: bool, ref: int, t: TC.Clocks,
                                     k: StampClock)
    returns (es: seq<Element>)
    requires Following(o, c, exact60, ref, t, k) && 0 < ref <= TC.MAX_REF
    requires AllAcceptable(o.tsproc, RateOf(c.p), fs) && Fits(o, fs)
    ensures Children(ConvertAll(o, c, fs).1) == Some(es)
    ensures ReadClusters(es) == Some(Expected(Videos(fs), TimesOf(o, Videos(fs), exact60, ref, t, k)))
    decreases |fs|
  {
    if fs == [] {
      es := [];
    } else {
      hide Children, ReadClusters, ConvertOne, Expected, TimesOf;
      var f := fs[0];
      var (c', bytes) := ConvertOne(o, c, f);
      var rest := ConvertAll(o, c', fs[1..]).1;
      if Shown(f) {
        VideoStep(o, c, f, exact60, ref, t, k);
        var r := RefAt(f, exact60, ref);
        var es' := TailReads(o, c', fs[1..], exact60, r, NextT(o, t, f, r), NextK(o, k, LE16(f[20..22])));
        es := ClusterInFrontReads(NsOf(o, t, k, f, r), f, rest, es');
        assert Videos(fs) == [f] + Videos(fs[1..]);
        ExpectedFirst(o, f, Videos(fs[1..]), exact60, ref, t, k);
      } else {
        OtherStep(o, c, f);
        es := TailReads(o, c', fs[1..], exact60, ref, t, k);
        assert bytes + rest == rest && [] + Videos(fs[1..]) == Videos(fs[1..]);
      }
    }
  }

  lemma ExpectedFirst(o: Options, f: seq<byte>, vs: seq<seq<byte>>, exact60: bool, ref: int, t: TC.Clocks,
                      k: StampClock)
    requires Shown(f) && AllShown(vs) && 0 < ref <= TC.MAX_REF
    ensures var r := RefAt(f, exact60, ref);
            var ns := TimesOf(o, vs, exact60, r, NextT(o, t, f, r), NextK(o, k, LE16(f[20..22])));
            AllShown([f] + vs) &&
            Expected([f] + vs, TimesOf(o, [f] + vs, exact60, ref, t, k)) ==
            [ClusterOf(NsOf(o, t, k, f, r) / 1000, f[4] == TYPE_I_FRAME, Body(f))] + Expected(vs, ns)
  {
    hide Expected, TimesOf;
    var r := RefAt(f, exact60, ref);
    TimesFirst(o, f, vs, exact60, ref, t, k);
    ExpectedCons(f, NsOf(o, t, k, f, r), vs,
                 TimesOf(o, vs, exact60, r, NextT(o, t, f, r), NextK(o, k, LE16(f[20..22]))));
  }

  lemma TimesFirst(o: Options, f: seq<byte>, vs: seq<seq<byte>>, exact60: bool, ref: int, t: TC.Clocks, k: StampClock)
    requires Shown(f) && AllShown(vs) && 0 < ref <= TC.MAX_REF
    ensures AllShown([f] + vs)
    ensures var r := RefAt(f, exact60, ref);
            TimesOf(o, [f] + vs, exact60, ref, t, k) ==
            [NsOf(o, t, k, f, r)] +
            TimesOf(o, vs, exact60, r, NextT(o, t, f, r), NextK(o, k, LE16(f[20..22])))
  {
    assert ([f] + vs)[1..] == vs;
  }

  lemma ExpectedCons(f: seq<byte>, n: nat, vs: seq<seq<byte>>, ns: seq<nat>)
    requires Shown(f) && AllShown(vs) && AllShown([f] + vs) && |ns| == |vs|
    ensures Expected([f] + vs, [n] + ns) == [ClusterOf(n / 1000, f[4] == TYPE_I_FRAME, Body(f))] + Expected(vs, ns)
  {
    hide Shown, Body, ClusterOf;
  }

  lemma ClusterInFrontReads(ns: nat, f: seq<byte>, rest: seq<byte>, es': seq<Element>) returns (es: seq<Element>)
    requires Framed(f) && |f| < TWO_31 && ns < TWO_64 && Children(rest) == Some(es') && ReadClusters(es').Some?
    ensures Children(ClusterBytes(ns / 1000, f[4] == TYPE_I_FRAME, Body(f)) + rest) == Some(es)
    ensures ReadClusters(es) == Some([ClusterOf(ns / 1000, f[4] == TYPE_I_FRAME, Body(f))] + ReadClusters(es').value)
  {
    var lowBit := f[4] == TYPE_I_FRAME;
    ClusterInFront(ns / 1000, lowBit, Body(f), rest);
    ReadClusterBack(ns / 1000, lowBit, Body(f));
    es := [Element(ID_CLUSTER, ClusterData(ns / 1000, lowBit, Body(f)))] + es';
    assert es[1..] == es';
  }

  /** Nothing is written before the first usable I-frame. */
  lemma EarlyStep(o: Options, c: Conv, f: seq<byte>)
    requires ValidConv(c) && Acceptable(o.tsproc, RateOf(c.p), f) && c.pending && !c.p.hasV && !UsableI(f)
    ensures var (c', bytes) := ConvertOne(o, c, f);
            && bytes == [] && c'.pending && !c'.p.hasV && c'.tsc == c.tsc && c'.p.exact60 == c.p.exact60
            && (!o.tsproc ==> c'.p.clock == c.p.clock)
  {
  }

  /** The first I-frame writes the header and its cluster. */
  lemma FirstStep(o: Options, c: Conv, f: seq<byte>)
    requires ValidConv(c) && c.pending && !c.p.hasV && UsableI(f) && |f| + 423 <= o.maxDst
    ensures var (c', bytes) := ConvertOne(o, c, f);
            var r := RefAt(f, c.p.exact60, TC.MAX_REF);
            && Following(o, c', c.p.exact60, r, NextT(o, c.tsc, f, r), NextK(o, c.p.clock, LE16(f[20..22])))
            && bytes == Header(HeadFor(o, c.p.exact60, f)) +
                        ClusterBytes(NsOf(o, c.tsc, c.p.clock, f, r) / 1000, true, Body(f))
  {
    AdvanceVideo(o, c, f, TC.MAX_REF);
    AdvancePicture(o, c, f);
  }

  lemma AdvancePicture(o: Options, c: Conv, f: seq<byte>)
    requires ValidConv(c) && UsableI(f)
    ensures var p := Advance(o, c, f).p;
            && p.width == Width(f) && p.height == Height(f) && p.fps == Fps(f)
            && (p.aspectX, p.aspectY) == Aspect(Width(f), Height(f)) && p.ntsc == NtscGuess(Height(f), Fps(f))
  {
  }

  /** The file that frames `fs` should give. */
  function MkvOf(o: Options, exact60: bool, t: TC.Clocks, k: StampClock, fs: seq<seq<byte>>): (m: Mkv)
    requires FromFirstI(fs) != []
    ensures Coherent(m)
  {
    var vs := Videos(FromFirstI(fs));
    Mkv(MATROSKA, 1000, AppField(o.sw), TrackFor(o, exact60, FromFirstI(fs)[0]),
        Expected(vs, TimesOf(o, vs, exact60, TC.MAX_REF, t, k)))
  }

  /** The main header exactly once, in front, declaring one track of video; then one
      cluster of that track per video frame from the first I-frame on, in order;
      nothing else, and nothing before that I-frame. */
  lemma {:induction false} ConversionReads(o: Options, c: Conv, fs: seq<seq<byte>>)
    requires ValidConv(c) && AllAcceptable(o.tsproc, RateOf(c.p), fs) && Fits(o, fs) && c.pending && !c.p.hasV
    ensures var bytes := ConvertAll(o, c, fs).1;
            if FromFirstI(fs) == [] then bytes == []
            else
              && ReadMkv(bytes) == Some(MkvOf(o, c.p.exact60, c.tsc, c.p.clock, fs))
              && Coherent(ReadMkv(bytes).value)
    decreases |fs|
  {
    if fs != [] {
      if UsableI(fs[0]) {
        FirstReads(o, c, fs);
      } else {
        var c' := ConvertOne(o, c, fs[0]).0;
        EarlyOutput(o, c, fs);
        ConversionReads(o, c', fs[1..]);
        SkipEarly(o, c.p.exact60, c.tsc, c.p.clock, c'.p.clock, fs);
      }
    }
  }

  lemma EarlyOutput(o: Options, c: Conv, fs: seq<seq<byte>>)
    requires ValidConv(c) && AllAcceptable(o.tsproc, RateOf(c.p), fs) && c.pending && !c.p.hasV
    requires fs != [] && !UsableI(fs[0])
    ensures var c' := ConvertOne(o, c, fs[0]).0;
            && ConvertAll(o, c, fs).1 == ConvertAll(o, c', fs[1..]).1
            && c'.pending && !c'.p.hasV && c'.tsc == c.tsc && c'.p.exact60 == c.p.exact60
            && (!o.tsproc ==> c'.p.clock == c.p.clock)
  {
    EarlyStep(o, c, fs[0]);
    var rest := ConvertAll(o, ConvertOne(o, c, fs[0]).0, fs[1..]).1;
    assert [] + rest == rest;
  }

  lemma SkipEarly(o: Options, exact60: bool, t: TC.Clocks, k: StampClock, k': StampClock, fs: seq<seq<byte>>)
    requires fs != [] && !UsableI(fs[0]) && (o.tsproc || k' == k)
    ensures FromFirstI(fs) == FromFirstI(fs[1..])
    ensures FromFirstI(fs) != [] ==> MkvOf(o, exact60, t, k, fs) == MkvOf(o, exact60, t, k', fs[1..])
  {
    if o.tsproc {
      ClockUnused(o, Videos(FromFirstI(fs)), exact60, TC.MAX_REF, t, k, k');
    }
  }

  lemma {:induction false} ClockUnused(o: Options, vs: seq<seq<byte>>, exact60: bool, ref: int, t: TC.Clocks,
                                       k: StampClock, k': StampClock)
    requires AllShown(vs) && 0 < ref <= TC.MAX_REF && o.tsproc
    ensures TimesOf(o, vs, exact60, ref, t, k) == TimesOf(o, vs, exact60, ref, t, k')
    decreases |vs|
  {
    if vs != [] {
      var r := RefAt(vs[0], exact60, ref);
      ClockUnused(o, vs[1..], exact60, r, NextT(o, t, vs[0], r), k, k');
    }
  }

  lemma FirstReads(o: Options, c: Conv, fs: seq<seq<byte>>)
    requires ValidConv(c) && AllAcceptable(o.tsproc, RateOf(c.p), fs) && Fits(o, fs) && c.pending && !c.p.hasV
    requires fs != [] && UsableI(fs[0])
    ensures ReadMkv(ConvertAll(o, c, fs).1) == Some(MkvOf(o, c.p.exact60, c.tsc, c.p.clock, fs))
  {
    hide ReadMkv, Children, ReadClusters, ClusterBytes, Header, ConvertOne;
    var f, exact60, t, k := fs[0], c.p.exact60, c.tsc, c.p.clock;
    var (c', bytes) := ConvertOne(o, c, f);
    var rest := ConvertAll(o, c', fs[1..]).1;
    FirstStep(o, c, f);
    var r := RefAt(f, exact60, TC.MAX_REF);
    var ns := NsOf(o, t, k, f, r);
    var es' := TailReads(o, c', fs[1..], exact60, r, NextT(o, t, f, r), NextK(o, k, LE16(f[20..22])));
    var es := ClusterInFrontReads(ns, f, rest, es');
    var h, cluster := HeadFor(o, exact60, f), ClusterBytes(ns / 1000, true, Body(f));
    Assoc(Header(h), cluster, rest);
    HeaderReads(h, cluster + rest, es, ReadClusters(es).value);
    assert Videos(fs) == [f] + Videos(fs[1..]);
    ExpectedFirst(o, f, Videos(fs[1..]), exact60, TC.MAX_REF, t, k);
  }

  // ------------------------------------------------------- what the times are

  lemma {:induction false} RunCons(s: TC.Clocks, f: TC.Frame, fs: seq<TC.Frame>)
    requires f.ref > 0 && forall i :: 0 <= i < |fs| ==> fs[i].ref > 0
    ensures TC.Run(TC.Machine, s, [f] + fs) == TC.Run(TC.Machine, TC.Step(TC.Machine, s, f), fs)
    decreases |fs|
  {
    var all := [f] + fs;
    if fs == [] {
      assert all[..|all| - 1] == [] && all[|all| - 1] == f;
    } else {
      assert all[..|all| - 1] == [f] + fs[..|fs| - 1];
      RunCons(s, f, fs[..|fs| - 1]);
    }
  }

  /** With correction, cluster i carries the output clock of the corrector after
      the first i + 1 video frames. */
  lemma {:induction false} CorrectedTimes(o: Options, vs: seq<seq<byte>>, exact60: bool, ref: int, t: TC.Clocks,
                                          k: StampClock, i: nat)
    requires AllShown(vs) && 0 < ref <= TC.MAX_REF && o.tsproc && i < |vs|
    ensures TimesOf(o, vs, exact60, ref, t, k)[i] == TC.Run(TC.Machine, t, Timings(vs, exact60, ref)[..i + 1]).v
    decreases i
  {
    var r := RefAt(vs[0], exact60, ref);
    var f, ts := Timing(vs[0], r), Timings(vs[1..], exact60, r);
    RunCons(t, f, ts[..i]);
    assert Timings(vs, exact60, ref)[..i + 1] == [f] + ts[..i];
    if i == 0 {
      assert ts[..0] == [];
    } else {
      CorrectedTimes(o, vs[1..], exact60, r, NextT(o, t, vs[0], r), k, i - 1);
      assert ts[..i - 1 + 1] == ts[..i];
    }
  }

  /** So the drift bound holds of the file: among the first 10^8 clusters none
      has a timestamp more than five reference periods ahead of the device clock
      or four behind it. */
  lemma ClusterTimesDriftLittle(o: Options, vs: seq<seq<byte>>, exact60: bool, t: TC.Clocks, k: StampClock,
                                rmax: int, i: nat)
    requires AllShown(vs) && o.tsproc && t.first && i < |vs| && i < 100000000
    requires forall j :: 0 <= j <= i ==> Timings(vs, exact60, TC.MAX_REF)[j].ref <= rmax
    ensures var e := TC.Run(TC.Ideal, t, Timings(vs, exact60, TC.MAX_REF)[..i + 1]);
            && Expected(vs, TimesOf(o, vs, exact60, TC.MAX_REF, t, k))[i].timestamp == e.v / 1000
            && -5 * rmax <= e.vDhav - e.v <= 4 * rmax
  {
    CorrectedTimes(o, vs, exact60, TC.MAX_REF, t, k, i);
    var ts := Timings(vs, exact60, TC.MAX_REF)[..i + 1];
    TC.MachineRun(t, ts);
    TC.DriftBounded(t, ts, rmax);
  }

  /** No reference period is shorter than this: a frame rate is one octet. */
  const MIN_REF := 1000000000 / 255

  lemma RefPeriodAtLeast(ntsc: bool, exact60: bool, fps: nat)
    requires 0 < fps < 256
    ensures RefPeriod(ntsc, exact60, fps) >= MIN_REF
  {
    var second := if ntsc && !exact60 then 1001000000 else 1000000000;
    TC.DivFacts(second, fps);
    var r := second / fps;
    AtMostProduct(r + 1, fps, 255);
    assert (r + 1) * fps == r * fps + fps;
  }

  lemma AtMostProduct(a: nat, b: nat, c: nat)
    requires b <= c
    ensures a * b <= a * c
  {
  }

  lemma {:induction false} RefsAtLeast(vs: seq<seq<byte>>, exact60: bool, ref: int)
    requires AllShown(vs) && MIN_REF <= ref <= TC.MAX_REF
    ensures forall i :: 0 <= i < |vs| ==> Timings(vs, exact60, ref)[i].ref >= MIN_REF
    decreases |vs|
  {
    if vs != [] {
      if vs[0][4] == TYPE_I_FRAME {
        RefPeriodAtLeast(NtscGuess(Height(vs[0]), Fps(vs[0])), exact60, Fps(vs[0]));
      }
      RefsAtLeast(vs[1..], exact60, RefAt(vs[0], exact60, ref));
    }
  }

  /** And the timestamps in the file, which are microseconds, go back exactly where
      the corrector's clock does; everywhere else they go forward. */
  lemma ClusterTimesGoBack(o: Options, vs: seq<seq<byte>>, exact60: bool, t: TC.Clocks, k: StampClock, i: nat)
    requires AllShown(vs) && o.tsproc && t.first && i + 1 < |vs| && i + 1 < 100000000
    ensures var ts := Timings(vs, exact60, TC.MAX_REF);
            var cs := Expected(vs, TimesOf(o, vs, exact60, TC.MAX_REF, t, k));
            if TC.GoesBack(TC.Run(TC.Ideal, t, ts[..i + 1]), ts[i + 1]) then cs[i + 1].timestamp < cs[i].timestamp
            else cs[i + 1].timestamp > cs[i].timestamp
  {
    hide TC.GoesBack, TC.Step, TC.Run, TC.Inv, Timings, TimesOf;
    var ts := Timings(vs, exact60, TC.MAX_REF);
    CorrectedTimes(o, vs, exact60, TC.MAX_REF, t, k, i);
    CorrectedTimes(o, vs, exact60, TC.MAX_REF, t, k, i + 1);
    TC.MachineRun(t, ts[..i + 1]);
    TC.MachineRun(t, ts[..i + 2]);
    TC.DriftBounded(t, ts[..i + 1], TC.MAX_REF);
    assert ts[..i + 2] == ts[..i + 1] + [ts[i + 1]];
    TC.RunSnoc(t, ts[..i + 1], ts[i + 1]);
    TC.MonotoneUnlessGoesBack(TC.Run(TC.Ideal, t, ts[..i + 1]), ts[i + 1]);
    RefsAtLeast(vs, exact60, TC.MAX_REF);
  }

  function StampsOf(vs: seq<seq<byte>>): (ss: seq<nat>)
    requires AllShown(vs)
    ensures |ss| == |vs| && forall i :: 0 <= i < |vs| ==> ss[i] == LE16(vs[i][20..22])
  {
    seq(|vs|, i requires 0 <= i < |vs| && |vs[i]| > 22 => LE16(vs[i][20..22]))
  }

  lemma StampsCons(vs: seq<seq<byte>>, i: nat)
    requires AllShown(vs) && i < |vs|
    ensures StampsOf(vs)[..i + 1] == [LE16(vs[0][20..22]) as nat] + StampsOf(vs[1..])[..i]
  {
  }

  /** Without correction, cluster i carries the direct clock. */
  lemma {:induction false} DirectTimes(o: Options, vs: seq<seq<byte>>, exact60: bool, ref: int, t: TC.Clocks,
                                       k: StampClock, i: nat)
    requires AllShown(vs) && 0 < ref <= TC.MAX_REF && !o.tsproc && i < |vs|
    ensures TimesOf(o, vs, exact60, ref, t, k)[i] == TickAll(k, StampsOf(vs)[..i + 1]).ns
    decreases i
  {
    var r, stamp, ss := RefAt(vs[0], exact60, ref), LE16(vs[0][20..22]), StampsOf(vs[1..]);
    TickCons(k, stamp, ss[..i]);
    StampsCons(vs, i);
    if i > 0 {
      DirectTimes(o, vs[1..], exact60, r, t, Tick(k, stamp), i - 1);
    }
  }

  /** So for a true clock `ms` it is the time since the first video frame. */
  lemma DirectTimesAreElapsed(o: Options, vs: seq<seq<byte>>, exact60: bool, t: TC.Clocks, k: StampClock,
                              ms: seq<nat>, i: nat)
    requires AllShown(vs) && !o.tsproc && k.first && i < |vs| == |ms| && TrueClock(ms)
    requires forall j :: 0 <= j < |vs| ==> StampedAt(vs[j], ms[j])
    ensures ms[i] >= ms[0]
    ensures Expected(vs, TimesOf(o, vs, exact60, TC.MAX_REF, t, k))[i].timestamp ==
            (ms[i] - ms[0]) * 1000000 % TWO_64 / 1000
  {
    hide Wrap, TimesOf, TickAll;
    forall j | 0 <= j < |vs| ensures StampsOf(vs)[j] == ms[j] % TWO_16 {
      StampOf(vs[j], ms[j]);
    }
    WrapIsModulo((ms[i] - ms[0]) * NS_PER_MS);
    DirectTimes(o, vs, exact60, TC.MAX_REF, t, k, i);
    Unwraps(k, ms[..i + 1], StampsOf(vs)[..i + 1]);
  }
}
