/** process_dhav_stream of dhav2mkv.c: identify and preload, then read, drain and
    convert until the input ends. */
module Dhav2Mkv {
  import opened Bytes
  import opened StreamParsing
  import opened StreamQueue
  import opened FrameInfo
  import opened Conversion
  import S = DhavStream
  import V = DhavDrain
  import W = MkvWriter
  import TC = TimestampCorrector
  import Ebml

  // ------------------------------------------------------- identification

  datatype Format = Dhav | RawH264 | UnknownFormat

  predicate OccursAt(s: seq<byte>, pat: seq<byte>, i: nat)
  {
    i + |pat| <= |s| && s[i..i + |pat|] == pat
  }

  ghost predicate Occurs(s: seq<byte>, pat: seq<byte>)
  {
    exists i: nat :: OccursAt(s, pat, i)
  }

  /** "Dahua_ZH". */
  const DAHUA: seq<byte> := [0x44, 0x61, 0x68, 0x75, 0x61, 0x5f, 0x5a, 0x48]

  ghost function FormatOf(s: seq<byte>): Format
  {
    if Occurs(s, DHAV_MARK) && Occurs(s, TRAILER_MARK) then Dhav
    else if Occurs(s, DAHUA) then RawH264
    else UnknownFormat
  }

  /** Samples of what is identified, and that DHAV comes first. */
  lemma FormatSamples()
    ensures FormatOf([0x64, 0x68, 0x61, 0x76, 0x44, 0x48, 0x41, 0x56]) == Dhav
    ensures FormatOf([0x44, 0x61, 0x68, 0x75, 0x61, 0x5f, 0x5a, 0x48]) == RawH264
    ensures FormatOf([0x44, 0x61, 0x68, 0x75, 0x61, 0x5f, 0x5a, 0x48, 0x44, 0x48, 0x41, 0x56, 0x64, 0x68, 0x61, 0x76])
            == Dhav
  {
    var a: seq<byte> := [0x64, 0x68, 0x61, 0x76, 0x44, 0x48, 0x41, 0x56];
    assert OccursAt(a, DHAV_MARK, 4) && OccursAt(a, TRAILER_MARK, 0);
    var b: seq<byte> := [0x44, 0x61, 0x68, 0x75, 0x61, 0x5f, 0x5a, 0x48];
    assert OccursAt(b, DAHUA, 0);
    forall i: nat ensures !OccursAt(b, DHAV_MARK, i) {
      if i + 4 <= 8 {
        assert b[i..i + 4][1] == b[i + 1];
      }
    }
    var c: seq<byte> := [0x44, 0x61, 0x68, 0x75, 0x61, 0x5f, 0x5a, 0x48,
                         0x44, 0x48, 0x41, 0x56, 0x64, 0x68, 0x61, 0x76];
    assert c[8..12] == DHAV_MARK && c[12..16] == TRAILER_MARK;
    assert OccursAt(c, DHAV_MARK, 8) && OccursAt(c, TRAILER_MARK, 12);
  }

  /** find_bin_seq_in_mem: the first occurrence, or -1. */
  method FindSeq(s: seq<byte>, pat: seq<byte>) returns (at: int)
    requires pat != []
    ensures if at < 0 then !Occurs(s, pat) else OccursAt(s, pat, at) && forall i: nat :: i < at ==> !OccursAt(s, pat, i)
  {
    if |pat| > |s| {
      return -1;
    }
    var i := 0;
    while i < |s| - (|pat| - 1)
      invariant 0 <= i <= |s| - (|pat| - 1)
      invariant forall j: nat :: j < i ==> !OccursAt(s, pat, j)
    {
      if s[i..i + |pat|] == pat {
        return i;
      }
      i := i + 1;
    }
    return -1;
  }

  /** identify_mc_format. */
  method Identify(s: seq<byte>) returns (f: Format)
    ensures f == FormatOf(s)
  {
    var a := FindSeq(s, DHAV_MARK);
    var b := FindSeq(s, TRAILER_MARK);
    if a >= 0 && b >= 0 {
      return Dhav;
    }
    var c := FindSeq(s, DAHUA);
    return if c >= 0 then RawH264 else UnknownFormat;
  }

  // ------------------------------------------------------- one frame

  /** State of conversion held in the objects. */
  function ConvOf(mc: McParms, tsc: TC.TsProc, pending: bool): Conv
    reads mc, tsc
  {
    Conv(mc.Value(), tsc.State(), pending)
  }

  /** dt_tsproc_process with its tests on frame type and parameters. */
  method CorrectTimestamp(tsc: TC.TsProc, mc: McParms) returns (ret: int)
    requires IsVideo(mc.Value()) && mc.hasVParms ==> 0 < mc.dhavFps < 256
    modifies tsc
    ensures ret == if !IsVideo(mc.Value()) then 2 else if !mc.hasVParms then 1 else 0
    ensures tsc.State() == if ret == 0 then TC.Step(TC.Machine, old(tsc.State()), TimingOf(mc.Value()))
                           else old(tsc.State())
  {
    if mc.frameType != VideoIFrame && mc.frameType != VideoFrame {
      return 2;
    }
    if !mc.hasVParms {
      return 1;
    }
    tsc.Process(TimingOf(mc.Value()));
    return 0;
  }

  /** Collect, correct, override the timestamp. */
  method AdvanceBuffered(mc: McParms, tsc: TC.TsProc, ghost pending: bool, o: Options, buf: array<byte>, n: nat,
                         ghost f: seq<byte>)
    requires n <= buf.Length && buf[..n] == f && ValidConv(ConvOf(mc, tsc, pending))
    requires Acceptable(o.tsproc, RateOf(mc.Value()), f)
    modifies mc, tsc
    ensures ConvOf(mc, tsc, pending) == Advance(o, old(ConvOf(mc, tsc, pending)), f)
  {
    var ret := mc.CollectFrame(buf, n, f);
    if o.tsproc {
      var tsRet := CorrectTimestamp(tsc, mc);
      mc.vTimestamp := tsc.vTimestamp;
    }
  }

  /** Converting what has been collected as `p`. */
  method ConvertCollected(mc: McParms, pending: bool, o: Options, buf: array<byte>, n: nat, ghost f: seq<byte>,
                          ghost p: Parms, outBuf: array<byte>)
    returns (ret: int, written: seq<byte>)
    requires n <= buf.Length && buf[..n] == f && mc.Value() == p
    requires buf != outBuf && o.maxDst <= outBuf.Length && W.MAIN_HEADER_LOAD <= outBuf.Length
    requires IsVideo(p) ==> p.bodyOffs + p.bodyLen <= |f| && f[p.bodyOffs..p.bodyOffs + p.bodyLen] == BodyOf(f)
    modifies outBuf
    ensures (ret, written) ==
            W.Convert(p, |f|, BodyOf(f), o.maxDst, pending, true, o.rate(p.fps, p.ntsc, p.exact60), o.sw)
  {
    var rate := o.rate(mc.dhavFps, mc.ntscTimings, mc.exact60);
    if IsVideo(p) {
      SlicePrefix(buf[..], n, p.bodyOffs, p.bodyOffs + p.bodyLen);
    }
    var outLen;
    ret, outLen := W.ConvertFrame(mc, buf, n, BodyOf(f), outBuf, o.maxDst, pending, true, rate, o.sw);
    written := outBuf[..outLen];
  }

  lemma SlicePrefix(s: seq<byte>, n: nat, a: nat, b: nat)
    requires a <= b <= n <= |s|
    ensures s[a..b] == s[..n][a..b]
  {
  }

  /** Collect, correct, override, convert. */
  method ConvertBuffered(mc: McParms, tsc: TC.TsProc, pending: bool, o: Options,
                         buf: array<byte>, n: nat, ghost f: seq<byte>, outBuf: array<byte>)
    returns (stillPending: bool, written: seq<byte>)
    requires n <= buf.Length && buf[..n] == f
    requires buf != outBuf && o.maxDst <= outBuf.Length && W.MAIN_HEADER_LOAD <= outBuf.Length
    requires ValidConv(ConvOf(mc, tsc, pending)) && Acceptable(o.tsproc, RateOf(mc.Value()), f)
    modifies mc, tsc, outBuf
    ensures (ConvOf(mc, tsc, stillPending), written) == ConvertOne(o, old(ConvOf(mc, tsc, pending)), f)
  {
    hide Acceptable, Advance, W.Convert, BodyOf;
    ghost var c := ConvOf(mc, tsc, pending);
    BodyCollected(o, c, f);
    AdvanceBuffered(mc, tsc, pending, o, buf, n, f);
    var ret;
    ret, written := ConvertCollected(mc, pending, o, buf, n, f, Advance(o, c, f).p, outBuf);
    stillPending := pending && ret != 0;
  }

  /** Converting the frame in the buffer, if there is one, after `done`. */
  method ConvertIfAny(mc: McParms, tsc: TC.TsProc, pending: bool, o: Options, buf: array<byte>, n: nat,
                      outBuf: array<byte>, written: seq<byte>, ghost c0: Conv, ghost done: seq<seq<byte>>,
                      ghost frames: seq<seq<byte>>)
    returns (stillPending: bool, out: seq<byte>)
    requires n <= buf.Length && buf != outBuf && o.maxDst <= outBuf.Length && W.MAIN_HEADER_LOAD <= outBuf.Length
    requires frames == if n > 0 then [buf[..n]] else []
    requires ValidConv(c0) && AllAcceptable(o.tsproc, RateOf(c0.p), done + frames)
    requires Converted(o, c0, done, ConvOf(mc, tsc, pending), written)
    modifies mc, tsc, outBuf
    ensures Converted(o, c0, done + frames, ConvOf(mc, tsc, stillPending), out)
  {
    stillPending, out := pending, written;
    ConvertAppend(o, c0, done, frames);
    if n > 0 {
      ghost var f := buf[..n];
      ConvertSingle(o, ConvOf(mc, tsc, pending), f);
      var more: seq<byte>;
      stillPending, more := ConvertBuffered(mc, tsc, pending, o, buf, n, f, outBuf);
      out := written + more;
    } else {
      assert done + [] == done;
    }
  }

  /** Converting `done` from `c0` on gives state and output. */
  ghost predicate Converted(o: Options, c0: Conv, done: seq<seq<byte>>, c: Conv, out: seq<byte>)
  {
    ValidConv(c0) && AllAcceptable(o.tsproc, RateOf(c0.p), done) && (c, out) == ConvertAll(o, c0, done)
  }

  // ------------------------------------------------------- one read

  /** One pass of the do-while loop: take a frame, if there is one, and convert
      it.  `done` are the frames converted since `c0`, `p` is what the whole read
      is to give. */
  method TakeAndConvert(q: Dstf, mc: McParms, tsc: TC.TsProc, pending: bool, o: Options,
                        buf: array<byte>, load: nat, outBuf: array<byte>, written: seq<byte>,
                        ghost c0: Conv, ghost done: seq<seq<byte>>, ghost p: Parsed)
    returns (ret: int, stillPending: bool, out: seq<byte>, ghost done': seq<seq<byte>>)
    requires q.Valid() && buf != q.sq && outBuf != q.sq && buf != outBuf
    requires load <= buf.Length && q.sq.Length <= buf.Length && q.len + load <= q.sq.Length
    requires o.maxDst <= outBuf.Length && W.MAIN_HEADER_LOAD <= outBuf.Length
    requires !V.MeetsStuck(q.Loaded(buf[..load]).back, q.Loaded(buf[..load]).rest, q.sq.Length)
    requires Prepend(done, Parse(S.DhavRule(q.sq.Length), q.Loaded(buf[..load]).rest)) == p
    requires Converted(o, c0, done, ConvOf(mc, tsc, pending), written)
    requires AllAcceptable(o.tsproc, RateOf(c0.p), p.frames)
    modifies q, q.sq, mc, tsc, buf, outBuf
    ensures q.Valid() && ret >= 0 && Converted(o, c0, done', ConvOf(mc, tsc, stillPending), out)
    ensures !V.MeetsStuck(q.Back(), q.Contents(), q.sq.Length)
    ensures V.MovedTo(old(q.Loaded(buf[..load])), q.Window())
    ensures Prepend(done', Parse(S.DhavRule(q.sq.Length), q.Contents())) == p
    ensures ret > 0 ==> q.len < old(q.len) + load
    ensures ret == 0 ==> Parsed(done', q.Contents()) == p
  {
    hide AllAcceptable, ConvertAll, V.MeetsStuck, V.MovedTo, V.Behind, V.Loaded, Parse, Prepend, S.DhavRule;
    var len;
    ret, len := CallDhav(q, buf, load);
    ghost var frames := if len > 0 then [buf[..len]] else [];
    TookFrame(o.tsproc, RateOf(c0.p), p, done, frames, S.DhavRule(q.sq.Length), q.Contents());
    done' := done + frames;
    stillPending, out := ConvertIfAny(mc, tsc, pending, o, buf, len, outBuf, written, c0, done, frames);
  }

  lemma TookFrame(tsproc: bool, k: Rate, p: Parsed, done: seq<seq<byte>>, frames: seq<seq<byte>>, r: Rule,
                  rest: seq<byte>)
    requires AllAcceptable(tsproc, k, p.frames) && Prepend(done, Prepend(frames, Parse(r, rest))) == p
    ensures AllAcceptable(tsproc, k, done + frames) && Prepend(done + frames, Parse(r, rest)) == p
    ensures Taken(r, rest) == 0 ==> Parsed(done + frames, rest) == p
  {
    var now := Parse(r, rest);
    PrependTwice(done, frames, now);
    AcceptableAppend(tsproc, k, done + frames, now.frames);
    if Taken(r, rest) == 0 {
      PrependNothing(done + frames, rest);
    }
  }

  lemma PrependNothing(done: seq<seq<byte>>, rest: seq<byte>)
    ensures Prepend(done, Parsed([], rest)) == Parsed(done, rest)
  {
    assert done + [] == done;
  }

  lemma GoodPrefix(tsproc: bool, k: Rate, early: seq<seq<byte>>, all: seq<seq<byte>>)
    requires early <= all && AllAcceptable(tsproc, k, all)
    ensures AllAcceptable(tsproc, k, early)
  {
    assert all == early + all[|early|..];
    AcceptableAppend(tsproc, k, early, all[|early|..]);
  }

  /** The do-while loop for one read of `n` octets. */
  method DrainAndConvert(q: Dstf, mc: McParms, tsc: TC.TsProc, pending: bool, o: Options,
                         buf: array<byte>, n: nat, outBuf: array<byte>)
    returns (ret: int, stillPending: bool, written: seq<byte>)
    requires q.Valid() && buf != q.sq && outBuf != q.sq && buf != outBuf
    requires n <= buf.Length && q.sq.Length <= buf.Length
    requires o.maxDst <= outBuf.Length && W.MAIN_HEADER_LOAD <= outBuf.Length
    requires ValidConv(ConvOf(mc, tsc, pending))
    requires q.len + n <= q.sq.Length ==>
               var l := q.Loaded(buf[..n]);
               && !V.MeetsStuck(l.back, l.rest, q.sq.Length)
               && AllAcceptable(o.tsproc, RateOf(mc.Value()), Parse(S.DhavRule(q.sq.Length), l.rest).frames)
    modifies q, q.sq, mc, tsc, buf, outBuf
    ensures q.Valid()
    ensures old(q.len) + n > q.sq.Length ==>
              && ret == -1 && written == [] && q.Window() == old(q.Window())
              && ConvOf(mc, tsc, stillPending) == old(ConvOf(mc, tsc, pending))
    ensures old(q.len) + n <= q.sq.Length ==>
              var l := old(q.Loaded(buf[..n]));
              && ret == 0 && q.Window() == V.Drained(q.sq.Length, l)
              && Converted(o, old(ConvOf(mc, tsc, pending)), Parse(S.DhavRule(q.sq.Length), l.rest).frames,
                           ConvOf(mc, tsc, stillPending), written)
  {
    hide V.MeetsStuck, Parse;
    ghost var l, c0 := q.Loaded(buf[..n]), ConvOf(mc, tsc, pending);
    ghost var p := Parse(S.DhavRule(q.sq.Length), l.rest);
    ghost var done: seq<seq<byte>> := [];
    stillPending, written := pending, [];
    if q.len + n > q.sq.Length {
      var len;
      ret, len := CallDhav(q, buf, n);
      return;
    }
    PrependTwice([], [], p);
    ret, stillPending, written, done :=
      TakeAndConvert(q, mc, tsc, stillPending, o, buf, n, outBuf, written, c0, done, p);
    while ret > 0
      invariant q.Valid() && ret >= 0 && Converted(o, c0, done, ConvOf(mc, tsc, stillPending), written)
      invariant !V.MeetsStuck(q.Back(), q.Contents(), q.sq.Length) && V.MovedTo(l, q.Window())
      invariant Prepend(done, Parse(S.DhavRule(q.sq.Length), q.Contents())) == p
      invariant ret == 0 ==> Parsed(done, q.Contents()) == p
      decreases q.len, ret
    {
      ghost var w := q.Window();
      V.LoadedNothing(q.under, q.sq.Length, w);
      assert buf[..0] == [];
      ret, stillPending, written, done :=
        TakeAndConvert(q, mc, tsc, stillPending, o, buf, 0, outBuf, written, c0, done, p);
      V.MovedTwice(l, w, q.Window());
    }
    V.MovedIsDrained(q.sq.Length, l, q.Window(), p);
  }

  // ------------------------------------------------------- the whole run

  /** Reads taken before the format is known, or room for two more is short. */
  ghost function PreloadEnd(input: seq<seq<byte>>, maxlen: nat, g: nat, k: nat): (end: nat)
    requires k <= |input|
    ensures k <= end <= |input|
    decreases |input| - k
  {
    if k < |input| && maxlen - |Concat(input[..k])| >= 2 * g then
      if FormatOf(Concat(input[..k + 1])) != UnknownFormat then k + 1 else PreloadEnd(input, maxlen, g, k + 1)
    else k
  }

  lemma PreloadStep(input: seq<seq<byte>>, maxlen: nat, g: nat, k: nat)
    requires k <= |input|
    ensures PreloadEnd(input, maxlen, g, k) ==
            if k < |input| && maxlen - |Concat(input[..k])| >= 2 * g then
              if FormatOf(Concat(input[..k + 1])) != UnknownFormat then k + 1
              else PreloadEnd(input, maxlen, g, k + 1)
            else k
  {
  }

  /** The format is not known from any fewer reads than k. */
  ghost predicate UnknownBefore(input: seq<seq<byte>>, k: nat)
    requires k <= |input|
  {
    forall j :: 0 < j < k ==> FormatOf(Concat(input[..j])) == UnknownFormat
  }

  lemma StillUnknown(input: seq<seq<byte>>, k: nat)
    requires k < |input| && UnknownBefore(input, k)
    ensures k == 0 || FormatOf(Concat(input[..k])) == UnknownFormat ==> UnknownBefore(input, k + 1)
  {
  }

  lemma NothingRead(input: seq<seq<byte>>)
    ensures Concat(input[..0]) == [] && FormatOf([]) == UnknownFormat && UnknownBefore(input, 0)
  {
    assert forall i: nat :: !OccursAt([], DHAV_MARK, i) && !OccursAt([], DAHUA, i);
    assert input[..0] == [];
  }

  /** The identify-and-preload loop: reads of up to `g` octets are queued until
      the format is known, while there is room for two more.  One more always
      fits afterwards. */
  method Preload(q: Dstf, input: seq<seq<byte>>, g: nat, buf: array<byte>) returns (k: nat, format: Format)
    requires q.Valid() && q.offs == 0 && q.len == 0 && buf != q.sq && g <= q.sq.Length && g <= buf.Length
    requires forall i :: 0 <= i < |input| ==> 0 < |input[i]| <= g
    modifies q, q.sq, buf
    ensures q.Valid() && k == PreloadEnd(input, q.sq.Length, g, 0) && q.offs == 0
    ensures q.Window() == V.Queue(0, q.under, Concat(input[..k]))
    ensures q.len + g <= q.sq.Length
    ensures format == FormatOf(Concat(input[..k]))
    ensures UnknownBefore(input, k)
    ensures format == UnknownFormat ==> k == |input| || q.len + 2 * g > q.sq.Length
  {
    hide FormatOf, Concat, PreloadEnd, OccursAt, Occurs, UnknownBefore;
    k, format := 0, UnknownFormat;
    NothingRead(input);
    while q.sq.Length - q.len >= 2 * g && k < |input|
      invariant q.Valid() && q.offs == 0 && k <= |input| && q.Contents() == Concat(input[..k]) && q.Back() == q.under
      invariant q.len + g <= q.sq.Length
      invariant PreloadEnd(input, q.sq.Length, g, k) == PreloadEnd(input, q.sq.Length, g, 0)
      invariant format == FormatOf(Concat(input[..k]))
      invariant UnknownBefore(input, k) && format == UnknownFormat
      decreases |input| - k
    {
      PreloadStep(input, q.sq.Length, g, k);
      StillUnknown(input, k);
      var n := ReadChunk(input[k], buf);
      q.Append(buf, n);
      ConcatUpTo(input, k);
      k := k + 1;
      format := Identify(q.Contents());
      if format != UnknownFormat {
        break;
      }
    }
    if format == UnknownFormat {
      PreloadStep(input, q.sq.Length, g, k);
    }
  }

  /** What read i returns; nothing at the end. */
  function ReadAt(input: seq<seq<byte>>, i: nat): seq<byte>
  {
    if i < |input| then input[i] else []
  }

  /** The reads from the i-th on, with the last that returns nothing. */
  function Reads(input: seq<seq<byte>>, i: nat): (rs: seq<seq<byte>>)
    requires i <= |input|
    ensures |rs| == |input| - i + 1
  {
    input[i..] + [[]]
  }

  lemma ReadsNext(input: seq<seq<byte>>, i: nat)
    requires i <= |input|
    ensures Reads(input, i)[0] == ReadAt(input, i)
    ensures i < |input| ==>
              && Reads(input, i)[1..] == Reads(input, i + 1)
              && Concat(input[..i + 1]) == Concat(input[..i]) + input[i]
    ensures i == |input| ==> Concat(input[..i]) + [] == Concat(input[..i])
  {
    if i < |input| {
      ConcatUpTo(input, i);
      assert (input[i..] + [[]])[1..] == input[i + 1..] + [[]];
    }
  }

  /** What is known between two reads, `sent` being read: `done` have been
      converted, the queue leads on to the frames still to come. */
  ghost predicate Between(q: Dstf, c: Conv, out: seq<byte>, o: Options, c0: Conv, done: seq<seq<byte>>,
                          sent: seq<byte>)
    reads q, q.sq
    requires q.Valid()
  {
    var r := S.DhavRule(q.sq.Length);
    Converted(o, c0, done, c, out) && Parse(r, sent) == Prepend(done, Parse(r, q.Contents()))
  }

  /** Frames of the first j reads are among those of the first n. */
  lemma GoodUpTo(o: Options, k: Rate, maxlen: nat, input: seq<seq<byte>>, j: nat, n: nat)
    requires j <= n <= |input| && AllAcceptable(o.tsproc, k, FramesOfReads(input, n, maxlen))
    ensures AllAcceptable(o.tsproc, k, FramesOfReads(input, j, maxlen))
  {
    S.DhavRuleStable(maxlen);
    assert input[..n] == input[..j] + input[j..n];
    ConcatAppend(input[..j], input[j..n]);
    EarlyFrames(S.DhavRule(maxlen), Concat(input[..j]), Concat(input[j..n]));
    GoodPrefix(o.tsproc, k, FramesOfReads(input, j, maxlen), FramesOfReads(input, n, maxlen));
  }

  /** Frames the deframer emits fit the output buffer. */
  lemma EmittedFit(q: seq<byte>, maxlen: nat, o: Options)
    requires maxlen < TWO_63 && maxlen + 423 <= o.maxDst
    ensures Fits(o, Parse(S.DhavRule(maxlen), q).frames)
  {
    var fs := Parse(S.DhavRule(maxlen), q).frames;
    forall i | 0 <= i < |fs| ensures |fs[i]| + 423 <= o.maxDst && |fs[i]| < TWO_31 {
      S.EmittedAreWellFormed(q, maxlen, i);
    }
  }

  /** If no frame ever pending is longer than maxlen - g + 1, every read fits. */
  ghost predicate FramesBounded(input: seq<seq<byte>>, maxlen: nat, g: nat)
  {
    forall i: nat :: i <= |input| ==> S.PendingAfter([], input, maxlen, i) + g <= maxlen + 1
  }

  /** And then every read behind what has been preloaded does. */
  lemma ReadsFit(input: seq<seq<byte>>, i: nat, maxlen: nat, g: nat)
    requires i <= |input| && 0 < g && FramesBounded(input, maxlen, g) && |Concat(input[..i])| + g <= maxlen
    requires forall k :: 0 <= k < |input| ==> |input[k]| <= g
    ensures S.RoomForAll(Concat(input[..i]), input[i..], maxlen)
  {
    if i < |input| {
      var sent, rest := Concat(input[..i + 1]), input[i + 1..];
      ConcatSplit(input, i);
      assert S.PendingAfter([], input, maxlen, 0) + g <= maxlen + 1;
      S.PendingAtStart([], input, maxlen);
      forall j: nat | j <= |rest| ensures S.PendingAfter(sent, rest, maxlen, j) + g <= maxlen + 1 {
        PendingLater(input, i + 1, j, maxlen);
        assert S.PendingAfter([], input, maxlen, i + 1 + j) + g <= maxlen + 1;
      }
      S.BoundedFramesFit(sent, rest, maxlen, maxlen - g + 1);
      assert input[i..][1..] == rest;
    }
  }

  lemma PendingLater(input: seq<seq<byte>>, i: nat, j: nat, maxlen: nat)
    requires i + j <= |input|
    ensures S.PendingAfter(Concat(input[..i]), input[i..], maxlen, j) == S.PendingAfter([], input, maxlen, i + j)
  {
    assert input[..i + j] == input[..i] + input[i..][..j];
    ConcatAppend(input[..i], input[i..][..j]);
    Assoc([], [], Concat(input[..i + j]));
  }

  /** One iteration of the read-and-convert loop, for a read of `chunk`. */
  method ReadAndConvert(q: Dstf, mc: McParms, tsc: TC.TsProc, pending: bool, o: Options, chunk: seq<byte>,
                        buf: array<byte>, outBuf: array<byte>, written: seq<byte>,
                        ghost c0: Conv, ghost done: seq<seq<byte>>, ghost sent: seq<byte>)
    returns (ok: bool, stillPending: bool, out: seq<byte>, ghost done': seq<seq<byte>>)
    requires q.Valid() && buf != q.sq && outBuf != q.sq && buf != outBuf
    requires q.sq.Length <= buf.Length && |chunk| <= buf.Length
    requires o.maxDst <= outBuf.Length && W.MAIN_HEADER_LOAD <= outBuf.Length
    requires Between(q, ConvOf(mc, tsc, pending), written, o, c0, done, sent)
    requires q.len + |chunk| <= q.sq.Length ==>
               && !V.MeetsStuck(q.Loaded(chunk).back, q.Loaded(chunk).rest, q.sq.Length)
               && AllAcceptable(o.tsproc, RateOf(c0.p), Parse(S.DhavRule(q.sq.Length), sent + chunk).frames)
    modifies q, q.sq, mc, tsc, buf, outBuf
    ensures q.Valid()
    ensures ok <==> old(q.len) + |chunk| <= q.sq.Length
    ensures !ok ==> Converted(o, c0, done, ConvOf(mc, tsc, stillPending), out)
    ensures ok ==> Between(q, ConvOf(mc, tsc, stillPending), out, o, c0, done', sent + chunk)
    ensures ok ==> done' == Parse(S.DhavRule(q.sq.Length), sent + chunk).frames
    ensures ok ==> q.Window() == V.Drained(q.sq.Length, old(q.Loaded(chunk)))
  {
    hide AllAcceptable, ConvertAll, V.MeetsStuck, Parse;
    ghost var maxlen, contents := q.sq.Length, q.Contents();
    ghost var frames := Parse(S.DhavRule(maxlen), contents + chunk).frames;
    var n := ReadChunk(chunk, buf);
    S.DhavRuleStable(maxlen);
    ParseContinues(S.DhavRule(maxlen), done, sent, contents, chunk);
    if q.len + n <= maxlen {
      ConvertAppend(o, c0, done, frames);
      DrainedParse(S.DhavRule(maxlen), done, contents + chunk);
    }
    var ret, still, more := DrainAndConvert(q, mc, tsc, pending, o, buf, n, outBuf);
    ok, stillPending, out, done' := ret >= 0, still, written + more, done + frames;
    Assoc(written, [], []);
  }

  /** The read-and-convert loop, from the i-th read to the end of the input or the
      first read without room. */
  method ReadAndConvertAll(q: Dstf, mc: McParms, tsc: TC.TsProc, o: Options, input: seq<seq<byte>>, i: nat,
                           buf: array<byte>, outBuf: array<byte>)
    returns (ok: bool, out: seq<byte>)
    requires q.Valid() && buf != q.sq && outBuf != q.sq && buf != outBuf && i <= |input|
    requires q.sq.Length <= buf.Length && forall k :: 0 <= k < |input| ==> |input[k]| <= buf.Length
    requires o.maxDst <= outBuf.Length && W.MAIN_HEADER_LOAD <= outBuf.Length
    requires ValidConv(ConvOf(mc, tsc, true)) && q.Contents() == Concat(input[..i])
    requires q.len + |ReadAt(input, i)| <= q.sq.Length
    requires !V.RunsStuck(q.under, q.sq.Length, q.Window(), Reads(input, i))
    requires AllAcceptable(o.tsproc, RateOf(mc.Value()), FramesOfReads(input, Used(input, i, q.sq.Length), q.sq.Length))
    modifies q, q.sq, mc, tsc, buf, outBuf
    ensures ok <==> Used(input, i, q.sq.Length) == |input|
    ensures out == ConvertAll(o, old(ConvOf(mc, tsc, true)),
                              FramesOfReads(input, Used(input, i, q.sq.Length), q.sq.Length)).1
  {
    hide V.MeetsStuck, V.RunsStuck, Parse, S.Fitting;
    ghost var c0, done: seq<seq<byte>> := ConvOf(mc, tsc, true), [];
    ghost var maxlen := q.sq.Length;
    ghost var used := Used(input, i, maxlen);
    PrependTwice([], [], Parse(S.DhavRule(maxlen), q.Contents()));
    var k, pending, atEnd := i, true, false;
    ok, out := true, [];
    while !atEnd
      invariant q.Valid() && i <= k <= |input| && ok
      invariant Between(q, ConvOf(mc, tsc, pending), out, o, c0, done, Concat(input[..k]))
      invariant k + S.Fitting(q.Contents(), input[k..], maxlen) == used
      invariant k > i || atEnd ==> done == FramesOfReads(input, k, maxlen)
      invariant k == i && !atEnd ==> q.len + |ReadAt(input, i)| <= maxlen
      invariant !atEnd ==> !V.RunsStuck(q.under, maxlen, q.Window(), Reads(input, k))
      invariant atEnd ==> k == |input|
      decreases |input| - k, !atEnd
    {
      atEnd := k == |input|;
      ReadStep(o, RateOf(c0.p), q.under, maxlen, q.Window(), input, k, used);
      ok, pending, out, done :=
        ReadAndConvert(q, mc, tsc, pending, o, ReadAt(input, k), buf, outBuf, out, c0, done, Concat(input[..k]));
      if !ok {
        return;
      }
      k := if atEnd then k else k + 1;
    }
  }

  /** What is needed for read k, and what it leads to. */
  lemma ReadStep(o: Options, r: Rate, under: seq<byte>, maxlen: nat, w: V.Queue, input: seq<seq<byte>>, k: nat,
                 used: nat)
    requires |under| == |w.back| == 8 && k <= |input| && used <= |input| && |w.rest| <= maxlen
    requires k + S.Fitting(w.rest, input[k..], maxlen) == used && !V.RunsStuck(under, maxlen, w, Reads(input, k))
    requires AllAcceptable(o.tsproc, r, FramesOfReads(input, used, maxlen))
    ensures var c, next := ReadAt(input, k), if k < |input| then k + 1 else k;
            var l := V.Loaded(under, maxlen, w, c);
            && Concat(input[..k]) + c == Concat(input[..next])
            && (|w.rest| + |c| > maxlen ==> k == used < |input|)
            && (|w.rest| + |c| <= maxlen ==>
                  && !V.MeetsStuck(l.back, l.rest, maxlen)
                  && AllAcceptable(o.tsproc, r, FramesOfReads(input, next, maxlen))
                  && next + S.Fitting(V.Drained(maxlen, l).rest, input[next..], maxlen) == used
                  && (k < |input| ==> !V.RunsStuck(under, maxlen, V.Drained(maxlen, l), Reads(input, next))))
  {
    ReadsNext(input, k);
    RoomNow(w.rest, input, k, maxlen);
    if |w.rest| + |ReadAt(input, k)| <= maxlen {
      GoodUpTo(o, r, maxlen, input, if k < |input| then k + 1 else k, used);
    }
  }

  /** Frames of the first n reads. */
  function FramesOfReads(input: seq<seq<byte>>, n: nat, maxlen: nat): seq<seq<byte>>
    requires n <= |input|
  {
    Parse(S.DhavRule(maxlen), Concat(input[..n])).frames
  }

  /** How many reads are taken when i have been preloaded. */
  function Used(input: seq<seq<byte>>, i: nat, maxlen: nat): (n: nat)
    requires i <= |input|
    ensures i <= n <= |input|
  {
    i + S.Fitting(Concat(input[..i]), input[i..], maxlen)
  }

  lemma RoomNow(contents: seq<byte>, input: seq<seq<byte>>, k: nat, maxlen: nat)
    requires k <= |input| && |contents| <= maxlen
    ensures var fits := |contents| + |ReadAt(input, k)| <= maxlen;
            var n := S.Fitting(contents, input[k..], maxlen);
            if k < |input| && fits then
              n == 1 + S.Fitting(Parse(S.DhavRule(maxlen), contents + input[k]).rest, input[k + 1..], maxlen)
            else n == 0 && (!fits ==> k < |input|)
  {
    if k < |input| {
      assert input[k..][1..] == input[k + 1..];
    }
  }

  /** Nothing the code cannot do is asked of it: unless the format is raw, the
      run comes to no zero header behind a zero trailer, and the frames found may
      be converted. */
  ghost predicate Processable(under: seq<byte>, maxlen: nat, g: nat, input: seq<seq<byte>>, o: Options)
    requires |under| == 8
  {
    var pre := PreloadEnd(input, maxlen, g, 0);
    var start := Concat(input[..pre]);
    || FormatOf(start) == RawH264
    || (&& !V.RunsStuck(under, maxlen, V.Queue(0, under, start), Reads(input, pre))
        && AllAcceptable(o.tsproc, Unknown, FramesOfReads(input, Used(input, pre, maxlen), maxlen)))
  }

  /** process_dhav_stream for input that is not raw H.264.  Each element of
      `input` is what one read returns; then the input ends.  `t` and `k` are the
      unused clocks the run starts with. */
  method ProcessDhavStream(under: seq<byte>, maxlen: nat, g: nat, input: seq<seq<byte>>, exact60: bool, o: Options)
    returns (raw: bool, ok: bool, out: seq<byte>, ghost t: TC.Clocks, ghost k: StampClock)
    requires |under| == 8 && 16 <= maxlen < TWO_63 && 0 < g <= maxlen && maxlen + 423 <= o.maxDst
    requires forall i :: 0 <= i < |input| ==> 0 < |input[i]| <= g
    requires Processable(under, maxlen, g, input, o)
    ensures t.first && k.first
    ensures raw <==> FormatOf(Concat(input[..PreloadEnd(input, maxlen, g, 0)])) == RawH264
    ensures !raw && FramesBounded(input, maxlen, g) ==> ok
    ensures !raw ==>
              var n := Used(input, PreloadEnd(input, maxlen, g, 0), maxlen);
              (ok <==> n == |input|) && OutputIs(o, exact60, t, k, out, FramesOfReads(input, n, maxlen))
  {
    var q := new Dstf(under, maxlen);
    var mc := new McParms(exact60);
    var tsc := new TC.TsProc();
    var buf := new byte[maxlen];
    var outBuf := new byte[o.maxDst];
    t, k := tsc.State(), mc.Clock();
    raw, ok, out := PreloadAndConvert(q, mc, tsc, o, input, g, buf, outBuf);
  }

  /** Both loops. */
  method PreloadAndConvert(q: Dstf, mc: McParms, tsc: TC.TsProc, o: Options, input: seq<seq<byte>>, g: nat,
                           buf: array<byte>, outBuf: array<byte>)
    returns (raw: bool, ok: bool, out: seq<byte>)
    requires q.Valid() && q.offs == 0 && q.len == 0 && buf != q.sq && outBuf != q.sq && buf != outBuf
    requires q.sq.Length <= buf.Length && g <= q.sq.Length
    requires forall i :: 0 <= i < |input| ==> 0 < |input[i]| <= g
    requires o.maxDst <= outBuf.Length && W.MAIN_HEADER_LOAD <= outBuf.Length
    requires ValidConv(ConvOf(mc, tsc, true)) && !mc.hasVParms && 0 < g && q.sq.Length + 423 <= o.maxDst
    requires Processable(q.under, q.sq.Length, g, input, o)
    modifies q, q.sq, mc, tsc, buf, outBuf
    ensures raw <==> FormatOf(Concat(input[..PreloadEnd(input, q.sq.Length, g, 0)])) == RawH264
    ensures !raw && FramesBounded(input, q.sq.Length, g) ==> ok
    ensures !raw ==>
              var n := Used(input, PreloadEnd(input, q.sq.Length, g, 0), q.sq.Length);
              && (ok <==> n == |input|)
              && OutputIs(o, old(mc.exact60), old(tsc.State()), old(mc.Clock()), out,
                          FramesOfReads(input, n, q.sq.Length))
  {
    hide FormatOf, AllAcceptable, V.RunsStuck, Parse, ConvertAll, OutputIs, PreloadEnd;
    raw, ok, out := false, true, [];
    ghost var c0 := ConvOf(mc, tsc, true);
    var i, format := Preload(q, input, g, buf);
    if format == RawH264 {
      raw := true;
      return;
    }
    ok, out := ReadAndConvertAll(q, mc, tsc, o, input, i, buf, outBuf);
    if FramesBounded(input, q.sq.Length, g) {
      ReadsFit(input, i, q.sq.Length, g);
    }
    OutputReads(o, c0, input, Used(input, i, q.sq.Length), q.sq.Length);
  }

  /** `out` is what frames `fs` should give. */
  ghost predicate OutputIs(o: Options, exact60: bool, t: TC.Clocks, k: StampClock, out: seq<byte>, fs: seq<seq<byte>>)
  {
    if FromFirstI(fs) == [] then out == [] else Ebml.ReadMkv(out) == Ebml.Some(MkvOf(o, exact60, t, k, fs))
  }

  lemma OutputReads(o: Options, c: Conv, input: seq<seq<byte>>, n: nat, maxlen: nat)
    requires maxlen < TWO_63 && maxlen + 423 <= o.maxDst && n <= |input| && ValidConv(c) && c.pending && !c.p.hasV
    requires AllAcceptable(o.tsproc, RateOf(c.p), FramesOfReads(input, n, maxlen))
    ensures var fs := FramesOfReads(input, n, maxlen);
            OutputIs(o, c.p.exact60, c.tsc, c.p.clock, ConvertAll(o, c, fs).1, fs)
  {
    EmittedFit(Concat(input[..n]), maxlen, o);
    ConversionReads(o, c, FramesOfReads(input, n, maxlen));
  }
}
