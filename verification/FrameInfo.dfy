/** What the converter knows about the stream and the current frame (t_mc_parms),
    and dt_collect_dhav_frame_info, which updates it from one DHAV frame. */
module FrameInfo {
  import opened Bytes
  import opened Subfields

  const BASE_HDR := 24
  const TRAILER := 8
  const TYPE_VIDEO := 0xfc
  const TYPE_I_FRAME := 0xfd
  const TYPE_AUDIO := 0xf0
  const NS_PER_MS := 1000000

  datatype FrameType = Undefined | VideoFrame | VideoIFrame | AudioFrame

  /** The direct, uncorrected clock: set to zero by the first video frame, then
      advanced by the difference of 16-bit millisecond stamps. */
  datatype StampClock = StampClock(first: bool, prev: nat, ns: nat)

  /** The value of t_mc_parms.  `bodyOffs` is body_p relative to the frame. */
  datatype Parms = Parms(clock: StampClock, exact60: bool, frameType: FrameType, hasV: bool,
                         width: nat, height: nat, aspectX: nat, aspectY: nat,
                         epoch: nat, stamp: nat, ntsc: bool, fps: nat,
                         bodyOffs: nat, bodyLen: nat)

  function Tick(c: StampClock, stamp: nat): StampClock
  {
    if c.first then StampClock(false, stamp, 0)
    else
      var period := if stamp > c.prev then Wrap16(stamp - c.prev) else Wrap16(stamp + (0 - c.prev));
      StampClock(false, stamp, Wrap(c.ns + period * NS_PER_MS))
  }

  /** Guess of the aspect ratio from the picture size. */
  function Aspect(width: nat, height: nat): (nat, nat)
    requires height != 0
  {
    if width * 1000 / height == 1777 then (16, 9) else (4, 3)
  }

  /** Guess of the video system from height and frame rate. */
  predicate NtscGuess(height: nat, fps: nat)
  {
    if height == 60 || height == 120 || height == 160 || height == 240 || height == 480 then true
    else if height == 72 || height == 144 || height == 192 || height == 288 || height == 576 then false
    else fps == 60 || fps == 30 || fps == 15
  }

  /** What the tables of heights come to: the lines of NTSC, or of PAL, over 1, 2,
      3, 4 or 8; else the rate decides. */
  lemma NtscMeaning(height: nat, fps: nat)
    ensures NtscGuess(height, fps) <==>
            height * 1 == 480 || height * 2 == 480 || height * 3 == 480 || height * 4 == 480 || height * 8 == 480
            || (&& (fps * 1 == 60 || fps * 2 == 60 || fps * 4 == 60)
                && !(height * 1 == 576 || height * 2 == 576 || height * 3 == 576
                     || height * 4 == 576 || height * 8 == 576))
  {
  }

  /** The aspect ratio is 16:9 exactly from 1.777 up to, not including, 1.778. */
  lemma AspectMeaning(width: nat, height: nat)
    requires height != 0
    ensures Aspect(width, height) ==
            if 1777 * height <= 1000 * width < 1778 * height then (16, 9) else (4, 3)
  {
    var q, n := width * 1000 / height, width * 1000;
    assert q * height <= n < q * height + height;
    if q >= 1778 {
      Product(q, 1778, height);
    } else if q <= 1776 {
      Product(1776, q, height);
    }
  }

  lemma Product(a: nat, b: nat, c: nat)
    requires a >= b
    ensures a * c >= b * c
  {
  }

  function ExtLen(f: seq<byte>): nat
    requires |f| > 22
  {
    f[22]
  }

  /** Header, extended header and trailer fit into the frame. */
  predicate Framed(f: seq<byte>)
  {
    |f| > 22 && BASE_HDR + ExtLen(f) + TRAILER <= |f|
  }

  /** The extended header of a frame. */
  function Ext(f: seq<byte>): seq<byte>
    requires Framed(f)
  {
    f[BASE_HDR..BASE_HDR + ExtLen(f)]
  }

  function Width(f: seq<byte>): nat
    requires Framed(f)
  {
    Slot(Ext(f), 0x80, 2) * 8
  }

  function Height(f: seq<byte>): nat
    requires Framed(f)
  {
    Slot(Ext(f), 0x80, 3) * 8
  }

  function Fps(f: seq<byte>): nat
    requires Framed(f)
  {
    Slot(Ext(f), 0x81, 3)
  }

  /** An I-frame that tells how to show what follows. */
  predicate UsableI(f: seq<byte>)
  {
    Framed(f) && f[4] == TYPE_I_FRAME && Fps(f) != 0 && Height(f) != 0
  }

  /** What is known of the frame rate: nothing before the first usable I-frame;
      zero after a later I-frame that carries none. */
  datatype Rate = Unknown | Zero | Usable

  function NextRate(k: Rate, f: seq<byte>): Rate
  {
    if Framed(f) && f[4] == TYPE_I_FRAME then
      if Fps(f) != 0 then Usable else if k.Unknown? then Unknown else Zero
    else k
  }

  function RateAfter(k: Rate, fs: seq<seq<byte>>): Rate
    decreases |fs|
  {
    if fs == [] then k else RateAfter(NextRate(k, fs[0]), fs[1..])
  }

  /** A frame dt_collect_dhav_frame_info may be given: where it uses the parts of
      the frame they are there, and no division by a zero height comes up. */
  predicate Collectable(k: Rate, f: seq<byte>)
  {
    && |f| > 4
    && (f[4] == TYPE_I_FRAME ==> Framed(f) && (Fps(f) != 0 ==> Height(f) != 0))
    && (f[4] == TYPE_VIDEO && !k.Unknown? ==> Framed(f))
  }

  predicate AllCollectable(k: Rate, fs: seq<seq<byte>>)
    decreases |fs|
  {
    fs == [] || (Collectable(k, fs[0]) && AllCollectable(NextRate(k, fs[0]), fs[1..]))
  }

  /** The media data between extended header and trailer. */
  function Body(f: seq<byte>): (b: seq<byte>)
    requires Framed(f)
    ensures |b| == |f| - BASE_HDR - ExtLen(f) - TRAILER
  {
    f[BASE_HDR + ExtLen(f)..|f| - TRAILER]
  }

  /** A video frame of `n` octets with this stamp and epoch. */
  function WithTiming(p: Parms, stamp: nat, epoch: nat, extLen: nat, n: nat): Parms
    requires BASE_HDR + extLen + TRAILER <= n
  {
    p.(stamp := stamp, epoch := epoch, clock := Tick(p.clock, stamp),
       bodyOffs := BASE_HDR + extLen, bodyLen := n - BASE_HDR - extLen - TRAILER)
  }

  function Timed(p: Parms, f: seq<byte>): Parms
    requires Framed(f)
  {
    WithTiming(p, LE16(f[20..22]), LE32(f[16..20]), ExtLen(f), |f|)
  }

  /** An I-frame with these picture parameters; the frame rate must not be 0. */
  function WithPicture(p: Parms, width: nat, height: nat, fps: nat): Parms
    requires fps != 0 ==> height != 0
  {
    var v := p.(width := width, height := height, fps := fps);
    if fps == 0 then v
    else
      var (x, y) := Aspect(width, height);
      v.(aspectX := x, aspectY := y, ntsc := NtscGuess(height, fps), hasV := true, frameType := VideoIFrame)
  }

  function RateOf(p: Parms): Rate
  {
    if !p.hasV then Unknown else if p.fps == 0 then Zero else Usable
  }

  /** One frame. */
  function Collect(p: Parms, f: seq<byte>): (r: (Parms, int))
    requires f != [] ==> Collectable(RateOf(p), f)
    ensures RateOf(r.0) == if f == [] then RateOf(p) else NextRate(RateOf(p), f)
  {
    var q := p.(frameType := Undefined);
    if f == [] then (q, 0)
    else if f[4] == TYPE_VIDEO then
      if !p.hasV then (q, 0) else (Timed(q.(frameType := VideoFrame), f), 0)
    else if f[4] == TYPE_I_FRAME then
      var v := WithPicture(q, Width(f), Height(f), Fps(f));
      if v.fps == 0 then (v, -1) else (Timed(v, f), 0)
    else if f[4] == TYPE_AUDIO then (q.(frameType := AudioFrame), 0)
    else (q, 0)
  }

  predicate IsVideo(p: Parms)
  {
    p.frameType == VideoFrame || p.frameType == VideoIFrame
  }

  /** mc_init; what it leaves unset is as found. */
  predicate Initial(p: Parms)
  {
    p.clock.first && p.frameType == Undefined && !p.hasV
  }

  // ------------------------------------------------------- stamp unwrapping

  /** All frames in turn. */
  function CollectAll(p: Parms, fs: seq<seq<byte>>): Parms
    requires AllCollectable(RateOf(p), fs)
    decreases |fs|
  {
    if fs == [] then p else CollectAll(Collect(p, fs[0]).0, fs[1..])
  }

  /** Stamps of the frames that count as video. */
  function VideoStamps(p: Parms, fs: seq<seq<byte>>): seq<nat>
    requires AllCollectable(RateOf(p), fs)
    decreases |fs|
  {
    if fs == [] then []
    else
      var q := Collect(p, fs[0]).0;
      (if IsVideo(q) then [LE16(fs[0][20..22]) as nat] else []) + VideoStamps(q, fs[1..])
  }

  function TickAll(c: StampClock, stamps: seq<nat>): StampClock
  {
    if stamps == [] then c else Tick(TickAll(c, stamps[..|stamps| - 1]), stamps[|stamps| - 1])
  }

  lemma {:induction false} TickCons(c: StampClock, stamp: nat, stamps: seq<nat>)
    ensures TickAll(c, [stamp] + stamps) == TickAll(Tick(c, stamp), stamps)
    decreases |stamps|
  {
    var all := [stamp] + stamps;
    if stamps == [] {
      assert all[..|all| - 1] == [] && all[|all| - 1] == stamp;
    } else {
      assert all[..|all| - 1] == [stamp] + stamps[..|stamps| - 1];
      TickCons(c, stamp, stamps[..|stamps| - 1]);
    }
  }

  /** Only video frames move the clock. */
  lemma {:induction false} ClockFollowsVideo(p: Parms, fs: seq<seq<byte>>)
    requires AllCollectable(RateOf(p), fs)
    ensures CollectAll(p, fs).clock == TickAll(p.clock, VideoStamps(p, fs))
    decreases |fs|
  {
    if fs != [] {
      var q := Collect(p, fs[0]).0;
      var later := VideoStamps(q, fs[1..]);
      ClockFollowsVideo(q, fs[1..]);
      if IsVideo(q) {
        TickCons(p.clock, LE16(fs[0][20..22]), later);
      } else {
        assert [] + later == later;
      }
    }
  }

  /** Both arms of the period computation are the difference modulo 2^16. */
  lemma PeriodIsDifference(cur: nat, prev: nat, a: nat, b: nat)
    requires a <= b < a + TWO_16 && prev == a % TWO_16 && cur == b % TWO_16
    ensures Wrap16(cur - prev) == b - a
  {
    Wrap16IsModulo(cur - prev);
  }

  /** One more frame, `b - a` ms behind the last, of which `t0` is the first. */
  lemma TickUnwraps(c: StampClock, t0: nat, a: nat, b: nat)
    requires t0 <= a <= b < a + TWO_16
    requires c == StampClock(false, a % TWO_16, Wrap((a - t0) * NS_PER_MS))
    ensures Tick(c, b % TWO_16) == StampClock(false, b % TWO_16, Wrap((b - t0) * NS_PER_MS))
  {
    PeriodIsDifference(b % TWO_16, a % TWO_16, a, b);
    AddModulo((a - t0) * NS_PER_MS, (b - a) * NS_PER_MS);
    assert (a - t0) * NS_PER_MS + (b - a) * NS_PER_MS == (b - t0) * NS_PER_MS;
  }

  /** Unwrapping: when the stamps are the low 16 bits of a true clock, the
      uncorrected timestamp is the time since the first video frame. */
  lemma {:induction false} Unwraps(c: StampClock, t: seq<nat>, stamps: seq<nat>)
    requires c.first && t != [] && TrueClock(t)
    requires |stamps| == |t| && forall i :: 0 <= i < |t| ==> stamps[i] == t[i] % TWO_16
    ensures t[|t| - 1] >= t[0]
    ensures TickAll(c, stamps) ==
            StampClock(false, stamps[|t| - 1], Wrap((t[|t| - 1] - t[0]) * NS_PER_MS))
    decreases |t|
  {
    var n := |t| - 1;
    if n == 0 {
      assert stamps[..0] == [];
    } else {
      Unwraps(c, t[..n], stamps[..n]);
      TickUnwraps(TickAll(c, stamps[..n]), t[0], t[n - 1], t[n]);
    }
  }

  lemma {:induction false} AddModulo(a: nat, b: nat)
    ensures Wrap(Wrap(a) + b) == Wrap(a + b)
    decreases a
  {
    if a >= TWO_64 {
      AddModulo(a - TWO_64, b);
    }
  }

  /** The two stamp octets of a frame are those of time `t`, low one first. */
  predicate StampedAt(f: seq<byte>, t: nat)
  {
    |f| > 22 && f[20] == t % 256 && f[21] == t / 256 % 256
  }

  lemma StampOf(f: seq<byte>, t: nat)
    requires StampedAt(f, t)
    ensures LE16(f[20..22]) == t % TWO_16
  {
    LowOctets(t);
    LE16RoundTrip(t % TWO_16, f[20..22]);
    assert f[20..22] == [f[20], f[21]];
  }

  /** The frames that count as video. */
  function VideoFrames(p: Parms, fs: seq<seq<byte>>): (vs: seq<seq<byte>>)
    requires AllCollectable(RateOf(p), fs)
    ensures |vs| == |VideoStamps(p, fs)|
    ensures forall i :: 0 <= i < |vs| ==> Framed(vs[i]) && VideoStamps(p, fs)[i] == LE16(vs[i][20..22])
    decreases |fs|
  {
    if fs == [] then []
    else
      var q := Collect(p, fs[0]).0;
      (if IsVideo(q) then [fs[0]] else []) + VideoFrames(q, fs[1..])
  }

  /** The same for whole frames: whatever audio and other frames come between. */
  lemma TimestampIsElapsedTime(p: Parms, fs: seq<seq<byte>>, t: seq<nat>)
    requires Initial(p) && AllCollectable(Unknown, fs)
    requires t != [] && TrueClock(t) && |VideoFrames(p, fs)| == |t|
    requires forall i :: 0 <= i < |t| ==> StampedAt(VideoFrames(p, fs)[i], t[i])
    ensures t[|t| - 1] >= t[0]
    ensures CollectAll(p, fs).clock.ns == (t[|t| - 1] - t[0]) * 1000000 % TWO_64
  {
    forall i | 0 <= i < |t| ensures VideoStamps(p, fs)[i] == t[i] % TWO_16 {
      StampOf(VideoFrames(p, fs)[i], t[i]);
    }
    ClockFollowsVideo(p, fs);
    Unwraps(p.clock, t, VideoStamps(p, fs));
    WrapIsModulo((t[|t| - 1] - t[0]) * NS_PER_MS);
  }

  // ------------------------------------------------------- the code

  /** t_mc_parms, updated in place. */
  class McParms {
    var vFirstFrame: bool
    var exact60: bool
    var frameType: FrameType
    var hasVParms: bool
    var vWidth: nat
    var vHeight: nat
    var vAspectX: nat
    var vAspectY: nat
    var dhavEpoch: nat
    var vTimestamp: nat
    var vDhavTs: nat
    var ntscTimings: bool
    var dhavFps: byte
    var vDhavTsPrev: nat
    var bodyOffs: nat
    var bodyLen: nat

    function Value(): Parms
      reads this
    {
      Parms(Clock(), exact60, frameType, hasVParms,
            vWidth, vHeight, vAspectX, vAspectY, dhavEpoch, vDhavTs, ntscTimings, dhavFps, bodyOffs, bodyLen)
    }

    /** mc_init. */
    constructor (ntscExact60: bool)
      ensures Initial(Value()) && exact60 == ntscExact60 && vTimestamp == 0
    {
      frameType, hasVParms, vWidth, vHeight, vTimestamp, dhavEpoch := Undefined, false, 0, 0, 0, 0;
      exact60, vDhavTsPrev, vFirstFrame := ntscExact60, 0, true;
    }

    function Clock(): StampClock
      reads this
    {
      StampClock(vFirstFrame, vDhavTsPrev, vTimestamp)
    }

    /** Direct, uncorrected timestamp calculation. */
    method TickClock()
      modifies this`vFirstFrame, this`vDhavTsPrev, this`vTimestamp
      ensures Clock() == Tick(old(Clock()), vDhavTs)
    {
      if vFirstFrame {
        vFirstFrame := false;
        vDhavTsPrev := vDhavTs;
        vTimestamp := 0;
      } else {
        var period := if vDhavTs > vDhavTsPrev then Wrap16(vDhavTs - vDhavTsPrev)
                      else Wrap16(vDhavTs + (0 - vDhavTsPrev));
        vTimestamp := Wrap(vTimestamp + period * NS_PER_MS);
        vDhavTsPrev := vDhavTs;
      }
    }

    /** The timing part of a video frame, and its body. */
    method CollectTiming(stamp: nat, epoch: nat, extHeadLen: nat, n: nat)
      requires BASE_HDR + extHeadLen + TRAILER <= n
      modifies this`vDhavTs, this`dhavEpoch, this`vFirstFrame, this`vDhavTsPrev, this`vTimestamp
      modifies this`bodyOffs, this`bodyLen
      ensures Value() == WithTiming(old(Value()), stamp, epoch, extHeadLen, n)
    {
      hide Tick;
      vDhavTs := stamp;
      dhavEpoch := epoch;
      TickClock();
      bodyOffs := BASE_HDR + extHeadLen;
      bodyLen := n - (extHeadLen + BASE_HDR) - TRAILER;
    }

    static method ReadExtLen(src: array<byte>, n: nat, ghost f: seq<byte>) returns (k: nat)
      requires n <= src.Length && src[..n] == f && |f| > 22
      ensures k == ExtLen(f)
    {
      k := src[22];
    }

    static method ReadStamps(src: array<byte>, n: nat, ghost f: seq<byte>) returns (stamp: nat, epoch: nat)
      requires n <= src.Length && src[..n] == f && Framed(f)
      ensures stamp == LE16(f[20..22]) && epoch == LE32(f[16..20])
    {
      assert src[20..22] == f[20..22] && src[16..20] == f[16..20];
      stamp := LE16(src[20..22]);
      epoch := LE32(src[16..20]);
    }

    static method ReadPicture(src: array<byte>, n: nat, ghost f: seq<byte>)
      returns (width: nat, height: nat, fps: byte)
      requires n <= src.Length && src[..n] == f && Framed(f)
      ensures width == Width(f) && height == Height(f) && fps == Fps(f)
    {
      var extHeadLen := ReadExtLen(src, n, f);
      var table := new byte[TABLE_SIZE];
      assert src[BASE_HDR..BASE_HDR + extHeadLen] == Ext(f);
      ParseExtHead(src[BASE_HDR..BASE_HDR + extHeadLen], table);
      assert table[..][SlotIndex(0x80, 2)] == Slot(Ext(f), 0x80, 2);
      assert table[..][SlotIndex(0x80, 3)] == Slot(Ext(f), 0x80, 3);
      assert table[..][SlotIndex(0x81, 3)] == Slot(Ext(f), 0x81, 3);
      width := (table[SlotIndex(0x80, 2)] as int) * 8;
      height := (table[SlotIndex(0x80, 3)] as int) * 8;
      fps := table[SlotIndex(0x81, 3)];
    }

    /** The picture parameters of an I-frame, and what is guessed from them. */
    method CollectPicture(width: nat, height: nat, fps: byte)
      requires fps != 0 ==> height != 0
      modifies this`vWidth, this`vHeight, this`vAspectX, this`vAspectY
      modifies this`ntscTimings, this`dhavFps, this`hasVParms, this`frameType
      ensures Value() == WithPicture(old(Value()), width, height, fps)
    {
      hide Aspect, NtscGuess;
      vWidth, vHeight, dhavFps := width, height, fps;
      if dhavFps != 0 {
        GuessFormat();
        hasVParms := true;
        frameType := VideoIFrame;
      }
    }

    /** The guesses of aspect ratio and video system. */
    method GuessFormat()
      requires vHeight != 0
      modifies this`vAspectX, this`vAspectY, this`ntscTimings
      ensures (vAspectX, vAspectY) == Aspect(vWidth, vHeight) && ntscTimings == NtscGuess(vHeight, dhavFps)
    {
      var aspect := Aspect(vWidth, vHeight);
      vAspectX, vAspectY := aspect.0, aspect.1;
      ntscTimings := NtscGuess(vHeight, dhavFps);
    }

    /** dt_collect_dhav_frame_info. */
    method CollectFrame(src: array<byte>, n: nat, ghost f: seq<byte>) returns (ret: int)
      requires n <= src.Length && src[..n] == f && (n > 0 ==> Collectable(RateOf(Value()), f))
      modifies this
      ensures (Value(), ret) == Collect(old(Value()), f)
    {
      ret := 0;
      frameType := Undefined;
      if n == 0 {
        return;
      }
      var dhavType := src[4];
      if dhavType == TYPE_VIDEO {
        if !hasVParms {
          return;
        }
        frameType := VideoFrame;
      } else if dhavType == TYPE_I_FRAME {
        var width, height, fps := ReadPicture(src, n, f);
        CollectPicture(width, height, fps);
        if dhavFps == 0 {
          ret := -1;
          return;
        }
      } else {
        if dhavType == TYPE_AUDIO {
          frameType := AudioFrame;
        }
        return;
      }
      var stamp, epoch := ReadStamps(src, n, f);
      var extHeadLen := ReadExtLen(src, n, f);
      CollectTiming(stamp, epoch, extHeadLen, n);
    }
  }
}
