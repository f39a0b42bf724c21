/** DHAV frames as a device writes them, field after field; and that the deframer
    and the collector find in the octets what was written. */
module DhavLayout {
  import opened Bytes
  import opened Subfields
  import opened DhavStream
  import opened FrameInfo

  /** `misc` and `sum` are octets the program does not look at; `ext` are the
      subfields of the extended header. */
  datatype Frame = Frame(kind: byte, misc: seq<byte>, epoch: nat, stamp: nat, sum: byte,
                         ext: seq<seq<byte>>, body: seq<byte>)

  ghost predicate Proper(f: Frame)
  {
    && |f.misc| == 7 && f.epoch < 0x1_0000_0000 && f.stamp < 0x1_0000
    && (forall i :: 0 <= i < |f.ext| ==> Whole(f.ext[i])) && |Concat(f.ext)| < 256
    && Length(f) < 0x8000_0000
  }

  function Length(f: Frame): nat
  {
    24 + |Concat(f.ext)| + |f.body| + 8
  }

  /** The 24 octets in front. */
  function Front(f: Frame): (s: seq<byte>)
    requires Proper(f)
    ensures |s| == 24
  {
    [0x44, 0x48, 0x41, 0x56] + ([f.kind] + (f.misc + (ToLE32(Length(f)) + (ToLE32(f.epoch)
    + (ToLE16(f.stamp) + [|Concat(f.ext)|, f.sum])))))
  }

  function Octets(f: Frame): (s: seq<byte>)
    requires Proper(f)
    ensures |s| == Length(f)
  {
    Front(f) + (Concat(f.ext) + (f.body + ([0x64, 0x68, 0x61, 0x76] + ToLE32(Length(f)))))
  }

  /** The last octet a subfield of the frame gives for a slot; 0 if none does. */
  function Field(f: Frame, id: nat, pos: nat): byte
  {
    LastWrite(f.ext, id, pos)
  }

  lemma FrontFields(f: Frame)
    requires Proper(f)
    ensures var s := Front(f);
            && s[..4] == DHAV_MARK && s[4] == f.kind && s[12..16] == ToLE32(Length(f))
            && s[16..20] == ToLE32(f.epoch) && s[20..22] == ToLE16(f.stamp) && s[22] == |Concat(f.ext)|
  {
    var a, b, c, d := ToLE32(Length(f)), ToLE32(f.epoch), ToLE16(f.stamp), [|Concat(f.ext)|, f.sum];
    Parts(DHAV_MARK, [f.kind], f.misc, a, b, c, d);
  }

  lemma Parts(m: seq<byte>, k: seq<byte>, x: seq<byte>, a: seq<byte>, b: seq<byte>, c: seq<byte>, d: seq<byte>)
    requires |m| == |a| == |b| == 4 && |k| == 1 && |x| == 7 && |c| == |d| == 2
    ensures var s := m + (k + (x + (a + (b + (c + d)))));
            s[..4] == m && s[4] == k[0] && s[12..16] == a && s[16..20] == b && s[20..22] == c && s[22] == d[0]
  {
  }

  /** What the program reads out of the octets of a frame. */
  lemma ReadsBack(f: Frame)
    requires Proper(f)
    ensures var s := Octets(f);
            && Framed(s) && s[4] == f.kind && LE32(s[16..20]) == f.epoch && LE16(s[20..22]) == f.stamp
            && Ext(s) == Concat(f.ext) && Body(s) == f.body
            && Width(s) == Field(f, 0x80, 2) * 8 && Height(s) == Field(f, 0x80, 3) * 8 && Fps(s) == Field(f, 0x81, 3)
  {
    FrontFields(f);
    LE32RoundTrip(f.epoch);
    LE16RoundTrip(f.stamp, ToLE16(f.stamp));
    StripsInvert(f.ext);
    Slices(Front(f), Concat(f.ext), f.body, [0x64, 0x68, 0x61, 0x76] + ToLE32(Length(f)));
  }

  lemma Slices(front: seq<byte>, ext: seq<byte>, body: seq<byte>, end: seq<byte>)
    requires |front| == 24 && |end| == 8
    ensures var s := front + (ext + (body + end));
            && (forall i, j :: 0 <= i <= j <= 24 ==> s[i..j] == front[i..j]) && s[4] == front[4] && s[22] == front[22]
            && s[24..24 + |ext|] == ext && s[24 + |ext|..|s| - 8] == body && s[|s| - 8..] == end
  {
    var s := front + (ext + (body + end));
    assert s == front + ext + (body + end) == front + ext + body + end;
    assert (front + ext)[24..] == ext;
  }

  lemma Halves(a: seq<byte>, b: seq<byte>)
    ensures (a + b)[..|a|] == a && (a + b)[|a|..] == b
  {
  }

  lemma TailSlices(s: seq<byte>, n: nat, end: seq<byte>)
    requires n == |s| >= 8 == |end| && s[n - 8..] == end
    ensures s[n - 8..n - 4] == end[..4] && s[n - 4..] == end[4..]
  {
    assert s[n - 8..n - 4] == s[n - 8..][..4] && s[n - 4..] == s[n - 8..][4..];
  }

  /** The deframer takes it for a frame. */
  lemma IsWellFormed(f: Frame, maxlen: nat)
    requires Proper(f) && Length(f) <= maxlen
    ensures WellFormed(Octets(f), maxlen) && |Octets(f)| >= 32
  {
    hide LE32;
    var end, s, n := TRAILER_MARK + ToLE32(Length(f)), Octets(f), Length(f);
    FrontFields(f);
    LE32RoundTrip(n);
    Slices(Front(f), Concat(f.ext), f.body, end);
    Halves(TRAILER_MARK, ToLE32(n));
    TailSlices(s, n, end);
    assert s[..4] == s[0..4] && Front(f)[0..4] == Front(f)[..4];
  }

  /** The collector finds the fields of a video frame: for an I-frame (0xfd) with a
      frame rate and a height, the picture of its subfields; for any other video
      frame (0xfc) behind one, the picture that was known.  An I-frame without a
      frame rate gives -1. */
  lemma CollectsFields(p: Parms, f: Frame)
    requires Proper(f)
    requires f.kind == 0xfd && Field(f, 0x81, 3) != 0 ==> Field(f, 0x80, 3) != 0
    ensures Collectable(RateOf(p), Octets(f))
    ensures var (q, ret) := Collect(p, Octets(f));
            && ret == (if f.kind == 0xfd && Field(f, 0x81, 3) == 0 then -1 else 0)
            && (ret == -1 ==> q.frameType == Undefined && q.fps == 0 && q.hasV == p.hasV && q.clock == p.clock)
            && (f.kind == 0xfd && ret == 0 ==>
                  q.frameType == VideoIFrame && q.hasV && q.fps == Field(f, 0x81, 3)
                  && q.width == Field(f, 0x80, 2) * 8 && q.height == Field(f, 0x80, 3) * 8)
            && (f.kind == 0xfc && p.hasV ==>
                  q.frameType == VideoFrame && (q.width, q.height, q.fps) == (p.width, p.height, p.fps))
            && ((f.kind == 0xfd && ret == 0) || (f.kind == 0xfc && p.hasV) ==>
                  && q.epoch == f.epoch && q.stamp == f.stamp
                  && Octets(f)[q.bodyOffs..q.bodyOffs + q.bodyLen] == f.body)
            && (f.kind == 0xf0 ==> q == p.(frameType := AudioFrame))
            && (f.kind !in {0xf0, 0xfc, 0xfd} || (f.kind == 0xfc && !p.hasV) ==> q == p.(frameType := Undefined))
  {
    ReadsBack(f);
  }
}
