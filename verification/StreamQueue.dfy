/** The queue both splitters of mctools.c work on in place (dstf_t), their
    per-call code, and the drain loops around them. */
module StreamQueue {
  import opened Bytes
  import opened StreamParsing
  import D = DhavFraming
  import S = DhavStream
  import V = DhavDrain
  import R = RawFraming

  class Dstf {
    /** What lies in memory right in front of the queue array. */
    const under: seq<byte>
    const sq: array<byte>
    var offs: nat
    var len: nat

    ghost predicate Valid()
      reads this
    {
      |under| == D.BACK && D.MIN_DATA <= sq.Length < TWO_63 && offs + len <= sq.Length
    }

    /** Memory up to the end of the array, starting with `under`. */
    function Memory(): (m: seq<byte>)
      reads this, sq
      ensures |m| == |under| + sq.Length
    {
      under + sq[..]
    }

    /** The queued octets. */
    function Contents(): (q: seq<byte>)
      reads this, sq
      requires Valid()
      ensures |q| == len
    {
      sq[offs..offs + len]
    }

    /** The octets right in front of the queued ones. */
    function Back(): (b: seq<byte>)
      reads this, sq
      requires Valid()
      ensures |b| == D.BACK
    {
      Memory()[offs..offs + D.BACK]
    }

    /** The queue as the drain sees it, and with `c` loaded. */
    function Window(): (w: V.Queue)
      reads this, sq
      requires Valid()
      ensures |w.back| == D.BACK && |w.rest| == len && w.offs + |w.rest| <= sq.Length
    {
      V.Queue(offs, Back(), Contents())
    }

    function Loaded(c: seq<byte>): (w: V.Queue)
      reads this, sq
      requires Valid()
      ensures |w.back| == D.BACK && |w.rest| == len + |c|
    {
      V.Loaded(under, sq.Length, Window(), c)
    }

    /** dstf_init, with the array size a parameter. */
    constructor (under: seq<byte>, maxlen: nat)
      requires |under| == D.BACK && D.MIN_DATA <= maxlen < TWO_63
      ensures Valid() && fresh(sq) && sq.Length == maxlen && this.under == under
      ensures Contents() == [] && offs == 0
    {
      this.under := under;
      sq := new byte[maxlen];
      offs, len := 0, 0;
    }

    /** memcpy_overlap: a forward copy, correct although the ranges overlap. */
    method CopyDown(dst: nat, src: nat, n: nat)
      requires dst <= src && src + n <= sq.Length
      modifies sq
      ensures sq[dst..dst + n] == old(sq[src..src + n])
      ensures forall k :: 0 <= k < sq.Length && !(dst <= k < dst + n) ==> sq[k] == old(sq[k])
    {
      var i := 0;
      while i < n
        invariant i <= n
        invariant forall k :: dst <= k < dst + i ==> sq[k] == old(sq[k - dst + src])
        invariant forall k :: 0 <= k < sq.Length && !(dst <= k < dst + i) ==> sq[k] == old(sq[k])
      {
        sq[dst + i] := sq[src + i];
        i := i + 1;
      }
    }

    /** Packing: the queued octets move to the front of the array. */
    method Pack()
      requires Valid()
      modifies this`offs, sq
      ensures Valid() && offs == 0 && Contents() == old(Contents()) && Back() == under
    {
      CopyDown(0, offs, len);
      offs := 0;
    }

    /** Appending behind the queued octets. */
    method Append(src: array<byte>, srcLen: nat)
      requires Valid() && src != sq && srcLen <= src.Length && offs + len + srcLen <= sq.Length
      modifies this`len, sq
      ensures Valid() && len == old(len) + srcLen
      ensures Contents() == old(Contents()) + src[..srcLen]
      ensures Back() == old(Back())
    {
      var at := offs + len;
      ghost var was := sq[..];
      forall i | 0 <= i < srcLen {
        sq[at + i] := src[i];
      }
      len := len + srcLen;
      assert sq[at..at + srcLen] == src[..srcLen];
      Extended(was, sq[..], offs, at, srcLen);
      FrontOnly(was[..at]);
    }

    lemma Extended(was: seq<byte>, now: seq<byte>, i: nat, at: nat, n: nat)
      requires i <= at && at + n <= |now| == |was|
      requires forall k :: 0 <= k < at ==> now[k] == was[k]
      ensures now[..at] == was[..at]
      ensures now[i..at + n] == was[i..at] + now[at..at + n]
    {
      assert now[i..at] == was[i..at];
    }

    /** `Back` depends on what precedes the queue only. */
    twostate lemma FrontOnly(front: seq<byte>)
      requires old(Valid()) && Valid() && offs == old(offs) <= |front| <= sq.Length
      requires sq[..|front|] == front == old(sq[..])[..|front|]
      ensures Back() == old(Back())
    {
      FrontDecides(under, sq[..], front, offs);
      FrontDecides(under, old(sq[..]), front, offs);
    }

    /** The loading half of both process functions. */
    method Load(src: array<byte>, srcLen: nat) returns (fits: bool)
      requires Valid() && src != sq && srcLen <= src.Length
      modifies this, sq
      ensures Valid() && fits == (srcLen <= sq.Length - old(len))
      ensures Window() == if fits then old(Loaded(src[..srcLen])) else old(Window())
    {
      var qFree := sq.Length - (len + offs);
      var qTotFree := sq.Length - len;
      fits := srcLen <= qTotFree;
      if srcLen > 0 {
        if srcLen > qTotFree {
          return;
        }
        if srcLen > qFree {
          Pack();
        }
        Append(src, srcLen);
      } else {
        assert Contents() == old(Contents()) + src[..srcLen];
      }
    }

    /** Dropping or emitting from the front moves the window. */
    twostate lemma Advanced(n: nat)
      requires old(Valid()) && n <= old(len)
      requires offs == old(offs) + n && len == old(len) - n && sq[..] == old(sq[..])
      ensures Valid()
      ensures Contents() == old(Contents())[n..]
      ensures Back() == (old(Back()) + old(Contents()))[n..n + D.BACK]
    {
      QueueInMemory(under, sq[..], old(offs), old(len));
      SubSlice(Memory(), old(offs), old(offs) + D.BACK + old(len), n, n + D.BACK);
      SubSlice(sq[..], old(offs), old(offs) + old(len), n, old(len));
      assert old(Contents())[n..] == old(Contents())[n..old(len)];
    }

    /** Does the mark `id` stand at `at`?  `at` may be in front of the array. */
    predicate MarkAt(id: seq<byte>, at: int)
      reads this, sq
      requires |under| == D.BACK && -D.BACK <= at && at + 4 <= sq.Length
    {
      MarkIn(Memory(), id, at)
    }

    function LengthAt(at: int): nat
      reads this, sq
      requires |under| == D.BACK && -D.BACK <= at && at + 4 <= sq.Length
    {
      LengthIn(Memory(), at)
    }

    /** One pass of the checks, on the array: garbage, incomplete or whole. */
    method CheckMemory() returns (garbage: bool, whole: bool, repLen: nat)
      requires Valid() && len >= D.MIN_DATA
      ensures var v := JudgeMemory(Memory(), offs, len, sq.Length);
              && (garbage <==> v == D.Garbage) && (whole <==> v.Whole?)
              && (whole ==> v == D.Whole(repLen))
    {
      garbage, whole, repLen := false, false, 0;
      if MarkAt(DHAV_MARK, offs) {
        repLen := LengthAt(offs + 12);
        if repLen > sq.Length {
          garbage := true;
        } else if repLen > len {
        } else {
          var dhavOffset := offs + repLen - 8;
          if !MarkAt(TRAILER_MARK, dhavOffset) {
            garbage := true;
          } else if LengthAt(dhavOffset + 4) != repLen {
            garbage := true;
          } else {
            whole := true;
          }
        }
      } else {
        garbage := true;
      }
    }

    /** The same, as the queue and the octets in front of it determine it. */
    method Check() returns (garbage: bool, whole: bool, repLen: nat)
      requires Valid() && len >= D.MIN_DATA
      ensures var v := D.Judge(Back(), Contents(), sq.Length);
              && (garbage <==> v == D.Garbage) && (whole <==> v.Whole?)
              && (whole ==> v == D.Whole(repLen))
    {
      garbage, whole, repLen := CheckMemory();
      QueueInMemory(under, sq[..], offs, len);
      SameJudgement(Memory(), offs, len, sq.Length, Back(), Contents());
    }

    /** Dropping one octet that the checks found to be garbage. */
    method DropOne(ghost maxDst: nat)
      requires Valid() && len >= D.MIN_DATA
      requires D.Judge(Back(), Contents(), sq.Length) == D.Garbage
      modifies this`offs, this`len
      ensures Valid() && len == old(len) - 1 && offs == old(offs) + 1
      ensures D.Resume(Back(), Contents(), sq.Length, maxDst) ==
              old(D.Step(Back(), Contents(), sq.Length, maxDst))
    {
      offs, len := offs + 1, len - 1;
      Advanced(1);
    }

    /** No mark at the head is garbage. */
    lemma UnmarkedIsGarbage()
      requires Valid() && len >= D.MIN_DATA && !MarkAt(DHAV_MARK, offs)
      ensures D.Judge(Back(), Contents(), sq.Length) == D.Garbage
    {
      assert Memory()[D.BACK + offs..D.BACK + offs + 4] == Contents()[..4];
    }

    /** Skip one octet, then all up to the next mark; same as dropping garbage
        one octet at a time. */
    method SkipGarbage(ghost maxDst: nat)
      requires Valid() && len >= D.MIN_DATA
      requires D.Judge(Back(), Contents(), sq.Length) == D.Garbage
      modifies this`offs, this`len
      ensures Valid() && len < old(len) && offs + len == old(offs + len)
      ensures D.Resume(Back(), Contents(), sq.Length, maxDst) ==
              old(D.Step(Back(), Contents(), sq.Length, maxDst))
    {
      DropOne(maxDst);
      while len >= D.MIN_DATA && !MarkAt(DHAV_MARK, offs)
        invariant Valid() && len < old(len) && offs + len == old(offs + len)
        invariant D.Resume(Back(), Contents(), sq.Length, maxDst) ==
                  old(D.Step(Back(), Contents(), sq.Length, maxDst))
      {
        UnmarkedIsGarbage();
        DropOne(maxDst);
      }
    }

    /** Moving `n` octets from the head of the queue to the output buffer. */
    method Emit(dst: array<byte>, n: nat)
      requires Valid() && dst != sq && n <= len && n <= dst.Length
      modifies this`offs, this`len, dst
      ensures Valid() && dst[..n] == old(Contents())[..n]
      ensures Contents() == old(Contents())[n..] && offs + len == old(offs + len)
      ensures Back() == old(Back() + Contents())[n..n + D.BACK]
    {
      var framep := offs;
      len, offs := len - n, offs + n;
      forall i | 0 <= i < n {
        dst[i] := sq[framep + i];
      }
      Advanced(n);
    }

    /** The processing half of dstf_process_dhav_stream_to_frames. */
    method NextDhavFrame(dst: array<byte>, maxDst: nat) returns (ret: int, dstLen: nat)
      requires Valid() && dst != sq && maxDst <= dst.Length
      modifies this`offs, this`len, dst
      ensures Valid() && dstLen <= maxDst
      ensures D.Outcome(ret, dst[..dstLen], Back(), Contents()) ==
              old(D.Step(Back(), Contents(), sq.Length, maxDst))
      ensures offs + len == old(offs + len)
    {
      hide D.Step, D.Judge, D.Resume;
      dstLen := 0;
      var repLen := 0;
      D.StepCases(Back(), Contents(), sq.Length, maxDst);
      if len < D.MIN_DATA {
        ret := 0;
        return;
      }
      while true
        invariant Valid() && len >= D.MIN_DATA && offs + len == old(offs + len)
        invariant D.Step(Back(), Contents(), sq.Length, maxDst) ==
                  old(D.Step(Back(), Contents(), sq.Length, maxDst))
        decreases len
      {
        var garbage, whole, n := Check();
        D.StepCases(Back(), Contents(), sq.Length, maxDst);
        if whole {
          repLen := n;
          break;
        }
        if !garbage {
          ret := 0;
          return;
        }
        SkipGarbage(maxDst);
        D.ResumeCases(Back(), Contents(), sq.Length, maxDst);
        if len < D.MIN_DATA {
          ret := 3;
          return;
        }
      }
      if maxDst < repLen {
        ret := -3;
        return;
      }
      Emit(dst, repLen);
      dstLen := repLen;
      ret := 1;
    }

    /** dstf_process_dhav_stream_to_frames.  `src` and `dst` may be the same
        buffer. */
    method ProcessDhav(src: array<byte>, srcLen: nat, dst: array<byte>, maxDst: nat)
      returns (ret: int, dstLen: nat)
      requires Valid() && src != sq && dst != sq && srcLen <= src.Length && maxDst <= dst.Length
      modifies this, sq, dst
      ensures Valid() && dstLen <= maxDst
      ensures srcLen > sq.Length - old(len) ==> ret == -1 && dstLen == 0 && Window() == old(Window())
      ensures srcLen <= sq.Length - old(len) ==>
                var l := old(Loaded(src[..srcLen]));
                && D.Outcome(ret, dst[..dstLen], Back(), Contents()) == D.Step(l.back, l.rest, sq.Length, maxDst)
                && offs + len == l.offs + |l.rest|
    {
      var fits := Load(src, srcLen);
      if !fits {
        ret, dstLen := -1, 0;
        return;
      }
      ret, dstLen := NextDhavFrame(dst, maxDst);
    }

    /** search_mpeg_NAL on the `n` octets of the queue from `at` on. */
    method SearchNal(at: nat, n: nat) returns (i: int)
      requires n >= 2 && at + n <= sq.Length
      ensures i == R.FindStart(sq[at..at + n])
    {
      ghost var s := sq[at..at + n];
      i := 0;
      while i < n - 2
        invariant 0 <= i <= n - 2 && R.NoStartBefore(s, i)
      {
        if sq[at + i] == 0 && sq[at + i + 1] == 0 && sq[at + i + 2] == 1 {
          assert R.StartsAt(s, i);
          R.FirstStartUnique(s, i);
          return;
        }
        assert !R.StartsAt(s, i);
        i := i + 1;
      }
      i := -1;
    }

    /** The processing half of dstf_process_raw_h264_stream_to_frames. */
    method NextRawFrame(dst: array<byte>, maxDst: nat) returns (ret: int, dstLen: nat)
      requires Valid() && dst != sq && maxDst <= dst.Length
      modifies this`offs, this`len, dst
      ensures Valid() && dstLen <= maxDst
      ensures R.Outcome(ret, dst[..dstLen], Contents()) == old(R.Step(Contents(), maxDst))
    {
      dstLen := 0;
      ret := 0;
      if len < R.MIN_RAW {
        return;
      }
      var synced := SkipToNal();
      if synced && len >= R.MIN_RAW {
        ret, dstLen := CutAtNextNal(dst, maxDst);
      }
    }

    /** Emitting up to the next start code, if it is there. */
    method CutAtNextNal(dst: array<byte>, maxDst: nat) returns (ret: int, dstLen: nat)
      requires Valid() && dst != sq && maxDst <= dst.Length && len >= R.MIN_RAW
      modifies this`offs, this`len, dst
      ensures Valid() && dstLen <= maxDst
      ensures var s, h := old(Contents()), old(R.HeadOf(Contents()));
              R.Outcome(ret, dst[..dstLen], Contents()) ==
              if h == Wait then R.Outcome(0, [], s)
              else if maxDst < h.len then R.Outcome(-3, [], s)
              else R.Outcome(1, s[..h.len], s[h.len..])
    {
      hide R.HeadOf, R.FindStart, R.StartsAt, R.NoStartBefore;
      dstLen := 0;
      ret := 0;
      SubSlice(sq[..], offs, offs + len, R.PREFIX, len);
      R.HeadFound(Contents());
      var nextNal := SearchNal(offs + R.PREFIX, len - R.PREFIX);
      if nextNal < 0 {
        return;
      }
      var frameLen := nextNal + R.PREFIX;
      if maxDst < frameLen {
        ret := -3;
        return;
      }
      Emit(dst, frameLen);
      dstLen := frameLen;
      ret := 1;
    }

    /** Dropping what precedes the first start code, or all if there is none. */
    method SkipToNal() returns (synced: bool)
      requires Valid() && len >= R.MIN_RAW
      modifies this`offs, this`len
      ensures Valid()
      ensures var at := R.FindStart(old(Contents()));
              synced == (at >= 0) && Contents() == if at < 0 then [] else old(Contents())[at..]
    {
      var nextNal := SearchNal(offs, len);
      synced := nextNal >= 0;
      if nextNal < 0 {
        offs, len := offs + len, 0;
      } else if nextNal != 0 {
        offs, len := offs + nextNal, len - nextNal;
      }
    }

    /** dstf_process_raw_h264_stream_to_frames. */
    method ProcessRaw(src: array<byte>, srcLen: nat, dst: array<byte>, maxDst: nat)
      returns (ret: int, dstLen: nat)
      requires Valid() && src != sq && dst != sq && srcLen <= src.Length && maxDst <= dst.Length
      modifies this, sq, dst
      ensures Valid() && dstLen <= maxDst
      ensures srcLen > sq.Length - old(len) ==> ret == -1 && dstLen == 0 && Contents() == old(Contents())
      ensures srcLen <= sq.Length - old(len) ==>
                R.Outcome(ret, dst[..dstLen], Contents()) ==
                old(R.Step(Contents() + src[..srcLen], maxDst))
    {
      var fits := Load(src, srcLen);
      if !fits {
        ret, dstLen := -1, 0;
        return;
      }
      ret, dstLen := NextRawFrame(dst, maxDst);
    }
  }

  /** The queue in memory that starts with `u`. */
  lemma QueueInMemory(u: seq<byte>, s: seq<byte>, offs: nat, len: nat)
    requires |u| == D.BACK && offs + len <= |s|
    ensures (u + s)[D.BACK + offs..D.BACK + offs + len] == s[offs..offs + len]
    ensures (u + s)[offs..offs + D.BACK] + s[offs..offs + len] == (u + s)[offs..offs + D.BACK + len]
  {
  }

  /** Mark and length field at `at`, counted from the start of the array. */
  predicate MarkIn(m: seq<byte>, id: seq<byte>, at: int)
    requires -D.BACK <= at && D.BACK + at + 4 <= |m|
  {
    m[D.BACK + at..D.BACK + at + 4] == id
  }

  function LengthIn(m: seq<byte>, at: int): nat
    requires -D.BACK <= at && D.BACK + at + 4 <= |m|
  {
    Len32(m[D.BACK + at..D.BACK + at + 4])
  }

  /** The checks, in terms of memory. */
  function JudgeMemory(m: seq<byte>, offs: nat, len: nat, maxlen: nat): D.Verdict
    requires offs + D.BACK + len <= |m| && len >= D.MIN_DATA
  {
    if !MarkIn(m, DHAV_MARK, offs) then D.Garbage
    else
      var n := LengthIn(m, offs + 12);
      if n > maxlen then D.Garbage
      else if n > len then D.Incomplete
      else if MarkIn(m, TRAILER_MARK, offs + n - 8) && LengthIn(m, offs + n - 8 + 4) == n then D.Whole(n)
      else D.Garbage
  }

  lemma SameJudgement(m: seq<byte>, offs: nat, len: nat, maxlen: nat, back: seq<byte>, q: seq<byte>)
    requires offs + D.BACK + len <= |m| && len >= D.MIN_DATA
    requires back == m[offs..offs + D.BACK] && q == m[D.BACK + offs..D.BACK + offs + len]
    ensures JudgeMemory(m, offs, len, maxlen) == D.Judge(back, q, maxlen)
  {
    HeadSlices(m, offs, len);
    var n := LengthIn(m, offs + 12);
    if n <= len {
      TrailerSlices(m, offs, len, n);
    }
  }

  lemma HeadSlices(m: seq<byte>, offs: nat, len: nat)
    requires offs + D.BACK + len <= |m| && len >= D.MIN_DATA
    ensures var q := m[D.BACK + offs..D.BACK + offs + len];
            m[D.BACK + offs..D.BACK + offs + 4] == q[..4] &&
            m[D.BACK + (offs + 12)..D.BACK + (offs + 12) + 4] == q[12..16]
  {
    SubSlice(m, D.BACK + offs, D.BACK + offs + len, 0, 4);
    SubSlice(m, D.BACK + offs, D.BACK + offs + len, 12, 16);
  }

  lemma TrailerSlices(m: seq<byte>, offs: nat, len: nat, n: nat)
    requires offs + D.BACK + len <= |m| && n <= len
    ensures var t := (m[offs..D.BACK + offs] + m[D.BACK + offs..D.BACK + offs + len])[n..n + 8];
            var at := offs + n - 8;
            t[..4] == m[D.BACK + at..D.BACK + at + 4] && t[4..] == m[D.BACK + (at + 4)..D.BACK + (at + 4) + 4]
  {
    var w := m[offs..D.BACK + offs + len];
    assert m[offs..D.BACK + offs] + m[D.BACK + offs..D.BACK + offs + len] == w;
    SubSlice(m, offs, D.BACK + offs + len, n, n + 8);
    SubSlice(w, n, n + 8, 0, 4);
    SubSlice(w, n, n + 8, 4, 8);
    SubSlice(m, offs, D.BACK + offs + len, n, n + 4);
    SubSlice(m, offs, D.BACK + offs + len, n + 4, n + 8);
  }

  lemma FrontDecides(u: seq<byte>, m: seq<byte>, front: seq<byte>, i: nat)
    requires |u| == D.BACK && i <= |front| <= |m| && m[..|front|] == front
    ensures (u + m)[i..i + D.BACK] == (u + front)[i..i + D.BACK]
  {
    assert (u + m)[..D.BACK + |front|] == u + front;
  }

  // ------------------------------------------------------- drain loops

  /** One call of the deframer, seen from the drain.  The only queues excluded are
      those the drain would never finish. */
  method CallDhav(q: Dstf, buf: array<byte>, n: nat) returns (ret: int, bufLen: nat)
    requires q.Valid() && buf != q.sq && n <= buf.Length && q.sq.Length <= buf.Length
    requires q.len + n <= q.sq.Length ==>
               !V.MeetsStuck(q.Loaded(buf[..n]).back, q.Loaded(buf[..n]).rest, q.sq.Length)
    modifies q, q.sq, buf
    ensures q.Valid() && bufLen <= buf.Length
    ensures old(q.len) + n > q.sq.Length ==> ret == -1 && bufLen == 0 && q.Window() == old(q.Window())
    ensures old(q.len) + n <= q.sq.Length ==>
              var r, l := S.DhavRule(q.sq.Length), old(q.Loaded(buf[..n]));
              && ret in {0, 1, 3} && (bufLen > 0 ==> ret == 1)
              && Parse(r, l.rest) == Prepend(if bufLen > 0 then [buf[..bufLen]] else [], Parse(r, q.Contents()))
              && (ret > 0 ==> q.len < |l.rest|)
              && (ret == 0 ==> Taken(r, q.Contents()) == 0)
              && V.MovedTo(l, q.Window()) && !V.MeetsStuck(q.Back(), q.Contents(), q.sq.Length)
  {
    hide V.MeetsStuck, V.Behind, V.Loaded, Parse, D.Step, Taken, Prepend, S.DhavRule;
    ghost var l := q.Loaded(buf[..n]);
    if q.len + n <= q.sq.Length {
      CallFollowsParse(l.back, l.rest, q.sq.Length, buf.Length);
    }
    ret, bufLen := q.ProcessDhav(buf, n, buf, buf.Length);
  }

  lemma CallFollowsParse(back: seq<byte>, q: seq<byte>, maxlen: nat, maxDst: nat)
    requires |back| == D.BACK && maxlen <= maxDst && !V.MeetsStuck(back, q, maxlen)
    ensures var r, o := S.DhavRule(maxlen), D.Step(back, q, maxlen, maxDst);
            var d := |q| - |o.rest|;
            && o.ret in {0, 1, 3} && (o.frame != [] ==> o.ret == 1) && (o.ret > 0 ==> |o.rest| < |q|)
            && Parse(r, q) == Prepend(if o.frame == [] then [] else [o.frame], Parse(r, o.rest))
            && (o.ret == 0 ==> Taken(r, o.rest) == 0)
            && o.rest == q[d..] && o.back == V.Behind(back, q, d) && !V.MeetsStuck(o.back, o.rest, maxlen)
  {
    hide V.MeetsStuck, V.Behind, Parse, D.Step;
    V.StepFollowsParse(back, q, maxlen, maxDst);
    V.StepMovesWindow(back, q, maxlen, maxDst);
    V.StepKeepsStuck(back, q, maxlen, maxDst);
    V.StepProgress(back, q, maxlen, maxDst);
  }

  /** The drain loop for one read: `n` octets in `buf` are loaded by the first
      call, later calls load nothing; every frame is written out. */
  method DrainDhav(q: Dstf, buf: array<byte>, n: nat) returns (ret: int, written: seq<seq<byte>>)
    requires q.Valid() && buf != q.sq && n <= buf.Length && q.sq.Length <= buf.Length
    requires q.len + n <= q.sq.Length ==>
               !V.MeetsStuck(q.Loaded(buf[..n]).back, q.Loaded(buf[..n]).rest, q.sq.Length)
    modifies q, q.sq, buf
    ensures q.Valid()
    ensures old(q.len) + n > q.sq.Length ==> ret == -1 && written == [] && q.Window() == old(q.Window())
    ensures old(q.len) + n <= q.sq.Length ==>
              && ret == 0
              && Parsed(written, q.Contents()) == old(Parse(S.DhavRule(q.sq.Length), q.Contents() + buf[..n]))
              && q.Window() == V.Drained(q.sq.Length, old(q.Loaded(buf[..n])))
  {
    ghost var r, l := S.DhavRule(q.sq.Length), q.Loaded(buf[..n]);
    hide V.MeetsStuck, Parse;
    ghost var p := Parse(r, l.rest);
    written := [];
    var bufLen: nat;
    ret, bufLen := CallDhav(q, buf, n);
    if ret < 0 {
      return;
    }
    var frames := if bufLen > 0 then [buf[..bufLen]] else [];
    PrependTwice([], [], p);
    Drainage(r, p, [], frames, q.Contents());
    while ret > 0
      invariant q.Valid() && bufLen <= buf.Length && ret >= 0 && (bufLen > 0 ==> ret > 0)
      invariant frames == if bufLen > 0 then [buf[..bufLen]] else []
      invariant Prepend(written + frames, Parse(r, q.Contents())) == p
      invariant V.MovedTo(l, q.Window()) && !V.MeetsStuck(q.Back(), q.Contents(), q.sq.Length)
      invariant ret == 0 ==> Parsed(written, q.Contents()) == p
      decreases q.len, ret
    {
      written := written + frames;
      ghost var w := q.Window();
      V.LoadedNothing(q.under, q.sq.Length, w);
      assert buf[..0] == [];
      ret, bufLen := CallDhav(q, buf, 0);
      frames := if bufLen > 0 then [buf[..bufLen]] else [];
      Drainage(r, p, written, frames, q.Contents());
      V.MovedTwice(l, w, q.Window());
    }
    V.MovedIsDrained(q.sq.Length, l, q.Window(), p);
  }

  lemma Drainage(r: Rule, p: Parsed, written: seq<seq<byte>>, frames: seq<seq<byte>>, rest: seq<byte>)
    requires Prepend(written, Prepend(frames, Parse(r, rest))) == p
    ensures Prepend(written + frames, Parse(r, rest)) == p
    ensures frames == [] && Taken(r, rest) == 0 ==> Parsed(written, rest) == p
  {
    PrependTwice(written, frames, Parse(r, rest));
    assert written + [] == written;
  }

  /** The read loop of stream_media_dvr_to_file for native output: each chunk is
      read into the buffer and drained, after what the identification loop has
      queued already; the first chunk without room ends it.  The frames written
      are those of one pass over the stream so far. */
  method CopyDhavStream(q: Dstf, chunks: seq<seq<byte>>, buf: array<byte>) returns (ok: bool, written: seq<seq<byte>>)
    requires q.Valid() && buf != q.sq && q.sq.Length <= buf.Length
    requires forall i :: 0 <= i < |chunks| ==> |chunks[i]| <= buf.Length
    requires !V.RunsStuck(q.under, q.sq.Length, q.Window(), chunks)
    modifies q, q.sq, buf
    ensures q.Valid()
    ensures var k := S.Fitting(old(q.Contents()), chunks, q.sq.Length);
            && (ok <==> k == |chunks|)
            && if k == 0 then written == [] && q.Window() == old(q.Window())
               else Parsed(written, q.Contents()) ==
                    Parse(S.DhavRule(q.sq.Length), old(q.Contents()) + Concat(chunks[..k]))
  {
    hide S.Fitting, V.RunsStuck, V.MeetsStuck, Parse, V.Loaded, V.Drained;
    ghost var maxlen, start, r := q.sq.Length, q.Contents(), S.DhavRule(q.sq.Length);
    ok, written := true, [];
    var i := 0;
    StartOfStream(r, start, chunks);
    while i < |chunks|
      invariant 0 <= i <= |chunks| && q.Valid() && ok
      invariant i + S.Fitting(q.Contents(), chunks[i..], maxlen) == S.Fitting(start, chunks, maxlen)
      invariant Parse(r, start + Concat(chunks[..i])) == Prepend(written, Parse(r, q.Contents()))
      invariant if i > 0 then Parse(r, start + Concat(chunks[..i])) == Parsed(written, q.Contents())
                else written == [] && q.Window() == old(q.Window())
      invariant !V.RunsStuck(q.under, maxlen, q.Window(), chunks[i..])
    {
      NextChunk(start, q.under, q.Window(), chunks, i, maxlen);
      ok, written := CopyChunk(q, chunks[i], buf, written, start + Concat(chunks[..i]));
      if !ok {
        return;
      }
      i := i + 1;
    }
    NoMoreChunks(q.Contents(), chunks, maxlen);
  }

  lemma NoMoreChunks(rest: seq<byte>, chunks: seq<seq<byte>>, maxlen: nat)
    ensures S.Fitting(rest, chunks[|chunks|..], maxlen) == 0
  {
  }

  /** One chunk, after `sent`. */
  method CopyChunk(q: Dstf, chunk: seq<byte>, buf: array<byte>, written: seq<seq<byte>>, ghost sent: seq<byte>)
    returns (ok: bool, out: seq<seq<byte>>)
    requires q.Valid() && buf != q.sq && q.sq.Length <= buf.Length && |chunk| <= buf.Length
    requires q.len + |chunk| <= q.sq.Length ==>
               !V.MeetsStuck(q.Loaded(chunk).back, q.Loaded(chunk).rest, q.sq.Length)
    requires var r := S.DhavRule(q.sq.Length); Parse(r, sent) == Prepend(written, Parse(r, q.Contents()))
    modifies q, q.sq, buf
    ensures q.Valid() && (ok <==> old(q.len) + |chunk| <= q.sq.Length)
    ensures !ok ==> out == written && q.Window() == old(q.Window())
    ensures ok ==>
              var r := S.DhavRule(q.sq.Length);
              && q.Window() == V.Drained(q.sq.Length, old(q.Loaded(chunk)))
              && Parse(r, sent + chunk) == Prepend(out, Parse(r, q.Contents())) == Parsed(out, q.Contents())
  {
    ghost var r := S.DhavRule(q.sq.Length);
    S.DhavRuleStable(q.sq.Length);
    ParseContinues(r, written, sent, q.Contents(), chunk);
    DrainedParse(r, written, q.Contents() + chunk);
    var n := ReadChunk(chunk, buf);
    var ret, frames := DrainDhav(q, buf, n);
    ok, out := ret >= 0, if ret >= 0 then written + frames else written;
  }

  lemma StartOfStream(r: Rule, start: seq<byte>, chunks: seq<seq<byte>>)
    ensures chunks[0..] == chunks && start + Concat(chunks[..0]) == start
    ensures Parse(r, start) == Prepend([], Parse(r, start))
  {
    PrependTwice([], [], Parse(r, start));
  }

  /** Taking one more chunk, seen from the whole run. */
  lemma NextChunk(start: seq<byte>, under: seq<byte>, w: V.Queue, chunks: seq<seq<byte>>, i: nat, maxlen: nat)
    requires i < |chunks| && |under| == |w.back| == D.BACK && !V.RunsStuck(under, maxlen, w, chunks[i..])
    ensures start + Concat(chunks[..i + 1]) == start + Concat(chunks[..i]) + chunks[i]
    ensures var l, fits := V.Loaded(under, maxlen, w, chunks[i]), |w.rest| + |chunks[i]| <= maxlen;
            && (fits ==> !V.MeetsStuck(l.back, l.rest, maxlen)
                         && !V.RunsStuck(under, maxlen, V.Drained(maxlen, l), chunks[i + 1..]))
            && S.Fitting(w.rest, chunks[i..], maxlen) ==
               if fits then 1 + S.Fitting(V.Drained(maxlen, l).rest, chunks[i + 1..], maxlen) else 0
  {
    ConcatUpTo(chunks, i);
    Assoc(start, Concat(chunks[..i]), chunks[i]);
    assert chunks[i..][1..] == chunks[i + 1..];
  }

  /** read(): the chunk lands at the start of the buffer. */
  method ReadChunk(chunk: seq<byte>, buf: array<byte>) returns (n: nat)
    requires |chunk| <= buf.Length
    modifies buf
    ensures n == |chunk| && buf[..n] == chunk
  {
    n := |chunk|;
    forall i | 0 <= i < n {
      buf[i] := chunk[i];
    }
  }

  /** One call of the raw splitter, seen from the drain. */
  method CallRaw(q: Dstf, buf: array<byte>, n: nat) returns (ret: int, bufLen: nat)
    requires q.Valid() && buf != q.sq && n <= buf.Length && q.sq.Length <= buf.Length
    modifies q, q.sq, buf
    ensures q.Valid() && bufLen <= buf.Length
    ensures old(q.len) + n > q.sq.Length ==> ret == -1 && q.Contents() == old(q.Contents())
    ensures old(q.len) + n <= q.sq.Length ==>
              var all := old(R.Drain(q.Contents() + buf[..n]));
              && ret in {0, 1} && q.len <= old(q.len) + n
              && (ret == 1 ==> all == Prepend([buf[..bufLen]], R.Drain(q.Contents())) && q.len < old(q.len) + n)
              && (ret == 0 ==> all == Parsed([], q.Contents()))
  {
    if q.len + n <= q.sq.Length {
      R.StepsMakeDrain(q.Contents() + buf[..n], buf.Length);
    }
    ret, bufLen := q.ProcessRaw(buf, n, buf, buf.Length);
  }

  /** The same loop for raw H.264. */
  method DrainRaw(q: Dstf, buf: array<byte>, n: nat) returns (ret: int, written: seq<seq<byte>>)
    requires q.Valid() && buf != q.sq && n <= buf.Length && q.sq.Length <= buf.Length
    modifies q, q.sq, buf
    ensures q.Valid()
    ensures old(q.len) + n > q.sq.Length ==> ret == -1 && written == [] && q.Contents() == old(q.Contents())
    ensures old(q.len) + n <= q.sq.Length ==>
              ret == 0 && Parsed(written, q.Contents()) == old(R.Drain(q.Contents() + buf[..n]))
  {
    hide R.Drain;
    ghost var result := R.Drain(q.Contents() + buf[..n]);
    written := [];
    var bufLen: nat;
    ret, bufLen := CallRaw(q, buf, n);
    if ret < 0 {
      return;
    }
    assert [] + [buf[..bufLen]] == [buf[..bufLen]];
    while ret > 0
      invariant q.Valid() && bufLen <= buf.Length && 0 <= ret <= 1
      invariant result == if ret == 1 then Prepend(written + [buf[..bufLen]], R.Drain(q.Contents()))
                          else Parsed(written, q.Contents())
      decreases q.len, ret
    {
      written := written + [buf[..bufLen]];
      assert q.Contents() + buf[..0] == q.Contents();
      assert written + [] == written;
      ret, bufLen := CallRaw(q, buf, 0);
      PrependTwice(written, [buf[..bufLen]], R.Drain(q.Contents()));
    }
  }
}
