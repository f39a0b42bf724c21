/** Whole-stream properties of the DHAV deframer: a full drain does not depend on
    how the stream was cut, resynchronising never loses a frame, deframing
    inverts framing, and the queue has room. */
module DhavStream {
  import opened Bytes
  import opened DhavFraming
  import opened StreamParsing

  /** The deframer's decision about the head of a queue. */
  function HeadOf(q: seq<byte>, maxlen: nat): Head
  {
    if |q| < MIN_DATA then Wait
    else match Judge(NEUTRAL, q, maxlen)
         case Incomplete => Wait
         case Garbage => Drop
         case Whole(n) => if n == 0 then Wait else Emit(n)
  }

  function DhavRule(maxlen: nat): Rule
  {
    q => HeadOf(q, maxlen)
  }

  /** The parse meets a zero header where it expects a frame to start. */
  predicate MeetsZeroHeader(q: seq<byte>, maxlen: nat)
  {
    Reaches(DhavRule(maxlen), ZeroHeader, q)
  }

  lemma VerdictStable(q: seq<byte>, m: seq<byte>, maxlen: nat)
    requires |q| >= MIN_DATA
    ensures ZeroHeader(q + m) == ZeroHeader(q)
    ensures !Judge(NEUTRAL, q, maxlen).Incomplete? ==> Judge(NEUTRAL, q + m, maxlen) == Judge(NEUTRAL, q, maxlen)
  {
    assert (q + m)[..4] == q[..4];
    assert (q + m)[12..16] == q[12..16];
    var n := Len32(q[12..16]);
    if n <= |q| {
      assert (NEUTRAL + (q + m))[n..n + 8] == (NEUTRAL + q)[n..n + 8];
    }
  }

  lemma DhavRuleStable(maxlen: nat)
    ensures Stable(DhavRule(maxlen))
  {
    var r := DhavRule(maxlen);
    forall q: seq<byte>, m: seq<byte> ensures StableAt(r, q, m) {
      if |q| >= MIN_DATA {
        VerdictStable(q, m, maxlen);
      }
    }
  }

  /** Cutting a DHAV stream differently changes neither the frames nor what is
      left queued: both are those of one pass over the whole stream. */
  lemma DhavChunkingIrrelevant(a: seq<seq<byte>>, b: seq<seq<byte>>, maxlen: nat)
    requires Concat(a) == Concat(b)
    ensures var r := DhavRule(maxlen);
            Feed(r, [], a) == Feed(r, [], b) == Parse(r, Concat(a))
  {
    DhavRuleStable(maxlen);
    ChunkingIrrelevant(DhavRule(maxlen), [], a, b);
    assert [] + Concat(a) == Concat(a);
  }

  /** What a caller can check: no zero header anywhere in the stream. */
  ghost predicate NoZeroHeader(q: seq<byte>)
  {
    forall i :: 0 <= i <= |q| ==> !ZeroHeader(q[i..])
  }

  lemma {:induction false} NoZeroHeaderSuffices(q: seq<byte>, maxlen: nat)
    requires NoZeroHeader(q)
    ensures !MeetsZeroHeader(q, maxlen)
    decreases |q|
  {
    assert q[0..] == q;
    var d := Taken(DhavRule(maxlen), q);
    if d > 0 {
      forall i | 0 <= i <= |q[d..]| ensures !ZeroHeader(q[d..][i..]) {
        assert q[d..][i..] == q[d + i..];
      }
      NoZeroHeaderSuffices(q[d..], maxlen);
    }
  }

  // ------------------------------------------------------- resynchronisation

  /** A frame as the device writes it, closed by its own length. */
  predicate WellFormed(f: seq<byte>, maxlen: nat)
  {
    && 12 <= |f| <= maxlen
    && f[..4] == DHAV_MARK
    && f[|f| - 8..|f| - 4] == TRAILER_MARK
    && Len32(f[|f| - 4..]) == |f|
    && if |f| >= MIN_DATA then Len32(f[12..16]) == |f| else |f| == 12
  }

  /** Octets 12 to 15 carry the length of a frame; those of a frame of 12 octets
      come right behind it. */
  predicate LengthThere(f: seq<byte>, more: seq<byte>)
  {
    |f| >= MIN_DATA || (|more| >= 4 && Len32(more[..4]) == 12)
  }

  /** A well-formed frame of n octets, with its length where it is looked for,
      starts at the head of `q`. */
  predicate FrameAtHead(q: seq<byte>, n: nat, maxlen: nat)
  {
    n <= |q| && WellFormed(q[..n], maxlen) && LengthThere(q[..n], q[n..])
  }

  /** Exactly such frames are judged whole. */
  lemma WholeIffLengthThere(f: seq<byte>, more: seq<byte>, maxlen: nat)
    requires WellFormed(f, maxlen) && |f + more| >= MIN_DATA
    ensures Judge(NEUTRAL, f + more, maxlen) == Whole(|f|) <==> LengthThere(f, more)
  {
    var q, n := f + more, |f|;
    assert q[..4] == f[..4];
    TrailerInsideQueue(NEUTRAL, q, n);
    assert q[n - 8..n] == f[n - 8..];
    assert f[n - 8..][..4] == f[n - 8..n - 4];
    assert f[n - 8..][4..] == f[n - 4..];
    if n >= MIN_DATA {
      assert q[12..16] == f[12..16];
    } else {
      assert q[12..16] == more[..4];
    }
  }

  lemma FrameAtHeadIsWhole(s: seq<byte>, n: nat, maxlen: nat)
    requires FrameAtHead(s, n, maxlen)
    ensures Judge(NEUTRAL, s, maxlen) == Whole(n)
  {
    assert s == s[..n] + s[n..];
    WholeIffLengthThere(s[..n], s[n..], maxlen);
  }

  /** Resynchronising never loses a frame that says its length: no position that
      is dropped is, now or with more data to come, the start of a well-formed one
      with its length where it is looked for. */
  lemma ResyncLosesNothing(q: seq<byte>, more: seq<byte>, maxlen: nat, k: nat)
    requires k < |Items(DhavRule(maxlen), q)| && Items(DhavRule(maxlen), q)[k].Dropped?
    ensures var at := |Flatten(Items(DhavRule(maxlen), q)[..k])|;
            at < |q| && forall n: nat :: !FrameAtHead(q[at..] + more, n, maxlen)
  {
    var r := DhavRule(maxlen);
    ItemDecidedAt(r, q, k);
    var p := q[|Flatten(Items(r, q)[..k])|..];
    VerdictStable(p, more, maxlen);
    var s := p + more;
    forall n: nat ensures !FrameAtHead(s, n, maxlen) {
      if FrameAtHead(s, n, maxlen) {
        FrameAtHeadIsWhole(s, n, maxlen);
      }
    }
  }

  /** The shortest well-formed frame: no room for its length behind the mark. */
  const SHORT_FRAME: seq<byte> := [0x44, 0x48, 0x41, 0x56, 0x64, 0x68, 0x61, 0x76, 12, 0, 0, 0]

  /** It is the only one of 12 octets; with other octets behind it, it is dropped. */
  lemma ShortFrameDropped(maxlen: nat)
    requires maxlen >= 12
    ensures forall f: seq<byte> :: |f| == 12 && WellFormed(f, maxlen) <==> f == SHORT_FRAME
    ensures HeadOf(SHORT_FRAME + [0, 0, 0, 0], maxlen) == Drop
    ensures HeadOf(SHORT_FRAME + [12, 0, 0, 0], maxlen) == Emit(12)
  {
    forall f: seq<byte> | |f| == 12 ensures WellFormed(f, maxlen) <==> f == SHORT_FRAME {
      ShortIsOne(f, maxlen);
    }
    ShortIsOne(SHORT_FRAME, maxlen);
    WholeIffLengthThere(SHORT_FRAME, [0, 0, 0, 0], maxlen);
    WholeIffLengthThere(SHORT_FRAME, [12, 0, 0, 0], maxlen);
    var q := SHORT_FRAME + [0, 0, 0, 0];
    assert q[..4] == DHAV_MARK && q[12..16] == [0, 0, 0, 0];
    assert (NEUTRAL + q)[0..8] == NEUTRAL;
    assert NEUTRAL[..4][0] != TRAILER_MARK[0];
  }

  lemma ShortIsOne(f: seq<byte>, maxlen: nat)
    requires |f| == 12 && maxlen >= 12
    ensures WellFormed(f, maxlen) <==> f == SHORT_FRAME
  {
    HeadOctets(f);
    TrailerOctets(f[4..8]);
    var b := f[8..];
    assert b[0] == f[8] && b[1] == f[9] && b[2] == f[10] && b[3] == f[11];
    assert f == SHORT_FRAME <==> forall i :: 0 <= i < 12 ==> f[i] == SHORT_FRAME[i];
    assert f[|f| - 8..|f| - 4] == f[4..8] && f[|f| - 4..] == f[8..];
  }

  /** Every emitted frame is well formed, of length 12 or at least 16. */
  lemma EmittedAreWellFormed(q: seq<byte>, maxlen: nat, k: nat)
    requires k < |Parse(DhavRule(maxlen), q).frames|
    ensures WellFormed(Parse(DhavRule(maxlen), q).frames[k], maxlen)
  {
    var at := EmittedFrom(DhavRule(maxlen), q, k);
    WholeIsWellFormed(q[at..], maxlen);
  }

  lemma WholeIsWellFormed(q: seq<byte>, maxlen: nat)
    requires HeadOf(q, maxlen).Emit?
    ensures var n := HeadOf(q, maxlen).len;
            n <= |q| && WellFormed(q[..n], maxlen)
  {
    AcceptedLengths(NEUTRAL, q, maxlen);
    var n := HeadOf(q, maxlen).len;
    var f := q[..n];
    TrailerInsideQueue(NEUTRAL, q, n);
    var t := q[n - 8..n];
    assert f[n - 8..n - 4] == t[..4];
    assert f[n - 4..] == t[4..];
    assert f[..4] == q[..4];
    if n >= MIN_DATA { assert f[12..16] == q[12..16]; }
  }

  // ------------------------------------------------------- framing inverted

  predicate MarkAt(g: seq<byte>, i: nat) {
    i + 4 <= |g| && g[i..i + 4] == DHAV_MARK
  }

  /** "DHAV" occurs nowhere in `g`. */
  ghost predicate MarkFree(g: seq<byte>) {
    forall i: nat :: !MarkAt(g, i)
  }

  /** Frames with garbage in front of each and behind the last. */
  function Interleave(gs: seq<seq<byte>>, fs: seq<seq<byte>>, tail: seq<byte>): seq<byte>
    requires |gs| == |fs|
  {
    if gs == [] then tail else gs[0] + (fs[0] + Interleave(gs[1..], fs[1..], tail))
  }

  /** The mark cannot straddle from garbage into a frame: its first octet occurs
      nowhere else in it. */
  lemma NoStraddle(g: seq<byte>, f: seq<byte>)
    requires MarkFree(g) && g != [] && |f| >= 4 && f[..4] == DHAV_MARK
    ensures (g + f)[..4] != DHAV_MARK
  {
    var q := g + f;
    if |g| >= 4 {
      assert q[..4] == g[0..4];
      assert !MarkAt(g, 0);
    } else {
      HeadOctets(q);
      HeadOctets(f);
      assert q[|g|] == f[0];
    }
  }

  lemma MarkFreeTail(g: seq<byte>)
    requires MarkFree(g) && g != []
    ensures MarkFree(g[1..])
  {
    forall i: nat ensures !MarkAt(g[1..], i) {
      if i + 4 <= |g[1..]| {
        assert g[1..][i..i + 4] == g[i + 1..i + 5];
      }
      assert !MarkAt(g, i + 1);
    }
  }

  lemma {:induction false} SkipGarbage(g: seq<byte>, f: seq<byte>, maxlen: nat)
    requires MarkFree(g) && |f| >= 4 && f[..4] == DHAV_MARK
    ensures Parse(DhavRule(maxlen), g + f).frames == Parse(DhavRule(maxlen), f).frames
    ensures |f| >= MIN_DATA ==> Parse(DhavRule(maxlen), g + f).rest == Parse(DhavRule(maxlen), f).rest
    ensures |f| >= MIN_DATA ==> MeetsZeroHeader(g + f, maxlen) == MeetsZeroHeader(f, maxlen)
    decreases |g|
  {
    if g == [] {
      assert g + f == f;
    } else if |g + f| >= MIN_DATA {
      var r := DhavRule(maxlen);
      NoStraddle(g, f);
      MarkFreeTail(g);
      assert (g + f)[1..] == g[1..] + f;
      SkipGarbage(g[1..], f, maxlen);
      assert Taken(r, g + f) == 1;
      ParseUnfold(r, g + f);
      PrependTwice([], [], Parse(r, (g + f)[1..]));
    }
  }

  lemma {:induction false} OnlyGarbage(g: seq<byte>, maxlen: nat)
    requires MarkFree(g)
    ensures Parse(DhavRule(maxlen), g) ==
            Parsed([], if |g| < MIN_DATA then g else g[|g| - (MIN_DATA - 1)..])
    ensures !MeetsZeroHeader(g, maxlen)
    decreases |g|
  {
    if |g| >= MIN_DATA {
      assert !MarkAt(g, 0) && g[..4] == g[0..4];
      MarkFreeTail(g);
      OnlyGarbage(g[1..], maxlen);
    }
  }

  /** Every frame of 12 octets has its length repeated behind it. */
  predicate Closed(gs: seq<seq<byte>>, fs: seq<seq<byte>>, tail: seq<byte>)
    requires |gs| == |fs|
  {
    gs == [] ||
    (LengthThere(fs[0], Interleave(gs[1..], fs[1..], tail)) && Closed(gs[1..], fs[1..], tail))
  }

  /** Deframing inverts framing: the frames put in come out, all of them and in
      order, whatever mark-free garbage surrounds them. */
  lemma {:induction false} DeframingInvertsFraming(gs: seq<seq<byte>>, fs: seq<seq<byte>>, tail: seq<byte>, maxlen: nat)
    requires |gs| == |fs| && MarkFree(tail) && Closed(gs, fs, tail)
    requires forall i :: 0 <= i < |gs| ==> MarkFree(gs[i])
    requires forall i :: 0 <= i < |fs| ==> WellFormed(fs[i], maxlen)
    ensures Parse(DhavRule(maxlen), Interleave(gs, fs, tail)) ==
            Parsed(fs, if |tail| < MIN_DATA then tail else tail[|tail| - (MIN_DATA - 1)..])
    ensures !MeetsZeroHeader(Interleave(gs, fs, tail), maxlen)
    decreases |gs|
  {
    if gs == [] {
      OnlyGarbage(tail, maxlen);
    } else {
      var more := Interleave(gs[1..], fs[1..], tail);
      DeframingInvertsFraming(gs[1..], fs[1..], tail, maxlen);
      FrameInFront(fs[0], more, maxlen);
      SkipGarbage(gs[0], fs[0] + more, maxlen);
      assert [fs[0]] + fs[1..] == fs;
    }
  }

  lemma FrameInFront(f: seq<byte>, more: seq<byte>, maxlen: nat)
    requires WellFormed(f, maxlen) && LengthThere(f, more)
    ensures Parse(DhavRule(maxlen), f + more) == Prepend([f], Parse(DhavRule(maxlen), more))
    ensures MeetsZeroHeader(f + more, maxlen) == MeetsZeroHeader(more, maxlen)
    ensures (f + more)[..4] == DHAV_MARK
  {
    WholeIffLengthThere(f, more, maxlen);
    assert (f + more)[..4] == f[..4];
    assert (f + more)[12..16] == if |f| >= MIN_DATA then f[12..16] else more[..4];
    assert (f + more)[|f|..] == more;
    assert (f + more)[..|f|] == f;
  }

  /** And they do so only if every frame of 12 octets has its length repeated. */
  lemma {:induction false} AllComeOutIffClosed(gs: seq<seq<byte>>, fs: seq<seq<byte>>, tail: seq<byte>, maxlen: nat)
    requires |gs| == |fs| && MarkFree(tail)
    requires forall i :: 0 <= i < |gs| ==> MarkFree(gs[i])
    requires forall i :: 0 <= i < |fs| ==> WellFormed(fs[i], maxlen)
    ensures Parse(DhavRule(maxlen), Interleave(gs, fs, tail)).frames == fs <==> Closed(gs, fs, tail)
    decreases |gs|
  {
    if gs == [] {
      OnlyGarbage(tail, maxlen);
    } else {
      var more := Interleave(gs[1..], fs[1..], tail);
      var late := Parse(DhavRule(maxlen), more).frames;
      AllComeOutIffClosed(gs[1..], fs[1..], tail, maxlen);
      FirstFrame(gs[0], fs[0], more, maxlen);
      assert fs == [fs[0]] + fs[1..];
      if LengthThere(fs[0], more) {
        assert ([fs[0]] + late)[1..] == late;
      } else {
        NoneTooMany(gs[1..], fs[1..], tail, maxlen, [SHORT_FRAME]);
      }
    }
  }

  /** What comes out of a frame behind garbage, and of what follows: the frame, if
      its length is there.  Else it is a short one, and nothing comes out, or a
      longer frame does, or what follows is parsed. */
  lemma FirstFrame(g: seq<byte>, f: seq<byte>, more: seq<byte>, maxlen: nat)
    requires MarkFree(g) && WellFormed(f, maxlen)
    ensures var frames := Parse(DhavRule(maxlen), g + (f + more)).frames;
            var late := Parse(DhavRule(maxlen), more).frames;
            if LengthThere(f, more) then frames == [f] + late
            else f == SHORT_FRAME && (frames == [] || |frames[0]| > 12 || frames == late)
  {
    assert (f + more)[..4] == f[..4];
    SkipGarbage(g, f + more, maxlen);
    if LengthThere(f, more) {
      FrameInFront(f, more, maxlen);
    } else {
      ShortIsOne(f, maxlen);
      ShortFrame(more, maxlen);
    }
  }

  lemma UnmarkedIsDropped(q: seq<byte>, maxlen: nat)
    requires |q| >= MIN_DATA && q[0] != DHAV_MARK[0]
    ensures HeadOf(q, maxlen) == Drop
  {
    HeadOctets(q);
  }

  lemma TooShort(q: seq<byte>, maxlen: nat)
    requires |q| < MIN_DATA
    ensures Parse(DhavRule(maxlen), q) == Parsed([], q)
  {
  }

  lemma ShortHead(more: seq<byte>, maxlen: nat)
    requires maxlen >= 12 && !LengthThere(SHORT_FRAME, more)
    ensures match HeadOf(SHORT_FRAME + more, maxlen) case Emit(n) => 12 < n <= |SHORT_FRAME + more| case _ => true
  {
    if |more| >= 4 {
      ShortIsOne(SHORT_FRAME, maxlen);
      WholeIffLengthThere(SHORT_FRAME, more, maxlen);
      AcceptedLengths(NEUTRAL, SHORT_FRAME + more, maxlen);
    }
  }

  lemma ShortFrame(more: seq<byte>, maxlen: nat)
    requires maxlen >= 12 && !LengthThere(SHORT_FRAME, more)
    ensures var frames := Parse(DhavRule(maxlen), SHORT_FRAME + more).frames;
            frames == [] || |frames[0]| > 12 || frames == Parse(DhavRule(maxlen), more).frames
  {
    hide HeadOf;
    var r, q := DhavRule(maxlen), SHORT_FRAME + more;
    ShortHead(more, maxlen);
    if Taken(r, q) > 0 {
      ParseUnfold(r, q);
      if HeadOf(q, maxlen).Drop? {
        assert q[1..] == SHORT_FRAME[1..] + more;
        NoMarkOctet(SHORT_FRAME[1..], more, maxlen);
        PrependTwice([], [], Parse(r, q[1..]));
      }
    }
  }

  lemma MoveAhead(ahead: seq<seq<byte>>, fs: seq<seq<byte>>, late: seq<seq<byte>>)
    requires ahead != [] && fs != []
    ensures late == ahead + fs ==> late == (ahead + [fs[0]]) + fs[1..]
    ensures [fs[0]] + late == ahead + fs ==> late == (ahead[1..] + [fs[0]]) + fs[1..]
  {
    assert ahead + fs == (ahead + [fs[0]]) + fs[1..];
    assert (ahead + fs)[1..] == (ahead[1..] + [fs[0]]) + fs[1..];
    assert ([fs[0]] + late)[1..] == late;
  }

  /** No parse gives more than was put in, short frames being all that is ahead. */
  lemma {:induction false} NoneTooMany(gs: seq<seq<byte>>, fs: seq<seq<byte>>, tail: seq<byte>, maxlen: nat,
                                       ahead: seq<seq<byte>>)
    requires |gs| == |fs| && MarkFree(tail)
    requires forall i :: 0 <= i < |gs| ==> MarkFree(gs[i])
    requires forall i :: 0 <= i < |fs| ==> WellFormed(fs[i], maxlen)
    requires ahead != [] && forall i :: 0 <= i < |ahead| ==> ahead[i] == SHORT_FRAME
    ensures Parse(DhavRule(maxlen), Interleave(gs, fs, tail)).frames != ahead + fs
    decreases |gs|
  {
    hide Parse, MarkFree, LengthThere;
    if gs == [] {
      OnlyGarbage(tail, maxlen);
    } else {
      var f, more := fs[0], Interleave(gs[1..], fs[1..], tail);
      FirstFrame(gs[0], f, more, maxlen);
      assert (ahead + fs)[0] == SHORT_FRAME;
      if |f| == 12 {
        ShortIsOne(f, maxlen);
        MoveAhead(ahead, fs, Parse(DhavRule(maxlen), more).frames);
        NoneTooMany(gs[1..], fs[1..], tail, maxlen, if LengthThere(f, more) then ahead[1..] + [f] else ahead + [f]);
      }
    }
  }

  /** Octets that are not the first of the mark are dropped as long as there are
      enough, and then nothing is left to find. */
  lemma {:induction false} NoMarkOctet(g: seq<byte>, more: seq<byte>, maxlen: nat)
    requires forall i :: 0 <= i < |g| ==> g[i] != DHAV_MARK[0]
    ensures Parse(DhavRule(maxlen), g + more).frames == Parse(DhavRule(maxlen), more).frames
    decreases |g|
  {
    hide Parse, HeadOf;
    var r := DhavRule(maxlen);
    if g == [] {
      assert g + more == more;
    } else if |g + more| < MIN_DATA {
      TooShort(g + more, maxlen);
      TooShort(more, maxlen);
    } else {
      UnmarkedIsDropped(g + more, maxlen);
      assert (g + more)[1..] == g[1..] + more;
      NoMarkOctet(g[1..], more, maxlen);
      ParseUnfold(r, g + more);
      PrependTwice([], [], Parse(r, g[1..] + more));
    }
  }

  // ------------------------------------------------------- capacity

  /** Length the frame at the head of a drained queue is waiting for; 16 while
      not even the length field is there. */
  function Awaited(rest: seq<byte>): nat
  {
    if |rest| < MIN_DATA then MIN_DATA else Len32(rest[12..16])
  }

  /** After a full drain fewer octets are queued than the pending frame has, so
      there is always room for at least one more. */
  lemma DrainedQueueIsShort(q: seq<byte>, maxlen: nat)
    requires maxlen >= MIN_DATA
    ensures var rest := Parse(DhavRule(maxlen), q).rest;
            |rest| < Awaited(rest) <= maxlen
  {
    RestIsDrained(DhavRule(maxlen), q);
    var rest := Parse(DhavRule(maxlen), q).rest;
    if |rest| >= MIN_DATA {
      AcceptedLengths(NEUTRAL, rest, maxlen);
      assert NEUTRAL[0] != ZERO_TRAILER[0];
    }
  }

  /** Chunks of up to maxlen - longest + 1 octets fit behind a drained queue as
      long as no pending frame is longer than `longest`. */
  lemma ChunkFits(q: seq<byte>, chunk: seq<byte>, maxlen: nat, longest: nat)
    requires MIN_DATA <= longest <= maxlen
    requires Awaited(Parse(DhavRule(maxlen), q).rest) <= longest
    requires |chunk| <= maxlen - longest + 1
    ensures |Parse(DhavRule(maxlen), q).rest| + |chunk| <= maxlen
  {
    DrainedQueueIsShort(q, maxlen);
  }

  /** How many chunks find room when they arrive, draining fully in between, until
      the first that does not, for which the deframer returns -1. */
  function Fitting(rest: seq<byte>, chunks: seq<seq<byte>>, maxlen: nat): (k: nat)
    ensures k <= |chunks|
    decreases |chunks|
  {
    if chunks == [] || |rest| + |chunks[0]| > maxlen then 0
    else 1 + Fitting(Parse(DhavRule(maxlen), rest + chunks[0]).rest, chunks[1..], maxlen)
  }

  /** All of them do. */
  predicate RoomForAll(rest: seq<byte>, chunks: seq<seq<byte>>, maxlen: nat)
  {
    Fitting(rest, chunks, maxlen) == |chunks|
  }

  /** What the queue waits for after the first i chunks, `sent` being before. */
  function PendingAfter(sent: seq<byte>, chunks: seq<seq<byte>>, maxlen: nat, i: nat): nat
    requires i <= |chunks|
  {
    Awaited(Parse(DhavRule(maxlen), sent + Concat(chunks[..i])).rest)
  }

  lemma PendingShift(sent: seq<byte>, chunks: seq<seq<byte>>, maxlen: nat, i: nat)
    requires i < |chunks|
    ensures PendingAfter(sent + chunks[0], chunks[1..], maxlen, i) == PendingAfter(sent, chunks, maxlen, i + 1)
  {
    var c, cs := chunks[0], chunks[1..][..i];
    assert chunks[..i + 1] == [c] + cs;
    ConcatCons(c, cs);
    assert sent + (c + Concat(cs)) == sent + c + Concat(cs);
  }

  /** If no frame the stream ever has pending is longer than `longest`, chunks
      of up to maxlen - longest + 1 octets never overflow the queue. */
  lemma {:induction false} BoundedFramesFit(sent: seq<byte>, chunks: seq<seq<byte>>, maxlen: nat, longest: nat)
    requires MIN_DATA <= longest <= maxlen
    requires forall i: nat :: i <= |chunks| ==> PendingAfter(sent, chunks, maxlen, i) <= longest
    requires forall i :: 0 <= i < |chunks| ==> |chunks[i]| <= maxlen - longest + 1
    ensures RoomForAll(Parse(DhavRule(maxlen), sent).rest, chunks, maxlen)
    decreases |chunks|
  {
    if chunks != [] {
      PendingAtStart(sent, chunks, maxlen);
      ChunkFits(sent, chunks[0], maxlen, longest);
      forall i: nat | i <= |chunks[1..]|
        ensures PendingAfter(sent + chunks[0], chunks[1..], maxlen, i) <= longest
      {
        PendingShift(sent, chunks, maxlen, i);
      }
      BoundedFramesFit(sent + chunks[0], chunks[1..], maxlen, longest);
      RestAfter(sent, chunks[0], maxlen);
    }
  }

  lemma PendingAtStart(sent: seq<byte>, chunks: seq<seq<byte>>, maxlen: nat)
    ensures PendingAfter(sent, chunks, maxlen, 0) == Awaited(Parse(DhavRule(maxlen), sent).rest)
  {
    assert chunks[..0] == [] && sent + Concat([]) == sent;
  }

  lemma RestAfter(sent: seq<byte>, c: seq<byte>, maxlen: nat)
    ensures var r := DhavRule(maxlen); Parse(r, Parse(r, sent).rest + c).rest == Parse(r, sent + c).rest
  {
    DhavRuleStable(maxlen);
    ParseAppend(DhavRule(maxlen), sent, c);
  }
}
