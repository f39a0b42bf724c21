/** The raw H.264 splitter of mctools.c: frames run from one 00 00 01 start code
    to the next.  Once the queue starts with a start code nothing is lost and
    chunking does not matter; before that the whole queue may be dropped. */
module RawFraming {
  import opened Bytes
  import opened StreamParsing

  /** No decision is taken on fewer octets than this. */
  const MIN_RAW := 8

  /** The search for the next start code leaves out the frame's own prefix. */
  const PREFIX := 4

  predicate StartsAt(s: seq<byte>, i: nat)
  {
    i + 3 <= |s| && s[i] == 0 && s[i + 1] == 0 && s[i + 2] == 1
  }

  ghost predicate NoStartBefore(s: seq<byte>, i: nat)
  {
    forall k: nat :: k < i ==> !StartsAt(s, k)
  }

  /** First start code in `s`, or -1. */
  function FindStart(s: seq<byte>): (i: int)
    ensures -1 <= i < |s|
    ensures if i < 0 then NoStartBefore(s, |s|) else StartsAt(s, i) && NoStartBefore(s, i)
  {
    if |s| < 3 then -1
    else if StartsAt(s, 0) then 0
    else
      var i := FindStart(s[1..]);
      assert forall k: nat :: k > 0 ==> StartsAt(s, k) == StartsAt(s[1..], k - 1);
      if i < 0 then -1 else i + 1
  }

  lemma FirstStartUnique(s: seq<byte>, i: nat)
    requires StartsAt(s, i) && NoStartBefore(s, i)
    ensures FindStart(s) == i
  {
  }

  /** Once synchronised, the queue starts with a start code. */
  predicate Synced(q: seq<byte>)
  {
    StartsAt(q, 0)
  }

  function HeadOf(q: seq<byte>): (h: Head)
    ensures h == Wait || (h.Emit? && h.len <= |q|)
  {
    if |q| < MIN_RAW then Wait
    else
      var k := FindStart(q[PREFIX..]);
      if k < 0 then Wait else Emit(k + PREFIX)
  }

  lemma HeadFound(q: seq<byte>)
    requires |q| >= MIN_RAW
    ensures var k := FindStart(q[PREFIX..|q|]); HeadOf(q) == if k < 0 then Wait else Emit(k + PREFIX)
  {
    assert q[PREFIX..|q|] == q[PREFIX..];
  }

  /** The rule a synchronised queue is cut by. */
  function RawRule(): Rule
  {
    q => HeadOf(q)
  }

  datatype Outcome = Outcome(ret: int, frame: seq<byte>, rest: seq<byte>)

  /** One call on a loaded queue, synchronised or not. */
  function Step(q: seq<byte>, maxDst: nat): (o: Outcome)
  {
    if |q| < MIN_RAW then Outcome(0, [], q)
    else
      var at := FindStart(q);
      if at < 0 then Outcome(0, [], [])
      else
        var s := q[at..];
        match HeadOf(s)
        case Emit(n) =>
          if maxDst < n then Outcome(-3, [], s) else Outcome(1, s[..n], s[n..])
        case _ => Outcome(0, [], s)
  }

  /** A full drain: calls until the result is not positive. */
  function Drain(q: seq<byte>): Parsed
  {
    if |q| < MIN_RAW then Parsed([], q)
    else
      var at := FindStart(q);
      if at < 0 then Parsed([], []) else Parse(RawRule(), q[at..])
  }

  /** Repeating `Step` until it does not return a positive code is `Drain`, and
      each positive return removes at least four octets. */
  lemma StepsMakeDrain(q: seq<byte>, maxDst: nat)
    requires |q| <= maxDst
    ensures var o := Step(q, maxDst);
            && o.ret in {0, 1}
            && (o.ret == 1 ==> |o.rest| + 4 <= |q| && Synced(o.rest)
                               && Drain(q) == Prepend([o.frame], Drain(o.rest)))
            && (o.ret == 0 ==> Drain(q) == Parsed([], o.rest) && o.frame == [])
  {
    var at := FindStart(q);
    if |q| >= MIN_RAW && at >= 0 {
      var s := q[at..];
      FirstStartUnique(s, 0);
      match HeadOf(s) {
        case Emit(n) =>
          HeadEmits(s);
          ParseUnfold(RawRule(), s);
          SyncedDrain(s[n..]);
        case _ =>
      }
    }
  }

  /** A buffer too short for the frame: -3, and the frame stays in the queue; any
      other buffer gives what a long one does. */
  lemma ShortBuffer(q: seq<byte>, maxDst: nat)
    ensures var o := Step(q, |q|);
            && (o.ret == 1 ==> |o.frame| >= 4)
            && Step(q, maxDst) ==
               if o.ret == 1 && |o.frame| > maxDst then Outcome(-3, [], o.frame + o.rest) else o
  {
    var at := FindStart(q);
    if |q| >= MIN_RAW && at >= 0 && HeadOf(q[at..]).Emit? {
      var s, n := q[at..], HeadOf(q[at..]).len;
      assert s[..n] + s[n..] == s;
    }
  }

  lemma HeadEmits(q: seq<byte>)
    requires Synced(q) && HeadOf(q).Emit?
    ensures var n := HeadOf(q).len;
            && PREFIX <= n <= |q| && Synced(q[n..])
            && (forall k: nat :: PREFIX <= k < n ==> !StartsAt(q, k))
  {
    var n := HeadOf(q).len;
    assert StartsAt(q[PREFIX..], n - PREFIX);
    forall k: nat | PREFIX <= k < n ensures !StartsAt(q, k) {
      assert !StartsAt(q[PREFIX..], k - PREFIX);
    }
  }

  lemma SyncedDrain(q: seq<byte>)
    requires Synced(q)
    ensures Drain(q) == Parse(RawRule(), q)
  {
    FirstStartUnique(q, 0);
    assert q[0..] == q;
  }

  // ------------------------------------------------- after synchronisation

  lemma RawRuleStable()
    ensures Stable(RawRule())
  {
    var r := RawRule();
    forall q: seq<byte>, m: seq<byte> ensures StableAt(r, q, m) {
      if Taken(r, q) > 0 {
        var k := FindStart(q[PREFIX..]);
        var s := (q + m)[PREFIX..];
        assert forall i: nat :: i <= k ==> StartsAt(s, i) == StartsAt(q[PREFIX..], i);
        FirstStartUnique(s, k);
      }
    }
  }

  /** A synchronised queue stays synchronised and loses nothing: the emitted
      frames followed by the queue are the stream. */
  lemma {:induction false} SyncedLosesNothing(q: seq<byte>)
    requires Synced(q)
    ensures var p := Parse(RawRule(), q);
            Concat(p.frames) + p.rest == q && Synced(p.rest)
    decreases |q|
  {
    hide Parse, HeadOf, Concat;
    SyncedUnfold(q);
    if HeadOf(q).Emit? {
      var n := HeadOf(q).len;
      SyncedLosesNothing(q[n..]);
      var p := Parse(RawRule(), q[n..]);
      ConcatCons(q[..n], p.frames);
      Assoc(q[..n], Concat(p.frames), p.rest);
      assert q[..n] + q[n..] == q;
    } else {
      NothingCut(q);
    }
  }

  lemma SyncedUnfold(q: seq<byte>)
    requires Synced(q)
    ensures if HeadOf(q).Emit? then
              var n := HeadOf(q).len;
              && PREFIX <= n <= |q| && Synced(q[n..])
              && Parse(RawRule(), q) == Prepend([q[..n]], Parse(RawRule(), q[n..]))
            else Parse(RawRule(), q) == Parsed([], q)
  {
    if HeadOf(q).Emit? {
      HeadEmits(q);
      ParseUnfold(RawRule(), q);
    }
  }

  lemma NothingCut(q: seq<byte>)
    ensures Concat([]) + q == q
  {
  }

  /** A frame begins with a start code and has none from offset four on. */
  ghost predicate RawFrame(f: seq<byte>)
  {
    |f| >= 4 && Synced(f) && forall k: nat :: k >= 4 ==> !StartsAt(f, k)
  }

  lemma {:induction false} FramesAreCutAtStartCodes(q: seq<byte>, i: nat)
    requires Synced(q) && i < |Parse(RawRule(), q).frames|
    ensures RawFrame(Parse(RawRule(), q).frames[i])
    decreases |q|
  {
    var n := HeadOf(q).len;
    HeadEmits(q);
    if i > 0 {
      FramesAreCutAtStartCodes(q[n..], i - 1);
    } else {
      var f := q[..n];
      forall k: nat | k >= PREFIX ensures !StartsAt(f, k) {
        if k + 3 <= n { assert !StartsAt(q, k); }
      }
    }
  }

  /** A frame list is determined by its concatenation: cutting the octets of any
      list of such frames, closed by one more start code, gives the list back. */
  lemma {:induction false} CuttingInvertsJoining(fs: seq<seq<byte>>, tail: seq<byte>)
    requires forall i :: 0 <= i < |fs| ==> RawFrame(fs[i])
    requires RawFrame(tail) && |tail| >= 8
    ensures Parse(RawRule(), Concat(fs) + tail) == Parsed(fs, tail)
    decreases |fs|
  {
    if fs == [] {
      assert Concat(fs) + tail == tail;
      var t := tail[PREFIX..];
      assert forall k: nat :: StartsAt(t, k) == StartsAt(tail, k + PREFIX);
    } else {
      var f, more := fs[0], Concat(fs[1..]) + tail;
      MoreIsSynced(fs[1..], tail);
      CuttingInvertsJoining(fs[1..], tail);
      FrameCutOff(f, more);
      Assoc(f, Concat(fs[1..]), tail);
      assert [f] + fs[1..] == fs;
    }
  }

  lemma FrameCutOff(f: seq<byte>, more: seq<byte>)
    requires RawFrame(f) && Synced(more) && |more| >= MIN_RAW
    ensures Parse(RawRule(), f + more) == Prepend([f], Parse(RawRule(), more))
  {
    NextStart(f, more);
    assert (f + more)[..|f|] == f && (f + more)[|f|..] == more;
    ParseUnfold(RawRule(), f + more);
  }

  lemma MoreIsSynced(fs: seq<seq<byte>>, tail: seq<byte>)
    requires forall i :: 0 <= i < |fs| ==> RawFrame(fs[i])
    requires RawFrame(tail) && |tail| >= MIN_RAW
    ensures Synced(Concat(fs) + tail) && |Concat(fs) + tail| >= MIN_RAW
  {
    if fs != [] {
      assert Synced(fs[0]);
      assert (Concat(fs) + tail)[..3] == fs[0][..3];
      assert forall k :: 0 <= k < 3 ==> (Concat(fs) + tail)[k] == fs[0][k];
    }
  }

  /** No start code comes about where a frame meets the one behind it. */
  lemma NextStart(f: seq<byte>, more: seq<byte>)
    requires RawFrame(f) && Synced(more) && |more| >= MIN_RAW
    ensures HeadOf(f + more) == Emit(|f|)
  {
    var s := (f + more)[PREFIX..];
    var n := |f| - PREFIX;
    assert StartsAt(s, n);
    forall k: nat | k < n ensures !StartsAt(s, k) {
      assert !StartsAt(f, k + PREFIX);
      assert s[n] == more[0] && s[n + 1] == more[1];
    }
    FirstStartUnique(s, n);
  }

  // ------------------------------------------------- whole runs

  /** Feeding chunk after chunk, draining fully after each. */
  function RawFeed(q: seq<byte>, chunks: seq<seq<byte>>): Parsed
    decreases |chunks|
  {
    if chunks == [] then Parsed([], q)
    else
      var p := Drain(q + chunks[0]);
      Prepend(p.frames, RawFeed(p.rest, chunks[1..]))
  }

  lemma {:induction false} SyncedFeedIsFeed(q: seq<byte>, chunks: seq<seq<byte>>)
    requires Synced(q)
    ensures RawFeed(q, chunks) == Feed(RawRule(), q, chunks)
    decreases |chunks|
  {
    if chunks != [] {
      var s := q + chunks[0];
      SyncedDrain(s);
      SyncedLosesNothing(s);
      SyncedFeedIsFeed(Drain(s).rest, chunks[1..]);
    }
  }

  /** From a synchronised, drained queue on, chunking is irrelevant. */
  lemma SyncedFeed(q: seq<byte>, chunks: seq<seq<byte>>)
    requires Synced(q) && Taken(RawRule(), q) == 0
    ensures RawFeed(q, chunks) == Parse(RawRule(), q + Concat(chunks))
  {
    SyncedFeedIsFeed(q, chunks);
    RawRuleStable();
    FeedIsParse(RawRule(), q, chunks);
  }

  /** The start code at `at` is cut by the end of a queue that is searched, and
      dropped because of it: fewer than eight octets are kept as they are. */
  predicate CutsStart(q: seq<byte>, chunks: seq<seq<byte>>, at: nat)
    decreases |chunks|
  {
    && chunks != []
    && var s := q + chunks[0];
       if |s| < 8 then CutsStart(s, chunks[1..], at)
       else if |s| <= at then CutsStart([], chunks[1..], at - |s|)
       else |s| < at + 3
  }

  /** Octets a run still has, in frames and in the queue. */
  function Kept(p: Parsed): nat
  {
    |Concat(p.frames)| + |p.rest|
  }

  /** Before synchronisation, exactly: a run keeps all from the first start code on
      if and only if it does not cut that start code; and then its frames are those
      of one pass. */
  lemma {:induction false} UnsyncedFeed(q: seq<byte>, chunks: seq<seq<byte>>)
    requires |q| < 8 && FindStart(q + Concat(chunks)) >= 0
    ensures var stream := q + Concat(chunks);
            var at := FindStart(stream);
            && (Kept(RawFeed(q, chunks)) >= |stream| - at <==> !CutsStart(q, chunks, at))
            && (!CutsStart(q, chunks, at) ==> RawFeed(q, chunks).frames == Drain(stream).frames)
    decreases |chunks|
  {
    hide Parse, Drain, RawFeed, FindStart, Concat, Kept;
    var at := FindStart(q + Concat(chunks));
    NothingFed(q);
    if chunks != [] {
      var s, cs := q + chunks[0], chunks[1..];
      OneChunkFed(q, chunks);
      Assoc([], [], Concat(cs));
      if |s| < MIN_RAW {
        KeptAsIs(s, cs);
        UnsyncedFeed(s, cs);
      } else if StartsAt(s, at) {
        FeedFromFirstStart(s, cs, at);
      } else if |s| <= at {
        FeedBehind(s, cs, at);
        UnsyncedFeed([], cs);
      } else {
        StartCut(s, Concat(cs), at);
        FeedDropped(s, cs);
      }
    }
  }

  lemma NothingFed(q: seq<byte>)
    requires |q| < MIN_RAW
    ensures RawFeed(q, []) == Drain(q) == Parsed([], q) && q + Concat([]) == q && Kept(Parsed([], q)) == |q|
  {
  }

  /** What the first chunk and those behind it come to, `s` being the queue with
      the first. */
  function Fed(s: seq<byte>, cs: seq<seq<byte>>): Parsed
  {
    Prepend(Drain(s).frames, RawFeed(Drain(s).rest, cs))
  }

  lemma OneChunkFed(q: seq<byte>, chunks: seq<seq<byte>>)
    requires chunks != []
    ensures RawFeed(q, chunks) == Fed(q + chunks[0], chunks[1..])
    ensures q + Concat(chunks) == q + chunks[0] + Concat(chunks[1..])
  {
    Assoc(q, chunks[0], Concat(chunks[1..]));
  }

  lemma KeptAsIs(s: seq<byte>, cs: seq<seq<byte>>)
    requires |s| < MIN_RAW
    ensures Fed(s, cs) == RawFeed(s, cs)
  {
    PrependTwice([], [], RawFeed(s, cs));
  }

  /** Of a queue that is dropped nothing comes back. */
  lemma FeedDropped(s: seq<byte>, cs: seq<seq<byte>>)
    requires Drain(s) == Parsed([], [])
    ensures Fed(s, cs) == RawFeed([], cs) && Kept(Fed(s, cs)) <= |Concat(cs)|
  {
    PrependTwice([], [], RawFeed([], cs));
    FeedKeepsNoMore([], cs);
  }

  /** A queue that ends inside the first start code is dropped. */
  lemma StartCut(s: seq<byte>, m: seq<byte>, at: nat)
    requires |s| >= MIN_RAW && FindStart(s + m) == at < |s| && !StartsAt(s, at)
    ensures |s| < at + 3 && Drain(s) == Parsed([], [])
  {
    assert StartsAt(s + m, at);
    forall k: nat ensures !StartsAt(s, k) {
      if StartsAt(s, k) {
        assert StartsAt(s + m, k);
      }
    }
  }

  /** No run has more than it was fed. */
  lemma {:induction false} FeedKeepsNoMore(q: seq<byte>, chunks: seq<seq<byte>>)
    ensures Kept(RawFeed(q, chunks)) <= |q| + |Concat(chunks)|
    decreases |chunks|
  {
    if chunks != [] {
      var p := Drain(q + chunks[0]);
      DrainKeepsNoMore(q + chunks[0]);
      FeedKeepsNoMore(p.rest, chunks[1..]);
      ConcatAppend(p.frames, RawFeed(p.rest, chunks[1..]).frames);
    }
  }

  lemma DrainKeepsNoMore(q: seq<byte>)
    ensures Kept(Drain(q)) <= |q|
  {
    var at := FindStart(q);
    if |q| >= MIN_RAW && at >= 0 {
      SyncedLosesNothing(q[at..]);
    }
  }

  /** What a caller can see to: no cut falls inside the start code at `at`. */
  ghost predicate CutInside(q: seq<byte>, chunks: seq<seq<byte>>, at: int)
  {
    exists i: nat :: i <= |chunks| && CutPoint(q, chunks, i) in {at + 1, at + 2}
  }

  function CutPoint(q: seq<byte>, chunks: seq<seq<byte>>, i: nat): nat
    requires i <= |chunks|
  {
    |q| + |Concat(chunks[..i])|
  }

  lemma {:induction false} NoCutInsideSuffices(q: seq<byte>, chunks: seq<seq<byte>>, at: nat)
    requires !CutInside(q, chunks, at) && at < |q| + |Concat(chunks)|
    ensures !CutsStart(q, chunks, at)
    decreases |chunks|
  {
    if chunks != [] {
      var s := q + chunks[0];
      CutsShift(q, chunks, at);
      CutAt1(q, chunks);
      if |s| < MIN_RAW {
        NoCutInsideSuffices(s, chunks[1..], at);
      } else if |s| <= at {
        NoCutInsideSuffices([], chunks[1..], at - |s|);
      }
    }
  }

  lemma CutAt1(q: seq<byte>, chunks: seq<seq<byte>>)
    requires chunks != []
    ensures CutPoint(q, chunks, 1) == |q + chunks[0]|
  {
    assert chunks[..1] == [chunks[0]];
    ConcatOne(chunks[0]);
  }

  lemma CutsShift(q: seq<byte>, chunks: seq<seq<byte>>, at: nat)
    requires chunks != [] && !CutInside(q, chunks, at)
    ensures !CutInside(q + chunks[0], chunks[1..], at)
    ensures var d := |q + chunks[0]|; at >= d ==> !CutInside([], chunks[1..], at - d)
  {
    forall i: nat | i <= |chunks[1..]|
      ensures CutPoint(q + chunks[0], chunks[1..], i) == CutPoint(q, chunks, i + 1)
      ensures CutPoint([], chunks[1..], i) == CutPoint(q, chunks, i + 1) - |q + chunks[0]|
    {
      ConcatFirst(chunks, i);
    }
  }

  /** A queue without the first start code is dropped, and nothing is missed. */
  lemma FeedBehind(s: seq<byte>, cs: seq<seq<byte>>, at: nat)
    requires |s| >= MIN_RAW && |s| <= at == FindStart(s + Concat(cs))
    ensures Fed(s, cs) == RawFeed([], cs)
    ensures FindStart(Concat(cs)) == at - |s| && Drain(Concat(cs)).frames == Drain(s + Concat(cs)).frames
  {
    hide Parse, RawFeed;
    StartBehind(s, Concat(cs), at);
    DrainBehind(s, Concat(cs), at);
    FeedDropped(s, cs);
  }

  lemma StartBehind(s: seq<byte>, m: seq<byte>, at: nat)
    requires FindStart(s + m) == at && !StartsAt(s, at) && |s| !in {at + 1, at + 2}
    ensures at >= |s| && FindStart(m) == at - |s| && FindStart(s) < 0
  {
    assert StartsAt(s + m, at);
    assert forall k: nat :: StartsAt(s, k) ==> StartsAt(s + m, k);
    forall k: nat | k < at - |s| ensures !StartsAt(m, k) {
      assert !StartsAt(s + m, k + |s|);
      if StartsAt(m, k) { assert StartsAt(s + m, k + |s|); }
    }
    FirstStartUnique(m, at - |s|);
  }

  lemma StartWithin(s: seq<byte>, m: seq<byte>, at: nat)
    requires FindStart(s + m) == at && StartsAt(s, at)
    ensures FindStart(s) == at
  {
    assert forall k: nat :: StartsAt(s, k) ==> StartsAt(s + m, k);
    FirstStartUnique(s, at);
  }

  lemma DrainBehind(s: seq<byte>, m: seq<byte>, at: nat)
    requires |s| >= MIN_RAW && |s| <= at == FindStart(s + m) && FindStart(m) == at - |s|
    ensures Drain(m).frames == Drain(s + m).frames
  {
    assert (s + m)[at..] == m[at - |s|..];
  }

  /** With the first start code in it, all from there on is kept. */
  lemma FeedFromFirstStart(s: seq<byte>, cs: seq<seq<byte>>, at: nat)
    requires |s| >= MIN_RAW && StartsAt(s, at) && FindStart(s + Concat(cs)) == at
    ensures Fed(s, cs) == Drain(s + Concat(cs)) && Kept(Fed(s, cs)) == |s + Concat(cs)| - at
  {
    hide Parse, RawFeed, FindStart;
    var t := s[at..];
    StartWithin(s, Concat(cs), at);
    assert (s + Concat(cs))[at..] == t + Concat(cs);
    assert Synced(t);
    FeedFromSynced(t, cs);
    SyncedLosesNothing(t + Concat(cs));
  }

  lemma FeedFromSynced(t: seq<byte>, chunks: seq<seq<byte>>)
    requires Synced(t)
    ensures Prepend(Parse(RawRule(), t).frames, RawFeed(Parse(RawRule(), t).rest, chunks)) ==
            Parse(RawRule(), t + Concat(chunks))
  {
    SyncedLosesNothing(t);
    SyncedFeedIsFeed(Parse(RawRule(), t).rest, chunks);
    RawRuleStable();
    FeedAfterParse(RawRule(), t, chunks);
  }

  /** Dropping a queue without a start code can lose one exactly when its last
      octet is zero. */
  lemma DroppingLosesStartIffLastIsZero(q: seq<byte>)
    requires q != [] && FindStart(q) < 0
    ensures (exists m: seq<byte> :: LosesStart(q, m)) <==> q[|q| - 1] == 0
  {
    if q[|q| - 1] == 0 {
      StartAfterZero(q);
    } else {
      forall m: seq<byte> ensures !LosesStart(q, m) {
        NoStartAfterNonZero(q, m);
      }
    }
  }

  /** With `m` behind it, a start code would have begun inside `q`. */
  predicate LosesStart(q: seq<byte>, m: seq<byte>)
  {
    0 <= FindStart(q + m) < |q|
  }

  lemma StartAfterZero(q: seq<byte>)
    requires q != [] && q[|q| - 1] == 0
    ensures LosesStart(q, [0, 1])
  {
    assert StartsAt(q + [0, 1], |q| - 1);
  }

  lemma NoStartAfterNonZero(q: seq<byte>, m: seq<byte>)
    requires q != [] && FindStart(q) < 0 && q[|q| - 1] != 0
    ensures !LosesStart(q, m)
  {
    forall k: nat | k < |q| ensures !StartsAt(q + m, k) {
      assert !StartsAt(q, k);
      var s := q + m;
      assert s[|q| - 1] == q[|q| - 1];
    }
  }

  const CUT_A: seq<byte> := [9, 9, 9, 9, 9, 9, 0, 0]
  const CUT_B: seq<byte> := [1, 7, 8, 0, 0, 1, 7, 8]
  const CUT_FRAME: seq<byte> := [0, 0, 1, 7, 8]

  /** The same stream, cut inside its first start code, loses a frame. */
  lemma ChunkingMattersBeforeSync()
    ensures Drain(CUT_A + CUT_B).frames == [CUT_FRAME]
    ensures RawFeed([], [CUT_A, CUT_B]).frames == []
  {
    DrainCutAB();
    DrainCutB();
    NothingInCutA();
    FeedTwo(CUT_A, CUT_B);
  }

  lemma DrainCutAB()
    ensures Drain(CUT_A + CUT_B) == Parsed([CUT_FRAME], CUT_FRAME)
  {
    var s := CUT_A + CUT_B;
    assert s[6..] == CUT_FRAME + CUT_FRAME;
    assert NoStartBefore(s, 6);
    CutFrameParses();
    DrainFrom(s, 6);
  }

  lemma NothingInCutA()
    ensures Drain(CUT_A) == Parsed([], [])
  {
    assert forall k: nat :: !StartsAt(CUT_A, k);
  }

  lemma DrainCutB()
    ensures Drain(CUT_B) == Parsed([], CUT_FRAME)
  {
    hide Parse, Drain, HeadOf, FindStart;
    CutFrameParses();
    assert NoStartBefore(CUT_B, 3);
    assert CUT_B[3..] == CUT_FRAME;
    DrainOne(CUT_B, 3, CUT_FRAME);
  }

  lemma DrainOne(q: seq<byte>, at: nat, f: seq<byte>)
    requires |q| >= MIN_RAW && StartsAt(q, at) && NoStartBefore(q, at)
    requires q[at..] == f && Parse(RawRule(), f) == Parsed([], f)
    ensures Drain(q) == Parsed([], f)
  {
    DrainFrom(q, at);
  }

  lemma FeedTwo(a: seq<byte>, b: seq<byte>)
    requires Drain(a) == Parsed([], [])
    ensures RawFeed([], [a, b]).frames == Drain(b).frames
  {
    assert [] + a == a && [] + b == b;
    assert [a, b][1..] == [b] && [b][1..] == [];
    assert RawFeed(Drain(b).rest, []).frames == [];
    assert RawFeed([], [b]) == Prepend(Drain(b).frames, RawFeed(Drain(b).rest, []));
  }

  lemma DrainFrom(q: seq<byte>, at: nat)
    requires |q| >= MIN_RAW && StartsAt(q, at) && NoStartBefore(q, at)
    ensures Drain(q) == Parse(RawRule(), q[at..])
  {
    FirstStartUnique(q, at);
  }

  lemma CutFrameParses()
    ensures Parse(RawRule(), CUT_FRAME + CUT_FRAME) == Parsed([CUT_FRAME], CUT_FRAME)
    ensures Parse(RawRule(), CUT_FRAME) == Parsed([], CUT_FRAME)
  {
    var p := CUT_FRAME + CUT_FRAME;
    FirstStartUnique(p[PREFIX..], 1);
    assert p[..5] == CUT_FRAME && p[5..] == CUT_FRAME;
    ParseUnfold(RawRule(), p);
  }
}
