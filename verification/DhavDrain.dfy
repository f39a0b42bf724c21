/** The DHAV deframer call after call: every call is a stretch of the parse, and
    the drain ends unless it comes to a zero header behind a zero trailer.  Which
    octets lie in front of the queue depends on packing; what that can do to a
    whole run is here as well. */
module DhavDrain {
  import opened Bytes
  import opened DhavFraming
  import opened DhavStream
  import opened StreamParsing

  /** The head of the queue is a zero header behind a zero trailer. */
  predicate Stuck(back: seq<byte>, q: seq<byte>)
  {
    ZeroHeader(q) && back == ZERO_TRAILER
  }

  /** The octets in front of what is left of `q` when d have been taken. */
  function Behind(back: seq<byte>, q: seq<byte>, d: nat): (b: seq<byte>)
    requires |back| == BACK && d <= |q|
    ensures |b| == BACK
  {
    (back + q)[d..d + BACK]
  }

  /** The parse of the octets comes to a zero header behind a zero trailer. */
  predicate MeetsStuck(back: seq<byte>, q: seq<byte>, maxlen: nat)
    requires |back| == BACK
    decreases |q|
  {
    || Stuck(back, q)
    || (var d := Taken(DhavRule(maxlen), q); d > 0 && MeetsStuck(Behind(back, q, d), q[d..], maxlen))
  }

  lemma BehindTwice(back: seq<byte>, q: seq<byte>, a: nat, b: nat)
    requires |back| == BACK && a + b <= |q|
    ensures Behind(Behind(back, q, a), q[a..], b) == Behind(back, q, a + b)
    ensures q[a..][b..] == q[a + b..]
    ensures Behind(back, q, 0) == back && q[0..] == q
  {
    assert Behind(back, q, a) + q[a..] == (back + q)[a..];
    assert (back + q)[a..][b..b + BACK] == (back + q)[a + b..a + b + BACK];
  }

  lemma BehindAppend(back: seq<byte>, q: seq<byte>, m: seq<byte>, d: nat)
    requires |back| == BACK && d <= |q|
    ensures Behind(back, q + m, d) == Behind(back, q, d)
  {
    assert back + (q + m) == back + q + m;
  }

  // ------------------------------------------------------- one call

  lemma StuckStep(back: seq<byte>, q: seq<byte>, maxlen: nat, maxDst: nat)
    requires |back| == BACK && Stuck(back, q)
    ensures Step(back, q, maxlen, maxDst) == Outcome(1, [], back, q)
  {
    AcceptedLengths(back, q, maxlen);
    assert (back + q)[0..8] == back;
    assert q[..0] == [] && q[0..] == q;
  }

  /** Not stuck, the octets in front do not matter. */
  lemma PlainVerdict(back: seq<byte>, q: seq<byte>, maxlen: nat)
    requires |back| == BACK && |q| >= MIN_DATA && !Stuck(back, q)
    ensures Judge(back, q, maxlen) == Judge(NEUTRAL, q, maxlen)
    ensures Judge(back, q, maxlen).Whole? ==>
              Judge(back, q, maxlen).len >= 12 && HeadOf(q, maxlen) == Emit(Judge(back, q, maxlen).len)
    ensures Judge(back, q, maxlen).Garbage? ==> HeadOf(q, maxlen) == Drop
    ensures Judge(back, q, maxlen).Incomplete? ==> HeadOf(q, maxlen) == Wait
  {
    AcceptedLengths(back, q, maxlen);
    assert NEUTRAL[0] != ZERO_TRAILER[0];
    SameVerdict(back, NEUTRAL, q, maxlen);
  }

  /** One call is a stretch of the parse: what it emits is the parse's next frame,
      it leaves the parse's rest, and with code 0 or 3 nothing is left to take. */
  lemma {:induction false} StepFollowsParse(back: seq<byte>, q: seq<byte>, maxlen: nat, maxDst: nat)
    requires |back| == BACK && maxlen <= maxDst
    ensures var r, o := DhavRule(maxlen), Step(back, q, maxlen, maxDst);
            && o.ret != -3
            && (o.ret == 1 && o.frame == [] ==> Stuck(o.back, o.rest))
            && (o.ret == 1 && o.frame != [] ==> |q| >= |o.rest| + 12)
            && (o.ret == 3 ==> |q| > |o.rest|)
            && Parse(r, q) == Prepend(if o.frame == [] then [] else [o.frame], Parse(r, o.rest))
            && (o.ret == 0 || o.ret == 3 ==> Taken(r, o.rest) == 0)
    decreases |q|
  {
    var r := DhavRule(maxlen);
    if |q| < MIN_DATA {
      PrependTwice([], [], Parse(r, q));
    } else if Stuck(back, q) {
      StuckStep(back, q, maxlen, maxDst);
      PrependTwice([], [], Parse(r, q));
    } else {
      PlainVerdict(back, q, maxlen);
      match Judge(back, q, maxlen) {
        case Incomplete => PrependTwice([], [], Parse(r, q));
        case Whole(n) => ParseUnfold(r, q);
        case Garbage =>
          ParseUnfold(r, q);
          PrependTwice([], [], Parse(r, q[1..]));
          if |q| > MIN_DATA {
            StepFollowsParse((back + q)[1..9], q[1..], maxlen, maxDst);
          } else {
            PrependTwice([], [], Parse(r, q[1..]));
          }
      }
    }
  }

  /** It moves the window over the octets. */
  lemma {:induction false} StepMovesWindow(back: seq<byte>, q: seq<byte>, maxlen: nat, maxDst: nat)
    requires |back| == BACK && maxlen <= maxDst
    ensures var o := Step(back, q, maxlen, maxDst);
            var d := |q| - |o.rest|;
            o.rest == q[d..] && o.back == Behind(back, q, d)
    decreases |q|
  {
    BehindTwice(back, q, 0, 0);
    if |q| > MIN_DATA && Judge(back, q, maxlen).Garbage? {
      var b, q' := Behind(back, q, 1), q[1..];
      StepMovesWindow(b, q', maxlen, maxDst);
      BehindTwice(back, q, 1, |q'| - |Step(b, q', maxlen, maxDst).rest|);
    }
  }

  /** It neither passes a zero header behind a zero trailer nor makes one up. */
  lemma {:induction false} StepKeepsStuck(back: seq<byte>, q: seq<byte>, maxlen: nat, maxDst: nat)
    requires |back| == BACK && maxlen <= maxDst
    ensures var o := Step(back, q, maxlen, maxDst);
            MeetsStuck(o.back, o.rest, maxlen) <==> MeetsStuck(back, q, maxlen)
    decreases |q|
  {
    hide Judge, Step, Resume, MeetsStuck, HeadOf;
    StepCases(back, q, maxlen, maxDst);
    if |q| >= MIN_DATA {
      if Stuck(back, q) {
        StuckStep(back, q, maxlen, maxDst);
      } else {
        MeetsUnfold(back, q, maxlen);
        if Judge(back, q, maxlen).Garbage? {
          StepOnGarbage(back, q, maxlen, maxDst);
          ResumeCases(Behind(back, q, 1), q[1..], maxlen, maxDst);
          if |q| > MIN_DATA {
            StepKeepsStuck(Behind(back, q, 1), q[1..], maxlen, maxDst);
          }
        }
      }
    }
  }

  /** Not stuck here, whether the octets are is decided behind what is taken. */
  lemma MeetsUnfold(back: seq<byte>, q: seq<byte>, maxlen: nat)
    requires |back| == BACK && |q| >= MIN_DATA && !Stuck(back, q)
    ensures match Judge(back, q, maxlen)
            case Incomplete => true
            case Garbage => MeetsStuck(back, q, maxlen) <==> MeetsStuck(Behind(back, q, 1), q[1..], maxlen)
            case Whole(n) => MeetsStuck(back, q, maxlen) <==> MeetsStuck(Behind(back, q, n), q[n..], maxlen)
  {
    hide Judge;
    PlainVerdict(back, q, maxlen);
  }

  /** Every positive return of a call that is not stuck shortens the queue. */
  lemma StepProgress(back: seq<byte>, q: seq<byte>, maxlen: nat, maxDst: nat)
    requires |back| == BACK && maxlen <= maxDst && !MeetsStuck(back, q, maxlen)
    ensures var o := Step(back, q, maxlen, maxDst);
            && (o.ret == 1 ==> |o.rest| + 12 <= |q|)
            && (o.ret == 3 ==> |o.rest| + 1 <= |q| && o.frame == [])
  {
    StepFollowsParse(back, q, maxlen, maxDst);
    StepKeepsStuck(back, q, maxlen, maxDst);
    SkippingIsSilent(back, q, maxlen, maxDst);
  }

  lemma {:induction false} SkippingIsSilent(back: seq<byte>, q: seq<byte>, maxlen: nat, maxDst: nat)
    requires |back| == BACK
    ensures Step(back, q, maxlen, maxDst).ret != 1 ==> Step(back, q, maxlen, maxDst).frame == []
    decreases |q|
  {
    if |q| > MIN_DATA && Judge(back, q, maxlen).Garbage? {
      SkippingIsSilent((back + q)[1..9], q[1..], maxlen, maxDst);
    }
  }

  /** Once the window stands on them, the code is positive. */
  lemma {:induction false} StuckOutcome(back: seq<byte>, q: seq<byte>, maxlen: nat)
    requires |back| == BACK
    requires var o := Step(back, q, maxlen, maxlen); Stuck(o.back, o.rest)
    ensures Step(back, q, maxlen, maxlen).ret > 0
    decreases |q|
  {
    if |q| >= MIN_DATA {
      AcceptedLengths(back, q, maxlen);
      if Judge(back, q, maxlen).Garbage? && |q| > MIN_DATA {
        StuckOutcome((back + q)[1..9], q[1..], maxlen);
      }
    }
  }

  // ------------------------------------------------------- the drain

  /** A call of the deframer as the drain sees it: from what lies in front of the
      queue, and the queue, to the outcome. */
  type Call = (seq<byte>, seq<byte>) -> Outcome

  function CallOf(maxlen: nat): Call
  {
    (back: seq<byte>, q: seq<byte>) =>
      if |back| == BACK then Step(back, q, maxlen, maxlen) else Outcome(0, [], back, q)
  }

  /** Outcome of the k-th call of a drain whose earlier calls all returned a
      positive code. */
  function NthCall(f: Call, back: seq<byte>, q: seq<byte>, k: nat): Outcome
    decreases k
  {
    var o := f(back, q);
    if k == 0 || o.ret <= 0 then o else NthCall(f, o.back, o.rest, k - 1)
  }

  /** Termination, exactly: "call until the result is not positive" goes on for
      ever if and only if the octets bring a zero header behind a zero trailer. */
  lemma DrainDivergesIffStuck(back: seq<byte>, q: seq<byte>, maxlen: nat)
    requires |back| == BACK
    ensures (forall k: nat :: NthCall(CallOf(maxlen), back, q, k).ret > 0) <==> MeetsStuck(back, q, maxlen)
  {
    var f, meets := CallOf(maxlen), MeetsOf(maxlen);
    CallsAreOrderly(maxlen);
    if meets(back, q) {
      forall k: nat ensures NthCall(f, back, q, k).ret > 0 {
        StuckGoesOn(f, meets, back, q, k);
      }
    } else {
      var k := UnstuckEnds(f, meets, back, q);
    }
  }

  function MeetsOf(maxlen: nat): (seq<byte>, seq<byte>) -> bool
  {
    (back: seq<byte>, q: seq<byte>) => |back| == BACK && MeetsStuck(back, q, maxlen)
  }

  /** Whether the octets bring it is not changed by a call; if they do, its code is
      positive, and if they do not, a positive code comes with a shorter queue. */
  predicate OrderlyAt(f: Call, meets: (seq<byte>, seq<byte>) -> bool, back: seq<byte>, q: seq<byte>)
  {
    var o := f(back, q);
    && meets(o.back, o.rest) == meets(back, q)
    && (meets(back, q) ==> o.ret > 0)
    && (o.ret > 0 && !meets(back, q) ==> |o.rest| < |q|)
  }

  ghost predicate Orderly(f: Call, meets: (seq<byte>, seq<byte>) -> bool)
  {
    forall back: seq<byte>, q: seq<byte> :: OrderlyAt(f, meets, back, q)
  }

  lemma CallsAreOrderly(maxlen: nat)
    ensures Orderly(CallOf(maxlen), MeetsOf(maxlen))
  {
    forall back: seq<byte>, q: seq<byte> ensures OrderlyAt(CallOf(maxlen), MeetsOf(maxlen), back, q) {
      if |back| == BACK {
        StepFollowsParse(back, q, maxlen, maxlen);
        StepKeepsStuck(back, q, maxlen, maxlen);
        var o := Step(back, q, maxlen, maxlen);
        if Stuck(o.back, o.rest) {
          StuckOutcome(back, q, maxlen);
        }
      }
    }
  }

  lemma {:induction false} StuckGoesOn(f: Call, meets: (seq<byte>, seq<byte>) -> bool,
                                       back: seq<byte>, q: seq<byte>, k: nat)
    requires Orderly(f, meets) && meets(back, q)
    ensures NthCall(f, back, q, k).ret > 0
    decreases k
  {
    var o := f(back, q);
    assert OrderlyAt(f, meets, back, q);
    if k > 0 {
      StuckGoesOn(f, meets, o.back, o.rest, k - 1);
    }
  }

  lemma {:induction false} UnstuckEnds(f: Call, meets: (seq<byte>, seq<byte>) -> bool,
                                       back: seq<byte>, q: seq<byte>) returns (k: nat)
    requires Orderly(f, meets) && !meets(back, q)
    ensures NthCall(f, back, q, k).ret <= 0
    decreases |q|
  {
    var o := f(back, q);
    if o.ret <= 0 {
      k := 0;
    } else {
      assert OrderlyAt(f, meets, back, q);
      var k' := UnstuckEnds(f, meets, o.back, o.rest);
      k := k' + 1;
    }
  }

  const ZERO_HEADER: seq<byte> := [0x44, 0x48, 0x41, 0x56, 1, 0, 0, 0, 0, 0, 0, 0, 0, 0, 0, 0]

  /** Such octets exist: these keep the drain going for ever, whatever lies in
      front of them. */
  lemma ZeroHeaderExample(back: seq<byte>, maxlen: nat)
    requires |back| == BACK
    ensures MeetsStuck(back, ZERO_TRAILER + ZERO_HEADER, maxlen)
  {
    ZeroHeaderIsOne();
    assert forall i: nat :: i < 8 ==> ZERO_TRAILER[i] != DHAV_MARK[0];
    StuckAhead(back, ZERO_TRAILER, ZERO_HEADER, maxlen);
  }

  lemma StuckAhead(back: seq<byte>, t: seq<byte>, h: seq<byte>, maxlen: nat)
    requires |back| == |t| == BACK && |h| >= MIN_DATA && Stuck(t, h)
    requires forall i: nat :: i < 8 ==> t[i] != DHAV_MARK[0]
    ensures MeetsStuck(back, t + h, maxlen)
  {
    var q := t + h;
    assert Behind(back, q, 8) == t && q[8..] == h;
    SkipTo(back, q, 8, maxlen);
  }

  lemma ZeroHeaderIsOne()
    ensures ZeroHeader(ZERO_HEADER)
  {
    assert ZERO_HEADER[..4] == DHAV_MARK && ZERO_HEADER[12..16] == [0, 0, 0, 0];
  }

  /** Dropping k octets none of which starts with the mark. */
  lemma {:induction false} SkipTo(back: seq<byte>, q: seq<byte>, k: nat, maxlen: nat)
    requires |back| == BACK && k + MIN_DATA <= |q|
    requires forall i: nat :: i < k ==> q[i] != DHAV_MARK[0]
    requires MeetsStuck(Behind(back, q, k), q[k..], maxlen)
    ensures MeetsStuck(back, q, maxlen)
    decreases k
  {
    hide Judge;
    BehindTwice(back, q, 0, 0);
    if k > 0 {
      UnmarkedIsDropped(q, maxlen);
      BehindTwice(back, q, 1, k - 1);
      SkipTo(Behind(back, q, 1), q[1..], k - 1, maxlen);
    }
  }

  // ------------------------------------------------------- when it cannot happen

  /** A parse that meets no zero header at all is never stuck, whatever lies in
      front of the queue. */
  lemma {:induction false} NoZeroHeaderNeverStuck(back: seq<byte>, q: seq<byte>, maxlen: nat)
    requires |back| == BACK && !MeetsZeroHeader(q, maxlen)
    ensures !MeetsStuck(back, q, maxlen)
    decreases |q|
  {
    var d := Taken(DhavRule(maxlen), q);
    if d > 0 {
      NoZeroHeaderNeverStuck(Behind(back, q, d), q[d..], maxlen);
    }
  }

  /** Octets the parse takes. */
  function Consumed(q: seq<byte>, maxlen: nat): (d: nat)
    ensures d <= |q|
  {
    |q| - |Parse(DhavRule(maxlen), q).rest|
  }

  lemma ConsumedStep(q: seq<byte>, maxlen: nat)
    ensures var r := DhavRule(maxlen);
            var d := Taken(r, q);
            && (d == 0 ==> Consumed(q, maxlen) == 0 && Parse(r, q).rest == q)
            && (d > 0 ==> Consumed(q, maxlen) == d + Consumed(q[d..], maxlen)
                          && Parse(r, q).rest == Parse(r, q[d..]).rest)
  {
  }

  /** More data behind a queue. */
  lemma {:induction false} MeetsStuckAppend(back: seq<byte>, q: seq<byte>, m: seq<byte>, maxlen: nat)
    requires |back| == BACK && !MeetsStuck(back, q + m, maxlen)
    ensures !MeetsStuck(back, q, maxlen)
    ensures !MeetsStuck(Behind(back, q, Consumed(q, maxlen)), Parse(DhavRule(maxlen), q).rest + m, maxlen)
    decreases |q|
  {
    hide Parse, Behind, Consumed, HeadOf, ZeroHeader;
    var r := DhavRule(maxlen);
    var d := Taken(r, q);
    ConsumedStep(q, maxlen);
    BehindTwice(back, q, 0, 0);
    if Stuck(back, q) {
      ZeroHeaderAppend(q, m, maxlen);
    }
    if d > 0 {
      DhavRuleStable(maxlen);
      StableTaken(r, q, m);
      BehindAppend(back, q, m, d);
      MeetsStuckAppend(Behind(back, q, d), q[d..], m, maxlen);
      BehindTwice(back, q, d, Consumed(q[d..], maxlen));
    }
  }

  lemma ZeroHeaderAppend(q: seq<byte>, m: seq<byte>, maxlen: nat)
    requires ZeroHeader(q)
    ensures ZeroHeader(q + m)
  {
    VerdictStable(q, m, maxlen);
  }

  // ------------------------------------------------------- whole runs

  /** The queue: where it starts in the array, what lies in front of it, and what
      it holds. */
  datatype Queue = Queue(offs: nat, back: seq<byte>, rest: seq<byte>)

  /** A chunk loaded; packing puts the queue at the front of the array, right
      behind `under`. */
  function Loaded(under: seq<byte>, maxlen: nat, w: Queue, c: seq<byte>): Queue
  {
    if w.offs + |w.rest| + |c| > maxlen then Queue(0, under, w.rest + c) else Queue(w.offs, w.back, w.rest + c)
  }

  /** What is left of `l` when it has been drained down to `rest`. */
  function DrainedTo(l: Queue, rest: seq<byte>): (w: Queue)
    requires |l.back| == BACK && |rest| <= |l.rest|
    ensures |w.back| == BACK && w.rest == rest
  {
    var d := |l.rest| - |rest|;
    Queue(l.offs + d, Behind(l.back, l.rest, d), rest)
  }

  /** A full drain. */
  function Drained(maxlen: nat, l: Queue): (w: Queue)
    requires |l.back| == BACK
    ensures |w.back| == BACK
  {
    DrainedTo(l, Parse(DhavRule(maxlen), l.rest).rest)
  }

  lemma LoadedNothing(under: seq<byte>, maxlen: nat, w: Queue)
    requires w.offs + |w.rest| <= maxlen
    ensures Loaded(under, maxlen, w, []) == w
  {
    assert w.rest + [] == w.rest;
  }

  /** The window has moved on from `l` to `w`. */
  predicate MovedTo(l: Queue, w: Queue)
    requires |l.back| == BACK
  {
    && |w.rest| <= |l.rest|
    && var d := |l.rest| - |w.rest|; w == Queue(l.offs + d, Behind(l.back, l.rest, d), l.rest[d..])
  }

  lemma MovedTwice(l: Queue, w: Queue, w': Queue)
    requires |l.back| == BACK && MovedTo(l, w) && MovedTo(w, w')
    ensures MovedTo(l, w')
  {
    BehindTwice(l.back, l.rest, |l.rest| - |w.rest|, |w.rest| - |w'.rest|);
  }

  lemma MovedIsDrained(maxlen: nat, l: Queue, w: Queue, p: Parsed)
    requires |l.back| == BACK && MovedTo(l, w) && p == Parse(DhavRule(maxlen), l.rest) && w.rest == p.rest
    ensures w == Drained(maxlen, l)
  {
    hide Parse, Behind;
  }

  /** A run over chunks, each loaded and drained, comes to a zero header behind a
      zero trailer.  A chunk without room ends it. */
  predicate RunsStuck(under: seq<byte>, maxlen: nat, w: Queue, chunks: seq<seq<byte>>)
    requires |under| == |w.back| == BACK
    decreases |chunks|
  {
    && chunks != [] && |w.rest| + |chunks[0]| <= maxlen
    && var l := Loaded(under, maxlen, w, chunks[0]);
       MeetsStuck(l.back, l.rest, maxlen) || RunsStuck(under, maxlen, Drained(maxlen, l), chunks[1..])
  }

  /** A stream whose parse meets no zero header never runs into it. */
  lemma {:induction false} NoZeroHeaderNeverRuns(under: seq<byte>, maxlen: nat, w: Queue, chunks: seq<seq<byte>>)
    requires |under| == |w.back| == BACK && !MeetsZeroHeader(w.rest + Concat(chunks), maxlen)
    ensures !RunsStuck(under, maxlen, w, chunks)
    decreases |chunks|
  {
    if chunks != [] {
      var l := Loaded(under, maxlen, w, chunks[0]);
      Assoc(w.rest, chunks[0], Concat(chunks[1..]));
      MeetsZeroAppend(l.rest, Concat(chunks[1..]), maxlen);
      NoZeroHeaderNeverStuck(l.back, l.rest, maxlen);
      NoZeroHeaderNeverRuns(under, maxlen, Drained(maxlen, l), chunks[1..]);
    }
  }

  lemma MeetsZeroAppend(q: seq<byte>, m: seq<byte>, maxlen: nat)
    requires !MeetsZeroHeader(q + m, maxlen)
    ensures !MeetsZeroHeader(q, maxlen)
    ensures !MeetsZeroHeader(Parse(DhavRule(maxlen), q).rest + m, maxlen)
  {
    DhavRuleStable(maxlen);
    forall s: seq<byte>, t: seq<byte> ensures ZeroHeader(s) ==> ZeroHeader(s + t) {
      if |s| >= MIN_DATA {
        VerdictStable(s, t, maxlen);
      }
    }
    ReachesAppend(DhavRule(maxlen), ZeroHeader, q, m);
  }

  /** `b` from octet k on could become a zero trailer only if `t` could. */
  predicate NoWorseAt(b: seq<byte>, t: seq<byte>, k: nat)
    requires |b| == |t| == BACK && k <= BACK
  {
    b[k..] == ZERO_TRAILER[..BACK - k] ==> t[k..] == ZERO_TRAILER[..BACK - k]
  }

  ghost predicate NoWorse(b: seq<byte>, t: seq<byte>)
    requires |b| == |t| == BACK
  {
    forall k: nat :: k <= BACK ==> NoWorseAt(b, t, k)
  }

  /** No end of `under` is the start of a zero trailer. */
  ghost predicate Harmless(under: seq<byte>)
    requires |under| == BACK
  {
    forall k: nat :: k < BACK ==> under[k..] != ZERO_TRAILER[..BACK - k]
  }

  lemma HarmlessIsNoWorse(under: seq<byte>, t: seq<byte>)
    requires |under| == |t| == BACK && Harmless(under)
    ensures NoWorse(under, t)
  {
    forall k: nat | k <= BACK ensures NoWorseAt(under, t, k) {
      if k == BACK {
        assert t[k..] == [] == ZERO_TRAILER[..0];
      }
    }
  }

  lemma NoWorseMoves(b: seq<byte>, t: seq<byte>, q: seq<byte>, d: nat)
    requires |b| == |t| == BACK && NoWorse(b, t) && d <= |q|
    ensures NoWorse(Behind(b, q, d), Behind(t, q, d))
  {
    var b', t' := Behind(b, q, d), Behind(t, q, d);
    forall k: nat | k <= BACK ensures NoWorseAt(b', t', k) {
      if d + k < BACK {
        assert NoWorseAt(b, t, d + k);
        EndOfWindow(b, q, d, k);
        EndOfWindow(t, q, d, k);
      } else {
        assert b'[k..] == (b + q)[d + k..d + BACK] == q[d + k - BACK..d];
        assert t'[k..] == (t + q)[d + k..d + BACK] == q[d + k - BACK..d];
      }
    }
  }

  /** When a moved window ends like a zero trailer begins, then so did the window,
      and the octets moved over complete it. */
  lemma EndOfWindow(b: seq<byte>, q: seq<byte>, d: nat, k: nat)
    requires |b| == BACK && d <= |q| && d + k < BACK
    ensures Behind(b, q, d)[k..] == ZERO_TRAILER[..BACK - k] <==>
            b[d + k..] == ZERO_TRAILER[..BACK - (d + k)] && q[..d] == ZERO_TRAILER[BACK - (d + k)..BACK - k]
  {
    var n := BACK - (d + k);
    assert Behind(b, q, d)[k..] == b[d + k..] + q[..d];
    assert ZERO_TRAILER[..BACK - k] == ZERO_TRAILER[..n] + ZERO_TRAILER[n..BACK - k];
    var x, y := b[d + k..] + q[..d], ZERO_TRAILER[..n] + ZERO_TRAILER[n..BACK - k];
    assert x[..n] == b[d + k..] && x[n..] == q[..d];
    assert y[..n] == ZERO_TRAILER[..n] && y[n..] == ZERO_TRAILER[n..BACK - k];
  }

  lemma {:induction false} NoWorseStuck(b: seq<byte>, t: seq<byte>, q: seq<byte>, maxlen: nat)
    requires |b| == |t| == BACK && NoWorse(b, t) && MeetsStuck(b, q, maxlen)
    ensures MeetsStuck(t, q, maxlen)
    decreases |q|
  {
    if Stuck(b, q) {
      assert NoWorseAt(b, t, 0);
      assert b[0..] == b && t[0..] == t && ZERO_TRAILER[..BACK] == ZERO_TRAILER;
    } else {
      var d := Taken(DhavRule(maxlen), q);
      NoWorseMoves(b, t, q, d);
      NoWorseStuck(Behind(b, q, d), Behind(t, q, d), q[d..], maxlen);
    }
  }

  /** One chunk: `t` stands for the octets that really precede in the stream. */
  lemma HarmlessChunk(under: seq<byte>, maxlen: nat, w: Queue, t: seq<byte>, c: seq<byte>, later: seq<byte>)
    requires |under| == |w.back| == |t| == BACK && Harmless(under) && NoWorse(w.back, t)
    requires !MeetsStuck(t, w.rest + (c + later), maxlen)
    ensures var l := Loaded(under, maxlen, w, c);
            var t' := Behind(t, l.rest, Consumed(l.rest, maxlen));
            && !MeetsStuck(l.back, l.rest, maxlen)
            && NoWorse(Drained(maxlen, l).back, t')
            && !MeetsStuck(t', Drained(maxlen, l).rest + later, maxlen)
  {
    var l := Loaded(under, maxlen, w, c);
    HarmlessIsNoWorse(under, t);
    Assoc(w.rest, c, later);
    MeetsStuckAppend(t, l.rest, later, maxlen);
    if MeetsStuck(l.back, l.rest, maxlen) {
      NoWorseStuck(l.back, t, l.rest, maxlen);
    }
    NoWorseMoves(l.back, t, l.rest, Consumed(l.rest, maxlen));
  }

  /** If what lies in front of the array is harmless, packing cannot bring it
      about: the run is stuck only if the octets of the stream are, however they
      are cut. */
  lemma {:induction false} HarmlessRuns(under: seq<byte>, maxlen: nat, w: Queue, t: seq<byte>, chunks: seq<seq<byte>>)
    requires |under| == |w.back| == |t| == BACK && Harmless(under) && NoWorse(w.back, t)
    requires !MeetsStuck(t, w.rest + Concat(chunks), maxlen)
    ensures !RunsStuck(under, maxlen, w, chunks)
    decreases |chunks|
  {
    if chunks != [] {
      var l := Loaded(under, maxlen, w, chunks[0]);
      HarmlessChunk(under, maxlen, w, t, chunks[0], Concat(chunks[1..]));
      HarmlessRuns(under, maxlen, Drained(maxlen, l), Behind(t, l.rest, Consumed(l.rest, maxlen)), chunks[1..]);
    }
  }

  /** From an empty queue at the front of the array. */
  lemma HarmlessMemory(under: seq<byte>, maxlen: nat, chunks: seq<seq<byte>>)
    requires |under| == BACK && Harmless(under) && !MeetsStuck(under, Concat(chunks), maxlen)
    ensures !RunsStuck(under, maxlen, Queue(0, under, []), chunks)
  {
    assert NoWorse(under, under);
    Assoc([], [], Concat(chunks));
    HarmlessRuns(under, maxlen, Queue(0, under, []), under, chunks);
  }
}
