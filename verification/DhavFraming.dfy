/** What the DHAV deframer of mctools.c computes, as functions of the queue,
    and the theorems about it.  StreamQueue.dfy proves the in-place code
    against `Step`. */
module DhavFraming {
  import opened Bytes

  /** No decision is taken on fewer octets than this. */
  const MIN_DATA := 16

  /** The trailer is looked for at (reported length - 8) octets past the frame
      start, so for lengths below 8 up to 8 octets in front of it are read. */
  const BACK := 8

  const NEUTRAL: seq<byte> := [0, 0, 0, 0, 0, 0, 0, 0]

  /** The only octets in front of a frame that ever change a decision. */
  const ZERO_TRAILER: seq<byte> := [0x64, 0x68, 0x61, 0x76, 0, 0, 0, 0]

  datatype Verdict = Garbage | Incomplete | Whole(len: nat)

  /** One pass of the checks at the head of queue `q`; `back` is what lies in
      memory right in front of it. */
  function Judge(back: seq<byte>, q: seq<byte>, maxlen: nat): (v: Verdict)
    requires |back| == BACK && |q| >= MIN_DATA
    ensures v.Whole? ==> v.len <= |q| && v.len <= maxlen
  {
    if q[..4] != DHAV_MARK then Garbage
    else
      var n := Len32(q[12..16]);
      if n > maxlen then Garbage
      else if n > |q| then Incomplete
      else
        var trailer := (back + q)[n..n + 8];
        if trailer[..4] == TRAILER_MARK && Len32(trailer[4..]) == n then Whole(n) else Garbage
  }

  // ---------------------------------------------------------------- one call

  /** Result of one call: return code, emitted frame, and the queue left. */
  datatype Outcome = Outcome(ret: int, frame: seq<byte>, back: seq<byte>, rest: seq<byte>)

  /** One call on a loaded queue, dropping garbage one octet at a time. */
  function Step(back: seq<byte>, q: seq<byte>, maxlen: nat, maxDst: nat): (o: Outcome)
    requires |back| == BACK
    ensures |o.back| == BACK && |o.rest| <= |q|
    ensures o.ret in {0, 1, 3, -3}
    ensures o.ret == 0 ==> o.frame == []
    decreases |q|
  {
    if |q| < MIN_DATA then Outcome(0, [], back, q)
    else
      match Judge(back, q, maxlen)
      case Incomplete => Outcome(0, [], back, q)
      case Whole(n) =>
        if maxDst < n then Outcome(-3, [], back, q)
        else Outcome(1, q[..n], (back + q)[n..n + 8], q[n..])
      case Garbage =>
        var back', q' := (back + q)[1..9], q[1..];
        if |q'| < MIN_DATA then Outcome(3, [], back', q') else Step(back', q', maxlen, maxDst)
  }

  /** How the call goes on after at least one octet has been dropped. */
  function Resume(back: seq<byte>, q: seq<byte>, maxlen: nat, maxDst: nat): (o: Outcome)
    requires |back| == BACK
  {
    if |q| < MIN_DATA then Outcome(3, [], back, q) else Step(back, q, maxlen, maxDst)
  }

  lemma StepCases(back: seq<byte>, q: seq<byte>, maxlen: nat, maxDst: nat)
    requires |back| == BACK
    ensures var o := Step(back, q, maxlen, maxDst);
            if |q| < MIN_DATA then o == Outcome(0, [], back, q)
            else
              match Judge(back, q, maxlen)
              case Incomplete => o == Outcome(0, [], back, q)
              case Whole(n) =>
                n <= |q| &&
                o == if maxDst < n then Outcome(-3, [], back, q) else Outcome(1, q[..n], (back + q)[n..n + 8], q[n..])
              case Garbage => true
  {
  }

  lemma StepOnGarbage(back: seq<byte>, q: seq<byte>, maxlen: nat, maxDst: nat)
    requires |back| == BACK && |q| >= MIN_DATA && Judge(back, q, maxlen) == Garbage
    ensures Step(back, q, maxlen, maxDst) == Resume((back + q)[1..9], q[1..], maxlen, maxDst)
  {
  }

  lemma ResumeCases(back: seq<byte>, q: seq<byte>, maxlen: nat, maxDst: nat)
    requires |back| == BACK
    ensures Resume(back, q, maxlen, maxDst) ==
            if |q| < MIN_DATA then Outcome(3, [], back, q) else Step(back, q, maxlen, maxDst)
  {
  }

  /** A buffer too short for the frame: -3, and the frame stays in the queue; any
      other buffer gives what a long one does. */
  lemma {:induction false} ShortBuffer(back: seq<byte>, q: seq<byte>, maxlen: nat, maxDst: nat)
    requires |back| == BACK
    ensures var o, s := Step(back, q, maxlen, maxlen), Step(back, q, maxlen, maxDst);
            if o.ret == 1 && |o.frame| > maxDst then s.ret == -3 && s.frame == [] && s.rest == o.frame + o.rest
            else s == o
    decreases |q|
  {
    if |q| >= MIN_DATA {
      match Judge(back, q, maxlen) {
        case Incomplete =>
        case Whole(n) => assert q[..n] + q[n..] == q;
        case Garbage =>
          if |q| > MIN_DATA {
            ShortBuffer((back + q)[1..9], q[1..], maxlen, maxDst);
          }
      }
    }
  }

  /** What the codes say: 3 comes exactly when garbage has been dropped down to 15
      octets; 0 otherwise leaves a frame to wait for, or less than there was need
      of to begin with. */
  lemma {:induction false} StepCodes(back: seq<byte>, q: seq<byte>, maxlen: nat)
    requires |back| == BACK
    ensures var o := Step(back, q, maxlen, maxlen);
            && o.ret in {0, 1, 3} && (o.ret == 3 ==> |q| > 15 && |o.rest| == 15 && o.frame == [])
            && (o.ret == 0 ==> o.frame == [] && if |q| < 16 then o.rest == q else |o.rest| >= 16)
    decreases |q|
  {
    if |q| > MIN_DATA && Judge(back, q, maxlen).Garbage? {
      StepCodes((back + q)[1..9], q[1..], maxlen);
    }
  }

  // ------------------------------------------------------- acceptable lengths

  /** A header whose length field is zero. */
  predicate ZeroHeader(q: seq<byte>)
  {
    |q| >= MIN_DATA && q[..4] == DHAV_MARK && Len32(q[12..16]) == 0
  }

  /** An accepted length is 12, or at least 16, or it is 0: the last only for a
      zero header that follows a trailer which itself carries length zero. */
  lemma AcceptedLengths(back: seq<byte>, q: seq<byte>, maxlen: nat)
    requires |back| == BACK && |q| >= MIN_DATA
    ensures Judge(back, q, maxlen).Whole? ==>
              var n := Judge(back, q, maxlen).len;
              n == 12 || n >= 16 || (n == 0 && back == ZERO_TRAILER)
    ensures Judge(back, q, maxlen) == Whole(0) <==> ZeroHeader(q) && back == ZERO_TRAILER
  {
    if q[..4] == DHAV_MARK {
      HeadOctets(q);
      var n := Len32(q[12..16]);
      if n <= maxlen && n <= |q| && n < 16 {
        SmallLength(q, n);
        var w := (back + q)[n..n + 8];
        TrailerOctets(w);
        if n == 0 {
          assert w == back;
          ZeroTrailer(back);
        } else if w[..4] == TRAILER_MARK && Len32(w[4..]) == n {
          ShortLengthImpossible(back, q, n);
        }
      }
    }
  }

  lemma HeadOctets(q: seq<byte>)
    requires |q| >= 4
    ensures q[..4] == DHAV_MARK <==> q[0] == 0x44 && q[1] == 0x48 && q[2] == 0x41 && q[3] == 0x56
  {
    assert q[..4] == [q[0], q[1], q[2], q[3]];
  }

  lemma TrailerOctets(w: seq<byte>)
    requires |w| >= 4
    ensures w[..4] == TRAILER_MARK <==> w[0] == 0x64 && w[1] == 0x68 && w[2] == 0x61 && w[3] == 0x76
  {
    assert w[..4] == [w[0], w[1], w[2], w[3]];
  }

  lemma SmallLength(q: seq<byte>, n: nat)
    requires |q| >= MIN_DATA && Len32(q[12..16]) == n < 256
    ensures q[12] == n && q[13] == 0 && q[14] == 0 && q[15] == 0
  {
    var b := q[12..16];
    assert b[0] == q[12] && b[1] == q[13] && b[2] == q[14] && b[3] == q[15];
  }

  lemma ZeroTrailer(w: seq<byte>)
    requires |w| == 8
    ensures w[..4] == TRAILER_MARK && Len32(w[4..]) == 0 <==> w == ZERO_TRAILER
  {
    TrailerOctets(w);
    var b := w[4..];
    assert b[0] == w[4] && b[1] == w[5] && b[2] == w[6] && b[3] == w[7];
    assert w == ZERO_TRAILER <==> forall i :: 0 <= i < 8 ==> w[i] == ZERO_TRAILER[i];
  }

  /** Between 1 and 15, only 12 leaves room for both marks and both lengths. */
  lemma ShortLengthImpossible(back: seq<byte>, q: seq<byte>, n: nat)
    requires |back| == BACK && |q| >= MIN_DATA && 0 < n < 16
    requires q[..4] == DHAV_MARK && Len32(q[12..16]) == n
    requires (back + q)[n..n + 8][..4] == TRAILER_MARK && Len32((back + q)[n..n + 8][4..]) == n
    ensures n == 12
  {
    HeadOctets(q);
    SmallLength(q, n);
    var w := (back + q)[n..n + 8];
    TrailerOctets(w);
    var b := w[4..];
    assert b[0] == w[4] && b[1] == w[5] && b[2] == w[6] && b[3] == w[7];
    assert forall i :: 0 <= i < 8 && n + i >= 8 ==> w[i] == q[n + i - 8];
  }

  /** The octets in front of the queue matter exactly for zero headers. */
  lemma BackMattersOnlyForZeroHeaders(q: seq<byte>, maxlen: nat)
    requires |q| >= MIN_DATA
    ensures (forall back: seq<byte> | |back| == BACK :: Judge(back, q, maxlen) == Judge(NEUTRAL, q, maxlen))
            <==> !ZeroHeader(q)
  {
    if ZeroHeader(q) {
      AcceptedLengths(ZERO_TRAILER, q, maxlen);
      AcceptedLengths(NEUTRAL, q, maxlen);
      assert Judge(ZERO_TRAILER, q, maxlen) != Judge(NEUTRAL, q, maxlen) by { assert NEUTRAL[0] != ZERO_TRAILER[0]; }
    } else {
      forall back: seq<byte> | |back| == BACK
        ensures Judge(back, q, maxlen) == Judge(NEUTRAL, q, maxlen)
      {
        SameVerdict(back, NEUTRAL, q, maxlen);
      }
    }
  }

  lemma TrailerInsideQueue(back: seq<byte>, q: seq<byte>, n: nat)
    requires |back| == BACK && BACK <= n <= |q|
    ensures (back + q)[n..n + 8] == q[n - 8..n]
  {
  }

  lemma SameVerdict(back: seq<byte>, back': seq<byte>, q: seq<byte>, maxlen: nat)
    requires |back| == |back'| == BACK && |q| >= MIN_DATA
    requires ZeroHeader(q) ==> back != ZERO_TRAILER && back' != ZERO_TRAILER
    ensures Judge(back, q, maxlen) == Judge(back', q, maxlen)
  {
    AcceptedLengths(back, q, maxlen);
    AcceptedLengths(back', q, maxlen);
    if q[..4] == DHAV_MARK {
      var n := Len32(q[12..16]);
      if 8 <= n <= |q| {
        TrailerInsideQueue(back, q, n);
        TrailerInsideQueue(back', q, n);
      }
    }
  }
}
