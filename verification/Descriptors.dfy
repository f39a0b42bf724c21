/** Non-blocking file descriptors as the rest of the program sees them.  What a
    descriptor will do is a script of events, so a property proved for every
    script holds under any short transfers, EAGAIN and failures. */
module Descriptors {
  import opened Bytes

  /** `Data([])` is a read that returns 0. */
  datatype ReadEvent = Data(bytes: seq<byte>) | ReadAgain | ReadFailed

  datatype WriteEvent = Accept(count: nat) | WriteAgain | WriteFailed

  /** Everything a script will ever deliver. */
  function Offered(s: seq<ReadEvent>): seq<byte>
  {
    if s == [] then []
    else (if s[0].Data? then s[0].bytes else []) + Offered(s[1..])
  }

  datatype Given = Given(bytes: seq<byte>, again: bool, failed: bool, rest: seq<ReadEvent>)

  /** A read of up to `n` octets. */
  function Give(s: seq<ReadEvent>, n: nat): (g: Given)
    ensures |g.bytes| <= n && (g.again || g.failed ==> g.bytes == [])
  {
    if s == [] then Given([], false, false, [])
    else match s[0]
         case ReadAgain => Given([], true, false, s[1..])
         case ReadFailed => Given([], false, true, s[1..])
         case Data(d) =>
           if |d| <= n then Given(d, false, false, s[1..])
           else Given(d[..n], false, false, [Data(d[n..])] + s[1..])
  }

  lemma GiveLosesNothing(s: seq<ReadEvent>, n: nat)
    ensures Give(s, n).bytes + Offered(Give(s, n).rest) == Offered(s)
  {
    if s != [] && s[0].Data? {
      var d := s[0].bytes;
      if |d| > n {
        assert ([Data(d[n..])] + s[1..])[1..] == s[1..];
        assert d[..n] + (d[n..] + Offered(s[1..])) == d + Offered(s[1..]);
      }
    }
  }

  /** Reads of a script that fail. */
  function ReadFailures(s: seq<ReadEvent>): nat
  {
    if s == [] then 0 else (if s[0].ReadFailed? then 1 else 0) + ReadFailures(s[1..])
  }

  lemma GiveFails(s: seq<ReadEvent>, n: nat)
    ensures var g := Give(s, n); ReadFailures(s) == ReadFailures(g.rest) + if g.failed then 1 else 0
  {
    if s != [] && s[0].Data? && |s[0].bytes| > n {
      assert ([Data(s[0].bytes[n..])] + s[1..])[1..] == s[1..];
    }
  }

  datatype Taken = Taken(count: nat, again: bool, failed: bool, rest: seq<WriteEvent>)

  /** A write of `n` octets. */
  function Take(s: seq<WriteEvent>, n: nat): (t: Taken)
    ensures t.count <= n && (t.again || t.failed ==> t.count == 0)
  {
    if s == [] then Taken(0, false, false, [])
    else match s[0]
         case WriteAgain => Taken(0, true, false, s[1..])
         case WriteFailed => Taken(0, false, true, s[1..])
         case Accept(k) => Taken(if k < n then k else n, false, false, s[1..])
  }

  /** Writes of a script that fail. */
  function WriteFailures(s: seq<WriteEvent>): nat
  {
    if s == [] then 0 else (if s[0].WriteFailed? then 1 else 0) + WriteFailures(s[1..])
  }

  lemma TakeFails(s: seq<WriteEvent>, n: nat)
    ensures var t := Take(s, n); WriteFailures(s) == WriteFailures(t.rest) + if t.failed then 1 else 0
  {
  }

  /** Every read brings something, while there is something. */
  ghost predicate Flows(s: seq<ReadEvent>)
  {
    forall i :: 0 <= i < |s| ==> s[i].Data? && s[i].bytes != []
  }

  lemma GiveFlows(s: seq<ReadEvent>, n: nat)
    requires Flows(s)
    ensures var g := Give(s, n); Flows(g.rest) && (s != [] && n > 0 ==> g.bytes != [])
  {
  }

  lemma {:induction false} FlowNeverFails(s: seq<ReadEvent>)
    requires Flows(s)
    ensures ReadFailures(s) == 0 && (Offered(s) == [] <==> s == [])
    decreases |s|
  {
    if s != [] {
      FlowNeverFails(s[1..]);
    }
  }

  /** So do the next n writes take something, and all of them are willing. */
  ghost predicate Drains(s: seq<WriteEvent>, n: nat)
  {
    |s| >= n && forall i :: 0 <= i < |s| ==> s[i].Accept? && s[i].count > 0
  }

  lemma TakeDrains(s: seq<WriteEvent>, n: nat, left: nat)
    requires Drains(s, left + 1)
    ensures var t := Take(s, n); Drains(t.rest, left) && (n > 0 ==> t.count > 0)
  {
  }

  lemma {:induction false} DrainNeverFails(s: seq<WriteEvent>)
    requires Drains(s, 0)
    ensures WriteFailures(s) == 0
    decreases |s|
  {
    if s != [] {
      DrainNeverFails(s[1..]);
    }
  }

  class Reader {
    var script: seq<ReadEvent>
    /** All octets read so far. */
    var got: seq<byte>

    constructor (script: seq<ReadEvent>)
      ensures this.script == script && got == []
    {
      this.script, got := script, [];
    }

    /** read() of up to `n` octets into `b` at `at`; -1 comes with one of the
        two flags.  Only called where there is room. */
    method Read(b: array<byte>, at: nat, n: nat) returns (ret: int, again: bool)
      requires 0 < n && at + n <= b.Length
      modifies this, b
      ensures var g := Give(old(script), n);
              && script == g.rest && got == old(got) + g.bytes && again == g.again
              && ret == (if g.again || g.failed then -1 else |g.bytes|)
              && b[at..at + |g.bytes|] == g.bytes
              && b[..at] == old(b[..at]) && b[at + |g.bytes|..] == old(b[at + |g.bytes|..])
    {
      var g := Give(script, n);
      script, got := g.rest, got + g.bytes;
      forall i | 0 <= i < |g.bytes| {
        b[at + i] := g.bytes[i];
      }
      ret, again := if g.again || g.failed then -1 else |g.bytes|, g.again;
    }
  }

  class Writer {
    var script: seq<WriteEvent>
    /** All octets written so far. */
    var sent: seq<byte>

    constructor (script: seq<WriteEvent>)
      ensures this.script == script && sent == []
    {
      this.script, sent := script, [];
    }

    /** write() of `n` octets of `b` from `at` on.  Only called with something
        to write. */
    method Write(b: array<byte>, at: nat, n: nat) returns (ret: int, again: bool)
      requires 0 < n && at + n <= b.Length
      modifies this
      ensures var t := Take(old(script), n);
              && script == t.rest && sent == old(sent) + b[at..at + t.count] && again == t.again
              && ret == (if t.again || t.failed then -1 else t.count)
    {
      var t := Take(script, n);
      script, sent := t.rest, sent + b[at..at + t.count];
      ret, again := if t.again || t.failed then -1 else t.count, t.again;
    }
  }
}
