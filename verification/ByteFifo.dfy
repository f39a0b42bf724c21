/** The circular byte FIFO of bufftools.c, as an unbroken byte queue. */
module ByteFifo {
  import opened Bytes
  import opened Descriptors

  /** What poll() says of a descriptor when the FIFO is to ask by itself. */
  datatype PollAnswer = PollFails | Collapsed | Usable

  const AGAIN := -1
  const FULL := -2
  const FATAL := -100

  /** What one call moves: the octets, and the code it returns. */
  datatype Filled = Filled(bytes: seq<byte>, code: int, rest: seq<ReadEvent>)

  function FillOne(n: nat, fatal: int, s: seq<ReadEvent>): (f: Filled)
    ensures |f.bytes| <= n
  {
    var g := Give(s, n);
    Filled(g.bytes, if g.again then AGAIN else if g.failed then fatal else |g.bytes|, g.rest)
  }

  /** Filling the free room: one stretch of it, or two with the second only
      tried once the first is full. */
  function Fill(room: seq<nat>, s: seq<ReadEvent>): (f: Filled)
    requires 1 <= |room| <= 2
  {
    if |room| == 1 then FillOne(room[0], -1401, s)
    else
      var a := FillOne(room[0], -1301, s);
      if |a.bytes| < room[0] then a
      else
        var b := FillOne(room[1], -1401, a.rest);
        Filled(a.bytes + b.bytes, b.code, b.rest)
  }

  datatype Emptied = Emptied(count: nat, code: int, rest: seq<WriteEvent>)

  function EmptyOne(n: nat, s: seq<WriteEvent>): (e: Emptied)
    ensures e.count <= n
  {
    var t := Take(s, n);
    Emptied(t.count, if t.again then AGAIN else if t.failed then -101 else t.count, t.rest)
  }

  /** The same for the stored octets. */
  function Empty(stored: seq<nat>, s: seq<WriteEvent>): (e: Emptied)
    requires 1 <= |stored| <= 2
    ensures e.count <= if |stored| == 1 then stored[0] else stored[0] + stored[1]
  {
    if |stored| == 1 then EmptyOne(stored[0], s)
    else
      var a := EmptyOne(stored[0], s);
      if a.count < stored[0] then a
      else
        var b := EmptyOne(stored[1], a.rest);
        Emptied(a.count + b.count, b.code, b.rest)
  }

  /** Both loaded octets and script account for all that was offered, and what
      is loaded fits. */
  lemma FillLosesNothing(room: seq<nat>, s: seq<ReadEvent>)
    requires 1 <= |room| <= 2
    ensures var f := Fill(room, s);
            && f.bytes + Offered(f.rest) == Offered(s)
            && |f.bytes| <= if |room| == 1 then room[0] else room[0] + room[1]
  {
    GiveLosesNothing(s, room[0]);
    if |room| == 2 {
      var a := FillOne(room[0], -1301, s);
      GiveLosesNothing(a.rest, room[1]);
      var b := FillOne(room[1], -1401, a.rest);
      assert a.bytes + (b.bytes + Offered(b.rest)) == a.bytes + b.bytes + Offered(b.rest);
    }
  }

  /** The header comment promises the total of octets read, and that none were
      read when the code is negative.  That holds exactly as long as there is only
      one stretch of free room, or the first read does not fill the first. */
  lemma FillCountIsTotal(room: seq<nat>, s: seq<ReadEvent>)
    requires 1 <= |room| <= 2 && room[0] > 0
    ensures var f := Fill(room, s);
            (f.code >= 0 ==> f.code == |f.bytes|) && (f.code < 0 ==> f.bytes == [])
            <==> |room| == 1 || |FillOne(room[0], -1301, s).bytes| < room[0]
  {
  }

  /** Likewise for writing. */
  lemma EmptyCountIsTotal(stored: seq<nat>, s: seq<WriteEvent>)
    requires 1 <= |stored| <= 2 && stored[0] > 0
    ensures var e := Empty(stored, s);
            (e.code >= 0 ==> e.code == e.count) && (e.code < 0 ==> e.count == 0)
            <==> |stored| == 1 || EmptyOne(stored[0], s).count < stored[0]
  {
  }

  /** Where the first stretch is filled, and where it is emptied, the code may be
      negative though an octet was moved. */
  lemma CountsAreNotTotal()
    ensures var f := Fill([1, 1], [Data([7]), ReadAgain]); f.code == -1 && f.bytes == [7]
    ensures var e := Empty([1, 1], [Accept(1), WriteAgain]); e.code == -1 && e.count == 1
  {
  }

  /** Which code a failure gives tells which stretch it was met in. */
  lemma FailureCodes(room: seq<nat>, s: seq<ReadEvent>)
    requires 1 <= |room| <= 2 && room[0] > 0 && s != [] && s[0].ReadFailed?
    ensures Fill(room, s).code == if |room| == 1 then -1401 else -1301
    ensures forall d: byte :: Fill([1, 1], [Data([d])] + s).code == -1401
    ensures Empty(room, [WriteFailed]).code == -101
  {
    forall d: byte ensures Fill([1, 1], [Data([d])] + s).code == -1401 {
      assert ([Data([d])] + s)[1..] == s;
    }
  }

  /** A fatal code comes with a read that failed, and only with one. */
  lemma FillFails(room: seq<nat>, s: seq<ReadEvent>)
    requires 1 <= |room| <= 2 && (|room| == 2 ==> room[0] > 0)
    ensures var f := Fill(room, s);
            ReadFailures(s) == ReadFailures(f.rest) + if f.code <= FATAL then 1 else 0
  {
    GiveFails(s, room[0]);
    if |room| == 2 {
      GiveFails(FillOne(room[0], -1301, s).rest, room[1]);
    }
  }

  /** Likewise for writing. */
  lemma EmptyFails(stored: seq<nat>, s: seq<WriteEvent>)
    requires 1 <= |stored| <= 2 && (|stored| == 2 ==> stored[0] > 0)
    ensures var e := Empty(stored, s);
            WriteFailures(s) == WriteFailures(e.rest) + if e.code <= FATAL then 1 else 0
  {
    TakeFails(s, stored[0]);
    if |stored| == 2 {
      TakeFails(EmptyOne(stored[0], s).rest, stored[1]);
    }
  }

  /** One stretch or two that make up n octets. */
  predicate Stretches(r: seq<nat>, n: nat)
  {
    || (|r| == 1 && r[0] == n)
    || (|r| == 2 && r[0] > 0 && r[1] > 0 && r[0] + r[1] == n)
  }

  lemma FillFlows(room: seq<nat>, n: nat, s: seq<ReadEvent>)
    requires Stretches(room, n) && Flows(s)
    ensures var f := Fill(room, s); Flows(f.rest) && (s != [] && n > 0 ==> f.bytes != [])
  {
    GiveFlows(s, room[0]);
    if |room| == 2 {
      GiveFlows(Give(s, room[0]).rest, room[1]);
    }
  }

  lemma EmptyDrains(stored: seq<nat>, n: nat, s: seq<WriteEvent>, left: nat)
    requires Stretches(stored, n) && Drains(s, left + 2)
    ensures var e := Empty(stored, s); Drains(e.rest, left) && (n > 0 ==> e.count > 0)
  {
    TakeDrains(s, stored[0], left + 1);
    if |stored| == 2 {
      TakeDrains(Take(s, stored[0]).rest, stored[1], left);
    }
  }

  /** `n` octets of the circular memory `m` from `at` on. */
  function Window(m: seq<byte>, at: nat, n: nat): (q: seq<byte>)
    requires at < |m| && n <= |m|
    ensures |q| == n
  {
    if at + n <= |m| then m[at..at + n] else m[at..] + m[..at + n - |m|]
  }

  /** Octets stored right behind a window extend it, if they do not reach round
      to its start. */
  lemma WindowGrows(m: seq<byte>, m': seq<byte>, at: nat, n: nat, end: nat, bytes: seq<byte>)
    requires |m| == |m'| && at < |m| && n + |bytes| <= |m|
    requires end == if at + n < |m| then at + n else at + n - |m|
    requires end + |bytes| <= |m| && m'[end..end + |bytes|] == bytes
    requires forall j :: 0 <= j < |m| && !(end <= j < end + |bytes|) ==> m'[j] == m[j]
    ensures Window(m', at, n + |bytes|) == Window(m, at, n) + bytes
  {
    if at + n < |m| {
      GrowsStraight(m, m', at, end, bytes);
    } else {
      GrowsRound(m, m', at, end, bytes);
    }
  }

  lemma GrowsStraight(m: seq<byte>, m': seq<byte>, at: nat, end: nat, bytes: seq<byte>)
    requires at <= end && end + |bytes| <= |m| == |m'| && m'[end..end + |bytes|] == bytes
    requires forall j :: at <= j < end ==> m'[j] == m[j]
    ensures m'[at..end + |bytes|] == m[at..end] + bytes
  {
    assert m'[at..end] == m[at..end];
    assert m'[at..end + |bytes|] == m'[at..end] + m'[end..end + |bytes|];
  }

  lemma GrowsRound(m: seq<byte>, m': seq<byte>, at: nat, end: nat, bytes: seq<byte>)
    requires end + |bytes| <= at <= |m| == |m'| && m'[end..end + |bytes|] == bytes
    requires forall j :: 0 <= j < end || at <= j < |m| ==> m'[j] == m[j]
    ensures m'[at..] + m'[..end + |bytes|] == m[at..] + m[..end] + bytes
  {
    GrowsStraight(m, m', 0, end, bytes);
    assert m'[at..] == m[at..];
    Assoc(m[at..], m[..end], bytes);
  }

  lemma StoredBehind(m: seq<byte>, m': seq<byte>, end: nat, bytes: seq<byte>)
    requires |m| == |m'| && end + |bytes| <= |m|
    requires m'[..end] == m[..end] && m'[end + |bytes|..] == m[end + |bytes|..]
    ensures forall j :: 0 <= j < |m| && !(end <= j < end + |bytes|) ==> m'[j] == m[j]
  {
    assert m' == m'[..end] + m'[end..end + |bytes|] + m'[end + |bytes|..];
    assert m == m[..end] + m[end..end + |bytes|] + m[end + |bytes|..];
  }

  /** Taking octets from the front moves a window round. */
  lemma WindowShrinks(m: seq<byte>, at: nat, n: nat, k: nat)
    requires at < |m| && k <= n <= |m| && at + k <= |m|
    ensures m[at..at + k] == Window(m, at, n)[..k]
    ensures Window(m, if at + k == |m| then 0 else at + k, n - k) == Window(m, at, n)[k..]
  {
    if at + n > |m| {
      var front, back := m[at..], m[..at + n - |m|];
      assert (front + back)[..k] == front[..k] == m[at..at + k];
      assert (front + back)[k..] == front[k..] + back;
      assert front[k..] == m[at + k..];
    } else {
      assert m[at..at + n][..k] == m[at..at + k];
      assert m[at..at + n][k..] == m[at + k..at + n];
    }
  }

  lemma TakenTwice(sent: seq<byte>, q: seq<byte>, i: nat, j: nat)
    requires i + j <= |q|
    ensures sent + q[..i] + q[i..][..j] == sent + q[..i + j]
    ensures q[i..][j..] == q[i + j..]
    ensures sent + q[..0] == sent && q[0..] == q
  {
    assert q[..i] + q[i..][..j] == q[..i + j];
    Assoc(sent, q[..i], q[i..][..j]);
  }

  class BtFifo {
    const b: array<byte>
    var assumeReady: bool
    var useWmin: bool
    var wmin: nat
    var dlen: nat
    var dpos: nat

    ghost predicate Valid()
      reads this
    {
      0 < b.Length && dlen <= b.Length && dpos < b.Length
    }

    /** The stored octets, oldest first. */
    function Contents(): (q: seq<byte>)
      reads this, b
      requires Valid()
      ensures |q| == dlen
    {
      Window(b[..], dpos, dlen)
    }

    /** Stretches of free room, in the order they are filled. */
    function Room(): (r: seq<nat>)
      reads this
      requires Valid()
      ensures 1 <= |r| <= 2 && Stretches(r, b.Length - dlen)
    {
      if dpos != 0 && dpos + dlen < b.Length then [b.Length - (dpos + dlen), dpos]
      else [b.Length - dlen]
    }

    /** Stretches of stored octets. */
    function Stored(): (r: seq<nat>)
      reads this
      requires Valid()
      ensures 1 <= |r| <= 2 && Stretches(r, dlen)
    {
      if dpos != 0 && dpos + dlen > b.Length then [b.Length - dpos, dpos + dlen - b.Length]
      else [dlen]
    }

    /** btfifo_create, when malloc succeeds. */
    constructor (bsize: nat, assumeReady: bool, useWmin: bool, wmin: nat)
      requires bsize > 0
      ensures Valid() && fresh(b) && b.Length == bsize && Contents() == []
      ensures this.assumeReady == assumeReady && this.useWmin == useWmin && this.wmin == wmin
    {
      b := new byte[bsize];
      this.assumeReady, this.useWmin, this.wmin := assumeReady, useWmin, wmin;
      dlen, dpos := 0, 0;
    }

    /** btfifo_get_free_len */
    function FreeLen(): (n: nat)
      reads this
      requires Valid()
      ensures n + StoredLen() == b.Length
    {
      b.Length - dlen
    }

    /** btfifo_get_stored_len */
    function StoredLen(): (n: nat)
      reads this, b
      requires Valid()
      ensures n == |Contents()|
    {
      dlen
    }

    /** What a call writes, if the descriptor answers with `s`. */
    function Outgoing(s: seq<WriteEvent>): (e: Emptied)
      reads this
      requires Valid()
      ensures e.count <= dlen
    {
      if dlen == 0 || (useWmin && wmin > dlen) then Emptied(0, 0, s) else Empty(Stored(), s)
    }

    /** One read into the free stretch that starts at `at`. */
    method ReadStretch(fd: Reader, at: nat, n: nat, fatal: int) returns (ret: int)
      requires Valid() && 0 < n <= b.Length - dlen && fatal < 0
      requires at == (if dpos + dlen < b.Length then dpos + dlen else dpos + dlen - b.Length)
      requires if at < dpos then n <= dpos - at else at + n <= b.Length
      modifies this`dlen, b, fd
      ensures Valid()
      ensures var f := FillOne(n, fatal, old(fd.script));
              && ret == f.code && fd.script == f.rest && fd.got == old(fd.got) + f.bytes
              && Contents() == old(Contents()) + f.bytes
    {
      ghost var m, g := b[..], Give(fd.script, n);
      var again;
      ret, again := fd.Read(b, at, n);
      StoredBehind(m, b[..], at, g.bytes);
      WindowGrows(m, b[..], dpos, dlen, at, g.bytes);
      if ret == -1 {
        ret := if again then AGAIN else fatal;
        return;
      }
      dlen := dlen + ret;
    }

    /** Reading into the free room, stretch by stretch. */
    method ReadRoom(fd: Reader) returns (ret: int)
      requires Valid() && dlen < b.Length
      modifies this`dlen, b, fd
      ensures Valid()
      ensures var f := Fill(old(Room()), old(fd.script));
              && ret == f.code && fd.script == f.rest && fd.got == old(fd.got) + f.bytes
              && Contents() == old(Contents()) + f.bytes
    {
      hide Window;
      ghost var before, was := Contents(), fd.got;
      ghost var a: seq<byte> := [];
      if dpos != 0 && dpos + dlen < b.Length {
        var fLen := b.Length - (dpos + dlen);
        a := FillOne(fLen, -1301, fd.script).bytes;
        ret := ReadStretch(fd, dpos + dlen, fLen, -1301);
        if ret != fLen {
          return;
        }
      }
      Assoc(before, a, []);
      Assoc(was, a, []);
      var fLen := b.Length - dlen;
      ghost var c := FillOne(fLen, -1401, fd.script).bytes;
      ret := ReadStretch(fd, if dpos == 0 then dlen else dpos - fLen, fLen, -1401);
      Assoc(before, a, c);
      Assoc(was, a, c);
    }

    /** btfifo_fd_to_fifo.  The octets got from `fd` are exactly those appended
        to the queue. */
    method FdToFifo(fd: Reader, answer: PollAnswer) returns (ret: int)
      requires Valid()
      modifies this`dlen, b, fd
      ensures Valid()
      ensures !assumeReady && answer != Usable ==>
                ret == (if answer == PollFails then -103 else -1201) && unchanged(this, b, fd)
      ensures assumeReady || answer == Usable ==>
                if old(FreeLen()) == 0 then ret == FULL && unchanged(this, b, fd)
                else
                  var f := Fill(old(Room()), old(fd.script));
                  && ret == f.code && fd.script == f.rest && fd.got == old(fd.got) + f.bytes
                  && Contents() == old(Contents()) + f.bytes
    {
      if !assumeReady {
        if answer == PollFails {
          return -103;
        }
        if answer == Collapsed {
          return -1201;
        }
      }
      if b.Length - dlen == 0 {
        return FULL;
      }
      ret := ReadRoom(fd);
    }

    /** One write of the first `n` stored octets, which lie in one stretch. */
    method WriteStretch(fd: Writer, n: nat) returns (ret: int, written: nat)
      requires Valid() && 0 < n <= dlen && dpos + n <= b.Length
      requires n == dlen || dpos + n == b.Length
      modifies this`dlen, this`dpos, fd
      ensures Valid()
      ensures var e := EmptyOne(n, old(fd.script));
              && ret == e.code && written == e.count && fd.script == e.rest
              && fd.sent == old(fd.sent) + old(Contents())[..e.count]
              && Contents() == old(Contents())[e.count..]
              && dpos == (if old(dpos) + e.count == b.Length then 0 else old(dpos) + e.count)
    {
      hide Window;
      WindowShrinks(b[..], dpos, dlen, Take(fd.script, n).count);
      var again;
      ret, again := fd.Write(b, dpos, n);
      written := 0;
      if ret == -1 {
        ret := if again then AGAIN else -101;
        return;
      }
      written := ret;
      dlen := dlen - written;
      dpos := dpos + written;
      if dpos == b.Length {
        dpos := 0;
      }
    }

    /** Writing the stored octets, stretch by stretch. */
    method WriteStored(fd: Writer) returns (ret: int)
      requires Valid() && dlen > 0
      modifies this`dlen, this`dpos, fd
      ensures Valid()
      ensures var e := Empty(old(Stored()), old(fd.script));
              && ret == e.code && fd.script == e.rest
              && fd.sent == old(fd.sent) + old(Contents())[..e.count]
              && Contents() == old(Contents())[e.count..]
    {
      hide Window, Give, Take;
      ghost var q, was := Contents(), fd.sent;
      var first, second := 0, 0;
      TakenTwice(was, q, 0, 0);
      if dpos != 0 && dpos + dlen > b.Length {
        var uLen := b.Length - dpos;
        ret, first := WriteStretch(fd, uLen);
        if first != uLen {
          return;
        }
      }
      ret, second := WriteStretch(fd, dlen);
      TakenTwice(was, q, first, second);
    }

    /** btfifo_fifo_to_fd.  The octets sent to `fd` are exactly those taken from
        the front of the queue. */
    method FifoToFd(fd: Writer, answer: PollAnswer) returns (ret: int)
      requires Valid()
      modifies this`dlen, this`dpos, fd
      ensures Valid()
      ensures !assumeReady && answer != Usable ==>
                ret == (if answer == PollFails then -103 else -101) && unchanged(this, fd)
      ensures assumeReady || answer == Usable ==>
                if old(StoredLen()) == 0 || (useWmin && wmin > old(StoredLen())) then
                  ret == 0 && unchanged(this, fd)
                else
                  var e := Empty(old(Stored()), old(fd.script));
                  && ret == e.code && fd.script == e.rest
                  && fd.sent == old(fd.sent) + old(Contents())[..e.count]
                  && Contents() == old(Contents())[e.count..]
    {
      if !assumeReady {
        if answer == PollFails {
          return -103;
        }
        if answer == Collapsed {
          return -101;
        }
      }
      if dlen == 0 {
        return 0;
      }
      if useWmin && wmin > dlen {
        return 0;
      }
      ret := WriteStored(fd);
    }
  }
}
