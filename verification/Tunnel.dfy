/** The tunnel of dvrcontrol.c between the streaming child and the parent's pipe,
    and the loop that re-creates the child.  What poll() answers, what each child
    offers and what the parent accepts are arbitrary. */
module Tunnel {
  import opened Bytes
  import opened Descriptors
  import opened ByteFifo

  /** One pollfd's revents: the awaited event (POLLIN or POLLPRI, or POLLOUT),
      and POLLERR, POLLHUP or POLLNVAL. */
  datatype Revents = Revents(ready: bool, closed: bool)

  const NO_EVENTS := Revents(false, false)
  const CLOSED := Revents(false, true)

  /** Result of one poll(): failure, EINTR, nothing within the time allowed (and
      whether SIGCHLD has come in), or events. */
  datatype Poll = PollError | Interrupted | Quiet(childDied: bool) | Events(input: Revents, output: Revents)

  /** The code with which a poll alone ends the tunnel; 0 if it does not. */
  function Stops(p: Poll, hasTimeout: bool): int
  {
    match p
    case PollError => 2
    case Quiet(died) => if hasTimeout then 1 else if died then 6 else 0
    case _ => 0
  }

  datatype Side = Input | Output

  /** What the program sees: poll() reports the awaited event only if it was asked
      for, and an interrupted poll leaves the earlier revents in place. */
  function SeenOn(p: Poll, side: Side, asked: bool, stale: Revents): Revents
  {
    match p
    case Events(i, o) =>
      var reported := if side.Input? then i else o;
      Revents(reported.ready && asked, reported.closed)
    case Quiet(_) => NO_EVENTS
    case _ => stale
  }

  /** What poll j says that no earlier poll has said: an interrupted one only lets
      what was there at the start be seen. */
  function News(polls: seq<Poll>, j: nat, side: Side, stale: Revents): Revents
    requires j < |polls|
  {
    match polls[j]
    case Events(i, o) => if side.Input? then i else o
    case Interrupted => if j == 0 then stale else NO_EVENTS
    case _ => NO_EVENTS
  }

  /** Poll j does not end the tunnel by itself. */
  predicate Passes(polls: seq<Poll>, j: nat, hasTimeout: bool, staleIn: Revents, staleOut: Revents)
    requires j < |polls|
  {
    && Stops(polls[j], hasTimeout) == 0
    && News(polls, j, Input, staleIn) != CLOSED && News(polls, j, Output, staleOut) != CLOSED
  }

  ghost predicate AllPass(polls: seq<Poll>, used: nat, hasTimeout: bool, staleIn: Revents, staleOut: Revents)
    requires used <= |polls|
  {
    forall j: nat :: j < used ==> Passes(polls, j, hasTimeout, staleIn, staleOut)
  }

  /** The code the tunnel ends with at poll j: 1, 2 and 6 are exactly those of the
      poll; an end that is closed and no more gives -5 or 10, in this order, unless
      writing fails first; and these codes come with a closed end only. */
  predicate CodeOf(ret: int, polls: seq<Poll>, j: nat, hasTimeout: bool, staleIn: Revents, staleOut: Revents)
    requires j < |polls|
  {
    var stops, i, o := Stops(polls[j], hasTimeout), News(polls, j, Input, staleIn), News(polls, j, Output, staleOut);
    && ret in {1, 2, 3, 4, 6, 10, -5} && (ret in {1, 2, 6} || stops != 0 ==> ret == stops)
    && (ret == -5 ==> o.closed) && (o == CLOSED ==> ret == -5)
    && (ret == 10 ==> i.closed) && (i == CLOSED ==> ret in {10, 4, -5})
  }

  /** Which poll ends the tunnel, with what; 0 if none has. */
  ghost predicate EndedBy(ret: int, used: nat, polls: seq<Poll>, hasTimeout: bool, staleIn: Revents, staleOut: Revents)
  {
    if ret == 0 then used == |polls| && AllPass(polls, used, hasTimeout, staleIn, staleOut)
    else
      && 0 < used <= |polls| && AllPass(polls, used - 1, hasTimeout, staleIn, staleOut)
      && CodeOf(ret, polls, used - 1, hasTimeout, staleIn, staleOut)
  }

  /** What one poll comes to, from the revents seen before it, `evIn` and `evOut`,
      and the code `ret` of the pass behind it. */
  lemma PollDecides(polls: seq<Poll>, j: nat, hasTimeout: bool, staleIn: Revents, staleOut: Revents,
                    askIn: bool, askOut: bool, evIn: Revents, evOut: Revents, ret: int)
    requires j < |polls| && AllPass(polls, j, hasTimeout, staleIn, staleOut)
    requires if j == 0 then (evIn, evOut) == (staleIn, staleOut) else evIn != CLOSED && evOut != CLOSED
    requires var stops, i, o := Stops(polls[j], hasTimeout), SeenOn(polls[j], Input, askIn, evIn),
                                SeenOn(polls[j], Output, askOut, evOut);
             if stops != 0 then ret == stops
             else ret in {0, 3, 4, 10, -5} && (ret == -5 <==> o == CLOSED) &&
                  (ret == 10 <==> ret !in {4, -5} && i == CLOSED)
    ensures ret == 0 ==>
              && AllPass(polls, j + 1, hasTimeout, staleIn, staleOut)
              && SeenOn(polls[j], Input, askIn, evIn) != CLOSED && SeenOn(polls[j], Output, askOut, evOut) != CLOSED
    ensures ret != 0 ==> EndedBy(ret, j + 1, polls, hasTimeout, staleIn, staleOut)
  {
    if polls[j] != PollError {
      NewsIsSeen(polls, j, Input, staleIn, askIn, evIn);
      NewsIsSeen(polls, j, Output, staleOut, askOut, evOut);
    }
  }

  lemma NoPolls(polls: seq<Poll>, hasTimeout: bool, staleIn: Revents, staleOut: Revents)
    ensures AllPass(polls, 0, hasTimeout, staleIn, staleOut)
  {
  }

  lemma NewsIsSeen(polls: seq<Poll>, j: nat, side: Side, stale: Revents, asked: bool, ev: Revents)
    requires j < |polls| && polls[j] != PollError && (if j == 0 then ev == stale else ev != CLOSED)
    ensures News(polls, j, side, stale) == CLOSED ==> SeenOn(polls[j], side, asked, ev) == CLOSED
    ensures SeenOn(polls[j], side, asked, ev) == CLOSED ==> News(polls, j, side, stale).closed
  {
  }

  /** Some poll says the parent's end is closed. */
  ghost predicate OutClosed(polls: seq<Poll>, staleOut: Revents)
  {
    exists j: nat :: j < |polls| && News(polls, j, Output, staleOut).closed
  }

  lemma Rejoin(sent: seq<byte>, q: seq<byte>, k: nat)
    requires k <= |q|
    ensures sent + q[..k] + q[k..] == sent + q
  {
    assert q[..k] + q[k..] == q;
    Assoc(sent, q[..k], q[k..]);
  }

  /** FIFO -> fd_out: the front of the queue, as far as it is taken, if there is
      POLLOUT.  Sent and stored octets together stay the same. */
  method Forward(fifo: BtFifo, fdOut: Writer, ev: Revents) returns (ret: int)
    requires fifo.Valid() && fifo.assumeReady
    modifies fifo`dlen, fifo`dpos, fdOut
    ensures fifo.Valid()
    ensures ev.ready ==>
              var e := old(fifo.Outgoing(fdOut.script));
              && fdOut.script == e.rest && fifo.dlen == old(fifo.dlen) - e.count
              && fdOut.sent == old(fdOut.sent) + old(fifo.Contents())[..e.count]
    ensures fdOut.sent + fifo.Contents() == old(fdOut.sent + fifo.Contents())
    ensures ret == -5 <==> !ev.ready && ev.closed
    ensures ret in {0, 4, -5}
    ensures WriteFailures(old(fdOut.script)) == WriteFailures(fdOut.script) + if ret == 4 then 1 else 0
    ensures !ev.ready ==> unchanged(fifo, fdOut)
  {
    hide Window, Empty, WriteFailures;
    ret := 0;
    if ev.ready {
      EmptyFails(fifo.Stored(), fdOut.script);
      Rejoin(fdOut.sent, fifo.Contents(), Empty(fifo.Stored(), fdOut.script).count);
      Assoc(fdOut.sent, [], []);
      assert fifo.Contents()[..0] == [];
      var moved := fifo.FifoToFd(fdOut, Usable);
      if moved <= FATAL {
        return 4;
      }
    } else if ev.closed {
      return -5;
    }
  }

  /** fd_in -> FIFO: what is read into the free room, if there is POLLIN, is
      appended. */
  method Collect(fifo: BtFifo, fdIn: Reader, ev: Revents) returns (ret: int, ghost moved: seq<byte>)
    requires fifo.Valid() && fifo.assumeReady
    modifies fifo`dlen, fifo.b, fdIn
    ensures fifo.Valid()
    ensures fdIn.got == old(fdIn.got) + moved && fifo.Contents() == old(fifo.Contents()) + moved
    ensures if ev.ready && old(fifo.FreeLen()) > 0 then
              var f := Fill(old(fifo.Room()), old(fdIn.script)); moved == f.bytes && fdIn.script == f.rest
            else moved == [] && fdIn.script == old(fdIn.script)
    ensures moved + Offered(fdIn.script) == Offered(old(fdIn.script))
    ensures ret == 10 <==> !ev.ready && ev.closed
    ensures ret in {0, 3, 10}
    ensures ReadFailures(old(fdIn.script)) == ReadFailures(fdIn.script) + if ret == 3 then 1 else 0
  {
    ret, moved := 0, [];
    if ev.ready {
      if fifo.FreeLen() > 0 {
        FillLosesNothing(fifo.Room(), fdIn.script);
        FillFails(fifo.Room(), fdIn.script);
        moved := Fill(fifo.Room(), fdIn.script).bytes;
      }
      var code := fifo.FdToFifo(fdIn, Usable);
      if code <= FATAL {
        return 3, moved;
      }
    } else if ev.closed {
      return 10, moved;
    }
  }

  // ------------------------------------------------------- flow

  const READY := Revents(true, false)

  /** Every poll reports both ends ready, every read brings something, and every
      write takes something; `spare` writes are left behind. */
  ghost predicate Willing(polls: seq<Poll>, offer: seq<ReadEvent>, takers: seq<WriteEvent>, spare: nat)
  {
    AllReady(polls) && Flows(offer) && Drains(takers, 2 * |polls| + spare)
  }

  /** Octets still to be moved, those not yet in the FIFO counted twice. */
  function Pending(offer: seq<ReadEvent>, stored: nat): nat
  {
    2 * |Offered(offer)| + stored
  }

  /** The scripts and the FIFO's `n` of `size` octets around one pass. */
  predicate PassedOver(size: nat, n: nat, stored: seq<nat>, offer: seq<ReadEvent>, takers: seq<WriteEvent>,
                       ret: int, p: Passed, more: seq<byte>, rest: seq<ReadEvent>)
  {
    var kept := n - p.out.count;
    && 0 < size && n <= size && Stretches(stored, n)
    && p.out == (if n == 0 then Emptied(0, 0, takers) else Empty(stored, takers))
    && (if kept == size then p.room == [] else |p.room| > 0 && Stretches(p.room, size - kept))
    && (if Reads(ret, Revents(n < size, false), p) then
          var f := Fill(p.room, offer); more == f.bytes && rest == f.rest
        else more == [] && rest == offer)
    && ret in {0, 3, 4}
    && ReadFailures(offer) == ReadFailures(rest) + (if ret == 3 then 1 else 0)
    && WriteFailures(takers) == WriteFailures(p.out.rest) + (if ret == 4 then 1 else 0)
  }

  /** One willing pass goes on, and leaves less to do. */
  lemma WillingPass(size: nat, n: nat, stored: seq<nat>, offer: seq<ReadEvent>, takers: seq<WriteEvent>, spare: nat,
                    ret: int, p: Passed, more: seq<byte>, rest: seq<ReadEvent>)
    requires PassedOver(size, n, stored, offer, takers, ret, p, more, rest)
    requires Flows(offer) && Drains(takers, spare + 2)
    ensures ret == 0 && Flows(rest) && Drains(p.out.rest, spare)
    ensures LessPending(Pending(offer, n), Pending(rest, n - p.out.count + |more|))
  {
    hide Fill, Empty, Offered, ReadFailures, WriteFailures;
    FlowNeverFails(offer);
    DrainNeverFails(takers);
    EmptyDrains(stored, n, takers, spare);
    if n < size {
      FillFlows(p.room, size - (n - p.out.count), offer);
      FillLosesNothing(p.room, offer);
      assert |more + Offered(rest)| == |Offered(offer)|;
    }
  }

  /** buffered_tunnel_pipe, over the polls made so far; 0 while it goes on.
      `used` polls were made and `moved` is what was read from `fdIn`. */
  method BufferedTunnelPipe(fifo: BtFifo, fdIn: Reader, fdOut: Writer, hasTimeout: bool,
                            polls: seq<Poll>, staleIn: Revents, staleOut: Revents, ghost spare: nat)
    returns (ret: int, used: nat, ghost moved: seq<byte>)
    requires fifo.Valid() && fifo.assumeReady
    modifies fifo`dlen, fifo`dpos, fifo.b, fdIn, fdOut
    ensures fifo.Valid()
    ensures fdIn.got == old(fdIn.got) + moved
    ensures moved + Offered(fdIn.script) == Offered(old(fdIn.script))
    ensures fdOut.sent + fifo.Contents() == old(fdOut.sent + fifo.Contents()) + moved
    ensures EndedBy(ret, used, polls, hasTimeout, staleIn, staleOut)
    ensures ReadFailures(old(fdIn.script)) == ReadFailures(fdIn.script) + if ret == 3 then 1 else 0
    ensures WriteFailures(old(fdOut.script)) == WriteFailures(fdOut.script) + if ret == 4 then 1 else 0
    ensures old(!fifo.useWmin && Willing(polls, fdIn.script, fdOut.script, spare)) ==>
              && ret == 0 && Drains(fdOut.script, spare)
              && (|polls| >= old(Pending(fdIn.script, fifo.dlen)) ==>
                    moved == Offered(old(fdIn.script)) && fifo.Contents() == [])
  {
    ghost var before, offered := fdOut.sent + fifo.Contents(), Offered(fdIn.script);
    ghost var inFails, outFails := ReadFailures(fdIn.script), WriteFailures(fdOut.script);
    ghost var willing, due := !fifo.useWmin && Willing(polls, fdIn.script, fdOut.script, spare), Due(fifo, fdIn);
    Start(fifo, fdIn, fdOut, polls, spare);
    ret, used, moved :=
      RunPolls(fifo, fdIn, fdOut, hasTimeout, polls, staleIn, staleOut, spare, before, offered, inFails, outFails);
    SoundMeans(fifo, fdIn, fdOut, old(fdIn.got), before, moved, offered,
               if ret == 3 then inFails - 1 else inFails, if ret == 4 then outFails - 1 else outFails);
    if willing {
      WillingReady(polls, old(fdIn.script), old(fdOut.script), spare);
      NothingDue(fifo, fdIn, fdOut, moved, spare, due, |polls|);
    }
  }

  /** Every poll reports both ends ready. */
  ghost predicate AllReady(polls: seq<Poll>)
  {
    forall j :: 0 <= j < |polls| ==> polls[j] == Events(READY, READY)
  }

  /** The loop. */
  method RunPolls(fifo: BtFifo, fdIn: Reader, fdOut: Writer, hasTimeout: bool,
                  polls: seq<Poll>, staleIn: Revents, staleOut: Revents, ghost spare: nat,
                  ghost before: seq<byte>, ghost offered: seq<byte>, ghost inFails: int, ghost outFails: int)
    returns (ret: int, used: nat, ghost moved: seq<byte>)
    requires fifo.assumeReady && Sound(fifo, fdIn, fdOut, fdIn.got, before, [], offered, inFails, outFails)
    modifies fifo`dlen, fifo`dpos, fifo.b, fdIn, fdOut
    ensures fifo.Valid() && EndedBy(ret, used, polls, hasTimeout, staleIn, staleOut)
    ensures Sound(fifo, fdIn, fdOut, old(fdIn.got), before, moved, offered,
                  if ret == 3 then inFails - 1 else inFails, if ret == 4 then outFails - 1 else outFails)
    ensures AllReady(polls) && old(Flowing(fifo, fdIn, fdOut, 2 * |polls| + spare)) ==>
              ret == 0 && Flowing(fifo, fdIn, fdOut, spare) && LeftAfter(Due(fifo, fdIn), old(Due(fifo, fdIn)), |polls|)
  {
    hide Sound, Flowing, AllPass, EndedBy, LessPending, Due, LeftAfter;
    ghost var due, todo := Due(fifo, fdIn), 2 * |polls| + spare;
    ghost var willing := AllReady(polls) && Flowing(fifo, fdIn, fdOut, todo);
    var evIn, evOut := staleIn, staleOut;
    ret, used, moved := 0, 0, [];
    NoPolls(polls, hasTimeout, staleIn, staleOut);
    NothingYet(due);
    while used < |polls|
      invariant used <= |polls| && ret == 0
      invariant Sound(fifo, fdIn, fdOut, old(fdIn.got), before, moved, offered, inFails, outFails)
      invariant AllPass(polls, used, hasTimeout, staleIn, staleOut)
      invariant todo == 2 * (|polls| - used) + spare
      invariant willing ==> Flowing(fifo, fdIn, fdOut, todo) && LeftAfter(Due(fifo, fdIn), due, used)
      invariant if used == 0 then (evIn, evOut) == (staleIn, staleOut) else evIn != CLOSED && evOut != CLOSED
    {
      ghost var was := Due(fifo, fdIn);
      ret, evIn, evOut, moved :=
        OnePoll(fifo, fdIn, fdOut, hasTimeout, polls, used, staleIn, staleOut, evIn, evOut,
                todo - 2, old(fdIn.got), before, moved, offered, inFails, outFails);
      used, todo := used + 1, todo - 2;
      if ret != 0 {
        return;
      }
      Lessens(was, Due(fifo, fdIn), due, used - 1);
    }
    SoundMeans(fifo, fdIn, fdOut, old(fdIn.got), before, moved, offered, inFails, outFails);
    Finished(polls, hasTimeout, staleIn, staleOut);
  }

  /** What a run keeps: `got` and `before` were there when it began, and `moved` has
      been moved of what was `offered`; so many failures are still to come. */
  ghost predicate Sound(fifo: BtFifo, fdIn: Reader, fdOut: Writer, got: seq<byte>, before: seq<byte>, moved: seq<byte>,
                        offered: seq<byte>, inFails: int, outFails: int)
    reads fifo, fifo.b, fdIn, fdOut
  {
    && fifo.Valid() && fdIn.got == got + moved && fdOut.sent + fifo.Contents() == before + moved
    && moved + Offered(fdIn.script) == offered
    && ReadFailures(fdIn.script) == inFails && WriteFailures(fdOut.script) == outFails
  }

  lemma SoundMeans(fifo: BtFifo, fdIn: Reader, fdOut: Writer, got: seq<byte>, before: seq<byte>, moved: seq<byte>,
                   offered: seq<byte>, inFails: int, outFails: int)
    requires Sound(fifo, fdIn, fdOut, got, before, moved, offered, inFails, outFails)
    ensures fifo.Valid() && fdIn.got == got + moved && fdOut.sent + fifo.Contents() == before + moved
    ensures moved + Offered(fdIn.script) == offered
    ensures ReadFailures(fdIn.script) == inFails && WriteFailures(fdOut.script) == outFails
  {
  }

  /** Both ends are willing, with `spare` writes and more to come. */
  ghost predicate Flowing(fifo: BtFifo, fdIn: Reader, fdOut: Writer, spare: nat)
    reads fifo, fdIn, fdOut
  {
    !fifo.useWmin && Flows(fdIn.script) && Drains(fdOut.script, spare)
  }

  function Due(fifo: BtFifo, fdIn: Reader): nat
    reads fifo, fdIn
  {
    Pending(fdIn.script, fifo.dlen)
  }

  lemma Start(fifo: BtFifo, fdIn: Reader, fdOut: Writer, polls: seq<Poll>, spare: nat)
    requires fifo.Valid()
    ensures Sound(fifo, fdIn, fdOut, fdIn.got, fdOut.sent + fifo.Contents(), [], Offered(fdIn.script),
                  ReadFailures(fdIn.script), WriteFailures(fdOut.script))
    ensures !fifo.useWmin && Willing(polls, fdIn.script, fdOut.script, spare) ==>
              Flowing(fifo, fdIn, fdOut, 2 * |polls| + spare)
  {
    Assoc(fdIn.got, [], Offered(fdIn.script));
    Assoc(fdOut.sent + fifo.Contents(), [], []);
  }

  lemma NothingDue(fifo: BtFifo, fdIn: Reader, fdOut: Writer, moved: seq<byte>, spare: nat,
                   due: nat, passes: nat)
    requires fifo.Valid() && Flowing(fifo, fdIn, fdOut, spare) && LeftAfter(Due(fifo, fdIn), due, passes)
    ensures Drains(fdOut.script, spare)
    ensures passes >= due ==> fifo.Contents() == [] && moved + Offered(fdIn.script) == moved
  {
    Assoc(moved, [], []);
  }

  lemma WillingReady(polls: seq<Poll>, offer: seq<ReadEvent>, takers: seq<WriteEvent>, spare: nat)
    requires Willing(polls, offer, takers, spare)
    ensures AllReady(polls)
  {
  }

  lemma NothingYet(due: nat)
    ensures LeftAfter(due, due, 0)
  {
  }

  /** At least one less is left for each pass. */
  predicate LeftAfter(left: nat, due: nat, passes: nat)
  {
    left + passes <= due || left == 0
  }

  lemma Lessens(was: nat, left: nat, due: nat, passes: nat)
    ensures LessPending(was, left) && LeftAfter(was, due, passes) ==> LeftAfter(left, due, passes + 1)
  {
  }

  lemma Finished(polls: seq<Poll>, hasTimeout: bool, staleIn: Revents, staleOut: Revents)
    ensures AllPass(polls, |polls|, hasTimeout, staleIn, staleOut) ==>
              EndedBy(0, |polls|, polls, hasTimeout, staleIn, staleOut)
  {
  }

  /** One pass, and what it comes to when both ends were ready as far as asked. */
  method FlowingTurn(fifo: BtFifo, fdIn: Reader, fdOut: Writer, evIn: Revents, evOut: Revents, ghost spare: nat,
                     ghost got: seq<byte>, ghost before: seq<byte>, ghost moved: seq<byte>,
                     ghost offered: seq<byte>, ghost inFails: int, ghost outFails: int)
    returns (ret: int, ghost moved': seq<byte>)
    requires fifo.assumeReady && Sound(fifo, fdIn, fdOut, got, before, moved, offered, inFails, outFails)
    modifies fifo`dlen, fifo`dpos, fifo.b, fdIn, fdOut
    ensures Sound(fifo, fdIn, fdOut, got, before, moved', offered,
                  if ret == 3 then inFails - 1 else inFails, if ret == 4 then outFails - 1 else outFails)
    ensures ret in {0, 3, 4, 10, -5}
    ensures ret == -5 <==> !evOut.ready && evOut.closed
    ensures ret == 10 <==> ret !in {4, -5} && !evIn.ready && evIn.closed
    ensures evIn == Revents(old(fifo.dlen) < fifo.b.Length, false) && evOut == Revents(old(fifo.dlen) > 0, false)
            && old(Flowing(fifo, fdIn, fdOut, spare + 2)) ==>
              ret == 0 && Flowing(fifo, fdIn, fdOut, spare) && LessPending(old(Due(fifo, fdIn)), Due(fifo, fdIn))
  {
    hide Offered, ReadFailures, WriteFailures, Fill, Empty, Stretches, Flows, Drains, Pending;
    ghost var offer, takers, n, stored, sent := fdIn.script, fdOut.script, fifo.dlen, fifo.Stored(), fdOut.sent;
    ghost var p;
    ret, moved', p := Turn(fifo, fdIn, fdOut, evIn, evOut, got, before, moved);
    if !fifo.useWmin && evIn == Revents(n < fifo.b.Length, false) && evOut == Revents(n > 0, false)
       && Flows(offer) && Drains(takers, spare + 2) {
      assert |fdOut.sent| + fifo.dlen == |before| + |moved'| && |sent| + n == |before| + |moved|;
      assert |fdOut.sent| == |sent| + p.out.count;
      WillingPass(fifo.b.Length, n, stored, offer, takers, spare, ret, p, moved'[|moved|..], fdIn.script);
    }
  }

  lemma ClosedSeen(p: Poll, side: Side, asked: bool, stale: Revents)
    ensures p.Events? && !asked && (if side.Input? then p.input.closed else p.output.closed) ==>
              SeenOn(p, side, asked, stale) == CLOSED
  {
  }

  lemma ReadySeen(side: Side, asked: bool, stale: Revents)
    ensures SeenOn(Events(READY, READY), side, asked, stale) == Revents(asked, false)
  {
  }

  /** Less is left to do, unless nothing is. */
  predicate LessPending(was: nat, left: nat)
  {
    left < was || left == was == 0
  }

  /** One poll, and the pass behind it.  Of an end that nothing is asked of, a poll
      reports at most that it is closed, and that ends the tunnel. */
  method OnePoll(fifo: BtFifo, fdIn: Reader, fdOut: Writer, hasTimeout: bool, polls: seq<Poll>, j: nat,
                 staleIn: Revents, staleOut: Revents, evIn: Revents, evOut: Revents, ghost spare: nat,
                 ghost got: seq<byte>, ghost before: seq<byte>, ghost moved: seq<byte>,
                 ghost offered: seq<byte>, ghost inFails: int, ghost outFails: int)
    returns (ret: int, evIn': Revents, evOut': Revents, ghost moved': seq<byte>)
    requires fifo.assumeReady && j < |polls| && AllPass(polls, j, hasTimeout, staleIn, staleOut)
    requires if j == 0 then (evIn, evOut) == (staleIn, staleOut) else evIn != CLOSED && evOut != CLOSED
    requires Sound(fifo, fdIn, fdOut, got, before, moved, offered, inFails, outFails)
    modifies fifo`dlen, fifo`dpos, fifo.b, fdIn, fdOut
    ensures fifo.Valid()
    ensures Sound(fifo, fdIn, fdOut, got, before, moved', offered,
                  if ret == 3 then inFails - 1 else inFails, if ret == 4 then outFails - 1 else outFails)
    ensures ret == 0 ==> AllPass(polls, j + 1, hasTimeout, staleIn, staleOut) && evIn' != CLOSED && evOut' != CLOSED
    ensures ret != 0 ==> EndedBy(ret, j + 1, polls, hasTimeout, staleIn, staleOut)
    ensures polls[j].Events? && polls[j].output.closed && old(fifo.dlen) == 0 ==> ret == -5
    ensures polls[j].Events? && polls[j].input.closed && old(fifo.dlen) == fifo.b.Length ==> ret in {10, 4, -5}
    ensures polls[j] == Events(READY, READY) && old(Flowing(fifo, fdIn, fdOut, spare + 2)) ==>
              ret == 0 && Flowing(fifo, fdIn, fdOut, spare) && LessPending(old(Due(fifo, fdIn)), Due(fifo, fdIn))
  {
    SoundMeans(fifo, fdIn, fdOut, got, before, moved, offered, inFails, outFails);
    ClosedSeen(polls[j], Input, fifo.dlen < fifo.b.Length, evIn);
    ClosedSeen(polls[j], Output, fifo.dlen > 0, evOut);
    hide AllPass, EndedBy, SeenOn, Stops, Sound, Flowing, Due, LessPending, Window;
    var p, askIn, askOut := polls[j], fifo.FreeLen() != 0, fifo.StoredLen() != 0;
    evIn', evOut' := SeenOn(p, Input, askIn, evIn), SeenOn(p, Output, askOut, evOut);
    ReadySeen(Input, askIn, evIn);
    ReadySeen(Output, askOut, evOut);
    StopsAre(p, hasTimeout);
    moved' := moved;
    ret := StopCode(p, hasTimeout);
    if ret != 0 {
      PollDecides(polls, j, hasTimeout, staleIn, staleOut, askIn, askOut, evIn, evOut, ret);
      return;
    }
    ret, moved' := FlowingTurn(fifo, fdIn, fdOut, evIn', evOut', spare, got, before, moved,
                               offered, inFails, outFails);
    PollDecides(polls, j, hasTimeout, staleIn, staleOut, askIn, askOut, evIn, evOut, ret);
    SoundMeans(fifo, fdIn, fdOut, got, before, moved', offered,
               if ret == 3 then inFails - 1 else inFails, if ret == 4 then outFails - 1 else outFails);
  }

  /** A failed poll, or one that has nothing to report. */
  method StopCode(p: Poll, hasTimeout: bool) returns (ret: int)
    ensures ret == Stops(p, hasTimeout)
  {
    ret := 0;
    if p.PollError? {
      ret := 2;
    } else if p.Quiet? {
      if hasTimeout {
        ret := 1;
      } else if p.childDied {
        ret := 6;
      }
    }
  }

  lemma StopsAre(p: Poll, hasTimeout: bool)
    ensures Stops(p, hasTimeout) in {0, 1, 2, 6} && (p.Events? ==> Stops(p, hasTimeout) == 0)
  {
  }

  /** What one pass moves: `out` is what was written, and `room` the free room, if
      it came to reading. */
  datatype Passed = Passed(out: Emptied, room: seq<nat>)

  predicate Reads(ret: int, evIn: Revents, p: Passed)
  {
    ret !in {4, -5} && evIn.ready && p.room != []
  }

  /** One pass of the polling loop behind the poll. */
  method Turn(fifo: BtFifo, fdIn: Reader, fdOut: Writer, evIn: Revents, evOut: Revents,
              ghost got: seq<byte>, ghost before: seq<byte>, ghost moved: seq<byte>)
    returns (ret: int, ghost moved': seq<byte>, ghost p: Passed)
    requires fifo.Valid() && fifo.assumeReady
    requires fdIn.got == got + moved && fdOut.sent + fifo.Contents() == before + moved
    modifies fifo`dlen, fifo`dpos, fifo.b, fdIn, fdOut
    ensures fifo.Valid()
    ensures fdIn.got == got + moved' && fdOut.sent + fifo.Contents() == before + moved'
    ensures moved' + Offered(fdIn.script) == moved + Offered(old(fdIn.script))
    ensures p.out == (if evOut.ready then old(fifo.Outgoing(fdOut.script)) else Emptied(0, 0, old(fdOut.script)))
    ensures fdOut.script == p.out.rest && fdOut.sent == old(fdOut.sent) + old(fifo.Contents())[..p.out.count]
    ensures if old(fifo.dlen) - p.out.count == fifo.b.Length then p.room == []
            else 1 <= |p.room| <= 2 && Stretches(p.room, fifo.b.Length - (old(fifo.dlen) - p.out.count))
    ensures if Reads(ret, evIn, p) then
              var f := Fill(p.room, old(fdIn.script)); moved' == moved + f.bytes && fdIn.script == f.rest
            else moved' == moved && fdIn.script == old(fdIn.script)
    ensures ret in {0, 3, 4, 10, -5}
    ensures ret == -5 <==> !evOut.ready && evOut.closed
    ensures ret == 10 <==> ret !in {4, -5} && !evIn.ready && evIn.closed
    ensures ReadFailures(old(fdIn.script)) == ReadFailures(fdIn.script) + if ret == 3 then 1 else 0
    ensures WriteFailures(old(fdOut.script)) == WriteFailures(fdOut.script) + if ret == 4 then 1 else 0
  {
    hide Window, Fill, Empty, ReadFailures, WriteFailures, Offered;
    p := Passed(if evOut.ready then fifo.Outgoing(fdOut.script) else Emptied(0, 0, fdOut.script), []);
    Assoc(fdOut.sent, [], []);
    assert fifo.Contents()[..0] == [];
    moved' := moved;
    ret := Forward(fifo, fdOut, evOut);
    p := p.(room := if fifo.FreeLen() > 0 then fifo.Room() else []);
    if ret != 0 {
      return;
    }
    ghost var sent, q := fdOut.sent, fifo.Contents();
    ghost var more;
    ret, more := Collect(fifo, fdIn, evIn);
    moved' := moved + more;
    Assoc(got, moved, more);
    Assoc(before, moved, more);
    Assoc(sent, q, more);
    Assoc(moved, more, Offered(fdIn.script));
    Assoc(moved, [], []);
  }

  // ------------------------------------------------------- the restart loop

  const BSIZE := 1048576

  /** One turn of the restart loop: what the child offers and the polls made
      while it lives. */
  datatype Session =
    | ForkFails
    | Session(events: seq<ReadEvent>, polls: seq<Poll>, staleIn: Revents, staleOut: Revents)

  /** The next two writes take at least `n` octets each, as blocking ones do. */
  predicate WillTake(s: seq<WriteEvent>, n: nat)
  {
    |s| >= 2 && s[0].Accept? && s[0].count >= n && s[1].Accept? && s[1].count >= n
  }

  /** What was read from each child in turn: a part, from the start, of what that
      child offered. */
  predicate ReadFrom(gots: seq<seq<byte>>, sessions: seq<Session>)
  {
    |gots| <= |sessions| &&
    forall i :: 0 <= i < |gots| ==> sessions[i].Session? && gots[i] <= Offered(sessions[i].events)
  }

  /** A child whose polls are all ready, whose reads all bring something, and with
      polls enough for what it offers. */
  ghost predicate Served(s: Session)
  {
    && s.Session? && AllReady(s.polls)
    && Flows(s.events) && |s.polls| >= 2 * |Offered(s.events)|
  }

  /** All children are like that, and the parent takes something at every write. */
  ghost predicate AllServed(sessions: seq<Session>, takers: seq<WriteEvent>)
  {
    (forall i :: 0 <= i < |sessions| ==> Served(sessions[i])) && Drains(takers, 2 * PollsOf(sessions))
  }

  function PollsOf(sessions: seq<Session>): nat
  {
    if sessions == [] then 0 else (if sessions[0].Session? then |sessions[0].polls| else 0) + PollsOf(sessions[1..])
  }

  /** All that was offered has been read. */
  ghost predicate AllRead(gots: seq<seq<byte>>, sessions: seq<Session>)
  {
    |gots| <= |sessions| &&
    forall i :: 0 <= i < |gots| ==> sessions[i].Session? && gots[i] == Offered(sessions[i].events)
  }

  /** The restart loop, over the sessions run so far; 0 while it goes on.  `gots`
      is what was read from each child. */
  method RunSessions(fifo: BtFifo, fdOut: Writer, hasTimeout: bool, sessions: seq<Session>)
    returns (ret: int, ghost gots: seq<seq<byte>>)
    requires fifo.Valid() && fifo.assumeReady && fifo.Contents() == [] && fdOut.sent == []
    modifies fifo`dlen, fifo`dpos, fifo.b, fdOut
    ensures fifo.Valid()
    ensures fdOut.sent + fifo.Contents() == Concat(gots) && ReadFrom(gots, sessions)
    ensures Ended(ret, gots, sessions)
    ensures old(!fifo.useWmin && AllServed(sessions, fdOut.script)) ==>
              ret == 0 && AllRead(gots, sessions) && fifo.Contents() == []
  {
    hide OutClosed, Concat, ReadFrom, Served, Drains, PollsOf, AllRead, Window, Offered;
    ret, gots := 0, [];
    ghost var served := !fifo.useWmin && AllServed(sessions, fdOut.script);
    assert sessions[0..] == sessions;
    NothingRead(sessions);
    NoneRead(sessions);
    var i := 0;
    while i < |sessions|
      invariant fifo.Valid() && i == |gots| <= |sessions|
      invariant fdOut.sent + fifo.Contents() == Concat(gots) && ReadFrom(gots, sessions)
      invariant served ==> !fifo.useWmin && fifo.Contents() == [] && Drains(fdOut.script, 2 * PollsOf(sessions[i..]))
      invariant served ==> AllRead(gots, sessions)
    {
      SessionServed(sessions, i);
      var s := sessions[i];
      if s.ForkFails? {
        ret := 100;
        return;
      }
      var code;
      ghost var moved;
      code, moved := RunSession(fifo, fdOut, hasTimeout, s, gots, 2 * PollsOf(sessions[i + 1..]));
      SessionOver(gots, moved, sessions, code);
      AllReadMore(gots, moved, sessions);
      gots := gots + [moved];
      i := i + 1;
      if code < 0 {
        ret := 102;
        return;
      }
    }
  }

  lemma SessionServed(sessions: seq<Session>, i: nat)
    requires i < |sessions|
    ensures PollsOf(sessions[i..]) ==
            (if sessions[i].Session? then |sessions[i].polls| else 0) + PollsOf(sessions[i + 1..])
    ensures Served(sessions[i]) ==> sessions[i].Session?
  {
    assert sessions[i..][1..] == sessions[i + 1..];
  }

  /** How the restart loop ends: it has not yet, a child could not be created, or
      the parent's end is closed. */
  ghost predicate Ended(ret: int, gots: seq<seq<byte>>, sessions: seq<Session>)
    requires ReadFrom(gots, sessions)
  {
    || (ret == 0 && |gots| == |sessions|)
    || (ret == 100 && |gots| < |sessions| && sessions[|gots|] == ForkFails)
    || (ret == 102 && gots != [] && OutClosed(sessions[|gots| - 1].polls, sessions[|gots| - 1].staleOut))
  }

  /** stream_dvr_subprocess_to_pipe; `left` is what the FIFO holds at the end, and
      `flush` what the parent's pipe does once it is blocking again. */
  method StreamToPipe(fdOut: Writer, hasTimeout: bool, sessions: seq<Session>, flush: seq<WriteEvent>)
    returns (ret: int, ghost gots: seq<seq<byte>>, ghost left: seq<byte>)
    requires fdOut.sent == []
    modifies fdOut
    ensures ReadFrom(gots, sessions) && Ended(ret, gots, sessions)
    ensures fdOut.sent + left == Concat(gots) && |left| <= 1048576
    ensures ret != 0 && WillTake(flush, 1048576) ==> left == [] && fdOut.sent == Concat(gots)
    ensures AllServed(sessions, old(fdOut.script)) ==>
              ret == 0 && AllRead(gots, sessions) && left == [] && fdOut.sent == Concat(gots)
  {
    var fifo := new BtFifo(BSIZE, true, false, 0);
    ret, gots := RunSessions(fifo, fdOut, hasTimeout, sessions);
    left := fifo.Contents();
    Assoc(fdOut.sent, [], []);
    if ret != 0 {
      fdOut.script := flush;
      left := Flush(fifo, fdOut);
    }
  }

  /** One child, from its creation to the end of the tunnel. */
  method RunSession(fifo: BtFifo, fdOut: Writer, hasTimeout: bool, s: Session, ghost gots: seq<seq<byte>>,
                    ghost spare: nat)
    returns (code: int, ghost moved: seq<byte>)
    requires fifo.Valid() && fifo.assumeReady && s.Session?
    requires fdOut.sent + fifo.Contents() == Concat(gots)
    modifies fifo`dlen, fifo`dpos, fifo.b, fdOut
    ensures fifo.Valid()
    ensures fdOut.sent + fifo.Contents() == Concat(gots + [moved])
    ensures moved <= Offered(s.events)
    ensures code < 0 ==> OutClosed(s.polls, s.staleOut)
    ensures old(!fifo.useWmin && fifo.dlen == 0 && Served(s) && Drains(fdOut.script, 2 * |s.polls| + spare)) ==>
              code == 0 && moved == Offered(s.events) && fifo.Contents() == [] && Drains(fdOut.script, spare)
  {
    var child := new Reader(s.events);
    var used;
    code, used, moved := BufferedTunnelPipe(fifo, child, fdOut, hasTimeout, s.polls, s.staleIn, s.staleOut,
                                            spare);
    OneMore(gots, moved, s.events, child.script);
  }

  lemma NoneRead(sessions: seq<Session>)
    ensures AllRead([], sessions)
  {
  }

  predicate ReadLast(moved: seq<byte>, i: nat, sessions: seq<Session>)
  {
    i < |sessions| && sessions[i].Session? && moved == Offered(sessions[i].events)
  }

  lemma AllReadMore(gots: seq<seq<byte>>, moved: seq<byte>, sessions: seq<Session>)
    ensures AllRead(gots, sessions) && ReadLast(moved, |gots|, sessions) ==> AllRead(gots + [moved], sessions)
  {
  }

  lemma NothingRead(sessions: seq<Session>)
    ensures ReadFrom([], sessions) && Concat([]) == []
  {
  }

  /** What one more session does to the record of all. */
  lemma SessionOver(gots: seq<seq<byte>>, moved: seq<byte>, sessions: seq<Session>, code: int)
    requires ReadFrom(gots, sessions) && |gots| < |sessions|
    requires var s := sessions[|gots|];
             s.Session? && moved <= Offered(s.events) && (code < 0 ==> OutClosed(s.polls, s.staleOut))
    ensures ReadFrom(gots + [moved], sessions)
    ensures code < 0 ==> Ended(102, gots + [moved], sessions)
  {
    var all := gots + [moved];
    assert all[|all| - 1] == moved && |all| - 1 == |gots|;
  }

  lemma OneMore(gots: seq<seq<byte>>, moved: seq<byte>, events: seq<ReadEvent>, later: seq<ReadEvent>)
    requires moved + Offered(later) == Offered(events)
    ensures Concat(gots + [moved]) == Concat(gots) + moved
    ensures moved <= Offered(events)
  {
    ConcatSnoc(gots, moved);
  }

  /** The last call, on a pipe made blocking. */
  method Flush(fifo: BtFifo, fdOut: Writer) returns (ghost left: seq<byte>)
    requires fifo.Valid() && fifo.assumeReady && !fifo.useWmin
    modifies fifo`dlen, fifo`dpos, fdOut
    ensures fdOut.sent + left == old(fdOut.sent + fifo.Contents())
    ensures |left| <= old(fifo.dlen) && (WillTake(old(fdOut.script), old(fifo.dlen)) ==> left == [])
  {
    hide Window, Empty, WillTake;
    Rejoin(fdOut.sent, fifo.Contents(), Empty(fifo.Stored(), fdOut.script).count);
    if WillTake(fdOut.script, fifo.dlen) {
      TakesAll(fifo.Stored(), fdOut.script, fifo.dlen);
    }
    var ret := fifo.FifoToFd(fdOut, Usable);
    left := fifo.Contents();
  }

  lemma TakesAll(stored: seq<nat>, s: seq<WriteEvent>, n: nat)
    requires 1 <= |stored| <= 2 && n == if |stored| == 1 then stored[0] else stored[0] + stored[1]
    requires WillTake(s, n)
    ensures Empty(stored, s).count == n
  {
  }
}
