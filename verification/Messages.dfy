/** The device's message protocol: llprotocol.c on an in-order connection, and the
    NOP fence of hlprotocol.c as functions of what the connection delivers. */
module Messages {
  import opened Bytes

  const HEADER_SIZE := 32
  const NOP_REQ: byte := 0xa1
  const NOP_REPLY: byte := 0xb1
  const SYSINFO_REQ: byte := 0xa4

  /** Size of the buffer replies are collected in. */
  const SYSINFO_MAX := 1024

  // ------------------------------------------------------- messages

  datatype Message = Message(raw: seq<byte>, ext: seq<byte>)

  /** The header counts the octets that follow it. */
  predicate ValidMessage(m: Message)
  {
    |m.raw| == 32 && LE32(m.raw[4..8]) == |m.ext|
  }

  function Cmd(m: Message): byte
    requires ValidMessage(m)
  {
    m.raw[0]
  }

  ghost predicate AllValid(ms: seq<Message>)
  {
    forall i :: 0 <= i < |ms| ==> ValidMessage(ms[i])
  }

  function Encode(m: Message): seq<byte>
  {
    m.raw + m.ext
  }

  function EncodeAll(ms: seq<Message>): seq<byte>
  {
    if ms == [] then [] else Encode(ms[0]) + EncodeAll(ms[1..])
  }

  lemma EncodedFirst(m: Message, t: seq<byte>)
    requires ValidMessage(m)
    ensures var s := Encode(m) + t;
            && |s| >= HEADER_SIZE && s[..HEADER_SIZE] == m.raw && s[HEADER_SIZE..] == m.ext + t
            && (m.ext + t)[..|m.ext|] == m.ext && (m.ext + t)[|m.ext|..] == t
  {
    assert (m.raw + m.ext + t)[HEADER_SIZE..] == m.ext + t;
  }

  lemma EncodeAllCons(ms: seq<Message>, t: seq<byte>)
    requires ms != []
    ensures EncodeAll(ms) + t == Encode(ms[0]) + (EncodeAll(ms[1..]) + t)
  {
  }

  /** What is left of `s` after discarding `n` octets, as far as they come. */
  function Rest(s: seq<byte>, n: nat): seq<byte>
  {
    if n <= |s| then s[n..] else []
  }

  // ------------------------------------------------------- what the replies tell

  datatype Disk = UndefinedDisk | Ata | Sata | UnknownDisk

  /** The strings of t_devinfo. */
  datatype Text =
    | SerialNumber | Version | TypeChipset | SplitScreen | Languages | Functions
    | WirelessAlarm | OemInfo | NetworkStatus | Capability | PartitionCapability | AccessUrl

  datatype Info = Info(disk: Disk, text: map<Text, seq<byte>>)

  /** Kinds of information that set a string.  The cases for 11 and 19 have no
      break, so the later strings are set as well. */
  function SetBy(f: Text): (kinds: set<byte>)
    ensures 2 !in kinds
  {
    match f
    case SerialNumber => {7}
    case Version => {8}
    case TypeChipset => {11}
    case SplitScreen => {11, 19}
    case Languages => {11, 19, 20}
    case Functions => {26}
    case WirelessAlarm => {27}
    case OemInfo => {29}
    case NetworkStatus => {30}
    case Capability => {31}
    case PartitionCapability => {33}
    case AccessUrl => {39}
  }

  /** The table, read by kinds. */
  lemma StringsOfKinds(f: Text)
    ensures (7 in SetBy(f) <==> f == SerialNumber) && (8 in SetBy(f) <==> f == Version)
    ensures (11 in SetBy(f) <==> f in {TypeChipset, SplitScreen, Languages})
    ensures (19 in SetBy(f) <==> f in {SplitScreen, Languages}) && (20 in SetBy(f) <==> f == Languages)
    ensures (26 in SetBy(f) <==> f == Functions) && (27 in SetBy(f) <==> f == WirelessAlarm)
    ensures (29 in SetBy(f) <==> f == OemInfo) && (30 in SetBy(f) <==> f == NetworkStatus)
    ensures (31 in SetBy(f) <==> f == Capability) && (33 in SetBy(f) <==> f == PartitionCapability)
    ensures (39 in SetBy(f) <==> f == AccessUrl)
    ensures SetBy(f) <= {7, 8, 11, 19, 20, 26, 27, 29, 30, 31, 33, 39}
  {
  }

  /** char is signed: control characters and everything from 128 on, but not tab,
      become spaces. */
  function Printable(c: byte): byte
  {
    if (c < 32 || c >= 128) && c != 9 then 32 else c
  }

  /** Only tab and 32 to 127 come out, and these as they are. */
  lemma PrintableMeaning(c: byte)
    ensures var r := Printable(c);
            && (r == 9 || 32 <= r <= 127) && (r == c || r == 32) && (c == 9 || 32 <= c <= 127 ==> r == c)
  {
  }

  const TEXT_MAX := 1023

  /** The string extracted from `ext`. */
  function Extracted(ext: seq<byte>): (s: seq<byte>)
    ensures |s| == if |ext| < 1023 then |ext| else 1023
    ensures forall i :: 0 <= i < |s| ==> s[i] == Printable(ext[i])
  {
    seq(if |ext| < TEXT_MAX then |ext| else TEXT_MAX, i requires 0 <= i < |ext| => Printable(ext[i]))
  }

  function DiskOf(c: byte): Disk
  {
    if c == 0 then Ata else if c == 1 then Sata else UnknownDisk
  }

  /** All strings are there. */
  predicate ValidInfo(i: Info)
  {
    forall f: Text :: f in i.text
  }

  /** What is known after a reply; of its command code nothing is asked. */
  function After(i: Info, m: Message): (i': Info)
    requires ValidMessage(m) && ValidInfo(i)
    ensures ValidInfo(i')
  {
    Info(if m.raw[8] == 2 then DiskOf(m.raw[13]) else i.disk,
         map f: Text | f in i.text :: if m.raw[8] in SetBy(f) then Extracted(m.ext) else i.text[f])
  }

  function AfterAll(i: Info, ms: seq<Message>): (i': Info)
    requires AllValid(ms) && ValidInfo(i)
    ensures ValidInfo(i')
    decreases |ms|
  {
    if ms == [] then i else AfterAll(After(i, ms[0]), ms[1..])
  }

  /** No reply from position k on sets string `f`. */
  ghost predicate SilentFrom(ms: seq<Message>, f: Text, k: nat)
    requires AllValid(ms)
  {
    forall j :: k <= j < |ms| ==> ms[j].raw[8] !in SetBy(f)
  }

  /** A string holds what the last reply that sets it said, or what it was. */
  lemma {:induction false} LastReplyWins(i: Info, ms: seq<Message>, f: Text, k: nat)
    requires AllValid(ms) && ValidInfo(i) && k <= |ms| && SilentFrom(ms, f, k)
    requires k > 0 ==> ms[k - 1].raw[8] in SetBy(f)
    ensures AfterAll(i, ms).text[f] == if k == 0 then i.text[f] else Extracted(ms[k - 1].ext)
    decreases |ms|
  {
    if ms != [] {
      LastReplyWins(After(i, ms[0]), ms[1..], f, if k <= 1 then 0 else k - 1);
    }
  }

  /** Likewise for the kind of disk. */
  lemma {:induction false} LastDiskWins(i: Info, ms: seq<Message>, k: nat)
    requires AllValid(ms) && ValidInfo(i) && k <= |ms|
    requires forall j :: k <= j < |ms| ==> ms[j].raw[8] != 2
    requires k > 0 ==> ms[k - 1].raw[8] == 2
    ensures AfterAll(i, ms).disk ==
            if k == 0 then i.disk
            else match ms[k - 1].raw[13] case 0 => Ata case 1 => Sata case _ => UnknownDisk
    decreases |ms|
  {
    if ms != [] {
      LastDiskWins(After(i, ms[0]), ms[1..], if k <= 1 then 0 else k - 1);
    }
  }

  // ------------------------------------------------------- the bulk query

  datatype Collected = Collected(ret: int, rest: seq<byte>, info: Info)

  /** Collecting replies until the answer to the NOP comes. */
  function Collect(s: seq<byte>, i: Info): (c: Collected)
    requires ValidInfo(i)
    ensures ValidInfo(c.info)
    decreases |s|
  {
    if |s| < HEADER_SIZE then Collected(2, [], i)
    else
      var h, t := s[..HEADER_SIZE], s[HEADER_SIZE..];
      var n := LE32(h[4..8]);
      if n > SYSINFO_MAX || n > |t| then Collected(3, Rest(t, n), i)
      else if h[0] == NOP_REPLY then Collected(0, t[n..], i)
      else Collect(t[n..], After(i, Message(h, t[..n])))
  }

  /** A reply that fits the buffer. */
  predicate Fits(m: Message)
  {
    ValidMessage(m) && |m.ext| <= 1024
  }

  /** Replies that fit, none of them the answer to a NOP. */
  ghost predicate Replies(ms: seq<Message>)
  {
    forall k :: 0 <= k < |ms| ==> Fits(ms[k]) && Cmd(ms[k]) != NOP_REPLY
  }

  predicate Fence(m: Message)
  {
    Fits(m) && Cmd(m) == NOP_REPLY
  }

  /** Replies, then the fence: the query succeeds, consumes exactly through the
      fence, and has taken in all replies in order. */
  lemma {:induction false} FencedQuery(ms: seq<Message>, nop: Message, tail: seq<byte>, i: Info)
    requires Replies(ms) && Fence(nop) && ValidInfo(i)
    ensures Collect(EncodeAll(ms) + (Encode(nop) + tail), i) == Collected(0, tail, AfterAll(i, ms))
    decreases |ms|
  {
    var end := Encode(nop) + tail;
    if ms == [] {
      assert [] + end == end;
      EncodedFirst(nop, tail);
    } else {
      var more := EncodeAll(ms[1..]) + end;
      EncodeAllCons(ms, end);
      EncodedFirst(ms[0], more);
      FencedQuery(ms[1..], nop, tail, After(i, ms[0]));
    }
  }

  /** What cannot be a whole message that fits: fewer than 32 octets, or a header
      with more behind it than fits or comes. */
  predicate TooLittle(s: seq<byte>)
  {
    |s| < 32
  }

  predicate TooLong(s: seq<byte>)
  {
    |s| >= 32 && (LE32(s[4..8]) > 1024 || LE32(s[4..8]) > |s| - 32)
  }

  /** Replies, then no more messages: 2 or 3, and the replies have been taken in. */
  lemma {:induction false} UnfencedQuery(ms: seq<Message>, s: seq<byte>, i: Info)
    requires Replies(ms) && ValidInfo(i) && (TooLittle(s) || TooLong(s))
    ensures Collect(EncodeAll(ms) + s, i) ==
            if TooLittle(s) then Collected(2, [], AfterAll(i, ms))
            else Collected(3, Rest(s[32..], LE32(s[4..8])), AfterAll(i, ms))
    decreases |ms|
  {
    if ms == [] {
      assert [] + s == s;
      if TooLong(s) {
        assert s[..HEADER_SIZE][4..8] == s[4..8];
      }
    } else {
      EncodeAllCons(ms, s);
      EncodedFirst(ms[0], EncodeAll(ms[1..]) + s);
      UnfencedQuery(ms[1..], s, After(i, ms[0]));
    }
  }

  ghost predicate IsFenced(s: seq<byte>)
  {
    exists ms: seq<Message>, nop: Message, tail: seq<byte> :: FencedBy(s, ms, nop, tail)
  }

  ghost predicate FencedBy(s: seq<byte>, ms: seq<Message>, nop: Message, tail: seq<byte>)
  {
    Replies(ms) && Fence(nop) && s == EncodeAll(ms) + (Encode(nop) + tail)
  }

  /** And it succeeds on nothing else. */
  lemma QuerySucceedsIffFenced(s: seq<byte>, i: Info)
    requires ValidInfo(i)
    ensures Collect(s, i).ret == 0 <==> IsFenced(s)
  {
    if Collect(s, i).ret == 0 {
      var ms, nop, tail := SplitAtFence(s, i);
    } else if IsFenced(s) {
      var ms: seq<Message>, nop: Message, tail: seq<byte> :| FencedBy(s, ms, nop, tail);
      FencedQuery(ms, nop, tail, i);
    }
  }

  lemma {:induction false} SplitAtFence(s: seq<byte>, i: Info) returns (ms: seq<Message>, nop: Message, tail: seq<byte>)
    requires ValidInfo(i) && Collect(s, i).ret == 0
    ensures FencedBy(s, ms, nop, tail)
    decreases |s|
  {
    hide After, FencedBy, Replies;
    var h, t := s[..HEADER_SIZE], s[HEADER_SIZE..];
    var n := LE32(h[4..8]);
    var m := Message(h, t[..n]);
    assert s == Encode(m) + t[n..];
    if h[0] == NOP_REPLY {
      ms, nop, tail := [], m, t[n..];
      NoneInFront(m, tail);
    } else {
      var ms', nop', tail' := SplitAtFence(t[n..], After(i, m));
      ms, nop, tail := [m] + ms', nop', tail';
      OneInFront(t[n..], m, ms', nop', tail');
    }
  }

  lemma NoneInFront(nop: Message, tail: seq<byte>)
    requires Fence(nop)
    ensures FencedBy(Encode(nop) + tail, [], nop, tail)
  {
    assert [] + (Encode(nop) + tail) == Encode(nop) + tail;
  }

  lemma OneInFront(s: seq<byte>, m: Message, ms: seq<Message>, nop: Message, tail: seq<byte>)
    requires FencedBy(s, ms, nop, tail) && Fits(m) && Cmd(m) != NOP_REPLY
    ensures FencedBy(Encode(m) + s, [m] + ms, nop, tail)
  {
    assert ([m] + ms)[1..] == ms;
    EncodeAllCons([m] + ms, Encode(nop) + tail);
  }

  // ------------------------------------------------------- against a device

  function Zeros(n: nat): (z: seq<byte>)
    ensures |z| == n
  {
    seq(n, _ => 0)
  }

  /** The request for one kind of information. */
  function Request(kind: byte): (m: Message)
    ensures ValidMessage(m) && Cmd(m) == SYSINFO_REQ && m.raw[8] == kind && m.ext == []
  {
    var raw := Zeros(HEADER_SIZE)[0 := SYSINFO_REQ][8 := kind];
    assert raw[4..8] == [0, 0, 0, 0];
    Message(raw, [])
  }

  function NopRequest(): (m: Message)
    ensures ValidMessage(m) && Cmd(m) == NOP_REQ && m.ext == []
  {
    var raw := Zeros(HEADER_SIZE)[0 := NOP_REQ];
    assert raw[4..8] == [0, 0, 0, 0];
    Message(raw, [])
  }

  /** Requests for `count` kinds from `first` on; a kind is one octet. */
  function Requests(first: nat, count: nat): (ms: seq<Message>)
    ensures |ms| == count && forall k :: 0 <= k < count ==> ms[k] == Request((first + k) % 256)
  {
    seq(count, k requires 0 <= k < count => Request((first + k) % 256))
  }

  datatype Answer = Silent | Answer(m: Message)

  /** A device: whether and what it answers to the k-th request. */
  type Device = (nat, Message) -> Answer

  /** Its answers fit and are no NOP answers. */
  ghost predicate Proper(d: Device)
  {
    forall k: nat, m: Message :: d(k, m).Answer? ==> Fits(d(k, m).m) && Cmd(d(k, m).m) != NOP_REPLY
  }

  /** What the device sends back: answers in the order of the requests, a NOP
      always being answered. */
  function Sends(d: Device, nop: Message, reqs: seq<Message>, k: nat): seq<Message>
    requires forall j :: 0 <= j < |reqs| ==> ValidMessage(reqs[j])
    decreases |reqs|
  {
    if reqs == [] then []
    else
      (if Cmd(reqs[0]) == NOP_REQ then [nop]
       else match d(k, reqs[0])
            case Silent => []
            case Answer(m) => [m]) + Sends(d, nop, reqs[1..], k + 1)
  }

  /** The answers to the information requests alone. */
  function Answers(d: Device, reqs: seq<Message>, k: nat): (ms: seq<Message>)
    decreases |reqs|
  {
    if reqs == [] then []
    else (match d(k, reqs[0])
          case Silent => []
          case Answer(m) => [m]) + Answers(d, reqs[1..], k + 1)
  }

  lemma {:induction false} AnswersThenFence(d: Device, nop: Message, reqs: seq<Message>, k: nat)
    requires Proper(d) && forall j :: 0 <= j < |reqs| ==> ValidMessage(reqs[j]) && Cmd(reqs[j]) != NOP_REQ
    ensures Sends(d, nop, reqs + [NopRequest()], k) == Answers(d, reqs, k) + [nop]
    ensures Replies(Answers(d, reqs, k))
    decreases |reqs|
  {
    var all := reqs + [NopRequest()];
    if reqs == [] {
      assert all == [NopRequest()] && all[1..] == [];
    } else {
      assert all[1..] == reqs[1..] + [NopRequest()];
      AnswersThenFence(d, nop, reqs[1..], k + 1);
      var a := match d(k, reqs[0]) case Silent => [] case Answer(m) => [m];
      assert a + (Answers(d, reqs[1..], k + 1) + [nop]) == a + Answers(d, reqs[1..], k + 1) + [nop];
    }
  }

  /** Whatever subset of the requests the device answers, the bulk query returns
      0, stops right behind the answer to its NOP, and knows what the device has
      told. */
  lemma BulkQuery(d: Device, nop: Message, first: nat, count: nat, tail: seq<byte>, i: Info)
    requires Proper(d) && Fence(nop) && ValidInfo(i)
    ensures var reqs := Requests(first, count);
            && Replies(Answers(d, reqs, 0))
            && Collect(EncodeAll(Sends(d, nop, reqs + [NopRequest()], 0)) + tail, i) ==
               Collected(0, tail, AfterAll(i, Answers(d, reqs, 0)))
  {
    var reqs := Requests(first, count);
    AnswersThenFence(d, nop, reqs, 0);
    var ms := Answers(d, reqs, 0);
    EncodeAllSnoc(ms, nop, tail);
    FencedQuery(ms, nop, tail, i);
  }

  lemma {:induction false} EncodeAllSnoc(ms: seq<Message>, m: Message, tail: seq<byte>)
    ensures EncodeAll(ms + [m]) + tail == EncodeAll(ms) + (Encode(m) + tail)
    decreases |ms|
  {
    if ms == [] {
      assert ms + [m] == [m] && [m][1..] == [];
      assert EncodeAll([m]) == Encode(m) + EncodeAll([]) == Encode(m);
    } else {
      assert (ms + [m])[1..] == ms[1..] + [m];
      EncodeAllSnoc(ms[1..], m, tail);
      EncodeAllCons(ms + [m], tail);
      EncodeAllCons(ms, Encode(m) + tail);
    }
  }

  const VERSION_REQUEST: seq<byte> := [0xa4, 0, 0, 0, 0, 0, 0, 0, 8] + Zeros(23)
  const VERSION_REPLY: seq<byte> := [0xb4, 0, 0, 0, 2, 0, 0, 0, 8] + Zeros(23)
  const V1: seq<byte> := [0x56, 0x31]

  /** An exchange, octet for octet: the requests that ask for the version. */
  lemma VersionRequested()
    ensures EncodeAll(Requests(8, 1) + [NopRequest()]) == VERSION_REQUEST + ([0xa1] + Zeros(31))
  {
    hide EncodeAll, Request, NopRequest;
    RequestOctets();
    EncodeAllSnoc([Request(8)], NopRequest(), []);
    EncodeOne(Request(8));
    assert Requests(8, 1) == [Request(8)];
    Assoc(EncodeAll(Requests(8, 1) + [NopRequest()]), [], []);
    Assoc(Encode(NopRequest()), [], []);
  }

  lemma RequestOctets()
    ensures Encode(Request(8)) == VERSION_REQUEST && Encode(NopRequest()) == [0xa1] + Zeros(31)
  {
    assert Request(8).raw == VERSION_REQUEST && NopRequest().raw == [0xa1] + Zeros(31);
    Assoc(VERSION_REQUEST, [], []);
    Assoc([0xa1] + Zeros(31), [], []);
  }

  lemma EncodeOne(m: Message)
    ensures EncodeAll([m]) == Encode(m)
  {
    assert [m][1..] == [];
    Assoc(Encode(m), [], []);
  }

  /** And an answer to them. */
  lemma VersionAnswered(i: Info)
    requires ValidInfo(i)
    ensures Collect(VERSION_REPLY + (V1 + ([0xb1] + Zeros(31))), i) ==
            Collected(0, [], i.(text := i.text[Version := V1]))
  {
    hide Collect, EncodeAll, AfterAll, After;
    var reply, nop := Message(VERSION_REPLY, V1), Message([0xb1] + Zeros(31), []);
    assert reply.raw[4..8] == [2, 0, 0, 0] && nop.raw[4..8] == [0, 0, 0, 0];
    assert Extracted(V1) == V1;
    EncodeOne(reply);
    Assoc([0xb1] + Zeros(31), [], []);
    Assoc(VERSION_REPLY, V1, [0xb1] + Zeros(31));
    FencedQuery([reply], nop, [], i);
    VersionSet(i, reply);
  }

  lemma VersionSet(i: Info, m: Message)
    requires ValidMessage(m) && ValidInfo(i) && m.raw[8] == 8
    ensures AfterAll(i, [m]) == i.(text := i.text[Version := Extracted(m.ext)])
  {
    assert [m][1..] == [];
    forall f: Text ensures 8 in SetBy(f) <==> f == Version {
      StringsOfKinds(f);
    }
    assert After(i, m).text == i.text[Version := Extracted(m.ext)];
  }

  // ------------------------------------------------------- the single query

  datatype Single = Single(ret: int, rest: seq<byte>, ext: seq<byte>)

  /** hlp_get_header_and_extdata; `room` is the size of the buffer for what
      follows the header, or -1 if there is none. */
  function SingleQuery(s: seq<byte>, expected: byte, issueNop: bool, room: int): Single
    requires -1 <= room < TWO_32
  {
    if |s| < HEADER_SIZE then Single(1, [], [])
    else
      var h, t := s[..HEADER_SIZE], s[HEADER_SIZE..];
      var n := LE32(h[4..8]);
      if h[0] != expected then
        if n > |t| then Single(2, [], [])
        else Single(if issueNop && h[0] == NOP_REPLY then -1 else 1, t[n..], [])
      else if room >= 0 && n > room then Single(3, t, [])
      else if room >= 0 && (n > |t| || n >= TWO_31) then Single(3, Rest(t, n), [])
      else
        var ext := if room >= 0 then t[..n] else [];
        if issueNop then SkipFence(Rest(t, n), ext) else Single(0, Rest(t, n), ext)
  }

  /** Discarding the answer to the NOP, whatever it is. */
  function SkipFence(s: seq<byte>, ext: seq<byte>): Single
  {
    if |s| < HEADER_SIZE then Single(4, [], ext)
    else
      var n := LE32(s[..HEADER_SIZE][4..8]);
      if n > |s[HEADER_SIZE..]| then Single(5, [], ext) else Single(0, s[HEADER_SIZE..][n..], ext)
  }

  lemma FenceSkipped(nop: Message, tail: seq<byte>, ext: seq<byte>)
    requires ValidMessage(nop)
    ensures SkipFence(Encode(nop) + tail, ext) == Single(0, tail, ext)
  {
    EncodedFirst(nop, tail);
  }

  /** The device did not answer: -1, and only the fence is consumed. */
  lemma UnansweredQuery(nop: Message, tail: seq<byte>, expected: byte, room: int)
    requires ValidMessage(nop) && Cmd(nop) == NOP_REPLY != expected && -1 <= room < TWO_32
    ensures SingleQuery(Encode(nop) + tail, expected, true, room) == Single(-1, tail, [])
  {
    EncodedFirst(nop, tail);
  }

  /** It did answer, with `m`.  The connection is left behind the fence if and
      only if `m` is the expected reply and fits the buffer; and then its data
      have been delivered. */
  lemma AnsweredQuery(m: Message, nop: Message, tail: seq<byte>, expected: byte, room: int)
    requires ValidMessage(m) && ValidMessage(nop) && Cmd(m) != NOP_REPLY && -1 <= room < TWO_32
    ensures var r := SingleQuery(Encode(m) + (Encode(nop) + tail), expected, true, room);
            var good := Cmd(m) == expected && (room >= 0 ==> |m.ext| <= room && |m.ext| < TWO_31);
            && (r.rest == tail <==> r.ret == 0)
            && (r.ret == 0 <==> good)
            && (good ==> r.ext == if room >= 0 then m.ext else [])
            && (Cmd(m) != expected ==> r.ret == 1 && r.rest == Encode(nop) + tail)
  {
    var end := Encode(nop) + tail;
    EncodedFirst(m, end);
    FenceSkipped(nop, tail, if room >= 0 then m.ext else []);
    assert |end| > |tail| && |m.ext + end| > |tail|;
  }

  /** Whether the answer to the NOP comes, and how it may be cut off. */
  datatype Fenced = NoFence | CutFence | WholeFence

  function FenceIn(s: seq<byte>): Fenced
  {
    if |s| < 32 then NoFence else if LE32(s[4..8]) > |s| - 32 then CutFence else WholeFence
  }

  /** The expected reply, and whatever follows it: 4 or 5 if that is no message. */
  lemma ReplyThen(m: Message, s: seq<byte>, expected: byte, room: int)
    requires ValidMessage(m) && Cmd(m) == expected && -1 <= room < TWO_32
    requires room >= 0 ==> |m.ext| <= room && |m.ext| < TWO_31
    ensures var r := SingleQuery(Encode(m) + s, expected, true, room);
            && r.ret == (match FenceIn(s) case NoFence => 4 case CutFence => 5 case WholeFence => 0)
            && r.rest == (if FenceIn(s) == WholeFence then s[32 + LE32(s[4..8])..] else [])
  {
    EncodedFirst(m, s);
    if |s| >= 32 {
      assert s[..HEADER_SIZE][4..8] == s[4..8];
    }
  }

  /** No message at all: 1; an unexpected one that is cut off: 2. */
  lemma NoReply(s: seq<byte>, expected: byte, issueNop: bool, room: int)
    requires FenceIn(s) != WholeFence && -1 <= room < TWO_32 && (FenceIn(s) == CutFence ==> s[0] != expected)
    ensures SingleQuery(s, expected, issueNop, room) == Single(if FenceIn(s) == NoFence then 1 else 2, [], [])
  {
    if |s| >= 32 {
      assert s[..HEADER_SIZE][4..8] == s[4..8];
    }
  }

  /** An answer of one octet and no room for it: both the octet and the answer to
      the NOP stay behind.  An answer of another command: the latter does. */
  lemma AnswerToNopStays(nop: Message, tail: seq<byte>)
    requires ValidMessage(nop)
    ensures var m := Message(Zeros(HEADER_SIZE)[4 := 1], [9]);
            && SingleQuery(Encode(m) + (Encode(nop) + tail), 0, true, 0) == Single(3, [9] + (Encode(nop) + tail), [])
            && SingleQuery(Encode(m) + (Encode(nop) + tail), 1, true, 0) == Single(1, Encode(nop) + tail, [])
  {
    var m := Message(Zeros(HEADER_SIZE)[4 := 1], [9]);
    assert m.raw[4..8] == [1, 0, 0, 0];
    EncodedFirst(m, Encode(nop) + tail);
  }

  // ------------------------------------------------------- waiting for a reply

  datatype Header = NoHeader | Found(raw: seq<byte>, rest: seq<byte>)

  /** The first header with the expected command, discarding other messages. */
  function Await(s: seq<byte>, expected: byte): (r: Header)
    ensures r.Found? ==> |r.raw| == HEADER_SIZE
    decreases |s|
  {
    if |s| < HEADER_SIZE then NoHeader
    else
      var h, t := s[..HEADER_SIZE], s[HEADER_SIZE..];
      if h[0] == expected then Found(h, t) else Await(Rest(t, LE32(h[4..8])), expected)
  }

  /** Spurious messages in front of a reply do not matter. */
  lemma {:induction false} SpuriousSkipped(ms: seq<Message>, m: Message, tail: seq<byte>)
    requires AllValid(ms) && ValidMessage(m) && forall k :: 0 <= k < |ms| ==> Cmd(ms[k]) != Cmd(m)
    ensures Await(EncodeAll(ms) + (Encode(m) + tail), Cmd(m)) == Found(m.raw, m.ext + tail)
    decreases |ms|
  {
    var end := Encode(m) + tail;
    if ms == [] {
      assert [] + end == end;
      EncodedFirst(m, tail);
    } else {
      var more := EncodeAll(ms[1..]) + end;
      EncodeAllCons(ms, end);
      EncodedFirst(ms[0], more);
      SpuriousSkipped(ms[1..], m, tail);
    }
  }

  /** None comes: all is discarded in vain. */
  lemma {:induction false} NoneExpected(ms: seq<Message>, s: seq<byte>, expected: byte)
    requires AllValid(ms) && |s| < 32 && forall k :: 0 <= k < |ms| ==> Cmd(ms[k]) != expected
    ensures Await(EncodeAll(ms) + s, expected) == NoHeader
    decreases |ms|
  {
    if ms == [] {
      assert [] + s == s;
    } else {
      EncodeAllCons(ms, s);
      EncodedFirst(ms[0], EncodeAll(ms[1..]) + s);
      NoneExpected(ms[1..], s, expected);
    }
  }

  // ------------------------------------------------------- discarding

  /** Discarding a message for each time data are pending: 1 if there was one, 0
      if there was none, -1 if one is cut short. */
  function Discarded(s: seq<byte>, pending: seq<bool>): (int, seq<byte>)
    decreases |pending|
  {
    if pending == [] || !pending[0] then (0, s)
    else if |s| < HEADER_SIZE then (-1, [])
    else
      var t, n := s[HEADER_SIZE..], LE32(s[..HEADER_SIZE][4..8]);
      if n > |t| then (-1, [])
      else
        var d := Discarded(t[n..], pending[1..]);
        (if d.0 == 0 then 1 else d.0, d.1)
  }

  /** Pending messages are discarded whole; -1 if one is cut off. */
  lemma {:induction false} PendingCutOff(ms: seq<Message>, s: seq<byte>, pending: seq<bool>)
    requires AllValid(ms) && |pending| > |ms| && FenceIn(s) != WholeFence
    requires forall k :: 0 <= k <= |ms| ==> pending[k]
    ensures Discarded(EncodeAll(ms) + s, pending) == (-1, [])
    decreases |ms|
  {
    if ms == [] {
      assert [] + s == s;
      if |s| >= 32 {
        assert s[..HEADER_SIZE][4..8] == s[4..8];
      }
    } else {
      EncodeAllCons(ms, s);
      EncodedFirst(ms[0], EncodeAll(ms[1..]) + s);
      PendingCutOff(ms[1..], s, pending[1..]);
    }
  }

  lemma {:induction false} PendingDiscarded(ms: seq<Message>, tail: seq<byte>, pending: seq<bool>)
    requires AllValid(ms) && |pending| > |ms| && !pending[|ms|]
    requires forall k :: 0 <= k < |ms| ==> pending[k]
    ensures Discarded(EncodeAll(ms) + tail, pending) == (if ms == [] then 0 else 1, tail)
    decreases |ms|
  {
    if ms == [] {
      assert [] + tail == tail;
    } else {
      EncodeAllCons(ms, tail);
      EncodedFirst(ms[0], EncodeAll(ms[1..]) + tail);
      PendingDiscarded(ms[1..], tail, pending[1..]);
    }
  }
}
