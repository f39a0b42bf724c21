/** The code of llprotocol.c and hlprotocol.c on a connection. */
module Protocol {
  import opened Bytes
  import opened Messages

  /** A connection: all the device will ever send on it, all that has been sent
      to the device, and how many more octets can be. */
  class Connection {
    var input: seq<byte>
    var output: seq<byte>
    var room: nat

    /** fread: what there is, up to `n` octets. */
    method Read(n: nat) returns (got: seq<byte>)
      modifies this`input
      ensures |got| == (if n <= |old(input)| then n else |old(input)|) && got == old(input)[..|got|]
      ensures input == Rest(old(input), n)
    {
      var k := if n <= |input| then n else |input|;
      got, input := input[..k], input[k..];
    }

    /** fwrite and fflush. */
    method Write(s: seq<byte>) returns (count: nat)
      modifies this`output, this`room
      ensures count == (if |s| <= old(room) then |s| else old(room)) && room == old(room) - count
      ensures output == old(output) + s[..count]
    {
      count := if |s| <= room then |s| else room;
      output, room := output + s[..count], room - count;
    }

    /** llp_get_header */
    method GetHeader() returns (ret: int, raw: seq<byte>, extlen: nat)
      modifies this`input
      ensures |raw| == HEADER_SIZE
      ensures |old(input)| < HEADER_SIZE ==> ret == 1 && input == []
      ensures |old(input)| >= HEADER_SIZE ==>
                ret == 0 && raw == old(input)[..HEADER_SIZE] && extlen == LE32(raw[4..8]) &&
                input == old(input)[HEADER_SIZE..]
    {
      raw, extlen := Zeros(HEADER_SIZE), 0;
      var got := Read(HEADER_SIZE);
      if |got| != HEADER_SIZE {
        ret, raw := 1, got + raw[|got|..];
        return;
      }
      ret, raw, extlen := 0, got, LE32(got[4..8]);
    }

    /** llp_get_extdata_sbuff */
    method GetExtdata(extlen: nat, buf: array<byte>, bufLen: nat) returns (ret: int)
      requires extlen < TWO_32 && bufLen <= buf.Length
      modifies this`input, buf
      ensures if extlen > bufLen then ret == -2 && input == old(input)
              else input == Rest(old(input), extlen)
      ensures extlen <= bufLen && extlen <= |old(input)| ==>
                ret == (if extlen < TWO_31 then extlen else extlen - TWO_32) && buf[..extlen] == old(input)[..extlen]
      ensures |old(input)| < extlen <= bufLen ==> ret == -1
    {
      if extlen == 0 {
        return 0;
      }
      if bufLen < extlen {
        return -2;
      }
      var got := Read(extlen);
      forall k | 0 <= k < |got| {
        buf[k] := got[k];
      }
      if |got| != extlen {
        return -1;
      }
      ret := if extlen < TWO_31 then extlen else extlen - TWO_32;
    }

    /** llp_get_discard_extdata: 65536 octets at a time. */
    method DiscardExtdata(extlen: nat) returns (ret: int)
      modifies this`input
      ensures input == Rest(old(input), extlen)
      ensures ret == if extlen <= |old(input)| then 0 else 2
    {
      var rem: nat := extlen;
      while rem != 0
        invariant rem <= extlen <= |old(input)| + rem && input == old(input)[extlen - rem..]
      {
        var toRead: nat := if rem > 65536 then 65536 else rem;
        var got := Read(toRead);
        if |got| != toRead {
          return 2;
        }
        rem := rem - toRead;
      }
      return 0;
    }

    /** llp_send_header: the length field is overwritten with `extlen`, and a
        reader of it gets that back. */
    method SendHeader(raw: seq<byte>, extlen: nat) returns (ret: int)
      requires |raw| == HEADER_SIZE && extlen < TWO_32
      modifies this`output, this`room
      ensures ret == if old(room) >= HEADER_SIZE then 0 else 1
      ensures ret == 0 ==> room == old(room) - HEADER_SIZE
      ensures ret == 0 ==> output == old(output) + (raw[..4] + ToLE32(extlen) + raw[8..])
      ensures ret == 0 ==> LE32(output[|old(output)|..][4..8]) == extlen
    {
      var s := raw[..4] + ToLE32(extlen) + raw[8..];
      LE32RoundTrip(extlen);
      assert s[4..8] == ToLE32(extlen);
      var count := Write(s);
      assert s[..HEADER_SIZE] == s && (count == HEADER_SIZE ==> output[|old(output)|..] == s);
      ret := if count != HEADER_SIZE then 1 else 0;
    }

    /** llp_send_nop */
    method SendNop() returns (ret: int)
      modifies this`output, this`room
      ensures ret == if old(room) >= HEADER_SIZE then 0 else 1
      ensures ret == 0 ==> room == old(room) - HEADER_SIZE && output == old(output) + Encode(NopRequest())
    {
      var raw := Zeros(HEADER_SIZE)[0 := NOP_REQ];
      assert raw[..4] + ToLE32(0) + raw[8..] == Encode(NopRequest());
      ret := SendHeader(raw, 0);
    }

    /** hlp_get_header */
    method HlpGetHeader(expected: byte) returns (ret: int, raw: seq<byte>, extlen: nat)
      modifies this`input
      ensures match Await(old(input), expected)
              case NoHeader => ret == 1
              case Found(h, rest) => ret == 0 && raw == h && input == rest && extlen == LE32(h[4..8])
    {
      ret, raw, extlen := GetHeader();
      while ret == 0 && raw[0] != expected
        invariant |raw| == HEADER_SIZE && ret in {0, 1} && (ret == 0 ==> extlen == LE32(raw[4..8]))
        invariant if ret != 0 then Await(old(input), expected) == NoHeader
                  else Await(old(input), expected) == if raw[0] == expected then Found(raw, input)
                                                      else Await(Rest(input, extlen), expected)
        decreases |input|, ret == 0
      {
        var ignored := DiscardExtdata(extlen);
        ret, raw, extlen := GetHeader();
      }
    }

    /** hlp_get_header_and_extdata; `buf` may be null. */
    method HlpGetHeaderAndExtdata(expected: byte, issueNop: bool, buf: array?<byte>, bufLen: nat)
      returns (ret: int, extdataLen: nat)
      requires bufLen < TWO_32 && (buf != null ==> bufLen <= buf.Length)
      modifies this, buf
      ensures var r := SingleQuery(old(input), expected, issueNop, if buf == null then -1 else bufLen);
              && ret == r.ret && input == r.rest
              && (ret == 0 && buf != null ==> extdataLen <= bufLen && buf[..extdataLen] == r.ext)
      ensures !issueNop ==> output == old(output)
      ensures issueNop && old(room) >= HEADER_SIZE ==> output == old(output) + Encode(NopRequest())
    {
      extdataLen := 0;
      if issueNop {
        var ignored := SendNop();
      }
      var code, raw, extlen := GetHeader();
      if code != 0 {
        return 1, extdataLen;
      }
      if raw[0] != expected {
        code := DiscardExtdata(extlen);
        if code != 0 {
          return 2, extdataLen;
        }
        return if issueNop && raw[0] == NOP_REPLY then -1 else 1, extdataLen;
      }
      if buf == null {
        code := DiscardExtdata(extlen);
      } else {
        code := GetExtdata(extlen, buf, bufLen);
        if code < 0 {
          return 3, extdataLen;
        }
        extdataLen := code;
      }
      ret := 0;
      if issueNop {
        ret := DiscardFence();
      }
    }

    /** Getting and discarding the answer to the NOP. */
    method DiscardFence() returns (ret: int)
      modifies this`input
      ensures var r := SkipFence(old(input), []); ret == r.ret && input == r.rest
    {
      var code, raw, extlen := GetHeader();
      if code != 0 {
        return 4;
      }
      code := DiscardExtdata(extlen);
      return if code != 0 then 5 else 0;
    }

    /** One request of the bulk query, in the header used for all of them;
        `done` have been sent. */
    method SendRequest(header: seq<byte>, first: byte, done: nat, ghost sent: seq<byte>)
      returns (ret: int, raw: seq<byte>)
      requires IsRequest(header) && output == sent + EncodeAll(Requests(first, done))
      modifies this`output, this`room
      ensures IsRequest(raw) && ret == if old(room) >= HEADER_SIZE then 0 else 1
      ensures ret == 0 ==> room == old(room) - HEADER_SIZE && output == sent + EncodeAll(Requests(first, done + 1))
    {
      raw := header[8 := (first + done) % 256];
      RequestEncoded(raw, (first + done) % 256);
      OneMoreRequest(sent, first, done);
      ret := SendHeader(raw, 0);
    }

    /** The requests of the bulk query, and the NOP behind them. */
    method SendRequests(first: byte, total: int) returns (ret: int)
      modifies this`output, this`room
      ensures var count: nat := if total > 0 then total else 0;
              && (ret == 0 <==> old(room) >= HEADER_SIZE * (count + 1))
              && (ret == 0 ==> output == old(output) + EncodeAll(Requests(first, count) + [NopRequest()]))
              && ret in {0, 4, 5} && (ret == 5 ==> old(room) >= HEADER_SIZE * count)
    {
      ghost var count: nat := if total > 0 then total else 0;
      var raw := Zeros(HEADER_SIZE)[0 := SYSINFO_REQ][12 := 0];
      var kind: int := first;
      assert output + EncodeAll(Requests(first, 0)) == output;
      while kind < first + total
        invariant first <= kind <= first + count && IsRequest(raw)
        invariant room + HEADER_SIZE * (kind - first) == old(room)
        invariant output == old(output) + EncodeAll(Requests(first, kind - first))
      {
        var code;
        code, raw := SendRequest(raw, first, kind - first, old(output));
        if code != 0 {
          return 4;
        }
        kind := kind + 1;
      }
      var code := SendNop();
      MessageAtEnd(old(output), Requests(first, count), NopRequest());
      return if code != 0 then 5 else 0;
    }

    /** hlp_get_system_information_multiple */
    method SystemInformationMultiple(dev: DevInfo, first: byte, total: int) returns (ret: int)
      requires dev.Valid()
      modifies this, dev
      ensures dev.Valid() && ret in {0, 2, 3, 4, 5}
      ensures var count: nat := if total > 0 then total else 0;
              if old(room) < HEADER_SIZE * (count + 1) then ret in {4, 5} && unchanged(dev) && input == old(input)
              else
                var c := Collect(old(input), old(dev.Value()));
                && output == old(output) + EncodeAll(Requests(first, count) + [NopRequest()])
                && ret == c.ret && input == c.rest && dev.Value() == c.info
    {
      ret := SendRequests(first, total);
      if ret != 0 {
        return;
      }
      ret := CollectReplies(dev);
    }

    /** The reply loop. */
    method CollectReplies(dev: DevInfo) returns (ret: int)
      requires dev.Valid()
      modifies this`input, dev
      ensures dev.Valid()
      ensures var c := Collect(old(input), old(dev.Value()));
              ret == c.ret && input == c.rest && dev.Value() == c.info && ret in {0, 2, 3}
    {
      var extdata := new byte[SYSINFO_MAX];
      while true
        invariant dev.Valid()
        invariant Collect(input, dev.Value()) == old(Collect(input, dev.Value()))
        decreases |input|
      {
        var code, raw, extlen := GetHeader();
        if code != 0 {
          return 2;
        }
        ghost var rest := input;
        code := GetExtdata(extlen, extdata, SYSINFO_MAX);
        if code < 0 {
          var ignored := DiscardExtdata(extlen);
          return 3;
        }
        if raw[0] == NOP_REPLY {
          break;
        }
        dev.Update(raw, extdata, code);
      }
      return 0;
    }

    /** hlp_discard_incoming_data; `pending` is what poll answers, time after
        time. */
    method DiscardIncoming(pending: seq<bool>) returns (ret: int)
      modifies this`input
      ensures (ret, input) == Discarded(old(input), pending)
    {
      ret := 0;
      var k := 0;
      while k < |pending| && pending[k]
        invariant k <= |pending| && ret >= 0
        invariant Discarded(old(input), pending) ==
                  var d := Discarded(input, pending[k..]); (if d.0 == 0 then ret else d.0, d.1)
      {
        var code, raw, extlen := GetHeader();
        if code != 0 {
          return -1;
        }
        code := DiscardExtdata(extlen);
        if code != 0 {
          return -1;
        }
        assert pending[k..][1..] == pending[k + 1..];
        ret := 1;
        k := k + 1;
      }
    }
  }

  /** The header of an information request, about whatever kind. */
  ghost predicate IsRequest(raw: seq<byte>)
  {
    |raw| == HEADER_SIZE && raw == Zeros(HEADER_SIZE)[0 := SYSINFO_REQ][8 := raw[8]]
  }

  lemma RequestEncoded(raw: seq<byte>, kind: byte)
    requires IsRequest(raw) && raw[8] == kind
    ensures raw[..4] + ToLE32(0) + raw[8..] == Encode(Request(kind))
  {
  }

  lemma OneMoreRequest(sent: seq<byte>, first: byte, k: nat)
    ensures sent + EncodeAll(Requests(first, k)) + Encode(Request((first + k) % 256)) ==
            sent + EncodeAll(Requests(first, k + 1))
  {
    assert Requests(first, k + 1) == Requests(first, k) + [Request((first + k) % 256)];
    MessageAtEnd(sent, Requests(first, k), Request((first + k) % 256));
  }

  lemma MessageAtEnd(sent: seq<byte>, ms: seq<Message>, m: Message)
    ensures sent + EncodeAll(ms) + Encode(m) == sent + EncodeAll(ms + [m])
  {
    EncodeAllSnoc(ms, m, []);
    AtEnd(sent, EncodeAll(ms), Encode(m), EncodeAll(ms + [m]));
  }

  lemma AtEnd(sent: seq<byte>, a: seq<byte>, b: seq<byte>, c: seq<byte>)
    requires c + [] == a + (b + [])
    ensures sent + a + b == sent + c
  {
    Assoc(sent, a, b);
    Assoc(c, b, []);
    Assoc(b, [], []);
  }

  /** The switch, read off from what sets each string. */
  lemma WhoSets(i: Info, m: Message)
    requires ValidMessage(m) && ValidInfo(i)
    ensures var c, s := m.raw[8], Extracted(m.ext);
            After(i, m) ==
              if c == 2 then i.(disk := DiskOf(m.raw[13]))
              else if c > 20 then i.(text := LateText(i.text, c, s))
              else i.(text := EarlyText(i.text, c, s))
  {
    if m.raw[8] > 20 {
      SetLate(i, m);
    } else {
      SetEarly(i, m);
    }
  }

  function EarlyText(t: map<Text, seq<byte>>, kind: byte, s: seq<byte>): map<Text, seq<byte>>
  {
    if kind == 7 then t[SerialNumber := s]
    else if kind == 8 then t[Version := s]
    else if kind == 11 then t[TypeChipset := s][SplitScreen := s][Languages := s]
    else if kind == 19 then t[SplitScreen := s][Languages := s]
    else if kind == 20 then t[Languages := s]
    else t
  }

  function LateText(t: map<Text, seq<byte>>, kind: byte, s: seq<byte>): map<Text, seq<byte>>
  {
    if kind == 26 then t[Functions := s]
    else if kind == 27 then t[WirelessAlarm := s]
    else if kind == 29 then t[OemInfo := s]
    else if kind == 30 then t[NetworkStatus := s]
    else if kind == 31 then t[Capability := s]
    else if kind == 33 then t[PartitionCapability := s]
    else if kind == 39 then t[AccessUrl := s]
    else t
  }

  lemma SetEarly(i: Info, m: Message)
    requires ValidMessage(m) && ValidInfo(i) && m.raw[8] <= 20
    ensures After(i, m).text == EarlyText(i.text, m.raw[8], Extracted(m.ext))
  {
  }

  lemma SetLate(i: Info, m: Message)
    requires ValidMessage(m) && ValidInfo(i) && m.raw[8] > 20
    ensures After(i, m).text == LateText(i.text, m.raw[8], Extracted(m.ext))
  {
  }

  /** t_devinfo, as far as system information goes. */
  class DevInfo {
    var disk: Disk
    var text: map<Text, seq<byte>>

    predicate Valid()
      reads this
    {
      ValidInfo(Info(disk, text))
    }

    function Value(): Info
      reads this
    {
      Info(disk, text)
    }

    /** extract_string into one of the strings. */
    method Extract(f: Text, ext: array<byte>, n: nat)
      requires n <= ext.Length
      modifies this`text
      ensures text == old(text)[f := Extracted(ext[..n])]
    {
      var toDo := if n > TEXT_MAX then TEXT_MAX else n;
      var s: seq<byte> := [];
      while |s| < toDo
        invariant |s| <= toDo && forall i :: 0 <= i < |s| ==> s[i] == Printable(ext[i])
      {
        s := s + [Printable(ext[|s|])];
      }
      assert s == Extracted(ext[..n]);
      text := text[f := s];
    }

    /** update_devinfo_from_system_information */
    method Update(raw: seq<byte>, ext: array<byte>, n: nat)
      requires Valid() && |raw| == HEADER_SIZE && n <= ext.Length && LE32(raw[4..8]) == n
      modifies this
      ensures Valid()
      ensures Value() == After(old(Value()), Message(raw, ext[..n]))
    {
      ghost var m := Message(raw, ext[..n]);
      WhoSets(old(Value()), m);
      match raw[8] {
        case 2 => disk := if raw[13] == 0 then Ata else if raw[13] == 1 then Sata else UnknownDisk;
        case 7 => Extract(SerialNumber, ext, n);
        case 8 => Extract(Version, ext, n);
        case 11 => Extract(TypeChipset, ext, n); Extract(SplitScreen, ext, n); Extract(Languages, ext, n);
        case 19 => Extract(SplitScreen, ext, n); Extract(Languages, ext, n);
        case 20 => Extract(Languages, ext, n);
        case 26 => Extract(Functions, ext, n);
        case 27 => Extract(WirelessAlarm, ext, n);
        case 29 => Extract(OemInfo, ext, n);
        case 30 => Extract(NetworkStatus, ext, n);
        case 31 => Extract(Capability, ext, n);
        case 33 => Extract(PartitionCapability, ext, n);
        case 39 => Extract(AccessUrl, ext, n);
        case _ =>
      }
    }
  }
}
