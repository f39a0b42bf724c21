/** The extended header of a DHAV frame: subfields of 4 octets (8 for id 0x88),
    spread into a table by dhav_sf_parse_ext_head. */
module Subfields {
  import opened Bytes

  const STRIPLEN_MAX := 8
  const TABLE_SIZE := 2048

  /** Octets in a subfield, id included. */
  function StripLen(id: byte): nat
  {
    if id == 0x88 then 8 else 4
  }

  /** The extended header cut into subfields; the last may be truncated. */
  function Strips(ext: seq<byte>): (ss: seq<seq<byte>>)
    ensures forall i :: 0 <= i < |ss| ==> ss[i] != []
    decreases |ext|
  {
    if ext == [] then []
    else
      var n := if StripLen(ext[0]) <= |ext| then StripLen(ext[0]) else |ext|;
      [ext[..n]] + Strips(ext[n..])
  }

  /** Does subfield `s` set the slot? */
  predicate Sets(s: seq<byte>, id: nat, pos: nat)
  {
    pos < |s| && s[0] == id
  }

  /** The octet of the last subfield that sets the slot, 0 if there is none. */
  function LastWrite(ss: seq<seq<byte>>, id: nat, pos: nat): byte
  {
    if ss == [] then 0
    else
      var s := ss[|ss| - 1];
      if Sets(s, id, pos) then s[pos] else LastWrite(ss[..|ss| - 1], id, pos)
  }

  function Slot(ext: seq<byte>, id: nat, pos: nat): byte
  {
    LastWrite(Strips(ext), id, pos)
  }

  /** DHAV_SF_DATA(id,pos). */
  function SlotIndex(id: nat, pos: nat): nat { id * STRIPLEN_MAX + pos }

  ghost predicate IsTable(t: seq<byte>, ext: seq<byte>)
  {
    |t| == TABLE_SIZE &&
    forall id: nat, pos: nat :: id < 256 && pos < STRIPLEN_MAX ==> t[SlotIndex(id, pos)] == Slot(ext, id, pos)
  }

  /** What a slot holds, without recursion: the octet at `pos` of the last
      subfield `k` of that id long enough to have one; 0 if no subfield has. */
  lemma {:induction false} LastWriteMeaning(ss: seq<seq<byte>>, id: nat, pos: nat)
    ensures (exists k :: LastSetter(ss, k, id, pos) && LastWrite(ss, id, pos) == ss[k][pos])
            || (LastWrite(ss, id, pos) == 0 && forall k :: 0 <= k < |ss| ==> !Sets(ss[k], id, pos))
  {
    if ss != [] {
      var n := |ss| - 1;
      if Sets(ss[n], id, pos) {
        assert LastSetter(ss, n, id, pos);
      } else {
        var init := ss[..n];
        LastWriteMeaning(init, id, pos);
        if k :| LastSetter(init, k, id, pos) && LastWrite(init, id, pos) == init[k][pos] {
          assert LastSetter(ss, k, id, pos);
        }
      }
    }
  }

  ghost predicate LastSetter(ss: seq<seq<byte>>, k: int, id: nat, pos: nat)
  {
    && 0 <= k < |ss| && Sets(ss[k], id, pos)
    && forall j :: k < j < |ss| ==> !Sets(ss[j], id, pos)
  }

  /** The subfields make up the extended header, each of its full length except
      possibly the last. */
  lemma {:induction false} StripsCover(ext: seq<byte>)
    ensures Concat(Strips(ext)) == ext
    ensures forall i :: 0 <= i < |Strips(ext)| ==>
              |Strips(ext)[i]| <= StripLen(Strips(ext)[i][0])
    ensures forall i :: 0 <= i < |Strips(ext)| - 1 ==> |Strips(ext)[i]| == StripLen(Strips(ext)[i][0])
    decreases |ext|
  {
    if ext != [] {
      var n := if StripLen(ext[0]) <= |ext| then StripLen(ext[0]) else |ext|;
      StripsCover(ext[n..]);
      var ss, tail := Strips(ext), Strips(ext[n..]);
      ConcatCons(ext[..n], tail);
      assert ext[..n] + ext[n..] == ext;
      assert forall i :: 1 <= i < |ss| ==> ss[i] == tail[i - 1];
    }
  }

  /** A subfield as written: eight octets where the first is 0x88, four else. */
  predicate Whole(s: seq<byte>)
  {
    s != [] && |s| == if s[0] == 0x88 then 8 else 4
  }

  /** The subfields are found again, whatever they hold. */
  lemma {:induction false} StripsInvert(ss: seq<seq<byte>>)
    requires forall i :: 0 <= i < |ss| ==> Whole(ss[i])
    ensures Strips(Concat(ss)) == ss
    decreases |ss|
  {
    if ss != [] {
      StripsInvert(ss[1..]);
      StripInFront(ss[0], Concat(ss[1..]));
      assert [ss[0]] + ss[1..] == ss;
    }
  }

  lemma StripInFront(s: seq<byte>, rest: seq<byte>)
    requires Whole(s)
    ensures Strips(s + rest) == [s] + Strips(rest)
  {
    assert (s + rest)[..|s|] == s && (s + rest)[|s|..] == rest;
  }

  /** So a slot of a header that was written holds what the last subfield that
      sets it says. */
  lemma WrittenSlot(ss: seq<seq<byte>>, k: nat, id: nat, pos: nat)
    requires forall i :: 0 <= i < |ss| ==> Whole(ss[i])
    requires k < |ss| && LastSetter(ss, k, id, pos)
    ensures Slot(Concat(ss), id, pos) == ss[k][pos]
  {
    StripsInvert(ss);
    LastWriteMeaning(ss, id, pos);
  }

  /** Octets missing to the last subfield. */
  function Missing(ss: seq<seq<byte>>): int
  {
    if ss == [] || ss[|ss| - 1] == [] then 0 else StripLen(ss[|ss| - 1][0]) - |ss[|ss| - 1]|
  }

  /** One more octet opens a subfield or extends the last one. */
  function Snoc(ss: seq<seq<byte>>, b: byte): seq<seq<byte>>
  {
    if Missing(ss) == 0 then ss + [[b]] else ss[..|ss| - 1] + [ss[|ss| - 1] + [b]]
  }

  lemma SnocCons(s: seq<byte>, ss: seq<seq<byte>>, b: byte)
    requires s != [] && |s| == StripLen(s[0])
    ensures Missing([s] + ss) == Missing(ss)
    ensures Snoc([s] + ss, b) == [s] + Snoc(ss, b)
  {
    var all := [s] + ss;
    if ss != [] {
      assert all[|all| - 1] == ss[|ss| - 1];
      assert all[..|all| - 1] == [s] + ss[..|ss| - 1];
    }
  }

  lemma {:induction false} StripsSnoc(ext: seq<byte>, b: byte)
    ensures Missing(Strips(ext)) >= 0
    ensures Strips(ext + [b]) == Snoc(Strips(ext), b)
    decreases |ext|
  {
    if ext == [] || StripLen(ext[0]) > |ext| {
      ShortSnoc(ext, b);
    } else {
      hide Strips, Snoc, Missing;
      var s, rest := ext[..StripLen(ext[0])], ext[StripLen(ext[0])..];
      StripsSnoc(rest, b);
      SnocCons(s, Strips(rest), b);
      StripInFront(s, rest);
      StripInFront(s, rest + [b]);
      assert ext == s + rest && ext + [b] == s + (rest + [b]);
    }
  }

  lemma ShortSnoc(ext: seq<byte>, b: byte)
    requires ext == [] || StripLen(ext[0]) > |ext|
    ensures Missing(Strips(ext)) >= 0
    ensures Strips(ext + [b]) == Snoc(Strips(ext), b)
  {
    hide Strips;
    var x := ext + [b];
    ShortStrip(x);
    if ext == [] {
      NoStrips();
      assert x == [b];
    } else {
      ShortStrip(ext);
    }
  }

  lemma NoStrips()
    ensures Strips([]) == []
  {
  }

  lemma ShortStrip(s: seq<byte>)
    requires s != [] && |s| <= StripLen(s[0])
    ensures Strips(s) == [s]
  {
    assert s[..|s|] == s && s[|s|..] == [];
  }

  /** The effect of one more octet on the slots. */
  lemma SlotSnoc(ext: seq<byte>, b: byte, id: nat, pos: nat)
    ensures var ss := Strips(ext);
            Slot(ext + [b], id, pos) ==
            if Missing(ss) == 0 then (if id == b && pos == 0 then b else Slot(ext, id, pos))
            else if id == ss[|ss| - 1][0] && pos == |ss[|ss| - 1]| then b
            else Slot(ext, id, pos)
  {
    StripsSnoc(ext, b);
    var ss, ss' := Strips(ext), Strips(ext + [b]);
    var n := |ss'| - 1;
    if Missing(ss) == 0 {
      assert ss'[..n] == ss;
    } else {
      assert ss'[..n] == ss[..|ss| - 1];
    }
  }

  /** dhav_sf_parse_ext_head: octet by octet, counting the subfield down. */
  method ParseExtHead(extHead: seq<byte>, table: array<byte>)
    requires table.Length == TABLE_SIZE
    modifies table
    ensures IsTable(table[..], extHead)
  {
    var i := 0;
    while i < TABLE_SIZE
      invariant 0 <= i <= TABLE_SIZE
      invariant forall k :: 0 <= k < i ==> table[k] == 0
    {
      table[i] := 0;
      i := i + 1;
    }
    var id: byte, idLen: nat, idPos: nat, pos := 0, 0, 0, 0;
    var hl := |extHead|;
    assert extHead[..0] == [];
    while hl != 0
      invariant 0 <= hl && pos + hl == |extHead|
      invariant IsTable(table[..], extHead[..pos])
      invariant Counting(extHead[..pos], id, idLen, idPos)
    {
      ghost var ext, b := extHead[..pos], extHead[pos];
      ghost var before := table[..];
      CountingStep(ext, b, id, idLen, idPos);
      assert extHead[..pos + 1] == ext + [b];
      if idLen == 0 {
        idPos := 0;
        id := extHead[pos];
        idLen := if id == 0x88 then 8 else 4;
      }
      table[SlotIndex(id, idPos)] := extHead[pos];
      TableSnoc(before, table[..], ext, b, id, idPos);
      idPos := idPos + 1;
      pos := pos + 1;
      idLen := idLen - 1;
      hl := hl - 1;
    }
    assert extHead[..pos] == extHead;
  }

  /** What the counters of the loop mean after the octets `ext`. */
  ghost predicate Counting(ext: seq<byte>, id: byte, idLen: nat, idPos: nat)
  {
    var ss := Strips(ext);
    && idLen == Missing(ss)
    && (idLen != 0 ==> ss != [] && id == ss[|ss| - 1][0] && idPos == |ss[|ss| - 1]|)
  }

  /** The slot the next octet goes to. */
  ghost predicate NextSlot(ext: seq<byte>, b: byte, id: byte, idPos: nat)
  {
    var ss := Strips(ext);
    if Missing(ss) == 0 then id == b && idPos == 0 else id == ss[|ss| - 1][0] && idPos == |ss[|ss| - 1]|
  }

  lemma CountingStep(ext: seq<byte>, b: byte, id: byte, idLen: nat, idPos: nat)
    requires Counting(ext, id, idLen, idPos)
    ensures var id' := if idLen == 0 then b else id;
            var idLen' := if idLen == 0 then StripLen(b) else idLen;
            var idPos' := if idLen == 0 then 0 else idPos;
            idPos' < STRIPLEN_MAX && NextSlot(ext, b, id', idPos') && Counting(ext + [b], id', idLen' - 1, idPos' + 1)
  {
    StripsSnoc(ext, b);
  }

  lemma TableSnoc(before: seq<byte>, after: seq<byte>, ext: seq<byte>, b: byte, id: byte, idPos: nat)
    requires IsTable(before, ext) && idPos < STRIPLEN_MAX && NextSlot(ext, b, id, idPos)
    requires after == before[SlotIndex(id, idPos) := b]
    ensures IsTable(after, ext + [b])
  {
    forall i: nat, pos: nat | i < 256 && pos < STRIPLEN_MAX
      ensures after[SlotIndex(i, pos)] == Slot(ext + [b], i, pos)
    {
      SlotSnoc(ext, b, i, pos);
    }
  }
}
