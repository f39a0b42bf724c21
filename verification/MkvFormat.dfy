/** The Matroska bytes the converter writes, and the proof that the reader of
    Ebml.dfy gets everything back out of them. */
module MkvFormat {
  import opened Bytes
  import opened Ebml

  // ------------------------------------------------------- element encodings

  /** An 8-octet size field. */
  function Size8(n: nat): (s: seq<byte>)
    ensures |s| == 8
  {
    [1] + BE(n, 7)
  }

  function El1(id: seq<byte>, data: seq<byte>): (s: seq<byte>)
    requires |data| < 127
    ensures |s| == |id| + 1 + |data|
  {
    id + [128 + |data|] + data
  }

  function El8(id: seq<byte>, data: seq<byte>): (s: seq<byte>)
    ensures |s| == |id| + 8 + |data|
  {
    id + Size8(|data|) + data
  }

  predicate ValidId(id: seq<byte>)
  {
    1 <= |id| <= 4 && VintLen(id[0]) == |id|
  }

  lemma ReadIdBack(id: seq<byte>, rest: seq<byte>)
    requires ValidId(id)
    ensures ReadId(id + rest) == Some((FromBE(id), rest))
  {
    assert (id + rest)[..|id|] == id && (id + rest)[|id|..] == rest;
  }

  lemma ReadSize1(n: nat, rest: seq<byte>)
    requires n < 127
    ensures ReadSize([128 + n] + rest) == Some((Known(n), rest))
  {
    var b: seq<byte> := [128 + n];
    assert (b + rest)[..1] == b && (b + rest)[1..] == rest;
    assert b[..0] == [] && FromBE(b) == 128 + n;
    assert Marker(1) == 128 * Marker(0);
  }

  lemma MarkerEight()
    ensures Marker(8) == TWO_56
  {
    assert Marker(4) == 0x1000_0000;
  }

  lemma ReadSize8(n: nat, rest: seq<byte>)
    requires n < TWO_56 - 1
    ensures ReadSize(Size8(n) + rest) == Some((Known(n), rest))
  {
    var s := Size8(n);
    assert (s + rest)[..8] == s && (s + rest)[8..] == rest;
    Pow256Values();
    BERoundTrip(n, 7);
    FromBEConcat([1], BE(n, 7));
    assert FromBE([1]) == 1 by { assert [1][..0] == []; }
    MarkerEight();
  }

  /** What one written element reads back as. */
  lemma ReadEl1(id: seq<byte>, data: seq<byte>, rest: seq<byte>)
    requires ValidId(id) && |data| < 127
    ensures ReadElement(El1(id, data) + rest) == Some((Element(FromBE(id), data), rest))
  {
    var size: seq<byte> := [128 + |data|];
    assert El1(id, data) + rest == id + (size + (data + rest));
    ReadIdBack(id, size + (data + rest));
    ReadSize1(|data|, data + rest);
    assert (data + rest)[..|data|] == data && (data + rest)[|data|..] == rest;
  }

  lemma ReadEl8(id: seq<byte>, data: seq<byte>, rest: seq<byte>)
    requires ValidId(id) && |data| < TWO_56 - 1
    ensures ReadElement(El8(id, data) + rest) == Some((Element(FromBE(id), data), rest))
  {
    var size := Size8(|data|);
    assert El8(id, data) + rest == id + (size + (data + rest));
    ReadIdBack(id, size + (data + rest));
    ReadSize8(|data|, data + rest);
    assert (data + rest)[..|data|] == data && (data + rest)[|data|..] == rest;
  }

  /** Elements in front of others. */
  function Cons(e: Element, es: Option<seq<Element>>): Option<seq<Element>>
  {
    match es case None => None case Some(l) => Some([e] + l)
  }

  lemma Children1(id: seq<byte>, data: seq<byte>, rest: seq<byte>)
    requires ValidId(id) && |data| < 127
    ensures Children(El1(id, data) + rest) == Cons(Element(FromBE(id), data), Children(rest))
  {
    ReadEl1(id, data, rest);
  }

  lemma Children8(id: seq<byte>, data: seq<byte>, rest: seq<byte>)
    requires ValidId(id) && |data| < TWO_56 - 1
    ensures Children(El8(id, data) + rest) == Cons(Element(FromBE(id), data), Children(rest))
  {
    ReadEl8(id, data, rest);
  }

  lemma IdValue(id: seq<byte>)
    requires 1 <= |id| <= 4
    ensures FromBE(id) == match |id|
                          case 1 => id[0] as int
                          case 2 => id[0] * TWO_8 + id[1]
                          case 3 => id[0] * TWO_16 + id[1] * TWO_8 + id[2]
                          case _ => id[0] * TWO_24 + id[1] * TWO_16 + id[2] * TWO_8 + id[3]
  {
    assert id[..|id| - 1] == if |id| == 1 then [] else if |id| == 2 then [id[0]]
                             else if |id| == 3 then [id[0], id[1]] else [id[0], id[1], id[2]];
    if |id| >= 3 {
      assert [id[0], id[1]][..1] == [id[0]] && [id[0]][..0] == [];
      if |id| == 4 {
        assert [id[0], id[1], id[2]][..2] == [id[0], id[1]];
      }
    } else if |id| == 2 {
      assert [id[0]][..0] == [];
    }
  }

  // ------------------------------------------------------- cluster

  const CLUSTER: seq<byte> := [0x1f, 0x43, 0xb6, 0x75]

  function BlockData(lowBit: bool, body: seq<byte>): seq<byte>
  {
    [0x81] + [0, 0] + [if lowBit then 1 else 0] + body
  }

  function ClusterData(timestamp: nat, lowBit: bool, body: seq<byte>): (s: seq<byte>)
    ensures |s| == |body| + 23
  {
    El1([0xe7], BE(timestamp, 8)) + El8([0xa3], BlockData(lowBit, body))
  }

  /** A cluster with its timestamp and one SimpleBlock. */
  function ClusterBytes(timestamp: nat, lowBit: bool, body: seq<byte>): (s: seq<byte>)
    ensures |s| == |body| + 35
  {
    El8(CLUSTER, ClusterData(timestamp, lowBit, body))
  }

  /** The cluster that was written. */
  function ClusterOf(timestamp: nat, lowBit: bool, body: seq<byte>): Cluster
  {
    Cluster(timestamp, Block(1, 0, if lowBit then 1 else 0, body))
  }

  lemma ReadBlockBack(lowBit: bool, body: seq<byte>)
    ensures ReadBlock(BlockData(lowBit, body)) == Some(Block(1, 0, if lowBit then 1 else 0, body))
  {
    var flag: byte := if lowBit then 1 else 0;
    var s := [0, 0] + ([flag] + body);
    assert BlockData(lowBit, body) == [0x81] + s;
    ReadSize1(1, s);
    assert s[..2] == [0, 0] && s[2] == flag && s[3..] == body;
    IdValue([0, 0]);
  }

  /** A written cluster reads back with its timestamp, flags and body; all sizes
      nest exactly, or the children would not have been read. */
  lemma ReadClusterBack(timestamp: nat, lowBit: bool, body: seq<byte>)
    requires timestamp < TWO_64 && |body| < TWO_56 - 24
    ensures ReadCluster(ClusterData(timestamp, lowBit, body)) == Some(ClusterOf(timestamp, lowBit, body))
  {
    var block := BlockData(lowBit, body);
    Children1([0xe7], BE(timestamp, 8), El8([0xa3], block));
    Children8([0xa3], block, []);
    assert El8([0xa3], block) + [] == El8([0xa3], block);
    IdValue([0xe7]);
    IdValue([0xa3]);
    Pow256Values();
    BERoundTrip(timestamp, 8);
    ReadBlockBack(lowBit, body);
  }

  /** A list of clusters, then more of them. */
  lemma ClusterInFront(timestamp: nat, lowBit: bool, body: seq<byte>, rest: seq<byte>)
    requires timestamp < TWO_64 && |body| < TWO_56 - 24
    ensures Children(ClusterBytes(timestamp, lowBit, body) + rest) ==
            Cons(Element(ID_CLUSTER, ClusterData(timestamp, lowBit, body)), Children(rest))
  {
    Children8(CLUSTER, ClusterData(timestamp, lowBit, body), rest);
    IdValue(CLUSTER);
  }

  // ------------------------------------------------------- main header

  /** What varies in the main header. */
  datatype Head = Head(codec: seq<byte>, width: nat, height: nat, aspectX: nat, aspectY: nat,
                       rate: nat, app: seq<byte>)

  const APP_LEN := 13
  const CODEC_LEN := 15

  predicate ValidHead(h: Head)
  {
    && |h.codec| == CODEC_LEN && |h.app| == APP_LEN
    && h.width < TWO_16 && h.height < TWO_16 && h.aspectX < TWO_16 && h.aspectY < TWO_16
    && h.rate < TWO_32
  }

  const MATROSKA: seq<byte> := [0x6d, 0x61, 0x74, 0x72, 0x6f, 0x73, 0x6b, 0x61]
  const UND: seq<byte> := [0x75, 0x6e, 0x64]

  /** DocType and versions. */
  function EbmlData(): (s: seq<byte>)
    ensures |s| == 0x23
  {
    El1([0x42, 0x86], [0x01]) + (El1([0x42, 0xf7], [0x01]) + (El1([0x42, 0xf2], [0x04]) + (El1([0x42, 0xf3], [0x08])
    + (El1([0x42, 0x82], MATROSKA) + (El1([0x42, 0x87], [0x02]) + El1([0x42, 0x85], [0x02]))))))
  }

  function EbmlHead(): (s: seq<byte>)
    ensures |s| == 47
  {
    El8(EBML, EbmlData())
  }

  const EBML: seq<byte> := [0x1a, 0x45, 0xdf, 0xa3]
  const SEGMENT: seq<byte> := [0x18, 0x53, 0x80, 0x67]
  const SIZE_UNKNOWN: seq<byte> := [0x01, 0xff, 0xff, 0xff, 0xff, 0xff, 0xff, 0xff]

  function Blank(): (s: seq<byte>)
    ensures |s| == 0x93 && forall i :: 0 <= i < 0x93 ==> s[i] == 0
  {
    seq(0x93, i => 0)
  }

  function Void(): (s: seq<byte>)
    ensures |s| == 156
  {
    El8([0xec], Blank())
  }

  const SEGMENT_UID: seq<byte> := [0x22, 0xd8, 0x7b, 0xf1, 0xe4, 0xc7, 0xff, 0x82,
                                   0xbe, 0x50, 0x86, 0x0f, 0x12, 0x9e, 0x76, 0xc2]
  const DURATION: seq<byte> := [0x41, 0x10, 0x3a, 0x60, 0x00, 0x00, 0x00, 0x00]

  /** SegmentUID and Duration. */
  function InfoTail(): (s: seq<byte>)
    ensures |s| == 30
  {
    El1([0x73, 0xa4], SEGMENT_UID) + El1([0x44, 0x89], DURATION)
  }

  /** TimecodeScale, MuxingApp, WritingApp, SegmentUID and Duration. */
  function InfoData(scale: seq<byte>, mux: seq<byte>, app: seq<byte>): (s: seq<byte>)
    requires |scale| == 3 && |mux| == |app| == APP_LEN
    ensures |s| == 0x45
  {
    El1([0x2a, 0xd7, 0xb1], scale) + (El1([0x4d, 0x80], mux) + (El1([0x57, 0x41], app) + InfoTail()))
  }

  /** Pixel and display sizes and frame rate. */
  function VideoData(w: seq<byte>, h: seq<byte>, x: seq<byte>, y: seq<byte>, rate: seq<byte>): (s: seq<byte>)
    requires |w| == |h| == |x| == |y| == 2 && |rate| == 4
    ensures |s| == 0x1a
  {
    El1([0xb0], w) + (El1([0xba], h) + (El1([0x54, 0xb0], x) + (El1([0x54, 0xba], y) + El1([0x23, 0x83, 0xe3], rate))))
  }

  const CODEC_PRIVATE: seq<byte> := [0x00, 0x00, 0x00, 0x00, 0x00, 0x01, 0x67, 0x42, 0xe0, 0x14, 0xda, 0x05, 0x82,
                                     0x17, 0x89, 0x40, 0x00, 0x00, 0x00, 0x01, 0x68, 0xce, 0x30, 0xa4, 0x80]

  /** TrackNumber, TrackUID, FlagLacing, Language, FlagDefault. */
  function EntryFront(): (s: seq<byte>)
    ensures |s| == 20
  {
    El1([0xd7], [0x01]) + (El1([0x73, 0xc5], [0x01]) + (El1([0x9c], [0x00])
    + (El1([0x22, 0xb5, 0x9c], UND) + El1([0x88], [0x00]))))
  }

  /** The same with CodecID, TrackType, Video and CodecPrivate. */
  function EntryData(codec: seq<byte>, video: seq<byte>): (s: seq<byte>)
    requires |codec| == CODEC_LEN && |video| == 0x1a
    ensures |s| == 0x67
  {
    EntryFront() + (El1([0x86], codec) + (El1([0x83], [0x01])
    + (El8([0xe0], video) + El1([0x63, 0xa2], CODEC_PRIVATE))))
  }

  const TRACKS: seq<byte> := [0x16, 0x54, 0xae, 0x6b]
  const INFO: seq<byte> := [0x15, 0x49, 0xa9, 0x66]

  function Tracks(entry: seq<byte>): (s: seq<byte>)
    requires |entry| == 0x67
    ensures |s| == 124
  {
    El8(TRACKS, El8([0xae], entry))
  }

  /** EBML header, start of the Segment, Void. */
  function Front(): (s: seq<byte>)
    ensures |s| == 215
  {
    EbmlHead() + (SEGMENT + (SIZE_UNKNOWN + Void()))
  }

  /** Everything in front of the first cluster: 420 octets. */
  function HeaderWith(scale: seq<byte>, mux: seq<byte>, app: seq<byte>, codec: seq<byte>,
                      w: seq<byte>, h: seq<byte>, x: seq<byte>, y: seq<byte>, rate: seq<byte>): (s: seq<byte>)
    requires |scale| == 3 && |mux| == |app| == APP_LEN && |codec| == CODEC_LEN
    requires |w| == |h| == |x| == |y| == 2 && |rate| == 4
    ensures |s| == 420
  {
    Front() + (El8(INFO, InfoData(scale, mux, app)) + Tracks(EntryData(codec, VideoData(w, h, x, y, rate))))
  }

  /** TimecodeScale as written: 1000 ns. */
  const SCALE_US: seq<byte> := [0x00, 0x03, 0xe8]

  function Header(h: Head): (s: seq<byte>)
    requires ValidHead(h)
    ensures |s| == 420
  {
    HeaderWith(SCALE_US, h.app, h.app, h.codec,
               BE(h.width, 2), BE(h.height, 2), BE(h.aspectX, 2), BE(h.aspectY, 2), BE(h.rate, 4))
  }

  // ------------------------------------------------------- reading it back

  /** A first element in front of children: they stay as they are. */
  lemma Child1(id: seq<byte>, data: seq<byte>, rest: seq<byte>, wanted: nat)
    requires ValidId(id) && |data| < 127 && Children(rest).Some?
    ensures Children(El1(id, data) + rest).Some?
    ensures Child(El1(id, data) + rest, wanted) == if FromBE(id) == wanted then Some(data) else Child(rest, wanted)
  {
    Children1(id, data, rest);
    FindCons(Element(FromBE(id), data), Children(rest).value, wanted);
  }

  lemma Child8(id: seq<byte>, data: seq<byte>, rest: seq<byte>, wanted: nat)
    requires ValidId(id) && |data| < TWO_56 - 1 && Children(rest).Some?
    ensures Children(El8(id, data) + rest).Some?
    ensures Child(El8(id, data) + rest, wanted) == if FromBE(id) == wanted then Some(data) else Child(rest, wanted)
  {
    Children8(id, data, rest);
    FindCons(Element(FromBE(id), data), Children(rest).value, wanted);
  }

  lemma FindCons(e: Element, es: seq<Element>, wanted: nat)
    ensures Find([e] + es, wanted) == if e.id == wanted then Some(e.data) else Find(es, wanted)
  {
    assert ([e] + es)[1..] == es;
  }

  /** A last child. */
  lemma ChildLast(id: seq<byte>, data: seq<byte>, wanted: nat)
    requires ValidId(id) && |data| < 127
    ensures Children(El1(id, data)).Some?
    ensures Child(El1(id, data), wanted) == if FromBE(id) == wanted then Some(data) else None
  {
    var e := El1(id, data);
    assert e + [] == e;
    Child1(id, data, [], wanted);
    assert Child([], wanted) == None;
  }

  lemma EbmlReads()
    ensures Child(EbmlData(), ID_DOC_TYPE) == Some(MATROSKA)
  {
    var e7 := El1([0x42, 0x85], [0x02]);
    ChildLast([0x42, 0x85], [0x02], ID_DOC_TYPE);
    var e6 := El1([0x42, 0x87], [0x02]) + e7;
    Child1([0x42, 0x87], [0x02], e7, ID_DOC_TYPE);
    var e5 := El1([0x42, 0x82], MATROSKA) + e6;
    Child1([0x42, 0x82], MATROSKA, e6, ID_DOC_TYPE);
    var e4 := El1([0x42, 0xf3], [0x08]) + e5;
    Child1([0x42, 0xf3], [0x08], e5, ID_DOC_TYPE);
    var e3 := El1([0x42, 0xf2], [0x04]) + e4;
    Child1([0x42, 0xf2], [0x04], e4, ID_DOC_TYPE);
    var e2 := El1([0x42, 0xf7], [0x01]) + e3;
    Child1([0x42, 0xf7], [0x01], e3, ID_DOC_TYPE);
    Child1([0x42, 0x86], [0x01], e2, ID_DOC_TYPE);
    IdValue([0x42, 0x82]); IdValue([0x42, 0xf3]); IdValue([0x42, 0xf2]); IdValue([0x42, 0xf7]); IdValue([0x42, 0x86]);
  }

  lemma InfoReads(scale: seq<byte>, mux: seq<byte>, app: seq<byte>, wanted: nat)
    requires |scale| == 3 && |mux| == |app| == APP_LEN
    requires wanted == ID_SCALE || wanted == ID_WRITING_APP
    ensures Child(InfoData(scale, mux, app), wanted) == Some(if wanted == ID_SCALE then scale else app)
  {
    var tail := InfoTail();
    ChildLast([0x44, 0x89], DURATION, wanted);
    Child1([0x73, 0xa4], SEGMENT_UID, El1([0x44, 0x89], DURATION), wanted);
    var e3 := El1([0x57, 0x41], app) + tail;
    Child1([0x57, 0x41], app, tail, wanted);
    var e2 := El1([0x4d, 0x80], mux) + e3;
    Child1([0x4d, 0x80], mux, e3, wanted);
    Child1([0x2a, 0xd7, 0xb1], scale, e2, wanted);
    IdValue([0x57, 0x41]); IdValue([0x4d, 0x80]); IdValue([0x2a, 0xd7, 0xb1]);
  }

  lemma VideoReads(w: seq<byte>, h: seq<byte>, x: seq<byte>, y: seq<byte>, rate: seq<byte>, wanted: nat)
    requires |w| == |h| == |x| == |y| == 2 && |rate| == 4
    ensures var v := Child(VideoData(w, h, x, y, rate), wanted);
            && (wanted == ID_PIXEL_WIDTH ==> v == Some(w)) && (wanted == ID_PIXEL_HEIGHT ==> v == Some(h))
            && (wanted == ID_DISPLAY_WIDTH ==> v == Some(x)) && (wanted == ID_DISPLAY_HEIGHT ==> v == Some(y))
            && (wanted == ID_FRAME_RATE ==> v == Some(rate))
  {
    var e5 := El1([0x23, 0x83, 0xe3], rate);
    ChildLast([0x23, 0x83, 0xe3], rate, wanted);
    var e4 := El1([0x54, 0xba], y) + e5;
    Child1([0x54, 0xba], y, e5, wanted);
    var e3 := El1([0x54, 0xb0], x) + e4;
    Child1([0x54, 0xb0], x, e4, wanted);
    var e2 := El1([0xba], h) + e3;
    Child1([0xba], h, e3, wanted);
    Child1([0xb0], w, e2, wanted);
    IdValue([0x23, 0x83, 0xe3]); IdValue([0x54, 0xba]); IdValue([0x54, 0xb0]); IdValue([0xba]); IdValue([0xb0]);
  }

  lemma EntryReads(codec: seq<byte>, video: seq<byte>, wanted: nat)
    requires |codec| == CODEC_LEN && |video| == 0x1a
    ensures var c := Child(EntryData(codec, video), wanted);
            && (wanted == ID_TRACK_NUMBER ==> c == Some([1])) && (wanted == ID_TRACK_TYPE ==> c == Some([1]))
            && (wanted == ID_CODEC ==> c == Some(codec)) && (wanted == ID_VIDEO ==> c == Some(video))
  {
    var e9 := El1([0x63, 0xa2], CODEC_PRIVATE);
    ChildLast([0x63, 0xa2], CODEC_PRIVATE, wanted);
    var e8 := El8([0xe0], video) + e9;
    Child8([0xe0], video, e9, wanted);
    var e7 := El1([0x83], [0x01]) + e8;
    Child1([0x83], [0x01], e8, wanted);
    var e6 := El1([0x86], codec) + e7;
    Child1([0x86], codec, e7, wanted);
    IdValue([0xe0]); IdValue([0x83]); IdValue([0x86]);
    EntryFrontReads(e6, wanted);
  }

  lemma EntryFrontReads(e6: seq<byte>, wanted: nat)
    requires Children(e6).Some?
    ensures wanted in {ID_CODEC, ID_VIDEO, ID_TRACK_TYPE} ==> Child(EntryFront() + e6, wanted) == Child(e6, wanted)
    ensures wanted == ID_TRACK_NUMBER ==> Child(EntryFront() + e6, wanted) == Some([1])
  {
    var a, b, c := El1([0xd7], [0x01]), El1([0x73, 0xc5], [0x01]), El1([0x9c], [0x00]);
    var d, e := El1([0x22, 0xb5, 0x9c], UND), El1([0x88], [0x00]);
    Child1([0x88], [0x00], e6, wanted);
    Child1([0x22, 0xb5, 0x9c], UND, e + e6, wanted);
    Child1([0x9c], [0x00], d + (e + e6), wanted);
    Child1([0x73, 0xc5], [0x01], c + (d + (e + e6)), wanted);
    Child1([0xd7], [0x01], b + (c + (d + (e + e6))), wanted);
    Regroup5(a, b, c, d, e, e6);
    IdValue([0x88]); IdValue([0x22, 0xb5, 0x9c]); IdValue([0x9c]); IdValue([0x73, 0xc5]); IdValue([0xd7]);
  }

  /** The track as it was described. */
  function TrackOf(h: Head): Track
  {
    Track(1, VIDEO_TRACK, h.codec, h.width, h.height, h.aspectX, h.aspectY, h.rate)
  }

  lemma TrackReads(h: Head)
    requires ValidHead(h)
    ensures var video := VideoData(BE(h.width, 2), BE(h.height, 2), BE(h.aspectX, 2), BE(h.aspectY, 2), BE(h.rate, 4));
            ReadTrack(El8([0xae], EntryData(h.codec, video))) == Some(TrackOf(h))
  {
    var w, ht, x, y, r := BE(h.width, 2), BE(h.height, 2), BE(h.aspectX, 2), BE(h.aspectY, 2), BE(h.rate, 4);
    var video := VideoData(w, ht, x, y, r);
    var entry := EntryData(h.codec, video);
    assert El8([0xae], entry) + [] == El8([0xae], entry);
    Child8([0xae], entry, [], ID_TRACK_ENTRY);
    IdValue([0xae]);
    EntryReads(h.codec, video, ID_TRACK_NUMBER);
    EntryReads(h.codec, video, ID_TRACK_TYPE);
    IdValue([1]);
    EntryReads(h.codec, video, ID_CODEC);
    EntryReads(h.codec, video, ID_VIDEO);
    VideoReads(w, ht, x, y, r, ID_PIXEL_WIDTH);
    VideoReads(w, ht, x, y, r, ID_PIXEL_HEIGHT);
    VideoReads(w, ht, x, y, r, ID_DISPLAY_WIDTH);
    VideoReads(w, ht, x, y, r, ID_DISPLAY_HEIGHT);
    VideoReads(w, ht, x, y, r, ID_FRAME_RATE);
    Pow256Values();
    BERoundTrip(h.width, 2);
    BERoundTrip(h.height, 2);
    BERoundTrip(h.aspectX, 2);
    BERoundTrip(h.aspectY, 2);
    BERoundTrip(h.rate, 4);
  }

  /** The level-1 elements behind the Segment's size. */
  function Level1(h: Head, clusters: seq<byte>): seq<byte>
    requires ValidHead(h)
  {
    var video := VideoData(BE(h.width, 2), BE(h.height, 2), BE(h.aspectX, 2), BE(h.aspectY, 2), BE(h.rate, 4));
    Void() + (El8(INFO, InfoData(SCALE_US, h.app, h.app)) + (Tracks(EntryData(h.codec, video)) + clusters))
  }

  lemma HeaderShape(h: Head, clusters: seq<byte>)
    requires ValidHead(h)
    ensures Header(h) + clusters == EbmlHead() + (SEGMENT + (SIZE_UNKNOWN + Level1(h, clusters)))
  {
    var video := VideoData(BE(h.width, 2), BE(h.height, 2), BE(h.aspectX, 2), BE(h.aspectY, 2), BE(h.rate, 4));
    var info, tracks := El8(INFO, InfoData(SCALE_US, h.app, h.app)), Tracks(EntryData(h.codec, video));
    Assoc(Front(), info + tracks, clusters);
    Assoc(info, tracks, clusters);
    Regroup4(EbmlHead(), SEGMENT, SIZE_UNKNOWN, Void(), info + (tracks + clusters));
  }

  /** EBML header and the start of an unknown-size Segment are read over. */
  lemma SegmentReads(level1: seq<byte>)
    ensures ReadMkv(EbmlHead() + (SEGMENT + (SIZE_UNKNOWN + level1))) == ReadLevel1(MATROSKA, level1)
  {
    EbmlReads();
    IdValue(EBML);
    IdValue(SEGMENT);
    ReadUnknown(level1);
    SegmentReadsWith(EBML, EbmlData(), SEGMENT, SIZE_UNKNOWN, level1);
  }

  lemma SegmentReadsWith(head: seq<byte>, data: seq<byte>, segment: seq<byte>, size: seq<byte>, level1: seq<byte>)
    requires ValidId(head) && FromBE(head) == ID_EBML && |data| < TWO_56 - 1
    requires ValidId(segment) && FromBE(segment) == ID_SEGMENT
    requires Child(data, ID_DOC_TYPE) == Some(MATROSKA) && ReadSize(size + level1) == Some((Unknown, level1))
    ensures ReadMkv(El8(head, data) + (segment + (size + level1))) == ReadLevel1(MATROSKA, level1)
  {
    var rest := segment + (size + level1);
    ReadEl8(head, data, rest);
    ReadIdBack(segment, size + level1);
    ReadMkvFrom(El8(head, data) + rest, data, rest, size + level1, level1);
  }

  /** The header, then clusters: what the reader makes of both. */
  lemma HeaderReads(h: Head, clusters: seq<byte>, es: seq<Element>, cs: seq<Cluster>)
    requires ValidHead(h) && Children(clusters) == Some(es) && ReadClusters(es) == Some(cs)
    ensures var m := ReadMkv(Header(h) + clusters);
            && m == Some(Mkv(MATROSKA, 1000, h.app, TrackOf(h), cs))
            && m.value.track.kind == VIDEO_TRACK && m.value.track.number == 1
  {
    HeaderShape(h, clusters);
    SegmentReads(Level1(h, clusters));
    TrackReads(h);
    var video := VideoData(BE(h.width, 2), BE(h.height, 2), BE(h.aspectX, 2), BE(h.aspectY, 2), BE(h.rate, 4));
    var entry, info := El8([0xae], EntryData(h.codec, video)), InfoData(SCALE_US, h.app, h.app);
    Level1Children(info, entry, clusters, es);
    Level1Reads(h, Level1(h, clusters), info, entry, es, cs);
  }

  lemma ReadMkvFrom(s: seq<byte>, data: seq<byte>, rest: seq<byte>, s1: seq<byte>, s2: seq<byte>)
    requires ReadElement(s) == Some((Element(ID_EBML, data), rest)) && Child(data, ID_DOC_TYPE) == Some(MATROSKA)
    requires ReadId(rest) == Some((ID_SEGMENT, s1)) && ReadSize(s1) == Some((Unknown, s2))
    ensures ReadMkv(s) == ReadLevel1(MATROSKA, s2)
  {
  }

  lemma Regroup4(a: seq<byte>, b: seq<byte>, c: seq<byte>, d: seq<byte>, e: seq<byte>)
    ensures a + (b + (c + d)) + e == a + (b + (c + (d + e)))
  {
    Assoc(c, d, e);
    Assoc(b, c + d, e);
    Assoc(a, b + (c + d), e);
  }

  lemma Regroup5(a: seq<byte>, b: seq<byte>, c: seq<byte>, d: seq<byte>, e: seq<byte>, f: seq<byte>)
    ensures a + (b + (c + (d + e))) + f == a + (b + (c + (d + (e + f))))
  {
    Regroup4(b, c, d, e, f);
    Assoc(a, b + (c + (d + e)), f);
  }

  lemma ReadUnknown(rest: seq<byte>)
    ensures ReadSize(SIZE_UNKNOWN + rest) == Some((Unknown, rest))
  {
    var s := SIZE_UNKNOWN;
    assert (s + rest)[..8] == s && (s + rest)[8..] == rest;
    IdValue([1, 0xff, 0xff, 0xff]);
    IdValue([0xff, 0xff, 0xff, 0xff]);
    FromBEConcat([1, 0xff, 0xff, 0xff], [0xff, 0xff, 0xff, 0xff]);
    assert s == [1, 0xff, 0xff, 0xff] + [0xff, 0xff, 0xff, 0xff];
    Pow256Values();
    MarkerEight();
  }

  lemma InFront(id: seq<byte>, data: seq<byte>, rest: seq<byte>, es: seq<Element>, value: nat)
    requires ValidId(id) && |data| < TWO_56 - 1 && Children(rest) == Some(es) && FromBE(id) == value
    ensures Children(El8(id, data) + rest) == Some([Element(value, data)] + es)
  {
    Children8(id, data, rest);
  }

  lemma Level1Children(info: seq<byte>, entry: seq<byte>, clusters: seq<byte>, es: seq<Element>)
    requires |info| == 0x45 && |entry| == 0x70 && Children(clusters) == Some(es)
    ensures Children(El8([0xec], Blank()) + (El8(INFO, info) + (El8(TRACKS, entry) + clusters))) ==
            Some([Element(ID_VOID, Blank())] + ([Element(ID_INFO, info)] + ([Element(ID_TRACKS, entry)] + es)))
  {
    IdValue(TRACKS); IdValue(INFO); IdValue([0xec]);
    var es3 := [Element(ID_TRACKS, entry)] + es;
    InFront(TRACKS, entry, clusters, es, ID_TRACKS);
    InFront(INFO, info, El8(TRACKS, entry) + clusters, es3, ID_INFO);
    InFront([0xec], Blank(), El8(INFO, info) + (El8(TRACKS, entry) + clusters),
            [Element(ID_INFO, info)] + es3, ID_VOID);
  }

  lemma Level1Reads(h: Head, s: seq<byte>, info: seq<byte>, entry: seq<byte>, es: seq<Element>, cs: seq<Cluster>)
    requires ValidHead(h) && ReadClusters(es) == Some(cs)
    requires info == InfoData(SCALE_US, h.app, h.app) && ReadTrack(entry) == Some(TrackOf(h))
    requires Children(s) ==
             Some([Element(ID_VOID, Blank())] + ([Element(ID_INFO, info)] + ([Element(ID_TRACKS, entry)] + es)))
    ensures ReadLevel1(MATROSKA, s) == Some(Mkv(MATROSKA, 1000, h.app, TrackOf(h), cs))
  {
    var void, i, t := Element(ID_VOID, Blank()), Element(ID_INFO, info), Element(ID_TRACKS, entry);
    FirstThree(void, i, t, es);
    InfoReadsBack(h.app);
    ReadLevel1From(MATROSKA, s, [void] + ([i] + ([t] + es)), 1000, h.app, TrackOf(h), cs);
  }

  lemma FirstThree(a: Element, b: Element, c: Element, es: seq<Element>)
    ensures var all := [a] + ([b] + ([c] + es));
            |all| >= 3 && all[0] == a && all[1] == b && all[2] == c && all[3..] == es
  {
  }

  lemma InfoReadsBack(app: seq<byte>)
    requires |app| == APP_LEN
    ensures var info := InfoData(SCALE_US, app, app);
            UInt(Child(info, ID_SCALE)) == Some(1000) && Child(info, ID_WRITING_APP) == Some(app)
  {
    InfoReads(SCALE_US, app, app, ID_SCALE);
    InfoReads(SCALE_US, app, app, ID_WRITING_APP);
    IdValue(SCALE_US);
  }

  lemma ReadLevel1From(docType: seq<byte>, s: seq<byte>, all: seq<Element>, scale: nat, app: seq<byte>, t: Track,
                       cs: seq<Cluster>)
    requires Children(s) == Some(all) && |all| >= 3
    requires all[0].id == ID_VOID && all[1].id == ID_INFO && all[2].id == ID_TRACKS
    requires UInt(Child(all[1].data, ID_SCALE)) == Some(scale) && Child(all[1].data, ID_WRITING_APP) == Some(app)
    requires ReadTrack(all[2].data) == Some(t) && ReadClusters(all[3..]) == Some(cs)
    ensures ReadLevel1(docType, s) == Some(Mkv(docType, scale, app, t, cs))
  {
  }
}
