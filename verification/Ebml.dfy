/** A reader for the part of EBML and Matroska the converter writes: element
    identifiers and sizes (sections 4 to 6 of RFC 8794), the Segment, and the
    SimpleBlock (section 10.2 of RFC 9559).  It shares nothing with the writer. */
module Ebml {
  import opened Bytes

  datatype Option<T> = None | Some(value: T)

  /** Octets of a variable-size integer, from the leading zeros of the first. */
  function VintLen(b: byte): nat
  {
    if b >= 128 then 1 else if b >= 64 then 2 else if b >= 32 then 3 else if b >= 16 then 4
    else if b >= 8 then 5 else if b >= 4 then 6 else if b >= 2 then 7 else if b >= 1 then 8 else 9
  }

  /** 2^(7n): the marker bit of an n-octet variable-size integer. */
  function Marker(n: nat): nat
  {
    if n == 0 then 1 else 128 * Marker(n - 1)
  }

  /** An element identifier keeps its marker bit. */
  function ReadId(s: seq<byte>): Option<(nat, seq<byte>)>
  {
    if s == [] then None
    else
      var n := VintLen(s[0]);
      if n > 4 || n > |s| then None else Some((FromBE(s[..n]), s[n..]))
  }

  datatype Size = Known(n: nat) | Unknown

  /** A size loses its marker bit; all ones mean that it is unknown. */
  function ReadSize(s: seq<byte>): Option<(Size, seq<byte>)>
  {
    if s == [] then None
    else
      var n := VintLen(s[0]);
      if n > 8 || n > |s| then None
      else
        var v := FromBE(s[..n]) - Marker(n);
        if v < 0 then None
        else Some((if v == Marker(n) - 1 then Unknown else Known(v), s[n..]))
  }

  datatype Element = Element(id: nat, data: seq<byte>)

  /** An element of known size that is there as a whole. */
  function ReadElement(s: seq<byte>): (r: Option<(Element, seq<byte>)>)
    ensures r.Some? ==> |r.value.1| < |s|
  {
    match ReadId(s)
    case None => None
    case Some((id, s1)) =>
      match ReadSize(s1)
      case None => None
      case Some((size, s2)) =>
        if size.Unknown? || size.n > |s2| then None
        else Some((Element(id, s2[..size.n]), s2[size.n..]))
  }

  /** `s` as a list of elements; None unless they fill it exactly. */
  function Children(s: seq<byte>): Option<seq<Element>>
    decreases |s|
  {
    if s == [] then Some([])
    else
      match ReadElement(s)
      case None => None
      case Some((e, rest)) =>
        match Children(rest)
        case None => None
        case Some(es) => Some([e] + es)
  }

  /** First child with this identifier. */
  function Find(es: seq<Element>, id: nat): Option<seq<byte>>
  {
    if es == [] then None else if es[0].id == id then Some(es[0].data) else Find(es[1..], id)
  }

  /** A child of an element whose children fill it exactly. */
  function Child(data: seq<byte>, id: nat): Option<seq<byte>>
  {
    match Children(data)
    case None => None
    case Some(es) => Find(es, id)
  }

  function UInt(d: Option<seq<byte>>): Option<nat>
  {
    match d case None => None case Some(b) => Some(FromBE(b))
  }

  // ------------------------------------------------------- Matroska

  const ID_EBML := 0x1a45dfa3
  const ID_SEGMENT := 0x18538067
  const ID_VOID := 0xec
  const ID_INFO := 0x1549a966
  const ID_TRACKS := 0x1654ae6b
  const ID_CLUSTER := 0x1f43b675
  const ID_TIMESTAMP := 0xe7
  const ID_SIMPLE_BLOCK := 0xa3
  const ID_TRACK_ENTRY := 0xae
  const ID_TRACK_NUMBER := 0xd7
  const ID_TRACK_TYPE := 0x83
  const ID_CODEC := 0x86
  const ID_VIDEO := 0xe0
  const ID_SCALE := 0x2ad7b1
  const ID_WRITING_APP := 0x5741
  const ID_DOC_TYPE := 0x4282
  const ID_PIXEL_WIDTH := 0xb0
  const ID_PIXEL_HEIGHT := 0xba
  const ID_DISPLAY_WIDTH := 0x54b0
  const ID_DISPLAY_HEIGHT := 0x54ba
  const ID_FRAME_RATE := 0x2383e3

  /** SimpleBlock: track number, relative timestamp, flags, frame. */
  datatype Block = Block(track: nat, rel: nat, flags: byte, body: seq<byte>)

  function ReadBlock(d: seq<byte>): Option<Block>
  {
    match ReadSize(d)
    case None => None
    case Some((track, s)) =>
      if track.Unknown? || |s| < 3 then None
      else Some(Block(track.n, FromBE(s[..2]), s[2], s[3..]))
  }

  datatype Cluster = Cluster(timestamp: nat, block: Block)

  /** A cluster as the converter writes them: a timestamp and one block. */
  function ReadCluster(d: seq<byte>): Option<Cluster>
  {
    match Children(d)
    case None => None
    case Some(es) =>
      if |es| != 2 || es[0].id != ID_TIMESTAMP || es[1].id != ID_SIMPLE_BLOCK then None
      else
        match ReadBlock(es[1].data)
        case None => None
        case Some(b) => Some(Cluster(FromBE(es[0].data), b))
  }

  function ReadClusters(es: seq<Element>): Option<seq<Cluster>>
  {
    if es == [] then Some([])
    else if es[0].id != ID_CLUSTER then None
    else
      match (ReadCluster(es[0].data), ReadClusters(es[1..]))
      case (Some(c), Some(cs)) => Some([c] + cs)
      case _ => None
  }

  /** Track types start with video. */
  const VIDEO_TRACK := 1

  datatype Track = Track(number: nat, kind: nat, codec: seq<byte>, width: nat, height: nat,
                         displayWidth: nat, displayHeight: nat, rate: nat)

  function ReadTrack(tracks: seq<byte>): Option<Track>
  {
    match Child(tracks, ID_TRACK_ENTRY)
    case None => None
    case Some(entry) =>
      match (UInt(Child(entry, ID_TRACK_NUMBER)), UInt(Child(entry, ID_TRACK_TYPE)), Child(entry, ID_CODEC),
             Child(entry, ID_VIDEO))
      case (Some(number), Some(kind), Some(codec), Some(v)) =>
        (match (UInt(Child(v, ID_PIXEL_WIDTH)), UInt(Child(v, ID_PIXEL_HEIGHT)), UInt(Child(v, ID_DISPLAY_WIDTH)),
                UInt(Child(v, ID_DISPLAY_HEIGHT)), UInt(Child(v, ID_FRAME_RATE)))
         case (Some(w), Some(h), Some(x), Some(y), Some(r)) => Some(Track(number, kind, codec, w, h, x, y, r))
         case _ => None)
      case _ => None
  }

  datatype Mkv = Mkv(docType: seq<byte>, scale: nat, app: seq<byte>, track: Track, clusters: seq<Cluster>)

  /** The track declared is video, and every block belongs to it. */
  ghost predicate Coherent(m: Mkv)
  {
    m.track.kind == VIDEO_TRACK && forall i :: 0 <= i < |m.clusters| ==> m.clusters[i].block.track == m.track.number
  }

  /** The level-1 elements of the Segment: Void, Info, Tracks, then clusters. */
  function ReadLevel1(docType: seq<byte>, s: seq<byte>): Option<Mkv>
  {
    match Children(s)
    case None => None
    case Some(es) =>
      if |es| < 3 || es[0].id != ID_VOID || es[1].id != ID_INFO || es[2].id != ID_TRACKS then None
      else
        match (UInt(Child(es[1].data, ID_SCALE)), Child(es[1].data, ID_WRITING_APP),
               ReadTrack(es[2].data), ReadClusters(es[3..]))
        case (Some(scale), Some(app), Some(t), Some(cs)) => Some(Mkv(docType, scale, app, t, cs))
        case _ => None
  }

  /** A whole stream: EBML header, then one Segment of unknown size reaching to
      the end. */
  function ReadMkv(s: seq<byte>): Option<Mkv>
  {
    match ReadElement(s)
    case None => None
    case Some((head, rest)) =>
      match (Child(head.data, ID_DOC_TYPE), ReadId(rest))
      case (Some(docType), Some((id, s1))) =>
        if head.id != ID_EBML || id != ID_SEGMENT then None
        else (match ReadSize(s1)
              case Some((Unknown, s2)) => ReadLevel1(docType, s2)
              case _ => None)
      case _ => None
  }
}
