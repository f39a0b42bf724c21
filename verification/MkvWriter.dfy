/** dt_convert_frame_to_mkv: the header template is copied and patched at fixed
    offsets, then the cluster is written octet after octet. */
module MkvWriter {
  import opened Bytes
  import opened MkvFormat
  import opened FrameInfo

  const MAIN_HEADER_LOAD := 420
  const CLUSTER_HEADER_LOAD := 22
  const SIMPLEBLOCK_HEADER_LOAD := 13

  const HOFF_TIMECODE_SCALE := 0x0e3 + 4
  const HOFF_MUXING_APP := 0x0ea + 3
  const HOFF_WRITING_APP := 0x0fa + 3
  const HOFF_CODEC_STR := 0x153
  const HOFF_LANGUAGE := 0x147 + 4
  const HOFF_PIXEL_WIDTH := 0x16e + 2
  const HOFF_PIXEL_HEIGHT := 0x172 + 2
  const HOFF_DISPLAY_WIDTH := 0x176 + 3
  const HOFF_DISPLAY_HEIGHT := 0x17b + 3
  const HOFF_FRAME_RATE := 0x180 + 4

  const AVC: seq<byte> := [0x56, 0x5f, 0x4d, 0x50, 0x45, 0x47, 0x34, 0x2f, 0x49, 0x53, 0x4f, 0x2f, 0x41, 0x56, 0x43]
  const ASP: seq<byte> := [0x56, 0x5f, 0x4d, 0x50, 0x45, 0x47, 0x34, 0x2f, 0x49, 0x53, 0x4f, 0x2f, 0x41, 0x53, 0x50]

  /** "TaniDVR 0.0.0", the software string of the template. */
  const TEMPLATE_APP: seq<byte> := [0x54, 0x61, 0x6e, 0x69, 0x44, 0x56, 0x52, 0x20, 0x30, 0x2e, 0x30, 0x2e, 0x30]

  // ------------------------------------------------------- patching

  /** `b` written over `s` at `at`. */
  function Patched(s: seq<byte>, at: nat, b: seq<byte>): (r: seq<byte>)
    requires at + |b| <= |s|
    ensures |r| == |s|
  {
    s[..at] + b + s[at + |b|..]
  }

  lemma PatchRight(x: seq<byte>, y: seq<byte>, k: nat, b: seq<byte>)
    requires k + |b| <= |y|
    ensures Patched(x + y, |x| + k, b) == x + Patched(y, k, b)
  {
  }

  lemma PatchLeft(x: seq<byte>, y: seq<byte>, k: nat, b: seq<byte>)
    requires k + |b| <= |x|
    ensures Patched(x + y, k, b) == Patched(x, k, b) + y
  {
  }

  lemma PatchPrefix(s: seq<byte>, n: nat, at: nat, b: seq<byte>)
    requires at + |b| <= n <= |s|
    ensures Patched(s, at, b)[..n] == Patched(s[..n], at, b)
  {
  }

  lemma PatchEl1(id: seq<byte>, data: seq<byte>, k: nat, b: seq<byte>)
    requires |data| < 127 && k + |b| <= |data|
    ensures Patched(El1(id, data), |id| + 1 + k, b) == El1(id, Patched(data, k, b))
  {
    PatchRight(id + [128 + |data|], data, k, b);
  }

  lemma PatchEl8(id: seq<byte>, data: seq<byte>, k: nat, b: seq<byte>)
    requires k + |b| <= |data|
    ensures Patched(El8(id, data), |id| + 8 + k, b) == El8(id, Patched(data, k, b))
  {
    PatchRight(id + Size8(|data|), data, k, b);
  }

  lemma PatchAll(s: seq<byte>, b: seq<byte>)
    requires |s| == |b|
    ensures Patched(s, 0, b) == b
  {
  }

  /** The fields of the header that are patched. */
  datatype Fields = Fields(scale: seq<byte>, mux: seq<byte>, app: seq<byte>, codec: seq<byte>,
                           w: seq<byte>, h: seq<byte>, x: seq<byte>, y: seq<byte>, rate: seq<byte>)

  predicate Sized(f: Fields)
  {
    && |f.scale| == 3 && |f.mux| == |f.app| == APP_LEN && |f.codec| == CODEC_LEN
    && |f.w| == |f.h| == |f.x| == |f.y| == 2 && |f.rate| == 4
  }

  function Laid(f: Fields): (s: seq<byte>)
    requires Sized(f)
    ensures |s| == MAIN_HEADER_LOAD
  {
    HeaderWith(f.scale, f.mux, f.app, f.codec, f.w, f.h, f.x, f.y, f.rate)
  }

  /** A patch inside the Info element. */
  lemma PatchInfo(f: Fields, k: nat, b: seq<byte>)
    requires Sized(f) && k + |b| <= 0x45
    ensures Patched(Laid(f), 227 + k, b) ==
            Front() + (El8(INFO, Patched(InfoData(f.scale, f.mux, f.app), k, b))
                       + Tracks(EntryData(f.codec, VideoData(f.w, f.h, f.x, f.y, f.rate))))
  {
    var info := InfoData(f.scale, f.mux, f.app);
    var tracks := Tracks(EntryData(f.codec, VideoData(f.w, f.h, f.x, f.y, f.rate)));
    PatchRight(Front(), El8(INFO, info) + tracks, 12 + k, b);
    PatchLeft(El8(INFO, info), tracks, 12 + k, b);
    PatchEl8(INFO, info, k, b);
  }

  /** A patch inside the track entry. */
  lemma PatchEntry(f: Fields, k: nat, b: seq<byte>)
    requires Sized(f) && k + |b| <= 0x67
    ensures Patched(Laid(f), 317 + k, b) ==
            Front() + (El8(INFO, InfoData(f.scale, f.mux, f.app))
                       + El8(TRACKS, El8([0xae],
                             Patched(EntryData(f.codec, VideoData(f.w, f.h, f.x, f.y, f.rate)), k, b))))
  {
    var info := El8(INFO, InfoData(f.scale, f.mux, f.app));
    var entry := EntryData(f.codec, VideoData(f.w, f.h, f.x, f.y, f.rate));
    PatchRight(Front(), info + Tracks(entry), 81 + (21 + k), b);
    PatchRight(info, Tracks(entry), 21 + k, b);
    PatchEl8(TRACKS, El8([0xae], entry), 9 + k, b);
    PatchEl8([0xae], entry, k, b);
  }

  lemma PatchScale(f: Fields, b: seq<byte>)
    requires Sized(f) && |b| == 3
    ensures Patched(Laid(f), HOFF_TIMECODE_SCALE, b) == Laid(f.(scale := b))
  {
    PatchInfo(f, 4, b);
    var rest := El1([0x4d, 0x80], f.mux) + (El1([0x57, 0x41], f.app) + InfoTail());
    PatchLeft(El1([0x2a, 0xd7, 0xb1], f.scale), rest, 4, b);
    PatchEl1([0x2a, 0xd7, 0xb1], f.scale, 0, b);
    PatchAll(f.scale, b);
  }

  lemma PatchMux(f: Fields, b: seq<byte>)
    requires Sized(f) && |b| <= APP_LEN
    ensures Patched(Laid(f), HOFF_MUXING_APP, b) == Laid(f.(mux := Patched(f.mux, 0, b)))
  {
    PatchInfo(f, 10, b);
    var rest := El1([0x57, 0x41], f.app) + InfoTail();
    PatchRight(El1([0x2a, 0xd7, 0xb1], f.scale), El1([0x4d, 0x80], f.mux) + rest, 3, b);
    PatchLeft(El1([0x4d, 0x80], f.mux), rest, 3, b);
    PatchEl1([0x4d, 0x80], f.mux, 0, b);
  }

  lemma PatchApp(f: Fields, b: seq<byte>)
    requires Sized(f) && |b| <= APP_LEN
    ensures Patched(Laid(f), HOFF_WRITING_APP, b) == Laid(f.(app := Patched(f.app, 0, b)))
  {
    PatchInfo(f, 26, b);
    var app := El1([0x57, 0x41], f.app);
    PatchRight(El1([0x2a, 0xd7, 0xb1], f.scale), El1([0x4d, 0x80], f.mux) + (app + InfoTail()), 19, b);
    PatchRight(El1([0x4d, 0x80], f.mux), app + InfoTail(), 3, b);
    PatchLeft(app, InfoTail(), 3, b);
    PatchEl1([0x57, 0x41], f.app, 0, b);
  }

  /** CodecID, TrackType, Video and CodecPrivate. */
  function EntryRest(codec: seq<byte>, video: seq<byte>): seq<byte>
    requires |codec| == CODEC_LEN && |video| == 0x1a
  {
    El1([0x86], codec) + (El1([0x83], [0x01]) + (El8([0xe0], video) + El1([0x63, 0xa2], CODEC_PRIVATE)))
  }

  lemma PatchCodec(f: Fields, b: seq<byte>)
    requires Sized(f) && |b| == CODEC_LEN
    ensures Patched(Laid(f), HOFF_CODEC_STR, b) == Laid(f.(codec := b))
  {
    PatchEntry(f, 22, b);
    var video := VideoData(f.w, f.h, f.x, f.y, f.rate);
    var rest := El1([0x83], [0x01]) + (El8([0xe0], video) + El1([0x63, 0xa2], CODEC_PRIVATE));
    PatchRight(EntryFront(), El1([0x86], f.codec) + rest, 2, b);
    PatchLeft(El1([0x86], f.codec), rest, 2, b);
    PatchEl1([0x86], f.codec, 0, b);
    PatchAll(f.codec, b);
  }

  /** Language is written with the value it has in the template. */
  lemma PatchLanguage(f: Fields)
    requires Sized(f)
    ensures Patched(Laid(f), HOFF_LANGUAGE, UND) == Laid(f)
  {
    PatchEntry(f, 14, UND);
    var front, rest := EntryFront(), EntryRest(f.codec, VideoData(f.w, f.h, f.x, f.y, f.rate));
    PatchLeft(front, rest, 14, UND);
    var a, b, c, d := El1([0xd7], [0x01]), El1([0x73, 0xc5], [0x01]), El1([0x9c], [0x00]), El1([0x88], [0x00]);
    var lang := El1([0x22, 0xb5, 0x9c], UND);
    PatchRight(a, b + (c + (lang + d)), 11, UND);
    PatchRight(b, c + (lang + d), 7, UND);
    PatchRight(c, lang + d, 4, UND);
    PatchLeft(lang, d, 4, UND);
    PatchEl1([0x22, 0xb5, 0x9c], UND, 0, UND);
    PatchAll(UND, UND);
  }

  /** A patch inside the Video element. */
  lemma PatchVideo(f: Fields, k: nat, b: seq<byte>)
    requires Sized(f) && k + |b| <= 0x1a
    ensures Patched(Laid(f), 0x16e + k, b) ==
            Front() + (El8(INFO, InfoData(f.scale, f.mux, f.app))
                       + Tracks(EntryData(f.codec, Patched(VideoData(f.w, f.h, f.x, f.y, f.rate), k, b))))
  {
    PatchEntry(f, 49 + k, b);
    var video := VideoData(f.w, f.h, f.x, f.y, f.rate);
    var priv, kind := El1([0x63, 0xa2], CODEC_PRIVATE), El1([0x83], [0x01]);
    PatchRight(EntryFront(), EntryRest(f.codec, video), 29 + k, b);
    PatchRight(El1([0x86], f.codec), kind + (El8([0xe0], video) + priv), 12 + k, b);
    PatchRight(kind, El8([0xe0], video) + priv, 9 + k, b);
    PatchLeft(El8([0xe0], video), priv, 9 + k, b);
    PatchEl8([0xe0], video, k, b);
  }

  lemma PatchWidth(f: Fields, b: seq<byte>)
    requires Sized(f) && |b| == 2
    ensures Patched(Laid(f), HOFF_PIXEL_WIDTH, b) == Laid(f.(w := b))
  {
    PatchVideo(f, 2, b);
    PatchLeft(El1([0xb0], f.w), VideoFromHeight(f), 2, b);
    PatchEl1([0xb0], f.w, 0, b);
    PatchAll(f.w, b);
  }

  function VideoFromHeight(f: Fields): seq<byte>
    requires Sized(f)
  {
    El1([0xba], f.h) + VideoFromX(f)
  }

  function VideoFromX(f: Fields): seq<byte>
    requires Sized(f)
  {
    El1([0x54, 0xb0], f.x) + VideoFromY(f)
  }

  function VideoFromY(f: Fields): seq<byte>
    requires Sized(f)
  {
    El1([0x54, 0xba], f.y) + El1([0x23, 0x83, 0xe3], f.rate)
  }

  lemma PatchHeight(f: Fields, b: seq<byte>)
    requires Sized(f) && |b| == 2
    ensures Patched(Laid(f), HOFF_PIXEL_HEIGHT, b) == Laid(f.(h := b))
  {
    hide Patched, Size8;
    PatchVideo(f, 6, b);
    PatchRight(El1([0xb0], f.w), VideoFromHeight(f), 2, b);
    PatchLeft(El1([0xba], f.h), VideoFromX(f), 2, b);
    PatchEl1([0xba], f.h, 0, b);
    PatchAll(f.h, b);
  }

  lemma PatchAspectX(f: Fields, b: seq<byte>)
    requires Sized(f) && |b| == 2
    ensures Patched(Laid(f), HOFF_DISPLAY_WIDTH, b) == Laid(f.(x := b))
  {
    hide Patched, Size8;
    PatchVideo(f, 11, b);
    PatchRight(El1([0xb0], f.w), VideoFromHeight(f), 7, b);
    PatchRight(El1([0xba], f.h), VideoFromX(f), 3, b);
    PatchLeft(El1([0x54, 0xb0], f.x), VideoFromY(f), 3, b);
    PatchEl1([0x54, 0xb0], f.x, 0, b);
    PatchAll(f.x, b);
  }

  lemma PatchAspectY(f: Fields, b: seq<byte>)
    requires Sized(f) && |b| == 2
    ensures Patched(Laid(f), HOFF_DISPLAY_HEIGHT, b) == Laid(f.(y := b))
  {
    hide Patched, Size8;
    PatchVideo(f, 16, b);
    PatchFromX(f, 8, b);
    PatchRight(El1([0x54, 0xb0], f.x), VideoFromY(f), 3, b);
    PatchLeft(El1([0x54, 0xba], f.y), El1([0x23, 0x83, 0xe3], f.rate), 3, b);
    PatchEl1([0x54, 0xba], f.y, 0, b);
    PatchAll(f.y, b);
  }

  lemma PatchFromX(f: Fields, k: nat, b: seq<byte>)
    requires Sized(f) && k + |b| <= 18
    ensures Patched(VideoData(f.w, f.h, f.x, f.y, f.rate), k + 8, b) ==
            El1([0xb0], f.w) + (El1([0xba], f.h) + Patched(VideoFromX(f), k, b))
  {
    hide Patched, Size8;
    PatchRight(El1([0xb0], f.w), VideoFromHeight(f), k + 4, b);
    PatchRight(El1([0xba], f.h), VideoFromX(f), k, b);
  }

  lemma PatchRate(f: Fields, b: seq<byte>)
    requires Sized(f) && |b| == 4
    ensures Patched(Laid(f), HOFF_FRAME_RATE, b) == Laid(f.(rate := b))
  {
    hide Patched, Size8;
    PatchVideo(f, 22, b);
    PatchFromX(f, 14, b);
    PatchRight(El1([0x54, 0xb0], f.x), VideoFromY(f), 9, b);
    PatchRight(El1([0x54, 0xba], f.y), El1([0x23, 0x83, 0xe3], f.rate), 4, b);
    PatchEl1([0x23, 0x83, 0xe3], f.rate, 0, b);
    PatchAll(f.rate, b);
  }

  // ------------------------------------------------------- the template

  /** mkv_head, octet for octet. */
  function MkvHead(): (s: seq<byte>)
    ensures |s| == MAIN_HEADER_LOAD
  {
    HeadFront() + (HeadInfo() + HeadTracks())
  }

  /** EBML header, start of the Segment, and a Void of zeros. */
  function HeadFront(): (s: seq<byte>)
    ensures |s| == 215
  {
    [0x1a, 0x45, 0xdf, 0xa3, 0x01, 0, 0, 0, 0, 0, 0, 0x23]
    + ([0x42, 0x86, 0x81, 0x01] + ([0x42, 0xf7, 0x81, 0x01] + ([0x42, 0xf2, 0x81, 0x04] + ([0x42, 0xf3, 0x81, 0x08]
    + ([0x42, 0x82, 0x88, 0x6d, 0x61, 0x74, 0x72, 0x6f, 0x73, 0x6b, 0x61]
    + ([0x42, 0x87, 0x81, 0x02] + [0x42, 0x85, 0x81, 0x02]))))))
    + ([0x18, 0x53, 0x80, 0x67] + ([0x01, 0xff, 0xff, 0xff, 0xff, 0xff, 0xff, 0xff]
    + ([0xec, 0x01, 0, 0, 0, 0, 0, 0, 0x93] + seq(147, _ => 0))))
  }

  function HeadInfo(): (s: seq<byte>)
    ensures |s| == 81
  {
    [0x15, 0x49, 0xa9, 0x66, 0x01, 0, 0, 0, 0, 0, 0, 0x45] + (HeadApps() + HeadInfoTail())
  }

  function HeadApps(): (s: seq<byte>)
    ensures |s| == 39
  {
    [0x2a, 0xd7, 0xb1, 0x83, 0x0f, 0x42, 0x40]
    + ([0x4d, 0x80, 0x8d, 0x54, 0x61, 0x6e, 0x69, 0x44, 0x56, 0x52, 0x20, 0x30, 0x2e, 0x30, 0x2e, 0x30]
    + [0x57, 0x41, 0x8d, 0x54, 0x61, 0x6e, 0x69, 0x44, 0x56, 0x52, 0x20, 0x30, 0x2e, 0x30, 0x2e, 0x30])
  }

  function HeadInfoTail(): (s: seq<byte>)
    ensures |s| == 30
  {
    [0x73, 0xa4, 0x90, 0x22, 0xd8, 0x7b, 0xf1, 0xe4, 0xc7, 0xff, 0x82,
     0xbe, 0x50, 0x86, 0x0f, 0x12, 0x9e, 0x76, 0xc2]
    + [0x44, 0x89, 0x88, 0x41, 0x10, 0x3a, 0x60, 0, 0, 0, 0]
  }

  function HeadTracks(): (s: seq<byte>)
    ensures |s| == 124
  {
    [0x16, 0x54, 0xae, 0x6b, 0x01, 0, 0, 0, 0, 0, 0, 0x70]
    + ([0xae, 0x01, 0, 0, 0, 0, 0, 0, 0x67] + (HeadEntryFront() + HeadEntryRest()))
  }

  function HeadEntryRest(): (s: seq<byte>)
    ensures |s| == 83
  {
    [0x86, 0x8f, 0x56, 0x5f, 0x4d, 0x50, 0x45, 0x47, 0x34, 0x2f, 0x49, 0x53, 0x4f, 0x2f, 0x41, 0x56, 0x43]
    + ([0x83, 0x81, 0x01]
    + (([0xe0, 0x01, 0, 0, 0, 0, 0, 0, 0x1a] + HeadVideo())
    + [0x63, 0xa2, 0x99, 0x00, 0x00, 0x00, 0x00, 0x00, 0x01, 0x67, 0x42, 0xe0, 0x14, 0xda, 0x05, 0x82, 0x17,
       0x89, 0x40, 0x00, 0x00, 0x00, 0x01, 0x68, 0xce, 0x30, 0xa4, 0x80]))
  }

  function HeadEntryFront(): (s: seq<byte>)
    ensures |s| == 20
  {
    [0xd7, 0x81, 0x01] + ([0x73, 0xc5, 0x81, 0x01] + ([0x9c, 0x81, 0x00]
    + ([0x22, 0xb5, 0x9c, 0x83, 0x75, 0x6e, 0x64] + [0x88, 0x81, 0x00])))
  }

  function HeadVideo(): (s: seq<byte>)
    ensures |s| == 26
  {
    [0xb0, 0x82, 0x01, 0x60] + ([0xba, 0x82, 0x00, 0xf0] + ([0x54, 0xb0, 0x82, 0x00, 0x04]
    + ([0x54, 0xba, 0x82, 0x00, 0x03] + [0x23, 0x83, 0xe3, 0x84, 0x3f, 0x80, 0x00, 0x10])))
  }

  /** What the template says, until it is patched. */
  const TEMPLATE := Fields([0x0f, 0x42, 0x40], TEMPLATE_APP, TEMPLATE_APP, AVC,
                           [0x01, 0x60], [0x00, 0xf0], [0x00, 0x04], [0x00, 0x03], [0x3f, 0x80, 0x00, 0x10])

  /** Its octets are those elements, in that order. */
  lemma TemplateIsLaidOut()
    ensures MkvHead() == Laid(TEMPLATE)
  {
    TemplateFront();
    TemplateInfo();
    TemplateTracks();
  }

  lemma SmallSize(n: byte)
    ensures Size8(n) == [1, 0, 0, 0, 0, 0, 0, n]
  {
    BigEndian7(n);
  }

  lemma TemplateFront()
    ensures HeadFront() == Front()
  {
    SmallSize(0x23);
    SmallSize(0x93);
    assert EBML + Size8(0x23) == [0x1a, 0x45, 0xdf, 0xa3, 0x01, 0, 0, 0, 0, 0, 0, 0x23];
    assert [0xec] + Size8(0x93) == [0xec, 0x01, 0, 0, 0, 0, 0, 0, 0x93];
    assert Blank() == seq(147, _ => 0);
    assert El1([0x42, 0x82], MATROSKA) == [0x42, 0x82, 0x88, 0x6d, 0x61, 0x74, 0x72, 0x6f, 0x73, 0x6b, 0x61];
    assert El1([0x42, 0x86], [0x01]) == [0x42, 0x86, 0x81, 0x01];
    assert El1([0x42, 0xf7], [0x01]) == [0x42, 0xf7, 0x81, 0x01];
    assert El1([0x42, 0xf2], [0x04]) == [0x42, 0xf2, 0x81, 0x04];
    assert El1([0x42, 0xf3], [0x08]) == [0x42, 0xf3, 0x81, 0x08];
    assert El1([0x42, 0x87], [0x02]) == [0x42, 0x87, 0x81, 0x02];
    assert El1([0x42, 0x85], [0x02]) == [0x42, 0x85, 0x81, 0x02];
  }

  /** An identifier and its size in front of the data. */
  lemma HeadOfElement(id: seq<byte>, data: seq<byte>, n: byte)
    requires |data| == n
    ensures El8(id, data) == (id + [1, 0, 0, 0, 0, 0, 0, n]) + data
  {
    SmallSize(n);
  }

  lemma TemplateApps()
    ensures HeadApps() == El1([0x2a, 0xd7, 0xb1], TEMPLATE.scale) +
                          (El1([0x4d, 0x80], TEMPLATE_APP) + El1([0x57, 0x41], TEMPLATE_APP))
  {
    assert El1([0x2a, 0xd7, 0xb1], TEMPLATE.scale) == [0x2a, 0xd7, 0xb1, 0x83, 0x0f, 0x42, 0x40];
    assert El1([0x4d, 0x80], TEMPLATE_APP) ==
           [0x4d, 0x80, 0x8d, 0x54, 0x61, 0x6e, 0x69, 0x44, 0x56, 0x52, 0x20, 0x30, 0x2e, 0x30, 0x2e, 0x30];
    assert El1([0x57, 0x41], TEMPLATE_APP) ==
           [0x57, 0x41, 0x8d, 0x54, 0x61, 0x6e, 0x69, 0x44, 0x56, 0x52, 0x20, 0x30, 0x2e, 0x30, 0x2e, 0x30];
  }

  lemma TemplateInfoTail()
    ensures HeadInfoTail() == InfoTail()
  {
    assert El1([0x73, 0xa4], SEGMENT_UID) == [0x73, 0xa4, 0x90, 0x22, 0xd8, 0x7b, 0xf1, 0xe4, 0xc7, 0xff, 0x82,
                                              0xbe, 0x50, 0x86, 0x0f, 0x12, 0x9e, 0x76, 0xc2];
    assert El1([0x44, 0x89], DURATION) == [0x44, 0x89, 0x88, 0x41, 0x10, 0x3a, 0x60, 0, 0, 0, 0];
  }

  lemma TemplateInfo()
    ensures HeadInfo() == El8(INFO, InfoData(TEMPLATE.scale, TEMPLATE.mux, TEMPLATE.app))
  {
    hide El1, El8, HeadApps, HeadInfoTail, InfoTail;
    TemplateApps();
    TemplateInfoTail();
    HeadOfElement(INFO, InfoData(TEMPLATE.scale, TEMPLATE.mux, TEMPLATE.app), 0x45);
    assert INFO + [1, 0, 0, 0, 0, 0, 0, 0x45] == [0x15, 0x49, 0xa9, 0x66, 0x01, 0, 0, 0, 0, 0, 0, 0x45];
    var a := El1([0x2a, 0xd7, 0xb1], TEMPLATE.scale);
    var b, c := El1([0x4d, 0x80], TEMPLATE_APP), El1([0x57, 0x41], TEMPLATE_APP);
    Assoc(b, c, InfoTail());
    Assoc(a, b + c, InfoTail());
  }

  lemma TemplateVideo()
    ensures HeadVideo() == VideoData(TEMPLATE.w, TEMPLATE.h, TEMPLATE.x, TEMPLATE.y, TEMPLATE.rate)
  {
    assert El1([0xb0], TEMPLATE.w) == [0xb0, 0x82, 0x01, 0x60] && El1([0xba], TEMPLATE.h) == [0xba, 0x82, 0x00, 0xf0];
    assert El1([0x54, 0xb0], TEMPLATE.x) == [0x54, 0xb0, 0x82, 0x00, 0x04];
    assert El1([0x54, 0xba], TEMPLATE.y) == [0x54, 0xba, 0x82, 0x00, 0x03];
    assert El1([0x23, 0x83, 0xe3], TEMPLATE.rate) == [0x23, 0x83, 0xe3, 0x84, 0x3f, 0x80, 0x00, 0x10];
  }

  lemma TemplateEntryFront()
    ensures HeadEntryFront() == EntryFront()
  {
    assert El1([0xd7], [0x01]) == [0xd7, 0x81, 0x01] && El1([0x73, 0xc5], [0x01]) == [0x73, 0xc5, 0x81, 0x01];
    assert El1([0x9c], [0x00]) == [0x9c, 0x81, 0x00] && El1([0x88], [0x00]) == [0x88, 0x81, 0x00];
    assert El1([0x22, 0xb5, 0x9c], UND) == [0x22, 0xb5, 0x9c, 0x83, 0x75, 0x6e, 0x64];
  }

  lemma TemplateEntryRest()
    ensures HeadEntryRest() ==
            EntryRest(TEMPLATE.codec, VideoData(TEMPLATE.w, TEMPLATE.h, TEMPLATE.x, TEMPLATE.y, TEMPLATE.rate))
  {
    TemplateVideo();
    hide El8, HeadVideo, VideoData;
    HeadOfElement([0xe0], HeadVideo(), 0x1a);
    assert [0xe0] + [1, 0, 0, 0, 0, 0, 0, 0x1a] == [0xe0, 0x01, 0, 0, 0, 0, 0, 0, 0x1a];
    assert El1([0x86], AVC) ==
           [0x86, 0x8f, 0x56, 0x5f, 0x4d, 0x50, 0x45, 0x47, 0x34, 0x2f, 0x49, 0x53, 0x4f, 0x2f, 0x41, 0x56, 0x43];
    assert El1([0x83], [0x01]) == [0x83, 0x81, 0x01];
    assert El1([0x63, 0xa2], CODEC_PRIVATE) ==
           [0x63, 0xa2, 0x99, 0x00, 0x00, 0x00, 0x00, 0x00, 0x01, 0x67, 0x42, 0xe0, 0x14, 0xda, 0x05, 0x82, 0x17,
            0x89, 0x40, 0x00, 0x00, 0x00, 0x01, 0x68, 0xce, 0x30, 0xa4, 0x80];
  }

  lemma TemplateTracks()
    ensures HeadTracks() ==
            Tracks(EntryData(TEMPLATE.codec, VideoData(TEMPLATE.w, TEMPLATE.h, TEMPLATE.x, TEMPLATE.y, TEMPLATE.rate)))
  {
    hide El1, El8, HeadEntryFront, EntryFront, HeadEntryRest, HeadVideo, VideoData;
    TemplateEntryFront();
    TemplateEntryRest();
    var entry := EntryData(TEMPLATE.codec, VideoData(TEMPLATE.w, TEMPLATE.h, TEMPLATE.x, TEMPLATE.y, TEMPLATE.rate));
    assert entry == HeadEntryFront() + HeadEntryRest();
    HeadOfElement([0xae], entry, 0x67);
    HeadOfElement(TRACKS, El8([0xae], entry), 0x70);
    assert [0xae] + [1, 0, 0, 0, 0, 0, 0, 0x67] == [0xae, 0x01, 0, 0, 0, 0, 0, 0, 0x67];
    assert TRACKS + [1, 0, 0, 0, 0, 0, 0, 0x70] == [0x16, 0x54, 0xae, 0x6b, 0x01, 0, 0, 0, 0, 0, 0, 0x70];
  }

  // ------------------------------------------------------- the code

  /** The software string as it fits its field. */
  function AppField(sw: seq<byte>): (s: seq<byte>)
    ensures |s| == 13
    ensures forall i :: 0 <= i < 13 ==> s[i] == if i < |sw| then sw[i] else 0
  {
    var k := if |sw| > APP_LEN then APP_LEN else |sw|;
    sw[..k] + seq(APP_LEN - k, i => 0)
  }

  /** What the header says of a stream; `rate` is the frame rate as stored. */
  function FieldsOf(p: Parms, avc: bool, rate: nat, sw: seq<byte>): (f: Fields)
    ensures Sized(f)
  {
    Fields(SCALE_US, AppField(sw), AppField(sw), if avc then AVC else ASP,
           BE(p.width, 2), BE(p.height, 2), BE(p.aspectX, 2), BE(p.aspectY, 2), BE(rate, 4))
  }

  /** Result and output of a conversion. */
  function Convert(p: Parms, srcLen: nat, body: seq<byte>, maxDst: nat,
                   first: bool, avc: bool, rate: nat, sw: seq<byte>): (int, seq<byte>)
  {
    if srcLen == 0 then (3, [])
    else if !IsVideo(p) then (2, [])
    else if !p.hasV then (1, [])
    else
      var head := if first then Laid(FieldsOf(p, avc, rate, sw)) else [];
      var cluster := ClusterBytes(p.clock.ns / 1000, p.frameType == VideoIFrame, body);
      if |head| + |cluster| > maxDst then (-4, []) else (0, head + cluster)
  }

  /** The codes, exactly, and the length of what is written. */
  lemma ConvertCodes(p: Parms, srcLen: nat, body: seq<byte>, maxDst: nat,
                     first: bool, avc: bool, rate: nat, sw: seq<byte>)
    ensures var (ret, s) := Convert(p, srcLen, body, maxDst, first, avc, rate, sw);
            var n := 35 + |body| + if first then 420 else 0;
            && ret == (if srcLen == 0 then 3 else if !IsVideo(p) then 2 else if !p.hasV then 1
                       else if n > maxDst then -4 else 0)
            && |s| == if ret == 0 then n else 0
  {
  }

  /** The big-endian octets as the code computes them. */
  lemma BigEndianOctets(n: nat)
    ensures BE(n, 2) == [n / TWO_8 % TWO_8, n % TWO_8]
    ensures BE(n, 4) == [n / TWO_24 % TWO_8, n / TWO_16 % TWO_8, n / TWO_8 % TWO_8, n % TWO_8]
  {
    var a := n / TWO_8;
    var b := a / TWO_8;
    assert b == n / TWO_16 && b / TWO_8 == n / TWO_24;
    assert BE(b / TWO_8, 1) == [b / TWO_8 % TWO_8];
    assert BE(b, 2) == [b / TWO_8 % TWO_8, b % TWO_8];
    assert BE(a, 3) == [b / TWO_8 % TWO_8, b % TWO_8, a % TWO_8];
    assert BE(a, 1) == [a % TWO_8];
  }

  lemma BESplit(n: nat, k: nat)
    ensures BE(n, k + 4) == BE(n / TWO_32, k) + BE(n, 4)
  {
    var a := n / TWO_8;
    var b := a / TWO_8;
    var c := b / TWO_8;
    assert c / TWO_8 == n / TWO_32;
    assert BE(n, 4) == BE(a, 3) + [n % TWO_8] && BE(a, 3) == BE(b, 2) + [a % TWO_8];
    assert BE(b, 2) == BE(c, 1) + [b % TWO_8] && BE(c, 1) == BE(c / TWO_8, 0) + [c % TWO_8];
    assert BE(n, k + 4) == BE(a, k + 3) + [n % TWO_8] && BE(a, k + 3) == BE(b, k + 2) + [a % TWO_8];
    assert BE(b, k + 2) == BE(c, k + 1) + [b % TWO_8] && BE(c, k + 1) == BE(c / TWO_8, k) + [c % TWO_8];
  }

  lemma BigEndian7(n: nat)
    ensures BE(n, 7) == [n / 0x1_0000_0000_0000 % TWO_8, n / 0x100_0000_0000 % TWO_8, n / TWO_32 % TWO_8,
                         n / TWO_24 % TWO_8, n / TWO_16 % TWO_8, n / TWO_8 % TWO_8, n % TWO_8]
  {
    BESplit(n, 3);
    BigEndianOctets(n);
    var m := n / TWO_32;
    var a := m / TWO_8;
    assert a / TWO_8 == n / 0x1_0000_0000_0000 && a == n / 0x100_0000_0000;
    assert BE(m, 3) == BE(a, 2) + [m % TWO_8];
    BigEndianOctets(a);
  }

  lemma BigEndian8(n: nat)
    ensures BE(n, 8) == [n / TWO_56 % TWO_8, n / 0x1_0000_0000_0000 % TWO_8,
                         n / 0x100_0000_0000 % TWO_8, n / TWO_32 % TWO_8,
                         n / TWO_24 % TWO_8, n / TWO_16 % TWO_8, n / TWO_8 % TWO_8, n % TWO_8]
  {
    BESplit(n, 4);
    BigEndianOctets(n);
    var m := n / TWO_32;
    BigEndianOctets(m);
    assert m / TWO_8 == n / 0x100_0000_0000 && m / TWO_16 == n / 0x1_0000_0000_0000 && m / TWO_24 == n / TWO_56;
  }

  /** memcpy into the output buffer. */
  method Put(dst: array<byte>, at: nat, b: seq<byte>)
    requires at + |b| <= dst.Length
    modifies dst
    ensures dst[..] == Patched(old(dst[..]), at, b)
  {
    forall i | 0 <= i < |b| {
      dst[at + i] := b[i];
    }
  }

  /** The same inside the header, whose value is `h`. */
  method PutHead(dst: array<byte>, at: nat, b: seq<byte>, ghost h: seq<byte>)
    requires MAIN_HEADER_LOAD <= dst.Length && at + |b| <= MAIN_HEADER_LOAD == |h|
    requires dst[..MAIN_HEADER_LOAD] == h
    modifies dst
    ensures dst[..MAIN_HEADER_LOAD] == Patched(h, at, b)
  {
    ghost var s := dst[..];
    assert s[..MAIN_HEADER_LOAD] == h;
    Put(dst, at, b);
    PatchPrefix(s, MAIN_HEADER_LOAD, at, b);
    assert dst[..MAIN_HEADER_LOAD] == dst[..][..MAIN_HEADER_LOAD];
  }

  /** BT_NV2MM_U16 and BT_NV2MM_U32 into the header. */
  method PutU16(dst: array<byte>, at: nat, v: nat, ghost h: seq<byte>)
    requires MAIN_HEADER_LOAD <= dst.Length && at + 2 <= MAIN_HEADER_LOAD == |h|
    requires dst[..MAIN_HEADER_LOAD] == h
    modifies dst
    ensures dst[..MAIN_HEADER_LOAD] == Patched(h, at, BE(v, 2))
  {
    BigEndianOctets(v);
    PutHead(dst, at, [v / TWO_8 % TWO_8, v % TWO_8], h);
  }

  method PutU32(dst: array<byte>, at: nat, v: nat, ghost h: seq<byte>)
    requires MAIN_HEADER_LOAD <= dst.Length && at + 4 <= MAIN_HEADER_LOAD == |h|
    requires dst[..MAIN_HEADER_LOAD] == h
    modifies dst
    ensures dst[..MAIN_HEADER_LOAD] == Patched(h, at, BE(v, 4))
  {
    BigEndianOctets(v);
    PutHead(dst, at, [v / TWO_24 % TWO_8, v / TWO_16 % TWO_8, v / TWO_8 % TWO_8, v % TWO_8], h);
  }

  /** memset, then strncpy. */
  lemma AppPatched(field: seq<byte>, zeros: seq<byte>, sw: seq<byte>)
    requires |field| == |zeros| == APP_LEN && forall i :: 0 <= i < APP_LEN ==> zeros[i] == 0
    ensures var k := if |sw| > APP_LEN then APP_LEN else |sw|;
            Patched(Patched(field, 0, zeros), 0, sw[..k]) == AppField(sw)
  {
    PatchAll(field, zeros);
  }

  /** The main header: template, then one patch after another. */
  method WriteHeader(dst: array<byte>, p: Parms, avc: bool, rate: nat, sw: seq<byte>)
    requires MAIN_HEADER_LOAD <= dst.Length
    modifies dst
    ensures dst[..MAIN_HEADER_LOAD] == Laid(FieldsOf(p, avc, rate, sw))
  {
    hide MkvHead, HeaderWith;
    Put(dst, 0, MkvHead());
    TemplateIsLaidOut();
    ghost var f := TEMPLATE;
    assert dst[..MAIN_HEADER_LOAD] == Laid(f);
    f := WriteVideoFields(dst, p, avc, rate, f);
    WriteSoftware(dst, sw, f);
    f := f.(mux := AppField(sw), app := AppField(sw));
    PatchLanguage(f);
    PutHead(dst, HOFF_LANGUAGE, UND, Laid(f));
    PatchScale(f, SCALE_US);
    PutHead(dst, HOFF_TIMECODE_SCALE, SCALE_US, Laid(f));
  }

  /** Codec, sizes and frame rate. */
  method WriteVideoFields(dst: array<byte>, p: Parms, avc: bool, rate: nat, ghost f0: Fields) returns (ghost f: Fields)
    requires MAIN_HEADER_LOAD <= dst.Length && Sized(f0) && dst[..MAIN_HEADER_LOAD] == Laid(f0)
    modifies dst
    ensures f == f0.(codec := if avc then AVC else ASP, w := BE(p.width, 2), h := BE(p.height, 2),
                     x := BE(p.aspectX, 2), y := BE(p.aspectY, 2), rate := BE(rate, 4))
    ensures dst[..MAIN_HEADER_LOAD] == Laid(f)
  {
    f := f0;
    PatchCodec(f, if avc then AVC else ASP);
    PutHead(dst, HOFF_CODEC_STR, if avc then AVC else ASP, Laid(f));
    f := f.(codec := if avc then AVC else ASP);
    PatchWidth(f, BE(p.width, 2));
    PutU16(dst, HOFF_PIXEL_WIDTH, p.width, Laid(f));
    f := f.(w := BE(p.width, 2));
    PatchHeight(f, BE(p.height, 2));
    PutU16(dst, HOFF_PIXEL_HEIGHT, p.height, Laid(f));
    f := f.(h := BE(p.height, 2));
    PatchAspectX(f, BE(p.aspectX, 2));
    PutU16(dst, HOFF_DISPLAY_WIDTH, p.aspectX, Laid(f));
    f := f.(x := BE(p.aspectX, 2));
    PatchAspectY(f, BE(p.aspectY, 2));
    PutU16(dst, HOFF_DISPLAY_HEIGHT, p.aspectY, Laid(f));
    f := f.(y := BE(p.aspectY, 2));
    PatchRate(f, BE(rate, 4));
    PutU32(dst, HOFF_FRAME_RATE, rate, Laid(f));
    f := f.(rate := BE(rate, 4));
  }

  /** The software strings. */
  method WriteSoftware(dst: array<byte>, sw: seq<byte>, ghost f0: Fields)
    requires MAIN_HEADER_LOAD <= dst.Length && Sized(f0) && dst[..MAIN_HEADER_LOAD] == Laid(f0)
    modifies dst
    ensures dst[..MAIN_HEADER_LOAD] == Laid(f0.(mux := AppField(sw), app := AppField(sw)))
  {
    ghost var f := f0;
    var x := if |sw| > APP_LEN then APP_LEN else |sw|;
    var zeros: seq<byte> := seq(APP_LEN, i => 0);
    AppPatched(f.mux, zeros, sw);
    PatchMux(f, zeros);
    PutHead(dst, HOFF_MUXING_APP, zeros, Laid(f));
    f := f.(mux := Patched(f.mux, 0, zeros));
    PatchMux(f, sw[..x]);
    PutHead(dst, HOFF_MUXING_APP, sw[..x], Laid(f));
    f := f.(mux := AppField(sw));
    AppPatched(f.app, zeros, sw);
    PatchApp(f, zeros);
    PutHead(dst, HOFF_WRITING_APP, zeros, Laid(f));
    f := f.(app := Patched(f.app, 0, zeros));
    PatchApp(f, sw[..x]);
    PutHead(dst, HOFF_WRITING_APP, sw[..x], Laid(f));
  }

  /** Writing behind what is there. */
  method Emit(dst: array<byte>, at: nat, b: seq<byte>) returns (end: nat)
    requires at + |b| <= dst.Length
    modifies dst
    ensures end == at + |b| && dst[..end] == old(dst[..at]) + b
  {
    forall i | 0 <= i < |b| {
      dst[at + i] := b[i];
    }
    end := at + |b|;
    assert dst[at..end] == b && dst[..end] == dst[..at] + dst[at..end];
  }

  /** 0x01 and the seven low octets of a size. */
  method EmitSize(dst: array<byte>, at: nat, n: nat) returns (end: nat)
    requires at + 8 <= dst.Length
    modifies dst
    ensures end == at + 8 && dst[..end] == old(dst[..at]) + Size8(n)
  {
    BigEndian7(n);
    end := Emit(dst, at, [0x01, n / 0x1_0000_0000_0000 % TWO_8, n / 0x100_0000_0000 % TWO_8, n / TWO_32 % TWO_8,
                          n / TWO_24 % TWO_8, n / TWO_16 % TWO_8, n / TWO_8 % TWO_8, n % TWO_8]);
  }

  /** Cluster identifier and size, then the timestamp. */
  method WriteClusterHead(dst: array<byte>, at: nat, timestampUs: nat, srcLen: nat) returns (end: nat)
    requires at + 22 <= dst.Length
    modifies dst
    ensures end == at + 22
    ensures dst[..end] == old(dst[..at]) + (CLUSTER + Size8(srcLen + 23) + El1([0xe7], BE(timestampUs, 8)))
  {
    end := Emit(dst, at, CLUSTER);
    end := EmitSize(dst, end, srcLen + CLUSTER_HEADER_LOAD + SIMPLEBLOCK_HEADER_LOAD - 12);
    BigEndian8(timestampUs);
    end := Emit(dst, end, [0xe7] + [0x88] +
                [timestampUs / TWO_56 % TWO_8, timestampUs / 0x1_0000_0000_0000 % TWO_8,
                 timestampUs / 0x100_0000_0000 % TWO_8, timestampUs / TWO_32 % TWO_8,
                 timestampUs / TWO_24 % TWO_8, timestampUs / TWO_16 % TWO_8,
                 timestampUs / TWO_8 % TWO_8, timestampUs % TWO_8]);
    Assoc(old(dst[..at]), CLUSTER, Size8(srcLen + 23));
    Assoc(old(dst[..at]), CLUSTER + Size8(srcLen + 23), El1([0xe7], BE(timestampUs, 8)));
  }

  /** The SimpleBlock. */
  method WriteBlock(dst: array<byte>, at: nat, lowBit: bool, body: seq<byte>) returns (end: nat)
    requires at + |body| + 13 <= dst.Length
    modifies dst
    ensures end == at + |body| + 13
    ensures dst[..end] == old(dst[..at]) + El8([0xa3], BlockData(lowBit, body))
  {
    ghost var before := dst[..at];
    end := Emit(dst, at, [0xa3]);
    end := EmitSize(dst, end, |body| + SIMPLEBLOCK_HEADER_LOAD - 9);
    end := Emit(dst, end, [0x81] + [0x00, 0x00] + [if lowBit then 0x01 else 0x00]);
    end := Emit(dst, end, body);
    ghost var flags := [0x81] + [0, 0] + [if lowBit then 1 else 0];
    Assoc(before, [0xa3], Size8(|body| + 4));
    Assoc(before + ([0xa3] + Size8(|body| + 4)), flags, body);
    Assoc(before, [0xa3] + Size8(|body| + 4), flags + body);
  }

  /** Cluster with timestamp and SimpleBlock, written from `at` on. */
  method WriteCluster(dst: array<byte>, at: nat, timestampUs: nat, lowBit: bool,
                      src: array<byte>, offs: nat, srcLen: nat)
    returns (end: nat)
    requires src != dst && offs + srcLen <= src.Length && at + srcLen + 35 <= dst.Length
    modifies dst
    ensures end == at + srcLen + 35
    ensures dst[..end] == old(dst[..at]) + ClusterBytes(timestampUs, lowBit, src[offs..offs + srcLen])
  {
    ghost var before, body := dst[..at], src[offs..offs + srcLen];
    end := WriteClusterHead(dst, at, timestampUs, srcLen);
    end := WriteBlock(dst, end, lowBit, src[offs..offs + srcLen]);
    ghost var head, stamp := CLUSTER + Size8(srcLen + 23), El1([0xe7], BE(timestampUs, 8));
    ghost var block := El8([0xa3], BlockData(lowBit, body));
    Assoc(before, head + stamp, block);
    Assoc(head, stamp, block);
  }

  /** dt_convert_frame_to_mkv; the body is found through body_p in `src`. */
  method ConvertFrame(mc: McParms, src: array<byte>, srcLen: nat, ghost body: seq<byte>,
                      dst: array<byte>, maxDst: nat, first: bool, avc: bool, rate: nat, sw: seq<byte>)
    returns (ret: int, dstLen: nat)
    requires src != dst && maxDst <= dst.Length && MAIN_HEADER_LOAD <= dst.Length
    requires srcLen != 0 && IsVideo(mc.Value()) ==>
               mc.bodyOffs + mc.bodyLen <= src.Length && src[mc.bodyOffs..mc.bodyOffs + mc.bodyLen] == body
    modifies dst
    ensures dstLen <= dst.Length
    ensures (ret, dst[..dstLen]) == Convert(mc.Value(), srcLen, body, maxDst, first, avc, rate, sw)
  {
    dstLen := 0;
    if srcLen == 0 {
      ret := 3;
      return;
    }
    if mc.frameType != VideoIFrame && mc.frameType != VideoFrame {
      ret := 2;
      return;
    }
    if !mc.hasVParms {
      ret := 1;
      return;
    }
    var timestampUs := mc.vTimestamp / 1000;
    var wholePayload := CLUSTER_HEADER_LOAD + SIMPLEBLOCK_HEADER_LOAD + mc.bodyLen;
    var at := 0;
    if first {
      wholePayload := wholePayload + MAIN_HEADER_LOAD;
      WriteHeader(dst, mc.Value(), avc, rate, sw);
      at := MAIN_HEADER_LOAD;
    }
    ghost var head := dst[..at];
    if wholePayload > maxDst {
      ret := -4;
      return;
    }
    var end := WriteCluster(dst, at, timestampUs, mc.frameType == VideoIFrame, src, mc.bodyOffs, mc.bodyLen);
    dstLen := wholePayload;
    ret := 0;
  }
}
