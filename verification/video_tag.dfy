/** The closed tag catalog of src/video_metadata/video_tag.rs: one constructor
    per metadata kind, each carrying the value shape of src/video_tag_format.rs,
    plus "unknown" variants that also carry the atom code they came from. */
module Tags {
  import opened Bytes
  import opened FourCC

  /** VMATRIX: a 3x3 matrix of signed 32-bit fixed-point cells, row by row. */
  type Matrix = m: seq<int32> | |m| == 9 witness [0, 0, 0, 0, 0, 0, 0, 0, 0]

  /** VFLOAT and VDOUBLE values are kept as their IEEE-754 bit patterns only. */
  type Float32Bits = uint32
  type Float64Bits = uint64

  datatype VideoTag =
    // movie and track header values
    | Duration(durations: seq<uint64>)
    | Width(seq<uint32>)
    | Height(seq<uint32>)
    | Timescale(timescales: seq<uint32>)
    // sample description and media header values
    | VideoCodec(uint32)
    | AudioCodec(uint32)
    | Bitrate(seq<uint32>)
    | Framerate(seq<Float32Bits>)
    // display
    | TransformMatrix(transform: Matrix)
    | PixelAspectRatio(seq<uint32>)
    // iTunes-style item list entries
    | Title(string)
    | Artist(string)
    | Album(string)
    | AlbumArtist(string)
    | Composer(string)
    | Genre(string)
    | GenreId(seq<uint16>)
    | ReleaseDate(string)
    | Comment(string)
    | Grouping(string)
    | Lyrics(string)
    // track and disc information
    | TrackNumber(seq<uint32>)
    | DiscNumber(seq<uint32>)
    | Compilation(seq<uint8>)
    | Tempo(seq<uint16>)
    // timestamps
    | CreationTime(creation: uint64)
    | ModificationTime(modification: uint64)
    // opaque binary payloads
    | VideoCodecConfig(seq<uint8>)
    | AudioCodecConfig(seq<uint8>)
    | CoverArt(seq<uint8>)
    // atoms the catalog does not model, with their original code
    | UnknownU8(seq<uint8>, atomId: uint32)
    | UnknownString(string, atomId: uint32)
    | UnknownU16(seq<uint16>, atomId: uint32)
    | UnknownU32(seq<uint32>, atomId: uint32)
    | UnknownU64(seq<uint64>, atomId: uint32)
    | UnknownFloat(seq<Float32Bits>, atomId: uint32)
    | UnknownDouble(seq<Float64Bits>, atomId: uint32)
    | UnknownFourCC(uint32, atomId: uint32)
    | UnknownMatrix(Matrix, atomId: uint32)
    | UnknownTimestamp(uint64, atomId: uint32)
    | UnknownBinary(seq<uint8>, atomId: uint32)

  predicate IsUnknown(t: VideoTag)
  {
    t.UnknownU8? || t.UnknownString? || t.UnknownU16? || t.UnknownU32? || t.UnknownU64?
    || t.UnknownFloat? || t.UnknownDouble? || t.UnknownFourCC? || t.UnknownMatrix?
    || t.UnknownTimestamp? || t.UnknownBinary?
  }

  /** The codes `as_u32` can give a catalogued (non-unknown) tag. */
  const CatalogCodes: set<uint32> := {
    MVHD, TKHD, STSD, MDHD, PIXELASPECT,
    NAM, ART, ALB, ALBUM_ARTIST, WRT, GEN, GNRE, DAY, CMT, GRP, LYR,
    TRKN, DISK, CPIL, TMPO, AVCCONFIG, ESDS, COVER_ART
  }

  /** `as_u32`: the FourCC of the atom that owns the tag. This is also the tag's
      identity: two tags with the same code replace one another in `set_tag`. */
  function AsU32(t: VideoTag): uint32
  {
    match t
    case Duration(_) => MVHD
    case Width(_) => TKHD
    case Height(_) => TKHD
    case Timescale(_) => MVHD
    case VideoCodec(_) => STSD
    case AudioCodec(_) => STSD
    case Bitrate(_) => STSD
    case Framerate(_) => MDHD
    case TransformMatrix(_) => TKHD
    case PixelAspectRatio(_) => PIXELASPECT
    case Title(_) => NAM
    case Artist(_) => ART
    case Album(_) => ALB
    case AlbumArtist(_) => ALBUM_ARTIST
    case Composer(_) => WRT
    case Genre(_) => GEN
    case GenreId(_) => GNRE
    case ReleaseDate(_) => DAY
    case Comment(_) => CMT
    case Grouping(_) => GRP
    case Lyrics(_) => LYR
    case TrackNumber(_) => TRKN
    case DiscNumber(_) => DISK
    case Compilation(_) => CPIL
    case Tempo(_) => TMPO
    case CreationTime(_) => MVHD
    case ModificationTime(_) => MVHD
    case VideoCodecConfig(_) => AVCCONFIG
    case AudioCodecConfig(_) => ESDS
    case CoverArt(_) => COVER_ART
    case UnknownU8(_, id) => id
    case UnknownString(_, id) => id
    case UnknownU16(_, id) => id
    case UnknownU32(_, id) => id
    case UnknownU64(_, id) => id
    case UnknownFloat(_, id) => id
    case UnknownDouble(_, id) => id
    case UnknownFourCC(_, id) => id
    case UnknownMatrix(_, id) => id
    case UnknownTimestamp(_, id) => id
    case UnknownBinary(_, id) => id
  }

  /** An unknown tag is owned by the atom id it carries; every other tag by
      one of the catalog's codes, never by UNKNOWN. */
  lemma OwnerCodes(t: VideoTag)
    ensures IsUnknown(t) ==> AsU32(t) == t.atomId
    ensures !IsUnknown(t) ==> AsU32(t) in CatalogCodes && AsU32(t) != UNKNOWN
  {
  }

  /** Owning atoms of the header and codec tags. */
  lemma StructuralOwners(t: VideoTag)
    ensures t.Duration? || t.Timescale? || t.CreationTime? || t.ModificationTime? ==> AsU32(t) == MVHD
    ensures t.Width? || t.Height? || t.TransformMatrix? ==> AsU32(t) == TKHD
    ensures t.VideoCodec? || t.AudioCodec? || t.Bitrate? ==> AsU32(t) == STSD
    ensures t.Framerate? ==> AsU32(t) == MDHD
    ensures t.PixelAspectRatio? ==> AsU32(t) == PIXELASPECT
  {
  }

  /** Owning atoms of the iTunes-style tags. */
  lemma ItunesOwners(t: VideoTag)
    ensures t.Title? ==> AsU32(t) == NAM
    ensures t.Artist? ==> AsU32(t) == ART
    ensures t.Album? ==> AsU32(t) == ALB
    ensures t.AlbumArtist? ==> AsU32(t) == 0x61415254
    ensures t.Composer? ==> AsU32(t) == WRT
    ensures t.Genre? ==> AsU32(t) == GEN
    ensures t.GenreId? ==> AsU32(t) == GNRE
    ensures t.ReleaseDate? ==> AsU32(t) == DAY
    ensures t.Comment? ==> AsU32(t) == CMT
    ensures t.Grouping? ==> AsU32(t) == GRP
    ensures t.Lyrics? ==> AsU32(t) == LYR
    ensures t.TrackNumber? ==> AsU32(t) == TRKN
    ensures t.DiscNumber? ==> AsU32(t) == DISK
    ensures t.Compilation? ==> AsU32(t) == CPIL
    ensures t.Tempo? ==> AsU32(t) == TMPO
    ensures t.VideoCodecConfig? ==> AsU32(t) == AVCCONFIG
    ensures t.AudioCodecConfig? ==> AsU32(t) == ESDS
    ensures t.CoverArt? ==> AsU32(t) == 0x636F7672
  {
  }

  /** `is_essential_tag`: the tags `reduce_to_minimum` keeps. */
  predicate IsEssentialTag(t: VideoTag)
  {
    t.Duration? || t.Width? || t.Height? || t.Timescale?
  }

  /** Essential tags are owned by the movie header or the track header, and
      no other tag owned by those two atoms is essential except these four. */
  lemma EssentialTagOwners(t: VideoTag)
    ensures IsEssentialTag(t) ==> AsU32(t) == MVHD || AsU32(t) == TKHD
    ensures IsEssentialTag(t) && AsU32(t) == MVHD <==> t.Duration? || t.Timescale?
    ensures IsEssentialTag(t) && AsU32(t) == TKHD <==> t.Width? || t.Height?
  {
  }

  /** The byte conversions of crate::u8conversion for each non-binary value
      shape, always taken in big-endian order. Their layout is not part of this
      model, so the encoder receives them as parameters. */
  datatype ValueConversions = ValueConversions(
    u8s: seq<uint8> -> seq<uint8>,
    text: string -> seq<uint8>,
    u16s: seq<uint16> -> seq<uint8>,
    u32s: seq<uint32> -> seq<uint8>,
    u64s: seq<uint64> -> seq<uint8>,
    f32s: seq<Float32Bits> -> seq<uint8>,
    f64s: seq<Float64Bits> -> seq<uint8>,
    fourcc: uint32 -> seq<uint8>,
    matrix: Matrix -> seq<uint8>,
    timestamp: uint64 -> seq<uint8>)

  /** `value_as_u8_vec`: the bytes of the tag's value as the encoder writes them. */
  function ValueAsBytes(conv: ValueConversions, t: VideoTag): (r: seq<uint8>)
    ensures IsBinary(t) ==> r == BinaryPayload(t)
  {
    match t
    case Duration(v) => conv.u64s(v)
    case Width(v) => conv.u32s(v)
    case Height(v) => conv.u32s(v)
    case Timescale(v) => conv.u32s(v)
    case VideoCodec(v) => conv.fourcc(v)
    case AudioCodec(v) => conv.fourcc(v)
    case Bitrate(v) => conv.u32s(v)
    case Framerate(v) => conv.f32s(v)
    case TransformMatrix(v) => conv.matrix(v)
    case PixelAspectRatio(v) => conv.u32s(v)
    case Title(v) => conv.text(v)
    case Artist(v) => conv.text(v)
    case Album(v) => conv.text(v)
    case AlbumArtist(v) => conv.text(v)
    case Composer(v) => conv.text(v)
    case Genre(v) => conv.text(v)
    case ReleaseDate(v) => conv.text(v)
    case Comment(v) => conv.text(v)
    case Grouping(v) => conv.text(v)
    case Lyrics(v) => conv.text(v)
    case GenreId(v) => conv.u16s(v)
    case TrackNumber(v) => conv.u32s(v)
    case DiscNumber(v) => conv.u32s(v)
    case Compilation(v) => conv.u8s(v)
    case Tempo(v) => conv.u16s(v)
    case CreationTime(v) => conv.timestamp(v)
    case ModificationTime(v) => conv.timestamp(v)
    case VideoCodecConfig(v) => v
    case AudioCodecConfig(v) => v
    case CoverArt(v) => v
    case UnknownU8(v, _) => conv.u8s(v)
    case UnknownString(v, _) => conv.text(v)
    case UnknownU16(v, _) => conv.u16s(v)
    case UnknownU32(v, _) => conv.u32s(v)
    case UnknownU64(v, _) => conv.u64s(v)
    case UnknownFloat(v, _) => conv.f32s(v)
    case UnknownDouble(v, _) => conv.f64s(v)
    case UnknownFourCC(v, _) => conv.fourcc(v)
    case UnknownMatrix(v, _) => conv.matrix(v)
    case UnknownTimestamp(v, _) => conv.timestamp(v)
    case UnknownBinary(v, _) => v
  }

  /** The tags whose value is an opaque byte vector. */
  predicate IsBinary(t: VideoTag)
  {
    t.VideoCodecConfig? || t.AudioCodecConfig? || t.CoverArt? || t.UnknownBinary?
  }

  /** The blob carried by a binary-shaped tag. */
  function BinaryPayload(t: VideoTag): seq<uint8>
    requires IsBinary(t)
  {
    match t
    case VideoCodecConfig(v) => v
    case AudioCodecConfig(v) => v
    case CoverArt(v) => v
    case UnknownBinary(v, _) => v
  }

  /** Binary tags are copied verbatim, whatever the conversions do. */
  lemma BinaryValuesVerbatim(conv: ValueConversions, blob: seq<uint8>, id: uint32)
    ensures ValueAsBytes(conv, VideoCodecConfig(blob)) == blob
    ensures ValueAsBytes(conv, AudioCodecConfig(blob)) == blob
    ensures ValueAsBytes(conv, CoverArt(blob)) == blob
    ensures ValueAsBytes(conv, UnknownBinary(blob, id)) == blob
  {
  }

  /** The character `String::from_utf8_lossy` gives a lone byte: the byte itself
      when it is ASCII, the replacement character U+FFFD otherwise. */
  function LossyChar(b: uint8): (c: char)
    ensures b < 0x80 ==> c as int == b
  {
    if b < 0x80 then b as char else 0xFFFD as char
  }

  function LossyText(bs: seq<uint8>): (r: string)
    ensures |r| == |bs|
  {
    seq(|bs|, i requires 0 <= i < |bs| => LossyChar(bs[i]))
  }

  /** `fourcc_as_string`: the owning code rendered as text, with a leading 0xA9
      byte shown as the copyright sign. */
  function FourccAsString(t: VideoTag): (r: string)
    ensures BE32(AsU32(t))[0] == 0xA9 ==> |r| == 4 && r[0] == 0xA9 as char && r[1..] == LossyText(BE32(AsU32(t))[1..])
    ensures BE32(AsU32(t))[0] != 0xA9 ==> r == LossyText(BE32(AsU32(t)))
  {
    var bytes := BE32(AsU32(t));
    if bytes[0] == 0xA9 then [0xA9 as char] + LossyText(bytes[1..]) else LossyText(bytes)
  }

  /** An all-ASCII code renders as its four characters. */
  lemma AsciiCodeRendersAsItself(t: VideoTag, name: string)
    requires |name| == 4 && IsAscii(name) && AsU32(t) == CodeOf(name)
    ensures FourccAsString(t) == name
  {
    var bytes := BE32(AsU32(t));
    assert bytes == Ascii(name);
    assert LossyText(bytes) == name;
  }

  /** A copyright-sign code renders as the sign followed by its three letters. */
  lemma CopyrightCodeRendersWithSign(t: VideoTag, name: string)
    requires |name| == 3 && IsAscii(name) && AsU32(t) == CopyrightCodeOf(name)
    ensures FourccAsString(t) == [0xA9 as char] + name
  {
    var bytes := BE32(AsU32(t));
    assert bytes == [0xA9] + Ascii(name);
    assert bytes[1..] == Ascii(name);
    assert LossyText(bytes[1..]) == name;
  }

  /** For instance, a title renders as "©nam" and a duration as "mvhd". */
  lemma RenderingExamples(s: string, d: seq<uint64>)
    ensures FourccAsString(Title(s)) == [0xA9 as char] + "nam"
    ensures FourccAsString(Duration(d)) == "mvhd"
  {
    assert NAM == CopyrightCodeOf("nam") by { CopyrightCodesSpellTheirNames(); }
    assert MVHD == CodeOf("mvhd") by { ContainerCodesSpellTheirNames(); }
    CopyrightCodeRendersWithSign(Title(s), "nam");
    AsciiCodeRendersAsItself(Duration(d), "mvhd");
  }
}
