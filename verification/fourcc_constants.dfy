/** The FourCC table of src/video_metadata/fourcc_constants.rs: each code is
    the big-endian packing of four bytes into an unsigned 32-bit value. */
module FourCC {
  import opened Bytes

  // Box structure: file type, movie, track and media boxes
  const FTYP: uint32 := 0x66747970
  const MOOV: uint32 := 0x6D6F6F76
  const MVHD: uint32 := 0x6D766864
  const TRAK: uint32 := 0x7472616B
  const TKHD: uint32 := 0x746B6864
  const MDIA: uint32 := 0x6D646961
  const MDHD: uint32 := 0x6D646864
  const MINF: uint32 := 0x6D696E66
  const STBL: uint32 := 0x7374626C
  const STSD: uint32 := 0x73747364
  const MDAT: uint32 := 0x6D646174

  // Boxes that hold user metadata
  const META: uint32 := 0x6D657461
  const ILST: uint32 := 0x696C7374
  const UDTA: uint32 := 0x75647461

  // Text item codes: high byte 0xA9, shown as a copyright sign
  const NAM: uint32 := 0xA96E616D
  const ART: uint32 := 0xA9415254
  const ALB: uint32 := 0xA9616C62
  const DAY: uint32 := 0xA9646179
  const GEN: uint32 := 0xA967656E
  const CMT: uint32 := 0xA9636D74
  const WRT: uint32 := 0xA9777274
  const GRP: uint32 := 0xA9677270
  const LYR: uint32 := 0xA96C7972

  // iTunes item codes spelled in plain ASCII
  const CPIL: uint32 := 0x6370696C
  const TMPO: uint32 := 0x746D706F
  const TRKN: uint32 := 0x74726B6E
  const DISK: uint32 := 0x6469736B
  const GNRE: uint32 := 0x676E7265

  // Codec configuration and sample-description boxes
  const AVCCONFIG: uint32 := 0x61766343
  const HVCCCONFIG: uint32 := 0x68766343
  const PIXELASPECT: uint32 := 0x70617370
  const ESDS: uint32 := 0x65736473

  /** Marker for atoms the catalog does not know. */
  const UNKNOWN: uint32 := 0x00000000

  /** Codes the tag catalog writes as literals rather than through a named constant. */
  const ALBUM_ARTIST: uint32 := 0x61415254
  const COVER_ART: uint32 := 0x636F7672

  /** Every named code of the table (all but UNKNOWN). */
  const NamedCodes: set<uint32> := {
    FTYP, MOOV, MVHD, TRAK, TKHD, MDIA, MDHD, MINF, STBL, STSD, MDAT,
    META, ILST, UDTA,
    NAM, ART, ALB, DAY, GEN, CMT, WRT, GRP, LYR,
    CPIL, TMPO, TRKN, DISK, GNRE,
    AVCCONFIG, HVCCCONFIG, PIXELASPECT, ESDS
  }

  /** The code whose big-endian bytes are `a b c d`. */
  function Pack(a: uint8, b: uint8, c: uint8, d: uint8): (r: uint32)
    ensures BE32(r) == [a, b, c, d]
  {
    var hi: uint16 := a as int * 0x100 + b as int;
    var lo: uint16 := c as int * 0x100 + d as int;
    var r: uint32 := hi as int * 0x1_0000 + lo as int;
    assert r / 0x1_0000 == hi && r % 0x1_0000 == lo;
    assert BE16(hi) == [a, b] && BE16(lo) == [c, d];
    r
  }

  /** The code whose big-endian bytes spell the four ASCII characters of `name`. */
  function CodeOf(name: string): (r: uint32)
    requires |name| == 4 && IsAscii(name)
    ensures BE32(r) == Ascii(name)
  {
    Pack(name[0] as int, name[1] as int, name[2] as int, name[3] as int)
  }

  /** The code of a copyright-sign atom: 0xA9 followed by three ASCII characters. */
  function CopyrightCodeOf(name: string): (r: uint32)
    requires |name| == 3 && IsAscii(name)
    ensures BE32(r) == [0xA9] + Ascii(name)
  {
    Pack(0xA9, name[0] as int, name[1] as int, name[2] as int)
  }

  /** Each container constant is the big-endian packing of its four ASCII letters. */
  lemma ContainerCodesSpellTheirNames()
    ensures FTYP == CodeOf("ftyp")
    ensures MOOV == CodeOf("moov")
    ensures MVHD == CodeOf("mvhd")
    ensures TRAK == CodeOf("trak")
    ensures TKHD == CodeOf("tkhd")
    ensures MDAT == CodeOf("mdat")
  {
  }

  /** The same holds for the media containers below a track. */
  lemma MediaCodesSpellTheirNames()
    ensures MDIA == CodeOf("mdia")
    ensures MDHD == CodeOf("mdhd")
    ensures MINF == CodeOf("minf")
    ensures STBL == CodeOf("stbl")
    ensures STSD == CodeOf("stsd")
  {
  }

  /** The same holds for the metadata containers and the iTunes technical codes. */
  lemma MetadataCodesSpellTheirNames()
    ensures META == CodeOf("meta")
    ensures ILST == CodeOf("ilst")
    ensures UDTA == CodeOf("udta")
    ensures CPIL == CodeOf("cpil")
    ensures TMPO == CodeOf("tmpo")
    ensures TRKN == CodeOf("trkn")
    ensures DISK == CodeOf("disk")
    ensures GNRE == CodeOf("gnre")
  {
  }

  /** The same holds for the codec atoms and the two literal catalog codes. */
  lemma CodecCodesSpellTheirNames()
    ensures AVCCONFIG == CodeOf("avcC")
    ensures HVCCCONFIG == CodeOf("hvcC")
    ensures PIXELASPECT == CodeOf("pasp")
    ensures ESDS == CodeOf("esds")
    ensures ALBUM_ARTIST == CodeOf("aART")
    ensures COVER_ART == CodeOf("covr")
  {
  }

  /** The nine iTunes text codes have high byte 0xA9 and ASCII low three bytes. */
  lemma CopyrightCodesSpellTheirNames()
    ensures NAM == CopyrightCodeOf("nam")
    ensures ART == CopyrightCodeOf("ART")
    ensures ALB == CopyrightCodeOf("alb")
    ensures DAY == CopyrightCodeOf("day")
    ensures GEN == CopyrightCodeOf("gen")
    ensures CMT == CopyrightCodeOf("cmt")
    ensures WRT == CopyrightCodeOf("wrt")
    ensures GRP == CopyrightCodeOf("grp")
    ensures LYR == CopyrightCodeOf("lyr")
  {
  }

  /** The structural codes the priority table and the encoder match on are
      pairwise distinct, so every `match` on them picks exactly one arm. */
  lemma StructuralCodesDistinct()
    ensures |{FTYP, MOOV, MVHD, TRAK, META}| == 5
    ensures MVHD != TKHD
  {
  }

  /** UNKNOWN is zero and is not one of the named codes. */
  lemma UnknownIsNotNamed()
    ensures UNKNOWN == 0 && UNKNOWN !in NamedCodes
  {
  }
}
