/** The write path of src/video_metadata/mod.rs: a synthesized `ftyp` atom,
    then one flat `[size][type][body]` record per container, in model order. */
module Encoder {
  import opened Bytes
  import opened FourCC
  import opened Tags
  import opened Metadata
  import opened Mov

  /** The 16 bytes after the `ftyp` header: major brand `mp41`, minor
      version 0, compatible brands `mp41` and `isom`. */
  const FtypBody: seq<uint8> := BRAND_MP41 + [0, 0, 0, 0] + BRAND_MP41 + BRAND_ISOM

  /** `write_ftyp_atom`: always the same brands, whatever the input declared. */
  function FtypAtom(): (r: seq<uint8>)
    ensures |r| == 24
    ensures r[..4] == BE32(24) && r[4..8] == FTYP_TYPE && r[8..] == FtypBody
  {
    var ftypData: seq<uint8> := [0x6D, 0x70, 0x34, 0x31, 0x00, 0x00, 0x00, 0x00,
                                 0x6D, 0x70, 0x34, 0x31, 0x69, 0x73, 0x6F, 0x6D];
    assert ftypData == FtypBody;
    assert BE32(0x66747970) == FTYP_TYPE;
    var r := BE32(Trunc32(|ftypData| + 8)) + (BE32(0x66747970) + ftypData);
    SplitAt(BE32(24), BE32(0x66747970) + ftypData);
    SplitAt(BE32(0x66747970), ftypData);
    r
  }

  /** The tag encodings of a container, back to back in list order. */
  function TagBytes(conv: ValueConversions, tags: seq<VideoTag>): seq<uint8>
  {
    if |tags| == 0 then [] else ValueAsBytes(conv, tags[0]) + TagBytes(conv, tags[1..])
  }

  /** Encoding a list of tags is encoding its parts one after the other. */
  lemma {:induction false} TagBytesAppend(conv: ValueConversions, a: seq<VideoTag>, b: seq<VideoTag>)
    ensures TagBytes(conv, a + b) == TagBytes(conv, a) + TagBytes(conv, b)
    decreases |a|
  {
    if |a| == 0 {
      assert a + b == b;
    } else {
      assert (a + b)[1..] == a[1..] + b;
      TagBytesAppend(conv, a[1..], b);
    }
  }

  /** Binary tags are written verbatim, so a container holding only binary
      tags (codec configurations, cover art, unknown blobs, in any mix)
      encodes to their payloads back to back. */
  lemma {:induction false} TagBytesOfBlobs(conv: ValueConversions, tags: seq<VideoTag>)
    requires forall i | 0 <= i < |tags| :: IsBinary(tags[i])
    ensures TagBytes(conv, tags) == Flatten(seq(|tags|, i requires 0 <= i < |tags| && IsBinary(tags[i]) => BinaryPayload(tags[i])))
    decreases |tags|
  {
    var blobs := seq(|tags|, i requires 0 <= i < |tags| && IsBinary(tags[i]) => BinaryPayload(tags[i]));
    if |tags| > 0 {
      var rest := tags[1..];
      assert blobs[1..] == seq(|rest|, i requires 0 <= i < |rest| && IsBinary(rest[i]) => BinaryPayload(rest[i]));
      TagBytesOfBlobs(conv, rest);
    }
  }

  function Flatten(bs: seq<seq<uint8>>): seq<uint8>
  {
    if |bs| == 0 then [] else bs[0] + Flatten(bs[1..])
  }

  // ------------------------------------------------------------------- mvhd

  /** The values `encode_mvhd_atom` extracts from a container's tags. */
  datatype MvhdFields = MvhdFields(
    creationTime: uint64,
    modificationTime: uint64,
    timescale: uint32,
    duration: uint64,
    matrix: Matrix)

  /** Identity with 16.16 fixed-point ones and 2.30 fixed-point w = 1.0. */
  const IdentityMatrix: Matrix := [0x00010000, 0, 0, 0, 0x00010000, 0, 0, 0, 0x40000000]

  const DefaultMvhdFields := MvhdFields(0, 0, 1000, 0, IdentityMatrix)

  predicate SetsCreation(t: VideoTag) { t.CreationTime? && t.creation != 0 }
  predicate SetsModification(t: VideoTag) { t.ModificationTime? && t.modification != 0 }
  predicate SetsTimescale(t: VideoTag) { t.Timescale? && |t.timescales| > 0 }
  predicate SetsDuration(t: VideoTag) { t.Duration? && |t.durations| > 0 }

  /** One pass of the tag loop in `encode_mvhd_atom`. */
  function ApplyMvhdTag(f: MvhdFields, t: VideoTag): MvhdFields
  {
    match t
    case CreationTime(time) => if time != 0 then f.(creationTime := time) else f
    case ModificationTime(time) => if time != 0 then f.(modificationTime := time) else f
    case Timescale(scale) => if |scale| > 0 then f.(timescale := scale[0]) else f
    case Duration(dur) => if |dur| > 0 then f.(duration := dur[0]) else f
    case TransformMatrix(m) => f.(matrix := m)
    case _ => f
  }

  /** The loop over the tags, from the defaults, in list order. */
  function SelectMvhdFields(tags: seq<VideoTag>): MvhdFields
    decreases |tags|
  {
    if |tags| == 0 then DefaultMvhdFields
    else ApplyMvhdTag(SelectMvhdFields(tags[..|tags| - 1]), tags[|tags| - 1])
  }

  lemma ApplyCreationTime(f: MvhdFields, t: VideoTag)
    ensures SetsCreation(t) ==> ApplyMvhdTag(f, t).creationTime == t.creation
    ensures !(SetsCreation(t)) ==> ApplyMvhdTag(f, t).creationTime == f.creationTime
  {
  }

  lemma ApplyModificationTime(f: MvhdFields, t: VideoTag)
    ensures SetsModification(t) ==> ApplyMvhdTag(f, t).modificationTime == t.modification
    ensures !(SetsModification(t)) ==> ApplyMvhdTag(f, t).modificationTime == f.modificationTime
  {
  }

  lemma ApplyTimescale(f: MvhdFields, t: VideoTag)
    ensures SetsTimescale(t) ==> ApplyMvhdTag(f, t).timescale == t.timescales[0]
    ensures !(SetsTimescale(t)) ==> ApplyMvhdTag(f, t).timescale == f.timescale
  {
  }

  lemma ApplyDuration(f: MvhdFields, t: VideoTag)
    ensures SetsDuration(t) ==> ApplyMvhdTag(f, t).duration == t.durations[0]
    ensures !(SetsDuration(t)) ==> ApplyMvhdTag(f, t).duration == f.duration
  {
  }

  lemma ApplyMatrix(f: MvhdFields, t: VideoTag)
    ensures t.TransformMatrix? ==> ApplyMvhdTag(f, t).matrix == t.transform
    ensures !(t.TransformMatrix?) ==> ApplyMvhdTag(f, t).matrix == f.matrix
  {
  }

  /** The last non-zero creation time wins; 0 when there is none. */
  lemma {:induction false} CreationTimeSelection(tags: seq<VideoTag>)
    ensures (forall i | 0 <= i < |tags| :: !SetsCreation(tags[i])) ==> SelectMvhdFields(tags).creationTime == 0
    ensures forall i | 0 <= i < |tags| && SetsCreation(tags[i]) && (forall j | i < j < |tags| :: !SetsCreation(tags[j])) ::
              SelectMvhdFields(tags).creationTime == tags[i].creation
    decreases |tags|
  {
    if |tags| > 0 {
      var pre, last := tags[..|tags| - 1], tags[|tags| - 1];
      CreationTimeSelection(pre);
      ApplyCreationTime(SelectMvhdFields(pre), last);
      assert SelectMvhdFields(tags) == ApplyMvhdTag(SelectMvhdFields(pre), last);
      if forall i | 0 <= i < |tags| :: !SetsCreation(tags[i]) {
        forall i | 0 <= i < |pre| ensures !SetsCreation(pre[i]) {
          assert pre[i] == tags[i];
        }
      }
      forall i | 0 <= i < |tags| && SetsCreation(tags[i]) && (forall j | i < j < |tags| :: !SetsCreation(tags[j]))
        ensures SelectMvhdFields(tags).creationTime == tags[i].creation
      {
        if i < |pre| {
          assert pre[i] == tags[i] && !SetsCreation(last);
          forall j | i < j < |pre| ensures !SetsCreation(pre[j]) {
            assert pre[j] == tags[j];
          }
        }
      }
    }
  }

  /** The last non-zero modification time wins; 0 when there is none. */
  lemma {:induction false} ModificationTimeSelection(tags: seq<VideoTag>)
    ensures (forall i | 0 <= i < |tags| :: !SetsModification(tags[i])) ==> SelectMvhdFields(tags).modificationTime == 0
    ensures forall i | 0 <= i < |tags| && SetsModification(tags[i]) && (forall j | i < j < |tags| :: !SetsModification(tags[j])) ::
              SelectMvhdFields(tags).modificationTime == tags[i].modification
    decreases |tags|
  {
    if |tags| > 0 {
      var pre, last := tags[..|tags| - 1], tags[|tags| - 1];
      ModificationTimeSelection(pre);
      ApplyModificationTime(SelectMvhdFields(pre), last);
      assert SelectMvhdFields(tags) == ApplyMvhdTag(SelectMvhdFields(pre), last);
      if forall i | 0 <= i < |tags| :: !SetsModification(tags[i]) {
        forall i | 0 <= i < |pre| ensures !SetsModification(pre[i]) {
          assert pre[i] == tags[i];
        }
      }
      forall i | 0 <= i < |tags| && SetsModification(tags[i]) && (forall j | i < j < |tags| :: !SetsModification(tags[j]))
        ensures SelectMvhdFields(tags).modificationTime == tags[i].modification
      {
        if i < |pre| {
          assert pre[i] == tags[i] && !SetsModification(last);
          forall j | i < j < |pre| ensures !SetsModification(pre[j]) {
            assert pre[j] == tags[j];
          }
        }
      }
    }
  }

  /** The first scale of the last non-empty timescale tag wins; 1000 when there is none. */
  lemma {:induction false} TimescaleSelection(tags: seq<VideoTag>)
    ensures (forall i | 0 <= i < |tags| :: !SetsTimescale(tags[i])) ==> SelectMvhdFields(tags).timescale == 1000
    ensures forall i | 0 <= i < |tags| && SetsTimescale(tags[i]) && (forall j | i < j < |tags| :: !SetsTimescale(tags[j])) ::
              SelectMvhdFields(tags).timescale == tags[i].timescales[0]
    decreases |tags|
  {
    if |tags| > 0 {
      var pre, last := tags[..|tags| - 1], tags[|tags| - 1];
      TimescaleSelection(pre);
      ApplyTimescale(SelectMvhdFields(pre), last);
      assert SelectMvhdFields(tags) == ApplyMvhdTag(SelectMvhdFields(pre), last);
      if forall i | 0 <= i < |tags| :: !SetsTimescale(tags[i]) {
        forall i | 0 <= i < |pre| ensures !SetsTimescale(pre[i]) {
          assert pre[i] == tags[i];
        }
      }
      forall i | 0 <= i < |tags| && SetsTimescale(tags[i]) && (forall j | i < j < |tags| :: !SetsTimescale(tags[j]))
        ensures SelectMvhdFields(tags).timescale == tags[i].timescales[0]
      {
        if i < |pre| {
          assert pre[i] == tags[i] && !SetsTimescale(last);
          forall j | i < j < |pre| ensures !SetsTimescale(pre[j]) {
            assert pre[j] == tags[j];
          }
        }
      }
    }
  }

  /** The first value of the last non-empty duration tag wins; 0 when there is none. */
  lemma {:induction false} DurationSelection(tags: seq<VideoTag>)
    ensures (forall i | 0 <= i < |tags| :: !SetsDuration(tags[i])) ==> SelectMvhdFields(tags).duration == 0
    ensures forall i | 0 <= i < |tags| && SetsDuration(tags[i]) && (forall j | i < j < |tags| :: !SetsDuration(tags[j])) ::
              SelectMvhdFields(tags).duration == tags[i].durations[0]
    decreases |tags|
  {
    if |tags| > 0 {
      var pre, last := tags[..|tags| - 1], tags[|tags| - 1];
      DurationSelection(pre);
      ApplyDuration(SelectMvhdFields(pre), last);
      assert SelectMvhdFields(tags) == ApplyMvhdTag(SelectMvhdFields(pre), last);
      if forall i | 0 <= i < |tags| :: !SetsDuration(tags[i]) {
        forall i | 0 <= i < |pre| ensures !SetsDuration(pre[i]) {
          assert pre[i] == tags[i];
        }
      }
      forall i | 0 <= i < |tags| && SetsDuration(tags[i]) && (forall j | i < j < |tags| :: !SetsDuration(tags[j]))
        ensures SelectMvhdFields(tags).duration == tags[i].durations[0]
      {
        if i < |pre| {
          assert pre[i] == tags[i] && !SetsDuration(last);
          forall j | i < j < |pre| ensures !SetsDuration(pre[j]) {
            assert pre[j] == tags[j];
          }
        }
      }
    }
  }

  /** The last transform matrix wins; the identity when there is none. */
  lemma {:induction false} MatrixSelection(tags: seq<VideoTag>)
    ensures (forall i | 0 <= i < |tags| :: !tags[i].TransformMatrix?) ==> SelectMvhdFields(tags).matrix == IdentityMatrix
    ensures forall i | 0 <= i < |tags| && tags[i].TransformMatrix? && (forall j | i < j < |tags| :: !tags[j].TransformMatrix?) ::
              SelectMvhdFields(tags).matrix == tags[i].transform
    decreases |tags|
  {
    if |tags| > 0 {
      var pre, last := tags[..|tags| - 1], tags[|tags| - 1];
      MatrixSelection(pre);
      ApplyMatrix(SelectMvhdFields(pre), last);
      assert SelectMvhdFields(tags) == ApplyMvhdTag(SelectMvhdFields(pre), last);
      if forall i | 0 <= i < |tags| :: !tags[i].TransformMatrix? {
        forall i | 0 <= i < |pre| ensures !pre[i].TransformMatrix? {
          assert pre[i] == tags[i];
        }
      }
      forall i | 0 <= i < |tags| && tags[i].TransformMatrix? && (forall j | i < j < |tags| :: !tags[j].TransformMatrix?)
        ensures SelectMvhdFields(tags).matrix == tags[i].transform
      {
        if i < |pre| {
          assert pre[i] == tags[i] && !last.TransformMatrix?;
          forall j | i < j < |pre| ensures !pre[j].TransformMatrix? {
            assert pre[j] == tags[j];
          }
        }
      }
    }
  }

  /** Nine signed cells, each as four big-endian two's-complement bytes.
      Its contract gives only the length; what the bytes mean is stated by
      `CellsRoundTrip`. */
  function CellBytes(cells: seq<int32>): (r: seq<uint8>)
    ensures |r| == 4 * |cells|
  {
    if |cells| == 0 then [] else BE32Signed(cells[0]) + CellBytes(cells[1..])
  }

  /** Reading signed big-endian cells back; the inverse of `CellBytes`, as
      `CellsRoundTrip` states. */
  function ParseCells(bs: seq<uint8>): (r: seq<int32>)
    requires |bs| % 4 == 0
    ensures |r| == |bs| / 4
    decreases |bs|
  {
    if |bs| == 0 then [] else [FromI32Bits(FromBE32(bs[..4]))] + ParseCells(bs[4..])
  }

  lemma {:induction false} CellsRoundTrip(cells: seq<int32>)
    ensures ParseCells(CellBytes(cells)) == cells
    decreases |cells|
  {
    if |cells| > 0 {
      var bs := CellBytes(cells);
      assert bs[..4] == BE32Signed(cells[0]) && bs[4..] == CellBytes(cells[1..]);
      BE32RoundTrip(I32Bits(cells[0]));
      I32BitsRoundTrip(cells[0]);
      CellsRoundTrip(cells[1..]);
    }
  }

  /** `encode_mvhd_atom`: the fields selected from the tags, laid out. */
  function EncodeMvhdBody(tags: seq<VideoTag>): (r: seq<uint8>)
    ensures |r| == 112
  {
    MvhdBytes(SelectMvhdFields(tags))
  }

  /** Version 0 and flags, 64-bit creation and modification times, 32-bit
      timescale, 64-bit duration, then the fixed tail. */
  function MvhdBytes(f: MvhdFields): (r: seq<uint8>)
    ensures |r| == 112
  {
    Zeros(4) + (BE64(f.creationTime) + (BE64(f.modificationTime) + (BE32(f.timescale)
    + (BE64(f.duration) + MvhdTail(f.matrix)))))
  }

  /** The last 80 bytes of the movie header: rate 1.0, volume 1.0, ten
      reserved bytes, the matrix, 24 pre-defined bytes and next track id 1. */
  function MvhdTail(m: Matrix): (r: seq<uint8>)
    ensures |r| == 80
  {
    BE32(0x00010000) + (BE16(0x0100) + (Zeros(10) + (CellBytes(m) + (Zeros(24) + BE32(1)))))
  }

  /** Reads the fields back from the 112-byte layout the encoder writes. */
  function ParseMvhdBody(b: seq<uint8>): MvhdFields
    requires |b| == 112
  {
    MvhdFields(FromBE64(b[4..12]), FromBE64(b[12..20]), FromBE32(b[20..24]),
               FromBE64(b[24..32]), ParseCells(b[48..84]))
  }

  lemma SplitAt(a: seq<uint8>, b: seq<uint8>)
    ensures (a + b)[..|a|] == a && (a + b)[|a|..] == b
  {
  }

  /** Field offsets of the variable head of the movie header body. */
  lemma MvhdBodyLayout(f: MvhdFields)
    ensures var b := MvhdBytes(f);
      && b[..4] == Zeros(4)
      && b[4..12] == BE64(f.creationTime)
      && b[12..20] == BE64(f.modificationTime)
      && b[20..24] == BE32(f.timescale)
      && b[24..32] == BE64(f.duration)
      && b[32..] == MvhdTail(f.matrix)
  {
    var b := MvhdBytes(f);
    var r4 := BE64(f.duration) + MvhdTail(f.matrix);
    var r3 := BE32(f.timescale) + r4;
    var r2 := BE64(f.modificationTime) + r3;
    var r1 := BE64(f.creationTime) + r2;
    SplitAt(Zeros(4), r1);
    SplitAt(BE64(f.creationTime), r2);
    SplitAt(BE64(f.modificationTime), r3);
    SplitAt(BE32(f.timescale), r4);
    SplitAt(BE64(f.duration), MvhdTail(f.matrix));
    assert b[4..] == r1 && b[12..] == r2 && b[20..] == r3 && b[24..] == r4;
  }

  /** Field offsets of the fixed tail, and its constants. */
  lemma MvhdTailLayout(m: Matrix)
    ensures var t := MvhdTail(m);
      && t[..4] == BE32(0x00010000)
      && t[4..6] == BE16(0x0100)
      && t[6..16] == Zeros(10)
      && t[16..52] == CellBytes(m)
      && t[52..76] == Zeros(24)
      && t[76..] == BE32(1)
  {
    var t := MvhdTail(m);
    var r4 := Zeros(24) + BE32(1);
    var r3 := CellBytes(m) + r4;
    var r2 := Zeros(10) + r3;
    var r1 := BE16(0x0100) + r2;
    assert t == BE32(0x00010000) + r1;
    SplitAt(BE32(0x00010000), r1);
    SplitAt(BE16(0x0100), r2);
    SplitAt(Zeros(10), r3);
    SplitAt(CellBytes(m), r4);
    SplitAt(Zeros(24), BE32(1));
    assert t[4..] == r1 && t[6..] == r2 && t[16..] == r3 && t[52..] == r4;
  }

  /** Re-reading a laid-out movie header gives back exactly its fields. */
  lemma MvhdBytesRoundTrip(f: MvhdFields)
    ensures ParseMvhdBody(MvhdBytes(f)) == f
  {
    var b := MvhdBytes(f);
    MvhdBodyLayout(f);
    MvhdTailLayout(f.matrix);
    assert b[48..84] == MvhdTail(f.matrix)[16..52];
    BE64RoundTrip(f.creationTime);
    BE64RoundTrip(f.modificationTime);
    BE32RoundTrip(f.timescale);
    BE64RoundTrip(f.duration);
    CellsRoundTrip(f.matrix);
  }

  /** So re-reading the encoded movie header gives back the selected fields. */
  lemma MvhdRoundTrip(tags: seq<VideoTag>)
    ensures ParseMvhdBody(EncodeMvhdBody(tags)) == SelectMvhdFields(tags)
  {
    MvhdBytesRoundTrip(SelectMvhdFields(tags));
  }

  // -------------------------------------------------------------- containers

  /** `encode_atom`: the body of one container, by atom type. `moov`, `trak`
      and every type without a rule get the plain tag concatenation
      (`encode_basic_atom` and the generic arm); `meta` gets a version/flags
      prefix (`encode_meta_atom`). */
  function EncodeAtom(conv: ValueConversions, c: AtomContainer): seq<uint8>
  {
    if c.atomType == MOOV then TagBytes(conv, c.tags)
    else if c.atomType == MVHD then EncodeMvhdBody(c.tags)
    else if c.atomType == TRAK then TagBytes(conv, c.tags)
    else if c.atomType == META then Zeros(4) + TagBytes(conv, c.tags)
    else TagBytes(conv, c.tags)
  }

  /** A movie header body is 112 bytes that read back as the selected fields;
      a `meta` body is four zero bytes then the tags; every other body is
      just the tags. */
  lemma EncodeAtomLayout(conv: ValueConversions, c: AtomContainer)
    ensures var r := EncodeAtom(conv, c);
            c.atomType == MVHD ==> |r| == 112 && ParseMvhdBody(r) == SelectMvhdFields(c.tags)
    ensures var r := EncodeAtom(conv, c);
            c.atomType == META ==> |r| >= 4 && r[..4] == [0, 0, 0, 0] && r[4..] == TagBytes(conv, c.tags)
    ensures c.atomType != MVHD && c.atomType != META ==> EncodeAtom(conv, c) == TagBytes(conv, c.tags)
  {
    if c.atomType == MVHD {
      MvhdRoundTrip(c.tags);
    } else if c.atomType == META {
      assert Zeros(4) == [0, 0, 0, 0];
      SplitAt(Zeros(4), TagBytes(conv, c.tags));
    }
  }

  /** One container as written by `encode`: size (body length plus the 8
      header bytes, cut to 32 bits by `as u32`), type, body. */
  function Record(conv: ValueConversions, c: AtomContainer): (r: seq<uint8>)
    ensures |r| == |EncodeAtom(conv, c)| + 8
  {
    var body := EncodeAtom(conv, c);
    BE32(Trunc32(|body| + 8)) + BE32(c.atomType) + body
  }

  function Records(conv: ValueConversions, atoms: seq<AtomContainer>): seq<uint8>
  {
    if |atoms| == 0 then [] else Record(conv, atoms[0]) + Records(conv, atoms[1..])
  }

  /** `encode`: the fixed `ftyp` atom, then every container's record in order. */
  function Encode(conv: ValueConversions, m: VideoMetadata): (r: seq<uint8>)
    ensures |r| >= 24 && r[..24] == FtypAtom()
  {
    FtypAtom() + Records(conv, m.atoms)
  }

  /** The records of two runs of containers, back to back. */
  lemma {:induction false} RecordsAppend(conv: ValueConversions, a: seq<AtomContainer>, b: seq<AtomContainer>)
    ensures Records(conv, a + b) == Records(conv, a) + Records(conv, b)
    decreases |a|
  {
    if |a| == 0 {
      assert a + b == b;
    } else {
      var ab := a + b;
      assert ab[0] == a[0] && ab[1..] == a[1..] + b;
      RecordsAppend(conv, a[1..], b);
    }
  }

  /** Every body fits the 32-bit size field, so no size is cut by `as u32`. */
  predicate BodiesFit(conv: ValueConversions, atoms: seq<AtomContainer>)
  {
    forall i | 0 <= i < |atoms| :: |EncodeAtom(conv, atoms[i])| + 8 < 0x1_0000_0000
  }

  /** A record whose body fits carries the body's true length plus 8 as its size. */
  lemma RecordLayout(conv: ValueConversions, c: AtomContainer)
    requires |EncodeAtom(conv, c)| + 8 < 0x1_0000_0000
    ensures var body := EncodeAtom(conv, c);
            Record(conv, c) == BE32(|body| + 8) + BE32(c.atomType) + body
  {
  }
}
