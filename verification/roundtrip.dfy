/** What the reader of src/mov.rs makes of the bytes the encoder of
    src/video_metadata/mod.rs writes. */
module RoundTrip {
  import opened Bytes
  import opened Wrappers
  import opened FourCC
  import opened Tags
  import opened Metadata
  import opened Encoder
  import opened Mov

  /** A container's record carries the type bytes `moov` exactly when its code is MOOV. */
  lemma MoovTypeBytes(t: uint32)
    ensures BE32(t) == MOOV_TYPE <==> t == MOOV
  {
    assert BE32(MOOV) == MOOV_TYPE;
    if BE32(t) == MOOV_TYPE {
      BE32Injective(t, MOOV);
    }
  }

  /** What the walk should find in a run of records: the body of the first
      `moov` container, or nothing. */
  function FirstMoovBody(conv: ValueConversions, atoms: seq<AtomContainer>): Result<seq<uint8>, ReadError>
  {
    match FindAtom(atoms, MOOV)
    case None => Err(MoovNotFound)
    case Some(i) => Ok(EncodeAtom(conv, atoms[i]))
  }

  lemma FirstMoovBodySkip(conv: ValueConversions, atoms: seq<AtomContainer>)
    requires |atoms| > 0 && atoms[0].atomType != MOOV
    ensures FirstMoovBody(conv, atoms) == FirstMoovBody(conv, atoms[1..])
  {
    match FindAtom(atoms[1..], MOOV)
    case None =>
    case Some(i) => assert atoms[1..][i] == atoms[i + 1];
  }

  /** Where the parts of a record sit in a buffer that holds it from `p` on,
      and what the header reader makes of them. */
  lemma RecordSlices(buf: seq<uint8>, p: nat, size: uint32, atomType: uint32, body: seq<uint8>, rest: seq<uint8>)
    requires size as int == |body| + 8
    requires p <= |buf| && buf[p..] == BE32(size) + BE32(atomType) + body + rest
    ensures p + size as int <= |buf|
    ensures SizeAt(buf, p) == size
    ensures TypeAt(buf, p) == BE32(atomType)
    ensures buf[p + 8..p + size as int] == body
    ensures buf[p + size as int..] == rest
  {
    var tail := buf[p..];
    assert buf[p..p + 4] == tail[..4];
    assert buf[p + 4..p + 8] == tail[4..8];
    assert buf[p + 8..p + 8 + |body|] == tail[8..8 + |body|];
    assert buf[p + 8 + |body|..] == tail[8 + |body|..];
    BE32RoundTrip(size);
  }

  /** A non-empty run of records starts with the first container's header
      and body. */
  lemma RecordsHead(conv: ValueConversions, atoms: seq<AtomContainer>)
    requires |atoms| > 0 && |EncodeAtom(conv, atoms[0])| + 8 < 0x1_0000_0000
    ensures Records(conv, atoms)
            == BE32(|EncodeAtom(conv, atoms[0])| + 8) + BE32(atoms[0].atomType)
               + EncodeAtom(conv, atoms[0]) + Records(conv, atoms[1..])
  {
    RecordLayout(conv, atoms[0]);
  }

  /** The header of the first record of a run, read back where it starts:
      its size field holds the record's length, its type field is `moov`
      exactly when the container is, and the rest of the run follows it. */
  lemma FirstRecordHeader(conv: ValueConversions, buf: seq<uint8>, p: nat, atoms: seq<AtomContainer>)
    requires |atoms| > 0 && |EncodeAtom(conv, atoms[0])| + 8 < 0x1_0000_0000
    requires p <= |buf| && buf[p..] == Records(conv, atoms)
    ensures p + |EncodeAtom(conv, atoms[0])| + 8 <= |buf|
    ensures SizeAt(buf, p) as int == |EncodeAtom(conv, atoms[0])| + 8
    ensures TypeAt(buf, p) == BE32(atoms[0].atomType)
    ensures TypeAt(buf, p) == MOOV_TYPE <==> atoms[0].atomType == MOOV
    ensures buf[p + 8..p + |EncodeAtom(conv, atoms[0])| + 8] == EncodeAtom(conv, atoms[0])
    ensures buf[p + |EncodeAtom(conv, atoms[0])| + 8..] == Records(conv, atoms[1..])
  {
    RecordsHead(conv, atoms);
    RecordSlices(buf, p, |EncodeAtom(conv, atoms[0])| + 8, atoms[0].atomType,
                 EncodeAtom(conv, atoms[0]), Records(conv, atoms[1..]));
    MoovTypeBytes(atoms[0].atomType);
  }

  /** A `moov` record first in a run ends the walk with its body. */
  lemma WalkFirstMoov(conv: ValueConversions, buf: seq<uint8>, p: nat, atoms: seq<AtomContainer>)
    requires |atoms| > 0 && atoms[0].atomType == MOOV && |EncodeAtom(conv, atoms[0])| + 8 < 0x1_0000_0000
    requires p <= |buf| && buf[p..] == Records(conv, atoms)
    ensures Walk(buf, p) == Ok(EncodeAtom(conv, atoms[0]))
  {
    FirstRecordHeader(conv, buf, p, atoms);
    assert MoovAt(buf, p);
    WalkAtStop(buf, p);
  }

  /** Any other record first in a run is skipped whole, and the walk goes on
      at the next record. */
  lemma WalkFirstOther(conv: ValueConversions, buf: seq<uint8>, p: nat, next: nat, atoms: seq<AtomContainer>)
    requires |atoms| > 0 && atoms[0].atomType != MOOV && |EncodeAtom(conv, atoms[0])| + 8 < 0x1_0000_0000
    requires p <= |buf| && buf[p..] == Records(conv, atoms)
    requires next == p + |EncodeAtom(conv, atoms[0])| + 8
    ensures next <= |buf| && buf[next..] == Records(conv, atoms[1..])
    ensures Walk(buf, p) == Walk(buf, next)
  {
    FirstRecordHeader(conv, buf, p, atoms);
    WalkSkipsOne(buf, p, next);
  }

  /** Walking a buffer whose tail from `p` is a run of records skips every
      non-`moov` record and returns the first `moov` body. */
  lemma {:induction false} WalkRecords(conv: ValueConversions, buf: seq<uint8>, p: nat, atoms: seq<AtomContainer>)
    requires BodiesFit(conv, atoms)
    requires p <= |buf| && buf[p..] == Records(conv, atoms)
    ensures Walk(buf, p) == FirstMoovBody(conv, atoms)
    decreases |atoms|
  {
    if |atoms| == 0 {
      assert |buf[p..]| == 0;
    } else {
      if atoms[0].atomType == MOOV {
        WalkFirstMoov(conv, buf, p, atoms);
        assert FindAtom(atoms, MOOV) == Some(0);
      } else {
        assert BodiesFit(conv, atoms[1..]) by {
          forall i | 0 <= i < |atoms[1..]|
            ensures |EncodeAtom(conv, atoms[1..][i])| + 8 < 0x1_0000_0000
          {
            assert atoms[1..][i] == atoms[i + 1];
          }
        }
        var next := p + |EncodeAtom(conv, atoms[0])| + 8;
        WalkFirstOther(conv, buf, p, next, atoms);
        WalkRecords(conv, buf, next, atoms[1..]);
        FirstMoovBodySkip(conv, atoms);
      }
    }
  }

  /** The synthesized `ftyp` record at the front of every encoding passes the
      signature check and is skipped whole; the records follow it. */
  lemma EncodedFtyp(conv: ValueConversions, m: VideoMetadata)
    ensures CheckFileSignature(Encode(conv, m))
    ensures Skips(Encode(conv, m), 0) && SizeAt(Encode(conv, m), 0) == 24
    ensures Encode(conv, m)[24..] == Records(conv, m.atoms)
  {
    var ftyp := FtypAtom();
    var buf := Encode(conv, m);
    assert buf[..4] == ftyp[..4] == BE32(24);
    assert buf[4..8] == ftyp[4..8] == FTYP_TYPE;
    assert buf[8..12] == ftyp[8..12] == BRAND_MP41;
    BE32RoundTrip(24);
    assert buf[0..4] == buf[..4];
  }

  /** `read_metadata(encode(m))`: the walk returns the encoded body of the
      model's first `moov` container, or fails with not-found when it has
      none. Needs every body to fit the 32-bit size field. */
  lemma EncodeThenRead(conv: ValueConversions, m: VideoMetadata)
    requires BodiesFit(conv, m.atoms)
    ensures GetAtom(m, MOOV).Some? ==> ReadMetadata(Encode(conv, m)) == Ok(EncodeAtom(conv, GetAtom(m, MOOV).value))
    ensures GetAtom(m, MOOV).None? ==> ReadMetadata(Encode(conv, m)) == Err(MoovNotFound)
  {
    var buf := Encode(conv, m);
    EncodedFtyp(conv, m);
    WalkSkipsOne(buf, 0, 24);
    WalkRecords(conv, buf, 24, m.atoms);
  }

  /** A model holding a single container: the encoder writes its record right
      after `ftyp`. */
  lemma SingleContainerLayout(conv: ValueConversions, c: AtomContainer)
    requires |EncodeAtom(conv, c)| + 8 < 0x1_0000_0000
    ensures var b := Encode(conv, VideoMetadata([c]));
            && |b| == 32 + |EncodeAtom(conv, c)|
            && SizeAt(b, 24) as int == |EncodeAtom(conv, c)| + 8
            && TypeAt(b, 24) == BE32(c.atomType)
            && b[32..] == EncodeAtom(conv, c)
  {
    var m := VideoMetadata([c]);
    var b := Encode(conv, m);
    assert m.atoms[1..] == [];
    EncodedFtyp(conv, m);
    FirstRecordHeader(conv, b, 24, m.atoms);
    assert b[32..] == b[32..|b|];
  }

  /** The reader finds nothing in it unless it is `moov`. */
  lemma SingleContainerRead(conv: ValueConversions, c: AtomContainer)
    requires |EncodeAtom(conv, c)| + 8 < 0x1_0000_0000
    ensures c.atomType != MOOV ==> ReadMetadata(Encode(conv, VideoMetadata([c]))) == Err(MoovNotFound)
    ensures c.atomType == MOOV ==> ReadMetadata(Encode(conv, VideoMetadata([c]))) == Ok(EncodeAtom(conv, c))
  {
    var m := VideoMetadata([c]);
    assert BodiesFit(conv, m.atoms) by {
      assert m.atoms[0] == c;
    }
    EncodeThenRead(conv, m);
  }

  /** A model holding only a movie header container: the encoder writes it as
      a top-level record right after `ftyp`, whose 112-byte body reads back
      as the selected fields. Because it is not nested in a `moov`, the
      reader does not find it. */
  lemma MovieHeaderOnly(conv: ValueConversions, c: AtomContainer)
    requires c.atomType == MVHD
    ensures var b := Encode(conv, VideoMetadata([c]));
            && |b| == 144
            && SizeAt(b, 24) == 120
            && TypeAt(b, 24) == BE32(MVHD)
            && ParseMvhdBody(b[32..]) == SelectMvhdFields(c.tags)
    ensures ReadMetadata(Encode(conv, VideoMetadata([c]))) == Err(MoovNotFound)
  {
    EncodeAtomLayout(conv, c);
    SingleContainerLayout(conv, c);
    SingleContainerRead(conv, c);
  }
}
