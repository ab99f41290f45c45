/** The top-level atom walker and signature check of src/mov.rs, on an
    in-memory buffer: the `Cursor` position becomes a plain index. */
module Mov {
  import opened Bytes
  import opened Wrappers

  /** `b"ftyp"` and `b"moov"`. */
  const FTYP_TYPE: seq<uint8> := [0x66, 0x74, 0x79, 0x70]
  const MOOV_TYPE: seq<uint8> := [0x6D, 0x6F, 0x6F, 0x76]

  const BRAND_QT: seq<uint8> := [0x71, 0x74, 0x20, 0x20]
  const BRAND_MP41: seq<uint8> := [0x6D, 0x70, 0x34, 0x31]
  const BRAND_MP42: seq<uint8> := [0x6D, 0x70, 0x34, 0x32]
  const BRAND_ISOM: seq<uint8> := [0x69, 0x73, 0x6F, 0x6D]
  const BRAND_M4V: seq<uint8> := [0x4D, 0x34, 0x56, 0x20]
  const BRAND_M4A: seq<uint8> := [0x4D, 0x34, 0x41, 0x20]

  /** `MOV_BRANDS`: the major brands the signature check accepts. */
  const MOV_BRANDS: seq<seq<uint8>> := [BRAND_QT, BRAND_MP41, BRAND_MP42, BRAND_ISOM, BRAND_M4V, BRAND_M4A]

  /** The byte constants spell the ASCII names the source writes as `b"..."`. */
  lemma ConstantsSpellTheirNames()
    ensures FTYP_TYPE == Ascii("ftyp") && MOOV_TYPE == Ascii("moov")
    ensures BRAND_QT == Ascii("qt  ") && BRAND_MP41 == Ascii("mp41") && BRAND_MP42 == Ascii("mp42")
    ensures BRAND_ISOM == Ascii("isom") && BRAND_M4V == Ascii("M4V ") && BRAND_M4A == Ascii("M4A ")
  {
  }

  // ------------------------------------------------------------ atom header

  /** One atom header as read by `Atom::read_from`. */
  datatype Atom = Atom(size: uint32, atomType: seq<uint8>, dataOffset: nat, dataSize: uint32)

  /** `UnexpectedEof` is a short read of the 8 header bytes; `InvalidSize`
      is a declared size below the header's own 8 bytes. */
  datatype AtomReadError = UnexpectedEof | InvalidSize

  /** The declared size and the type of the atom whose header starts at `p`. */
  function SizeAt(buf: seq<uint8>, p: nat): uint32
    requires p + 8 <= |buf|
  {
    FromBE32(buf[p..p + 4])
  }

  function TypeAt(buf: seq<uint8>, p: nat): seq<uint8>
    requires p + 8 <= |buf|
  {
    buf[p + 4..p + 8]
  }

  /** `Atom::read_from`: both header fields are read before the size is
      checked, so a short buffer is an end-of-file even when the size bytes
      that were read already say the atom is too small. */
  function ReadAtom(buf: seq<uint8>, start: nat): Result<Atom, AtomReadError>
  {
    if start + 4 > |buf| then Err(UnexpectedEof)
    else
      var size := FromBE32(buf[start..start + 4]);
      if start + 8 > |buf| then Err(UnexpectedEof)
      else
        var atomType := buf[start + 4..start + 8];
        if size < 8 then Err(InvalidSize)
        else Ok(Atom(size, atomType, start + 8, size - 8))
  }

  /** The three outcomes of reading a header: end of file exactly when the
      eight header bytes are not all there, an invalid size exactly when the
      declared size is below 8, and otherwise the header's fields. */
  lemma ReadAtomOutcomes(buf: seq<uint8>, start: nat)
    ensures ReadAtom(buf, start) == Err(UnexpectedEof) <==> start + 8 > |buf|
    ensures ReadAtom(buf, start) == Err(InvalidSize) <==> start + 8 <= |buf| && SizeAt(buf, start) < 8
    ensures ReadAtom(buf, start).Ok? <==> start + 8 <= |buf| && SizeAt(buf, start) >= 8
    ensures ReadAtom(buf, start).Ok? ==>
              ReadAtom(buf, start).value
              == Atom(SizeAt(buf, start), TypeAt(buf, start), start + 8, SizeAt(buf, start) - 8)
  {
  }

  /** A header written as big-endian size and four type bytes reads back as
      that size and type, whatever surrounds it. */
  lemma ReadAtomOfHeader(pre: seq<uint8>, size: uint32, atomType: seq<uint8>, rest: seq<uint8>)
    requires size >= 8 && |atomType| == 4
    ensures ReadAtom(pre + BE32(size) + atomType + rest, |pre|)
            == Ok(Atom(size, atomType, |pre| + 8, size - 8))
  {
    var buf := pre + BE32(size) + atomType + rest;
    assert buf[|pre|..|pre| + 4] == BE32(size);
    assert buf[|pre| + 4..|pre| + 8] == atomType;
    BE32RoundTrip(size);
  }

  // ------------------------------------------------------- signature check

  /** `check_file_signature`: bytes 4..8 must be `ftyp` and bytes 8..12 one
      of the listed brands. Every short read answers `false`. */
  function CheckFileSignature(buf: seq<uint8>): (r: bool)
    ensures r <==> |buf| >= 12 && buf[4..8] == FTYP_TYPE && buf[8..12] in MOV_BRANDS
  {
    if |buf| < 4 then false
    else if |buf| < 8 then false
    else if buf[4..8] != FTYP_TYPE then false
    else if |buf| < 12 then false
    else buf[8..12] in MOV_BRANDS || buf[8..12] == BRAND_QT
  }

  /** The size field of the first atom is never looked at: any four bytes
      there give the same answer. */
  lemma {:induction false} SignatureIgnoresSizeField(buf: seq<uint8>, size: seq<uint8>)
    requires |buf| >= 4 && |size| == 4
    ensures CheckFileSignature(size + buf[4..]) == CheckFileSignature(buf)
  {
    var b := size + buf[4..];
    assert |b| == |buf|;
    if |buf| >= 8 {
      assert b[4..8] == buf[4..8];
    }
    if |buf| >= 12 {
      assert b[8..12] == buf[8..12];
    }
  }

  /** Only the first twelve bytes matter: what follows never changes the answer. */
  lemma SignatureReadsTwelveBytes(buf: seq<uint8>, rest: seq<uint8>)
    requires |buf| >= 12
    ensures CheckFileSignature(buf + rest) == CheckFileSignature(buf)
  {
    assert (buf + rest)[4..8] == buf[4..8];
    assert (buf + rest)[8..12] == buf[8..12];
  }

  // ------------------------------------------------------------ the walker

  /** The error of `read_metadata`, with the `std::io::ErrorKind` it carries. */
  datatype ReadError = NotAMovFile | InvalidAtom(position: nat) | MoovNotFound | TruncatedMoov
  datatype ErrorKind = InvalidData | NotFound | UnexpectedEndOfFile

  function Kind(e: ReadError): ErrorKind
  {
    match e
    case NotAMovFile => InvalidData
    case InvalidAtom(_) => InvalidData
    case MoovNotFound => NotFound
    case TruncatedMoov => UnexpectedEndOfFile
  }

  /** The `while` loop of `read_metadata` from cursor position `pos`. */
  function Walk(buf: seq<uint8>, pos: nat): (r: Result<seq<uint8>, ReadError>)
    decreases |buf| - pos
  {
    if pos >= |buf| then Err(MoovNotFound)
    else
      match ReadAtom(buf, pos)
      case Err(UnexpectedEof) => Err(MoovNotFound)
      case Err(InvalidSize) => Err(InvalidAtom(pos))
      case Ok(atom) =>
        if atom.atomType == MOOV_TYPE then
          if atom.dataOffset + atom.dataSize as int <= |buf| then
            Ok(buf[atom.dataOffset..atom.dataOffset + atom.dataSize as int])
          else Err(TruncatedMoov)
        else if pos + atom.size as int > |buf| then Err(MoovNotFound)
        else Walk(buf, pos + atom.size as int)
  }

  /** `read_metadata`: the payload of the first top-level `moov` atom. */
  function ReadMetadata(data: seq<uint8>): (r: Result<seq<uint8>, ReadError>)
    ensures !CheckFileSignature(data) ==> r == Err(NotAMovFile)
    ensures r.Ok? ==> |r.value| <= |data|
    ensures r.Err? && r.error.InvalidAtom? ==> r.error.position + 8 <= |data|
  {
    if !CheckFileSignature(data) then Err(NotAMovFile) else
      WalkBounds(data, 0);
      Walk(data, 0)
  }

  lemma {:induction false} WalkBounds(buf: seq<uint8>, pos: nat)
    ensures Walk(buf, pos).Ok? ==> |Walk(buf, pos).value| <= |buf|
    ensures Walk(buf, pos).Err? && Walk(buf, pos).error.InvalidAtom? ==>
              pos <= Walk(buf, pos).error.position && Walk(buf, pos).error.position + 8 <= |buf|
    decreases |buf| - pos
  {
    if pos < |buf| && ReadAtom(buf, pos).Ok? {
      var atom := ReadAtom(buf, pos).value;
      if atom.atomType != MOOV_TYPE && pos + atom.size as int <= |buf| {
        WalkBounds(buf, pos + atom.size as int);
      }
    }
  }

  // ------------------------------------------- the walk, stated declaratively

  /** The atom at `p` is skipped: a whole header, a valid size, not `moov`,
      and its end inside the buffer. */
  predicate Skips(buf: seq<uint8>, p: nat)
  {
    && p + 8 <= |buf|
    && SizeAt(buf, p) >= 8
    && TypeAt(buf, p) != MOOV_TYPE
    && p + SizeAt(buf, p) as int <= |buf|
  }

  /** `q` is reached from `p` by skipping zero or more whole atoms. */
  predicate Reaches(buf: seq<uint8>, p: nat, q: nat)
    decreases |buf| - p
  {
    p == q || (Skips(buf, p) && Reaches(buf, p + SizeAt(buf, p) as int, q))
  }

  /** A well-formed `moov` atom sits at `q`: its payload is inside the buffer. */
  predicate MoovAt(buf: seq<uint8>, q: nat)
  {
    q + 8 <= |buf| && SizeAt(buf, q) >= 8 && TypeAt(buf, q) == MOOV_TYPE && q + SizeAt(buf, q) as int <= |buf|
  }

  function PayloadAt(buf: seq<uint8>, q: nat): seq<uint8>
    requires MoovAt(buf, q)
  {
    buf[q + 8..q + SizeAt(buf, q) as int]
  }

  /** Skipping an atom does not change where the walk ends. */
  lemma {:induction false} WalkSkipsAhead(buf: seq<uint8>, p: nat, q: nat)
    requires Reaches(buf, p, q)
    ensures Walk(buf, p) == Walk(buf, q)
    decreases |buf| - p
  {
    if p != q {
      var next := p + SizeAt(buf, p) as int;
      WalkSkipsOne(buf, p, next);
      WalkSkipsAhead(buf, next, q);
    }
  }

  /** One turn of the loop over an atom that is skipped. */
  lemma WalkSkipsOne(buf: seq<uint8>, p: nat, next: nat)
    requires Skips(buf, p) && next == p + SizeAt(buf, p) as int
    ensures Walk(buf, p) == Walk(buf, next)
  {
    assert ReadAtom(buf, p) == Ok(Atom(SizeAt(buf, p), TypeAt(buf, p), p + 8, SizeAt(buf, p) - 8));
  }

  /** The position where the walk stops skipping. */
  function StopOf(buf: seq<uint8>, p: nat): (q: nat)
    ensures Reaches(buf, p, q) && !Skips(buf, q)
    decreases |buf| - p
  {
    if Skips(buf, p) then StopOf(buf, p + SizeAt(buf, p) as int) else p
  }

  /** Where the walk stops, the outcome is decided by that one atom. */
  lemma WalkAtStop(buf: seq<uint8>, q: nat)
    requires !Skips(buf, q)
    ensures MoovAt(buf, q) ==> Walk(buf, q) == Ok(PayloadAt(buf, q))
    ensures q + 8 <= |buf| && SizeAt(buf, q) < 8 ==> Walk(buf, q) == Err(InvalidAtom(q))
    ensures q + 8 <= |buf| && SizeAt(buf, q) >= 8 && TypeAt(buf, q) == MOOV_TYPE && !MoovAt(buf, q)
            ==> Walk(buf, q) == Err(TruncatedMoov)
    ensures q + 8 > |buf| || (SizeAt(buf, q) >= 8 && TypeAt(buf, q) != MOOV_TYPE)
            ==> Walk(buf, q) == Err(MoovNotFound)
  {
  }

  /** The walk returns a payload exactly when a well-formed `moov` atom is
      reached by skipping whole atoms, and then returns that atom's payload. */
  lemma WalkFindsMoov(buf: seq<uint8>, p: nat)
    ensures Walk(buf, p).Ok? <==> exists q :: Reaches(buf, p, q) && MoovAt(buf, q)
    ensures forall q :: Reaches(buf, p, q) && MoovAt(buf, q) ==> Walk(buf, p) == Ok(PayloadAt(buf, q))
  {
    var s := StopOf(buf, p);
    WalkSkipsAhead(buf, p, s);
    WalkAtStop(buf, s);
    forall q | Reaches(buf, p, q) && MoovAt(buf, q)
      ensures Walk(buf, p) == Ok(PayloadAt(buf, q))
    {
      WalkSkipsAhead(buf, p, q);
      WalkAtStop(buf, q);
    }
  }

  /** The walk fails with an invalid atom exactly when a header with a size
      below 8 is reached, and names that header's position. */
  lemma WalkRejectsSmallSize(buf: seq<uint8>, p: nat, q: nat)
    ensures Walk(buf, p) == Err(InvalidAtom(q)) <==> Reaches(buf, p, q) && q + 8 <= |buf| && SizeAt(buf, q) < 8
  {
    var s := StopOf(buf, p);
    WalkSkipsAhead(buf, p, s);
    WalkAtStop(buf, s);
    if Reaches(buf, p, q) && q + 8 <= |buf| && SizeAt(buf, q) < 8 {
      WalkSkipsAhead(buf, p, q);
      WalkAtStop(buf, q);
    }
  }

  /** A whole atom that is not `moov`, written with its true size, is
      skipped: the walk goes on at its end. */
  lemma WalkPastAtom(buf: seq<uint8>, p: nat, size: uint32, next: nat)
    requires 8 <= size && next == p + size as int && next <= |buf|
    requires buf[p..p + 4] == BE32(size) && buf[p + 4..p + 8] != MOOV_TYPE
    ensures Walk(buf, p) == Walk(buf, next)
  {
    BE32RoundTrip(size);
    WalkSkipsOne(buf, p, next);
  }

  /** A whole `moov` atom, written with its true size, ends the walk with its payload. */
  lemma WalkIntoMoov(buf: seq<uint8>, p: nat, size: uint32, payload: seq<uint8>)
    requires 8 <= size && p + size as int <= |buf|
    requires buf[p..p + 4] == BE32(size) && buf[p + 4..p + 8] == MOOV_TYPE
    requires payload == buf[p + 8..p + size as int]
    ensures Walk(buf, p) == Ok(payload)
  {
    BE32RoundTrip(size);
    assert MoovAt(buf, p);
    WalkAtStop(buf, p);
  }

  // ---------------------------------------------------------- two buffers

  /** A 20-byte `ftyp` atom with major brand `b` and eight trailing bytes. */
  function FtypWithBrand(b: seq<uint8>): seq<uint8>
    requires |b| == 4
  {
    BE32(20) + FTYP_TYPE + b + Zeros(8)
  }

  /** A `qt  ` major brand is accepted; an unlisted one such as `xxxx` is not. */
  lemma SignatureExamples()
    ensures CheckFileSignature(FtypWithBrand(BRAND_QT))
    ensures !CheckFileSignature(FtypWithBrand(Ascii("xxxx")))
  {
    var good := FtypWithBrand(BRAND_QT);
    assert good[4..8] == FTYP_TYPE && good[8..12] == BRAND_QT;
    var bad := FtypWithBrand(Ascii("xxxx"));
    assert Ascii("xxxx") == [0x78, 0x78, 0x78, 0x78];
    assert bad[8..12] == Ascii("xxxx");
  }

  /** A 20-byte `ftyp` atom followed by a 16-byte `moov` atom: extraction
      returns the moov atom's eight payload bytes. */
  lemma ExtractionExample()
    ensures ReadMetadata(FtypWithBrand(BRAND_QT) + BE32(16) + MOOV_TYPE + [0xAA, 0xAA, 0xAA, 0xAA, 0xAA, 0xAA, 0xAA, 0xAA])
            == Ok([0xAA, 0xAA, 0xAA, 0xAA, 0xAA, 0xAA, 0xAA, 0xAA])
  {
    var payload: seq<uint8> := [0xAA, 0xAA, 0xAA, 0xAA, 0xAA, 0xAA, 0xAA, 0xAA];
    var ftyp := FtypWithBrand(BRAND_QT);
    var buf := ftyp + BE32(16) + MOOV_TYPE + payload;
    SignatureExamples();
    SignatureReadsTwelveBytes(ftyp, BE32(16) + MOOV_TYPE + payload);
    assert buf == ftyp + (BE32(16) + MOOV_TYPE + payload);
    assert buf == [] + BE32(20) + FTYP_TYPE + (BRAND_QT + Zeros(8) + BE32(16) + MOOV_TYPE + payload);
    ReadAtomOfHeader([], 20, FTYP_TYPE, BRAND_QT + Zeros(8) + BE32(16) + MOOV_TYPE + payload);
    assert Walk(buf, 0) == Walk(buf, 20);
    ReadAtomOfHeader(ftyp, 16, MOOV_TYPE, payload);
    assert buf[28..36] == payload;
  }
}
