# little_exif MOV metadata core, modelled in Dafny

This project models the QuickTime/MP4 ("MOV") metadata component of the
Rust crate little_exif. It has two sides:

- The reader in `src/mov.rs` accepts a buffer when its `ftyp` atom carries a
  known brand. It then walks the top-level atoms, reading each header as a
  big-endian 32-bit size and a four-byte type. It returns the raw payload
  of the first `moov` atom.
- The metadata model in `src/video_metadata` is a list of atom containers
  holding typed tags. It covers lookup and creation of containers,
  `set_tag`, a stable priority sort, reduction to the essential tags, and an
  encoder. The encoder writes a fixed `ftyp` atom and then one flat
  `[size][type][body]` record per container. The model also includes the
  FourCC catalog that maps each tag to the code of its owning atom, and the
  tag iterator.

Every operation is a pure function over immutable datatypes.

- **Buffers** are `seq<uint8>`, and integer widths are subset types of `int`.
- **Truncating `as u32` cast** on record sizes: written out as `Trunc32`.
- **Signed matrix cells**: stored as two's-complement bit patterns.
- **I/O errors** of the reader: the `ReadError` datatype, with `Kind` mapping
  each error to its `std::io::ErrorKind`.
- **Iterator**: a step function that returns the next iterator along with
  the item.

Modules, one per file:

| module | file |
|---|---|
| `Wrappers` | `wrappers.dfy` |
| `Bytes` | `bytes.dfy` |
| `FourCC` | `fourcc_constants.dfy` |
| `Tags` | `video_tag.dfy` |
| `Metadata` | `video_metadata.dfy` |
| `Encoder` | `encoder.dfy` |
| `Mov` | `mov.dfy` |
| `RoundTrip` | `roundtrip.dfy` |
| `Iteration` | `iterator.dfy` |

`RoundTrip` relates the encoder to the reader.

Where the code and its own comments disagree, the model follows the code:

- `encode_mvhd_atom`'s comment lists 4-byte times. The code writes 8-byte
  creation and modification times and an 8-byte duration after a version
  byte of 0, giving a 112-byte body. The model writes exactly those bytes.
- The comment in `encode_basic_atom` says `moov` "contains other atoms". The
  encoder never nests anything: `mvhd`, `trak` and `meta` containers are
  written as top-level siblings of `moov`. `RoundTrip.MovieHeaderOnly` shows
  the consequence: the reader does not find a movie header written this way.

## Model

| member | source | states |
|---|---|---|
| Bytes.Trunc32 | src/video_metadata/mod.rs:85-86 | the `as u32` cast of a record size keeps every size below 2^32 unchanged |
| Bytes.BE32RoundTrip | src/mov.rs:31-34 | reading a big-endian u32 back from its four bytes gives the value written |
| Bytes.BE64RoundTrip | src/video_metadata/mod.rs:281-284 | the 64-bit big-endian times and duration read back to their values |
| Bytes.I32BitsRoundTrip | src/video_metadata/mod.rs:289-292 | a signed matrix cell survives conversion to its two's-complement bit pattern |
| Bytes.BE32Injective | src/video_metadata/mod.rs:86-87 | distinct codes give distinct four-byte type fields |
| Bytes.FromBE32Inverse | src/mov.rs:31-34 | every four-byte size field is the big-endian encoding of the value read from it |
| FourCC.Pack | src/video_metadata/fourcc_constants.rs:3-47 | the code built from four bytes has exactly those bytes as its big-endian encoding |
| FourCC.CodeOf | src/video_metadata/fourcc_constants.rs:3-18 | a code named by four ASCII letters encodes to exactly those letters |
| FourCC.CopyrightCodeOf | src/video_metadata/fourcc_constants.rs:21-29 | a copyright code encodes to 0xA9 followed by its three ASCII letters |
| FourCC.ContainerCodesSpellTheirNames | src/video_metadata/fourcc_constants.rs:3-13 | FTYP, MOOV, MVHD, TRAK, TKHD and MDAT are the packings of their four-letter names |
| FourCC.MediaCodesSpellTheirNames | src/video_metadata/fourcc_constants.rs:8-12 | MDIA, MDHD, MINF, STBL and STSD are the packings of their names |
| FourCC.MetadataCodesSpellTheirNames | src/video_metadata/fourcc_constants.rs:16-36 | META, ILST, UDTA and the iTunes technical codes are the packings of their names |
| FourCC.CodecCodesSpellTheirNames | src/video_metadata/fourcc_constants.rs:39-44 | the codec-configuration codes, `aART` and `covr` are the packings of their names |
| FourCC.CopyrightCodesSpellTheirNames | src/video_metadata/fourcc_constants.rs:21-29 | the nine text codes have high byte 0xA9 and ASCII low bytes spelling their names |
| FourCC.StructuralCodesDistinct | src/video_metadata/fourcc_constants.rs:3-16 | FTYP, MOOV, MVHD, TRAK and META are pairwise distinct, and MVHD differs from TKHD |
| FourCC.UnknownIsNotNamed | src/video_metadata/fourcc_constants.rs:47 | UNKNOWN is 0 and differs from every named code |
| Tags.AsU32 | src/video_metadata/video_tag.rs:70-129 | `as_u32`, the code of the atom that owns each tag; no contract of its own, its mapping is stated by OwnerCodes, StructuralOwners and ItunesOwners |
| Tags.OwnerCodes | src/video_metadata/video_tag.rs:70-129 | an unknown tag maps to the atom id it carries; every catalog tag maps to a named catalog code, never UNKNOWN |
| Tags.StructuralOwners | src/video_metadata/video_tag.rs:73-109 | duration, timescale and both times belong to `mvhd`; width, height and matrix to `tkhd`; codecs and bitrate to `stsd`; framerate to `mdhd`; pixel aspect to `pasp` |
| Tags.ItunesOwners | src/video_metadata/video_tag.rs:89-114 | each iTunes tag maps to its item code, album artist to `aART` and cover art to `covr` |
| Tags.IsEssentialTag | src/video_metadata/video_tag.rs:204-212 | `is_essential_tag`: duration, width, height and timescale; EssentialTagOwners states which containers own them |
| Tags.EssentialTagOwners | src/video_metadata/video_tag.rs:204-212 | essential tags are exactly duration, width, height and timescale; their owners are `mvhd` (duration, timescale) and `tkhd` (width, height) |
| Tags.ValueAsBytes | src/video_metadata/video_tag.rs:184-199 | codec configurations, cover art and unknown binary tags contribute their stored payload unchanged |
| Tags.BinaryValuesVerbatim | src/video_metadata/video_tag.rs:184-199 | codec configurations, cover art and unknown binary tags encode to their bytes unchanged |
| Tags.FourccAsString | src/video_metadata/video_tag.rs:132-142 | a code with high byte 0xA9 renders as the copyright sign then its other three bytes; any other code renders byte by byte |
| Tags.AsciiCodeRendersAsItself | src/video_metadata/video_tag.rs:139-141 | a tag whose code packs four ASCII letters renders as those letters |
| Tags.CopyrightCodeRendersWithSign | src/video_metadata/video_tag.rs:137-138 | a tag whose code is a copyright code renders as the sign followed by its three letters |
| Tags.RenderingExamples | src/video_metadata/video_tag.rs:132-142 | a title renders as "©nam" and a duration as "mvhd" |
| Metadata.NewMetadata | src/video_metadata/mod.rs:31-36 | a new model holds no containers |
| Metadata.CreateAtom | src/video_metadata/mod.rs:38-45 | appends an empty container of the type with size 0 and keeps every existing container in place |
| Metadata.FindAtom | src/video_metadata/mod.rs:130-132 | finds the position of the first container of the type, and finds none exactly when no container has it |
| Metadata.GetAtom | src/video_metadata/mod.rs:130-132 | returns a container of the model with that type, the first one, or none exactly when the type is absent |
| Metadata.GetAtomMut | src/video_metadata/mod.rs:134-144 | returns the first container of the type; the model is unchanged when one exists, otherwise one empty container is appended |
| Metadata.WithCodeMembers | src/video_metadata/mod.rs:161-162 | a tag survives the keep-this-code filter exactly when it was present and has that code |
| Metadata.WithoutCodeMembers | src/video_metadata/mod.rs:161-162 | a tag survives `retain` exactly when it was present and has a different code |
| Metadata.WithCodeOfAppend | src/video_metadata/mod.rs:161-162 | selecting the tags of a code distributes over concatenation, so order is kept |
| Metadata.WithoutCodeOfAppend | src/video_metadata/mod.rs:161-162 | `retain` distributes over concatenation, so the surviving tags keep their order |
| Metadata.FilterSplit | src/video_metadata/mod.rs:161-163 | after `retain` no tag of the code remains, and a second `retain` changes nothing |
| Metadata.SetTag | src/video_metadata/mod.rs:156-164 | `set_tag`; no contract of its own, its behaviour is stated by SetTagPosition, SetTagContents and SetTagFrame below |
| Metadata.SetTagPosition | src/video_metadata/mod.rs:156-158 | `set_tag` edits the container `get_atom_mut` returns for the tag's code |
| Metadata.SetTagContents | src/video_metadata/mod.rs:156-164 | afterwards the tags of that code in the owning container are exactly the new tag, at the end, and the container's other tags are the ones it had before, in order |
| Metadata.SetTagFrame | src/video_metadata/mod.rs:156-164 | every other container is unchanged, and the container count grows exactly when no container of the code existed |
| Metadata.SetTagTwice | src/video_metadata/mod.rs:156-164 | setting two tags of the same code in a row is the same as setting only the second |
| Metadata.SetTimescaleDropsDuration | src/video_metadata/mod.rs:156-164 | identity is the owning code: after setting a timescale, the movie header container holds no duration |
| Metadata.SetTagKeepsTypesUnique | src/video_metadata/mod.rs:134-164 | `get_atom_mut` and `set_tag` never create a second container of a type |
| Metadata.CreateAtomCanDuplicate | src/video_metadata/mod.rs:38-45 | `create_atom` appends even when the type is present, duplicating it |
| Metadata.SetTagKeepsTagsInOwners | src/video_metadata/mod.rs:156-164 | if every tag sits in the container its code names, that stays true after `set_tag` |
| Metadata.Priority | src/video_metadata/mod.rs:328-337 | ftyp, moov, mvhd, trak and meta get priorities 0 to 4 in that order; every other type gets 999 |
| Metadata.SortAtoms | src/video_metadata/mod.rs:96-103 | the stable insertion sort standing for `sort_by`: a permutation of its input; SortAtomsSpec adds sortedness and stability |
| Metadata.InsertPermutes | src/video_metadata/mod.rs:98-102 | one insertion step adds the element and loses nothing |
| Metadata.InsertSorted | src/video_metadata/mod.rs:98-102 | inserting into a priority-sorted sequence keeps it sorted |
| Metadata.InsertOfPriority | src/video_metadata/mod.rs:98-102 | inserting puts the element first among those of its priority, so the order of equal priorities is kept |
| Metadata.SortAtomsSpec | src/video_metadata/mod.rs:96-103 | the sort yields a priority-sorted sequence that keeps the order of each priority class |
| Metadata.SortData | src/video_metadata/mod.rs:96-103 | `sort_data` gives a sorted permutation of the containers that keeps the order among equal priorities |
| Metadata.StableSortIsUnique | src/video_metadata/mod.rs:96-103 | two sorted sequences with the same order within every priority class are equal, so any stable sort agrees |
| Metadata.SortDataIsTheStableSort | src/video_metadata/mod.rs:96-103 | any sorted order that keeps each priority class in order is exactly what `sort_data` produces |
| Metadata.IsEssentialAtom | src/video_metadata/mod.rs:340-348 | `is_essential_atom`: exactly the ftyp, moov, mvhd and trak containers |
| Metadata.EssentialTags | src/video_metadata/mod.rs:117-119 | a tag is kept exactly when it was present and is essential (membership; order is stated by the next two rows) |
| Metadata.EssentialTagsAppend | src/video_metadata/mod.rs:118 | `retain` on tags works tag by tag: the kept tags of a concatenation are those of each part, in order |
| Metadata.EssentialTagsKeepsEssential | src/video_metadata/mod.rs:118 | a list of essential tags is kept whole, in order and with repeats |
| Metadata.EssentialAtoms | src/video_metadata/mod.rs:115-119 | the two `retain` passes over the containers; never longer than its input, and EssentialAtomsSpec and EssentialAtomsAppend state membership and order |
| Metadata.EssentialAtomsSpec | src/video_metadata/mod.rs:113-120 | each kept container is an essential one with only its essential tags, and every essential container is kept (membership) |
| Metadata.EssentialAtomsAppend | src/video_metadata/mod.rs:115-119 | minimizing works container by container: the result for a concatenation is the results of its parts, in order |
| Metadata.ReduceToMinimum | src/video_metadata/mod.rs:113-120 | only ftyp/moov/mvhd/trak containers remain, each holding only essential tags, and every such container survives (membership) |
| Metadata.ReduceAppend | src/video_metadata/mod.rs:113-120 | reducing a model split in two gives the reductions of the two halves back to back, so surviving containers keep model order and multiplicity |
| Metadata.ReduceSingle | src/video_metadata/mod.rs:113-120 | a lone essential container is kept with only its essential tags; any other is dropped |
| Metadata.ReduceIdempotent | src/video_metadata/mod.rs:113-120 | reducing a reduced model changes nothing |
| Metadata.EssentialAtomsKeepOrder | src/video_metadata/mod.rs:115 | `retain` on a sorted list of containers leaves it sorted |
| Metadata.ReduceKeepsSorted | src/video_metadata/mod.rs:113-120 | reducing a sorted model keeps it sorted |
| Metadata.ReduceKeepsOnlyMovieHeaderTags | src/video_metadata/mod.rs:113-120 | when every tag sits in its owner container, a reduced model holds only durations and timescales, because width and height live in `tkhd`, which is not kept |
| Metadata.Decode | src/video_metadata/mod.rs:105-111 | the placeholder `decode`, which accepts any bytes and yields no containers; no contract of its own, its effect is stated by GeneralDecodingWrapper |
| Metadata.GeneralDecodingWrapper | src/video_metadata/mod.rs:47-72 | with the placeholder decoder, every input, including a read error, yields an empty model |
| Encoder.FtypAtom | src/video_metadata/mod.rs:169-184 | the synthesized atom is 24 bytes: size 24, `ftyp`, then `mp41`, version 0, `mp41`, `isom` |
| Encoder.TagBytes | src/video_metadata/mod.rs:209-211 | the tag payloads written back to back; no contract of its own, stated by TagBytesAppend and TagBytesOfBlobs |
| Encoder.TagBytesAppend | src/video_metadata/mod.rs:225-227 | the tag encodings of a list are those of its parts, back to back |
| Encoder.TagBytesOfBlobs | src/video_metadata/mod.rs:209-211 | a list of binary tags (codec configurations, cover art, unknown blobs, in any mix) encodes to their payloads concatenated in order |
| Encoder.SelectMvhdFields | src/video_metadata/mod.rs:244-278 | the tag loop of `encode_mvhd_atom` from the defaults; no contract of its own, the five Selection lemmas state what it picks |
| Encoder.CreationTimeSelection | src/video_metadata/mod.rs:253-257 | the last non-zero creation time wins; 0 when none |
| Encoder.ModificationTimeSelection | src/video_metadata/mod.rs:258-262 | the last non-zero modification time wins; 0 when none |
| Encoder.TimescaleSelection | src/video_metadata/mod.rs:263-267 | the first entry of the last non-empty timescale tag wins; 1000 when none |
| Encoder.DurationSelection | src/video_metadata/mod.rs:268-272 | the first entry of the last non-empty duration tag wins; 0 when none |
| Encoder.MatrixSelection | src/video_metadata/mod.rs:273-275 | the last transform matrix wins; the identity with 0x40000000 in the last cell when none |
| Encoder.CellsRoundTrip | src/video_metadata/mod.rs:289-292 | the nine signed cells read back from their 36 bytes |
| Encoder.EncodeMvhdBody | src/video_metadata/mod.rs:232-298 | the movie header body is always 112 bytes |
| Encoder.MvhdBytes | src/video_metadata/mod.rs:241-297 | the movie header bytes for given field values, always 112 long; MvhdBodyLayout and MvhdTailLayout give the offsets and MvhdBytesRoundTrip the inverse |
| Encoder.MvhdBodyLayout | src/video_metadata/mod.rs:241-284 | four zero bytes, then 64-bit creation, 64-bit modification, 32-bit timescale, 64-bit duration, then the fixed tail |
| Encoder.MvhdTailLayout | src/video_metadata/mod.rs:285-295 | rate 0x00010000, volume 0x0100, ten zero bytes, the matrix cells, 24 zero bytes, next track id 1 |
| Encoder.MvhdBytesRoundTrip | src/video_metadata/mod.rs:280-292 | parsing the 112 bytes at those offsets gives back the fields |
| Encoder.MvhdRoundTrip | src/video_metadata/mod.rs:232-298 | parsing the encoded movie header gives back the fields selected from the tags |
| Encoder.EncodeAtom | src/video_metadata/mod.rs:187-229 | `encode_atom`; no contract of its own, the dispatch on the atom type is stated by EncodeAtomLayout |
| Encoder.EncodeAtomLayout | src/video_metadata/mod.rs:187-229 | an `mvhd` body is the 112-byte header; a `meta` body is four zero bytes then the tags; every other body is the tags in list order |
| Encoder.Record | src/video_metadata/mod.rs:84-90 | each container's record is eight bytes longer than its body |
| Encoder.RecordLayout | src/video_metadata/mod.rs:84-90 | when the body fits, the record is big-endian size, big-endian type, then the body |
| Encoder.Records | src/video_metadata/mod.rs:80-91 | the loop writing one record per container; no contract of its own, stated by RecordsAppend and, with the reader, by RoundTrip.FirstRecordHeader |
| Encoder.RecordsAppend | src/video_metadata/mod.rs:80-91 | the records of two runs of containers are written back to back |
| Encoder.Encode | src/video_metadata/mod.rs:74-94 | the output always starts with the 24-byte `ftyp` atom |
| Mov.ConstantsSpellTheirNames | src/mov.rs:15 | the type and brand constants are the ASCII bytes of `ftyp`, `moov`, `qt  `, `mp41`, `mp42`, `isom`, `M4V `, `M4A ` |
| Mov.ReadAtom | src/mov.rs:28-50 | `Atom::read_from`; no contract of its own, its outcomes are stated by ReadAtomOutcomes and ReadAtomOfHeader |
| Mov.ReadAtomOutcomes | src/mov.rs:28-50 | a header cut short is end-of-file; a whole header with size below 8 is invalid; otherwise the atom has that size and type, payload offset start+8 and payload size size-8 |
| Mov.ReadAtomOfHeader | src/mov.rs:28-50 | a header written as big-endian size and type reads back as that size and type |
| Mov.CheckFileSignature | src/mov.rs:103-138 | accepts exactly when the buffer has 12 bytes, bytes 4..8 are `ftyp` and bytes 8..12 are one of the six brands |
| Mov.SignatureIgnoresSizeField | src/mov.rs:107-111 | the first four bytes never affect the verdict |
| Mov.SignatureReadsTwelveBytes | src/mov.rs:103-130 | nothing after byte 12 affects the verdict |
| Mov.ReadMetadata | src/mov.rs:53-100 | a failed signature check gives the not-a-MOV error; a payload is never longer than the input; an invalid atom is reported at a position where a whole header fits |
| Mov.Walk | src/mov.rs:66-99 | the atom loop of `read_metadata`, from a position; no contract of its own, stated by WalkBounds, WalkFindsMoov, WalkRejectsSmallSize and WalkAtStop |
| Mov.WalkBounds | src/mov.rs:66-99 | a returned payload is never longer than the buffer, and an invalid atom is reported at or after the starting position, where a whole header fits |
| Mov.WalkSkipsAhead | src/mov.rs:90-96 | skipping whole non-`moov` atoms does not change the walk's outcome |
| Mov.WalkAtStop | src/mov.rs:66-99 | where skipping stops: a whole `moov` gives its payload, a size below 8 gives an invalid atom at that position, a `moov` running past the end is a truncation error, and a partial header or an atom running past the end gives not-found |
| Mov.WalkFindsMoov | src/mov.rs:66-99 | the walk succeeds exactly when a whole `moov` atom is reached by skipping whole atoms, and then returns its payload |
| Mov.WalkRejectsSmallSize | src/mov.rs:66-82 | the walk reports an invalid atom at q exactly when q is reached and holds a whole header with size below 8 |
| Mov.WalkPastAtom | src/mov.rs:90-96 | a whole non-`moov` atom written with its true size is skipped, and the walk continues at its end |
| Mov.WalkIntoMoov | src/mov.rs:84-88 | a whole `moov` atom written with its true size ends the walk with its payload |
| Mov.SignatureExamples | src/mov.rs:103-138 | a `qt  ` brand is accepted and an unknown brand rejected |
| Mov.ExtractionExample | src/mov.rs:53-100 | a buffer with an `ftyp` atom followed by a 16-byte `moov` yields that `moov`'s 8-byte payload |
| RoundTrip.MoovTypeBytes | src/mov.rs:84 | a record's type bytes read as `moov` exactly when its code is MOOV |
| RoundTrip.FirstRecordHeader | src/video_metadata/mod.rs:84-90 | the reader sees the first record's true size, its type, its body and the following records where the encoder put them |
| RoundTrip.WalkFirstMoov | src/mov.rs:84-88 | a `moov` record first in a run ends the walk with its body |
| RoundTrip.WalkFirstOther | src/mov.rs:90-96 | any other record first in a run is skipped, and the walk goes on at the next record |
| RoundTrip.WalkRecords | src/mov.rs:66-99 | walking the encoder's records returns the first `moov` body, or not-found when there is none |
| RoundTrip.EncodedFtyp | src/video_metadata/mod.rs:169-184 | the synthesized `ftyp` passes the signature check and is skipped whole |
| RoundTrip.EncodeThenRead | src/video_metadata/mod.rs:74-94 | reading an encoded model returns the encoded body of its first `moov` container, or not-found when it has none |
| RoundTrip.SingleContainerLayout | src/video_metadata/mod.rs:74-94 | a single container is written right after `ftyp`, with its true size and type |
| RoundTrip.SingleContainerRead | src/mov.rs:53-100 | reading it back finds its body when it is `moov` and nothing otherwise |
| RoundTrip.MovieHeaderOnly | src/video_metadata/mod.rs:195-198 | a lone movie header container is written as a 120-byte top-level record whose body reads back as the selected fields, and the reader does not find it |
| Iteration.IntoIter | src/video_metadata/iterator.rs:8-13 | a fresh iterator starts at index 0 over the given model |
| Iteration.Scan | src/video_metadata/iterator.rs:25-33 | the `for` loop of `next` with the shared index; no contract of its own, stated through Next by NextOutcome |
| Iteration.Next | src/video_metadata/iterator.rs:24-34 | `next`, returning the advanced iterator with the item; no contract of its own, stated by NextOutcome, NextEnds and NextNeverFabricates |
| Iteration.NextOutcome | src/video_metadata/iterator.rs:24-34 | the first container serves the index if it can; otherwise the first later container holding a tag yields its first tag and the index becomes 1; otherwise nothing, with the index reset to 0, or unchanged when there are no containers |
| Iteration.NextEnds | src/video_metadata/iterator.rs:24-34 | a call yields nothing exactly when the model is empty, or the first container cannot serve the index and no later container holds a tag |
| Iteration.NextNeverFabricates | src/video_metadata/iterator.rs:25-28 | a yielded item is a tag of some container, at the index just before the new one |
| Iteration.NotFused | src/video_metadata/iterator.rs:29-33 | after a call on a non-empty model yields nothing, the iterator equals a fresh one |
| Iteration.SingleContainerInOrder | src/video_metadata/iterator.rs:24-34 | with one container of n tags, n calls yield its tags in order and call n+1 yields nothing |
| Iteration.TwoContainersNeverEnd | src/video_metadata/iterator.rs:24-34 | with containers of two and three tags, every call yields A0, A1 or B0, and the index never exceeds 2 |
| Iteration.TwoContainersTrace | src/video_metadata/iterator.rs:24-34 | the first five items are A0, A1, B0, A1, B0 |
| Iteration.FlatVisitsEveryTag | src/video_metadata/iterator.rs:21-35 | a two-cursor traversal yields every tag of every container once, in order, then nothing |
| Iteration.SharedIndexSkipsTags | src/video_metadata/iterator.rs:25-31 | on containers of two and three tags, the shared-index iterator and the two-cursor traversal differ at the fourth item |

## Left out

- File access, `Read`/`Seek` cursors and the file-based tests at the end of `src/mov.rs`. The reader works on an in-memory buffer, where a seek cannot fail.
- `println!`, `error!` and `warn!` diagnostics: side effects only.
- The byte conversions for non-binary tag values (`to_u8_vec` in `crate::u8conversion` and `crate::endian`). They are not part of this model, so they are taken as parameters (`ValueConversions`). The stored endian is always big-endian, so the endian field of the model is dropped.
- Floating-point payloads are kept as their bit patterns, with no numerics.
- `decode`, `get_tag` and `get_tag_by_id` are placeholders in the source. `decode` is modelled as "no containers". The two tag lookups always return an empty iterator and are not modelled.
- `get_endian`, `get_atoms`, `get_atom_type`, `get_size` and `get_tags` are plain field accessors.
- `MOV_SIGNATURES` is declared but never used.
- Features of the ISO base media file format that the code does not implement: 64-bit `largesize`, size 0 meaning "to end of file", a version-1 movie header, and nesting of `mvhd`, `trak` or `meta` inside `moov`.
- Tags.FourccAsString: a byte of 0x80 or above, other than a leading 0xA9, is rendered as one replacement character. Lossy UTF-8 decoding can instead join some byte runs into one character. The contracts speak only of ASCII bytes and the leading sign.
- Tags.ValueAsBytes: the contract speaks only of the binary kinds. Text, integer and float tags are handed to the conversion parameters, whose behaviour is not part of this model.
- Encoder.Encode: the encoder cannot fail, so it returns the bytes directly rather than a `Result`.
- Encoder.RecordLayout: the round trip needs every body to fit the 32-bit size field. Larger bodies get a truncated size, as the `as u32` cast gives (`Trunc32`), but nothing is proved about reading them back.
- Mov.ReadMetadata: the walk's termination is proved by its `decreases` clause (each step moves at least 8 bytes forward), not stated as a contract.

## Findings

| source | as written | input that shows it | evidently intended | confidence | as-written member | corrected member |
|---|---|---|---|---|---|---|
| src/video_metadata/iterator.rs:24-34 | one tag index is shared by all containers and reset to 0 on every container that cannot serve it, so the first container is always re-examined | containers A with two tags and B with three tags: the items are A0, A1, B0, A1, B0, … forever, and B1 and B2 are never yielded | a traversal that yields every tag of every container once, in order, then ends | medium, not executed | Iteration.TwoContainersNeverEnd | Iteration.FlatVisitsEveryTag |
