/** The in-memory metadata model of src/video_metadata/mod.rs: an ordered list
    of atom containers, each holding the tags its atom type owns. */
module Metadata {
  import opened Bytes
  import opened Wrappers
  import opened FourCC
  import opened Tags

  /** `VideoAtomContainer`; `size` is bookkeeping only and is recomputed on encode. */
  datatype AtomContainer = AtomContainer(atomType: uint32, size: uint64, tags: seq<VideoTag>)

  /** `VideoMetadata`. Its byte order is always big-endian and is not stored. */
  datatype VideoMetadata = VideoMetadata(atoms: seq<AtomContainer>)

  /** `new`: a model with no containers. */
  function NewMetadata(): (m: VideoMetadata)
    ensures |m.atoms| == 0
  {
    VideoMetadata([])
  }

  /** `create_atom`: appends an empty container, even when one of that type exists. */
  function CreateAtom(m: VideoMetadata, atomType: uint32): (r: VideoMetadata)
    ensures |r.atoms| == |m.atoms| + 1
    ensures r.atoms[..|m.atoms|] == m.atoms
    ensures r.atoms[|m.atoms|] == AtomContainer(atomType, 0, [])
  {
    VideoMetadata(m.atoms + [AtomContainer(atomType, 0, [])])
  }

  /** Position of the first container of the given type, as `iter().find` sees it. */
  function FindAtom(atoms: seq<AtomContainer>, atomType: uint32): (r: Option<nat>)
    ensures r.None? <==> forall i | 0 <= i < |atoms| :: atoms[i].atomType != atomType
    ensures r.Some? ==> r.value < |atoms| && atoms[r.value].atomType == atomType
    ensures r.Some? ==> forall i | 0 <= i < r.value :: atoms[i].atomType != atomType
  {
    if |atoms| == 0 then None
    else if atoms[0].atomType == atomType then Some(0)
    else match FindAtom(atoms[1..], atomType)
      case None => None
      case Some(i) => Some(i + 1)
  }

  /** `get_atom`: the first container of the given type, if any. */
  function GetAtom(m: VideoMetadata, atomType: uint32): (r: Option<AtomContainer>)
    ensures r.None? <==> forall c | c in m.atoms :: c.atomType != atomType
    ensures r.Some? ==> r.value in m.atoms && r.value.atomType == atomType
    ensures r.Some? ==> exists i | 0 <= i < |m.atoms| :: m.atoms[i] == r.value
                          && forall j | 0 <= j < i :: m.atoms[j].atomType != atomType
  {
    match FindAtom(m.atoms, atomType)
    case None => None
    case Some(i) => Some(m.atoms[i])
  }

  /** `get_atom_mut`: the mutable reference is modelled as the position of the
      container in the returned model, which gains an empty container of that
      type only when it had none. */
  function GetAtomMut(m: VideoMetadata, atomType: uint32): (r: (VideoMetadata, nat))
    ensures r.1 < |r.0.atoms| && r.0.atoms[r.1].atomType == atomType
    ensures forall j | 0 <= j < r.1 :: r.0.atoms[j].atomType != atomType
    ensures GetAtom(m, atomType).Some? ==> r.0 == m
    ensures GetAtom(m, atomType).None? ==> r.0 == CreateAtom(m, atomType) && r.1 == |m.atoms|
  {
    var m' := if GetAtom(m, atomType).None? then CreateAtom(m, atomType) else m;
    var i := FindAtom(m'.atoms, atomType);
    assert m'.atoms[|m'.atoms| - 1].atomType == atomType || GetAtom(m, atomType).Some?;
    (m', i.value)
  }

  /** The tags of `tags` whose owning code differs from `code`, in order. */
  function WithoutCode(tags: seq<VideoTag>, code: uint32): (r: seq<VideoTag>)
    ensures |r| <= |tags|
  {
    if |tags| == 0 then []
    else (if AsU32(tags[0]) != code then [tags[0]] else []) + WithoutCode(tags[1..], code)
  }

  /** The tags of `tags` whose owning code is `code`, in order. */
  function WithCode(tags: seq<VideoTag>, code: uint32): (r: seq<VideoTag>)
    ensures |r| <= |tags|
  {
    if |tags| == 0 then []
    else (if AsU32(tags[0]) == code then [tags[0]] else []) + WithCode(tags[1..], code)
  }

  /** `set_tag`: the tag's owning code is its identity; the container of that
      type (created if missing) loses every tag of that code and gains `tag` last. */
  function SetTag(m: VideoMetadata, tag: VideoTag): (r: VideoMetadata)
  {
    var code := AsU32(tag);
    var (m', i) := GetAtomMut(m, code);
    var c := m'.atoms[i];
    VideoMetadata(m'.atoms[i := c.(tags := WithoutCode(c.tags, code) + [tag])])
  }

  lemma WithCodeCons(t: VideoTag, s: seq<VideoTag>, code: uint32)
    ensures WithCode([t] + s, code) == (if AsU32(t) == code then [t] else []) + WithCode(s, code)
  {
    assert ([t] + s)[0] == t && ([t] + s)[1..] == s;
  }

  lemma WithoutCodeCons(t: VideoTag, s: seq<VideoTag>, code: uint32)
    ensures WithoutCode([t] + s, code) == (if AsU32(t) != code then [t] else []) + WithoutCode(s, code)
  {
    assert ([t] + s)[0] == t && ([t] + s)[1..] == s;
  }

  lemma {:induction false} WithCodeOfAppend(a: seq<VideoTag>, b: seq<VideoTag>, code: uint32)
    ensures WithCode(a + b, code) == WithCode(a, code) + WithCode(b, code)
    decreases |a|
  {
    if |a| == 0 {
      assert a + b == b;
    } else {
      var t, rest := a[0], a[1..];
      assert a == [t] + rest && a + b == [t] + (rest + b);
      WithCodeCons(t, rest + b, code);
      WithCodeCons(t, rest, code);
      WithCodeOfAppend(rest, b, code);
    }
  }

  lemma {:induction false} WithoutCodeOfAppend(a: seq<VideoTag>, b: seq<VideoTag>, code: uint32)
    ensures WithoutCode(a + b, code) == WithoutCode(a, code) + WithoutCode(b, code)
    decreases |a|
  {
    if |a| == 0 {
      assert a + b == b;
    } else {
      var t, rest := a[0], a[1..];
      assert a == [t] + rest && a + b == [t] + (rest + b);
      WithoutCodeCons(t, rest + b, code);
      WithoutCodeCons(t, rest, code);
      WithoutCodeOfAppend(rest, b, code);
    }
  }

  lemma {:induction false} FilterSplit(tags: seq<VideoTag>, code: uint32)
    ensures WithCode(WithoutCode(tags, code), code) == []
    ensures WithoutCode(WithoutCode(tags, code), code) == WithoutCode(tags, code)
    decreases |tags|
  {
    if |tags| > 0 {
      FilterSplit(tags[1..], code);
      var head := if AsU32(tags[0]) != code then [tags[0]] else [];
      WithCodeOfAppend(head, WithoutCode(tags[1..], code), code);
      WithoutCodeOfAppend(head, WithoutCode(tags[1..], code), code);
    }
  }

  /** The tags of the container of type `code` before `set_tag` runs. */
  function TagsBefore(m: VideoMetadata, code: uint32): seq<VideoTag>
  {
    match GetAtom(m, code)
    case Some(c) => c.tags
    case None => []
  }

  lemma FindAtomAt(atoms: seq<AtomContainer>, code: uint32, i: nat)
    requires i < |atoms| && atoms[i].atomType == code
    requires forall j | 0 <= j < i :: atoms[j].atomType != code
    ensures FindAtom(atoms, code) == Some(i)
  {
  }

  /** Where `set_tag` puts the tag: the first container of the tag's code. */
  lemma SetTagPosition(m: VideoMetadata, tag: VideoTag)
    ensures FindAtom(SetTag(m, tag).atoms, AsU32(tag)) == Some(GetAtomMut(m, AsU32(tag)).1)
    ensures |SetTag(m, tag).atoms| == |GetAtomMut(m, AsU32(tag)).0.atoms|
  {
    var code := AsU32(tag);
    var (m', i) := GetAtomMut(m, code);
    var r := SetTag(m, tag);
    assert forall j | 0 <= j < |r.atoms| :: r.atoms[j].atomType == m'.atoms[j].atomType;
    FindAtomAt(r.atoms, code, i);
  }

  /** `set_tag` leaves exactly `[tag]` under the tag's code in the container of
      that type, last in its list, and keeps that container's other tags in order. */
  lemma SetTagContents(m: VideoMetadata, tag: VideoTag)
    ensures FindAtom(SetTag(m, tag).atoms, AsU32(tag)).Some?
    ensures var r := SetTag(m, tag);
            var i := FindAtom(r.atoms, AsU32(tag)).value;
            && WithCode(r.atoms[i].tags, AsU32(tag)) == [tag]
            && r.atoms[i].tags[|r.atoms[i].tags| - 1] == tag
            && WithoutCode(r.atoms[i].tags, AsU32(tag)) == WithoutCode(TagsBefore(m, AsU32(tag)), AsU32(tag))
  {
    var code := AsU32(tag);
    var (m', i) := GetAtomMut(m, code);
    SetTagPosition(m, tag);
    var c := m'.atoms[i];
    var kept := WithoutCode(c.tags, code);
    var tags' := SetTag(m, tag).atoms[i].tags;
    assert tags' == kept + [tag];
    FilterSplit(c.tags, code);
    WithCodeOfAppend(kept, [tag], code);
    WithoutCodeOfAppend(kept, [tag], code);
    assert WithCode([tag], code) == [tag];
    assert WithoutCode([tag], code) == [];
    assert c.tags == TagsBefore(m, code);
  }

  /** `set_tag` adds a container only when none of the tag's type existed and
      changes no container other than that one. */
  lemma SetTagFrame(m: VideoMetadata, tag: VideoTag)
    ensures FindAtom(SetTag(m, tag).atoms, AsU32(tag)).Some?
    ensures var r := SetTag(m, tag);
            var i := FindAtom(r.atoms, AsU32(tag)).value;
            forall j | 0 <= j < |m.atoms| && j != i :: r.atoms[j] == m.atoms[j]
    ensures |SetTag(m, tag).atoms| == |m.atoms| <==> GetAtom(m, AsU32(tag)).Some?
  {
    SetTagPosition(m, tag);
    var code := AsU32(tag);
    var (m', i) := GetAtomMut(m, code);
    var r := SetTag(m, tag);
    assert r.atoms == m'.atoms[i := m'.atoms[i].(tags := WithoutCode(m'.atoms[i].tags, code) + [tag])];
    forall j | 0 <= j < |m.atoms| && j != i
      ensures r.atoms[j] == m.atoms[j]
    {
      assert m'.atoms[j] == m.atoms[j];
    }
  }

  /** Setting two tags of the same identity in a row is the same as setting
      only the second: exactly one tag of that identity remains, the latest. */
  lemma SetTagTwice(m: VideoMetadata, t1: VideoTag, t2: VideoTag)
    requires AsU32(t1) == AsU32(t2)
    ensures SetTag(SetTag(m, t1), t2) == SetTag(m, t2)
  {
    var code := AsU32(t1);
    var (m1, i) := GetAtomMut(m, code);
    var c := m1.atoms[i];
    var kept := WithoutCode(c.tags, code);
    var r1 := SetTag(m, t1);
    assert r1.atoms == m1.atoms[i := c.(tags := kept + [t1])];
    SetTagPosition(m, t1);
    assert GetAtom(r1, code).Some?;
    assert GetAtomMut(r1, code) == (r1, i);
    WithoutCodeOfAppend(kept, [t1], code);
    FilterSplit(c.tags, code);
    assert WithoutCode([t1], code) == [];
    assert WithoutCode(kept + [t1], code) == kept;
    var c1 := r1.atoms[i];
    assert c1 == c.(tags := kept + [t1]);
    assert SetTag(r1, t2).atoms == r1.atoms[i := c1.(tags := kept + [t2])];
    assert SetTag(m, t2).atoms == m1.atoms[i := c.(tags := kept + [t2])];
  }

  /** Identity is the owning code, not the kind: setting a timescale drops an
      existing duration from the movie header container. */
  lemma SetTimescaleDropsDuration(m: VideoMetadata, s: seq<uint32>)
    ensures var r := SetTag(m, Timescale(s));
      && FindAtom(r.atoms, MVHD).Some?
      && forall t | t in r.atoms[FindAtom(r.atoms, MVHD).value].tags :: !t.Duration?
  {
    SetTagContents(m, Timescale(s));
    var r := SetTag(m, Timescale(s));
    var i := FindAtom(r.atoms, MVHD).value;
    forall t | t in r.atoms[i].tags
      ensures !t.Duration?
    {
      if t.Duration? {
        WithCodeMembers(r.atoms[i].tags, MVHD, t);
      }
    }
  }

  /** The filters keep exactly the tags of the given code, or exactly the others. */
  lemma {:induction false} WithCodeMembers(tags: seq<VideoTag>, code: uint32, t: VideoTag)
    ensures t in WithCode(tags, code) <==> t in tags && AsU32(t) == code
    decreases |tags|
  {
    if |tags| > 0 {
      WithCodeMembers(tags[1..], code, t);
      assert tags == [tags[0]] + tags[1..];
    }
  }

  lemma {:induction false} WithoutCodeMembers(tags: seq<VideoTag>, code: uint32, t: VideoTag)
    ensures t in WithoutCode(tags, code) <==> t in tags && AsU32(t) != code
    decreases |tags|
  {
    if |tags| > 0 {
      WithoutCodeMembers(tags[1..], code, t);
      assert tags == [tags[0]] + tags[1..];
    }
  }

  /** No two containers share a type. `get_atom_mut` creates a container only
      when none of its type exists, so `set_tag` keeps this; `create_atom`
      does not check, and can break it. */
  predicate UniqueTypes(m: VideoMetadata)
  {
    forall i, j | 0 <= i < j < |m.atoms| :: m.atoms[i].atomType != m.atoms[j].atomType
  }

  /** `get_atom_mut` and `set_tag` keep container types unique. */
  lemma SetTagKeepsTypesUnique(m: VideoMetadata, tag: VideoTag)
    requires UniqueTypes(m)
    ensures UniqueTypes(GetAtomMut(m, AsU32(tag)).0)
    ensures UniqueTypes(SetTag(m, tag))
  {
    var code := AsU32(tag);
    var (m', i) := GetAtomMut(m, code);
    assert UniqueTypes(m');
    var r := SetTag(m, tag);
    assert forall k | 0 <= k < |r.atoms| :: r.atoms[k].atomType == m'.atoms[k].atomType;
  }

  /** `create_atom` alone does not keep that invariant: it duplicates a type
      that is already present. */
  lemma CreateAtomCanDuplicate(m: VideoMetadata, atomType: uint32)
    requires GetAtom(m, atomType).Some?
    ensures !UniqueTypes(CreateAtom(m, atomType))
  {
    var i := FindAtom(m.atoms, atomType).value;
    var r := CreateAtom(m, atomType);
    assert r.atoms[i].atomType == r.atoms[|m.atoms|].atomType;
  }

  /** Every tag sits in the container its code names, as `set_tag` places it. */
  predicate TagsInOwners(m: VideoMetadata)
  {
    forall c, t | c in m.atoms && t in c.tags :: AsU32(t) == c.atomType
  }

  lemma SetTagKeepsTagsInOwners(m: VideoMetadata, tag: VideoTag)
    requires TagsInOwners(m)
    ensures TagsInOwners(SetTag(m, tag))
  {
    var code := AsU32(tag);
    var (m', i) := GetAtomMut(m, code);
    var c := m'.atoms[i];
    var r := SetTag(m, tag);
    forall d, t | d in r.atoms && t in d.tags
      ensures AsU32(t) == d.atomType
    {
      var k :| 0 <= k < |r.atoms| && r.atoms[k] == d;
      if k != i {
        assert d == m'.atoms[k];
      } else if t != tag {
        WithoutCodeMembers(c.tags, code, t);
      }
    }
  }

  // ---------------------------------------------------------------- ordering

  /** `get_atom_priority`. */
  function Priority(c: AtomContainer): (p: nat)
    ensures p == 999 <==> c.atomType !in {FTYP, MOOV, MVHD, TRAK, META}
    ensures p < 5 <==> c.atomType in {FTYP, MOOV, MVHD, TRAK, META}
    ensures p < 5 ==> [FTYP, MOOV, MVHD, TRAK, META][p] == c.atomType
  {
    if c.atomType == FTYP then 0
    else if c.atomType == MOOV then 1
    else if c.atomType == MVHD then 2
    else if c.atomType == TRAK then 3
    else if c.atomType == META then 4
    else 999
  }

  predicate SortedByPriority(s: seq<AtomContainer>)
  {
    forall i, j | 0 <= i < j < |s| :: Priority(s[i]) <= Priority(s[j])
  }

  /** The containers of `s` with priority `p`, in order. */
  function OfPriority(s: seq<AtomContainer>, p: nat): (r: seq<AtomContainer>)
    ensures |r| <= |s|
  {
    if |s| == 0 then []
    else (if Priority(s[0]) == p then [s[0]] else []) + OfPriority(s[1..], p)
  }

  lemma OfPriorityCons(c: AtomContainer, s: seq<AtomContainer>, p: nat)
    ensures OfPriority([c] + s, p) == (if Priority(c) == p then [c] else []) + OfPriority(s, p)
  {
    assert ([c] + s)[0] == c && ([c] + s)[1..] == s;
  }

  /** One insertion step of a stable sort: `c` came before every element of
      `s`, so it goes in front of the first one whose priority is not lower. */
  function Insert(c: AtomContainer, s: seq<AtomContainer>): (r: seq<AtomContainer>)
    ensures |r| == |s| + 1
  {
    if |s| == 0 || Priority(c) <= Priority(s[0]) then [c] + s
    else [s[0]] + Insert(c, s[1..])
  }

  /** Inserting adds `c` and loses nothing. */
  lemma {:induction false} InsertPermutes(c: AtomContainer, s: seq<AtomContainer>)
    ensures multiset(Insert(c, s)) == multiset{c} + multiset(s)
    decreases |s|
  {
    if |s| > 0 && Priority(c) > Priority(s[0]) {
      InsertPermutes(c, s[1..]);
      assert s == [s[0]] + s[1..];
    }
  }

  /** The stable priority sort `sort_by` performs, written as an insertion sort;
      `StableSortIsUnique` shows that every stable sort gives the same result. */
  function SortAtoms(s: seq<AtomContainer>): (r: seq<AtomContainer>)
    ensures multiset(r) == multiset(s)
    ensures |r| == |s|
  {
    if |s| == 0 then []
    else
      assert s == [s[0]] + s[1..];
      InsertPermutes(s[0], SortAtoms(s[1..]));
      Insert(s[0], SortAtoms(s[1..]))
  }

  /** `sort_data`. */
  function SortData(m: VideoMetadata): (r: VideoMetadata)
    ensures SortedByPriority(r.atoms)
    ensures multiset(r.atoms) == multiset(m.atoms)
    ensures forall p: nat :: OfPriority(r.atoms, p) == OfPriority(m.atoms, p)
  {
    SortAtomsSpec(m.atoms);
    VideoMetadata(SortAtoms(m.atoms))
  }

  /** A container no later in priority than any element of a sorted sequence
      can go in front of it. */
  lemma ConsSorted(x: AtomContainer, t: seq<AtomContainer>)
    requires SortedByPriority(t)
    requires forall y | y in t :: Priority(x) <= Priority(y)
    ensures SortedByPriority([x] + t)
  {
    var r := [x] + t;
    forall i, j | 0 <= i < j < |r|
      ensures Priority(r[i]) <= Priority(r[j])
    {
      assert r[j] == t[j - 1];
      if i > 0 {
        assert r[i] == t[i - 1];
      }
    }
  }

  lemma {:induction false} InsertSorted(c: AtomContainer, s: seq<AtomContainer>)
    requires SortedByPriority(s)
    ensures SortedByPriority(Insert(c, s))
    decreases |s|
  {
    if |s| == 0 || Priority(c) <= Priority(s[0]) {
      forall y | y in s ensures Priority(c) <= Priority(y) {
        var k :| 0 <= k < |s| && s[k] == y;
      }
      ConsSorted(c, s);
    } else {
      assert SortedByPriority(s[1..]);
      InsertSorted(c, s[1..]);
      var t := Insert(c, s[1..]);
      InsertPermutes(c, s[1..]);
      forall y | y in t ensures Priority(s[0]) <= Priority(y) {
        assert y in multiset(t);
        if y != c {
          var k :| 0 <= k < |s[1..]| && s[1..][k] == y;
          assert s[k + 1] == y;
        }
      }
      ConsSorted(s[0], t);
    }
  }

  lemma {:induction false} InsertOfPriority(c: AtomContainer, s: seq<AtomContainer>, p: nat)
    ensures OfPriority(Insert(c, s), p) == (if Priority(c) == p then [c] else []) + OfPriority(s, p)
    decreases |s|
  {
    if |s| == 0 || Priority(c) <= Priority(s[0]) {
      OfPriorityCons(c, s, p);
    } else {
      InsertOfPriority(c, s[1..], p);
      OfPriorityCons(s[0], Insert(c, s[1..]), p);
      OfPriorityCons(s[0], s[1..], p);
      assert [s[0]] + s[1..] == s;
    }
  }

  lemma {:induction false} SortAtomsSpec(s: seq<AtomContainer>)
    ensures SortedByPriority(SortAtoms(s))
    ensures forall p: nat :: OfPriority(SortAtoms(s), p) == OfPriority(s, p)
    decreases |s|
  {
    if |s| > 0 {
      SortAtomsSpec(s[1..]);
      InsertSorted(s[0], SortAtoms(s[1..]));
      forall p: nat ensures OfPriority(SortAtoms(s), p) == OfPriority(s, p) {
        InsertOfPriority(s[0], SortAtoms(s[1..]), p);
      }
    }
  }

  lemma {:induction false} OfPriorityContains(s: seq<AtomContainer>, i: nat)
    requires i < |s|
    ensures s[i] in OfPriority(s, Priority(s[i]))
    decreases |s|
  {
    if i > 0 {
      OfPriorityContains(s[1..], i - 1);
    }
  }

  lemma {:induction false} OfPriorityMembers(s: seq<AtomContainer>, p: nat, c: AtomContainer)
    requires c in OfPriority(s, p)
    ensures c in s && Priority(c) == p
    decreases |s|
  {
    if |s| > 0 && !(Priority(s[0]) == p && c == s[0]) {
      OfPriorityMembers(s[1..], p, c);
    }
  }

  lemma SortedHeadIsLeast(a: seq<AtomContainer>, c: AtomContainer)
    requires SortedByPriority(a) && c in a
    ensures Priority(a[0]) <= Priority(c)
  {
    var k :| 0 <= k < |a| && a[k] == c;
  }

  /** Two sorted sequences that agree on the subsequences of their head
      priorities start alike. */
  lemma SameHead(a: seq<AtomContainer>, b: seq<AtomContainer>)
    requires |a| > 0 && |b| > 0
    requires SortedByPriority(a) && SortedByPriority(b)
    requires OfPriority(a, Priority(a[0])) == OfPriority(b, Priority(a[0]))
    requires OfPriority(a, Priority(b[0])) == OfPriority(b, Priority(b[0]))
    ensures a[0] == b[0]
  {
    var pa, pb := Priority(a[0]), Priority(b[0]);
    OfPriorityContains(b, 0);
    OfPriorityMembers(a, pb, b[0]);
    SortedHeadIsLeast(a, b[0]);
    OfPriorityContains(a, 0);
    OfPriorityMembers(b, pa, a[0]);
    SortedHeadIsLeast(b, a[0]);
    assert OfPriority(a, pa)[0] == a[0];
    assert OfPriority(b, pa)[0] == b[0];
  }

  lemma SameTailFilters(a: seq<AtomContainer>, b: seq<AtomContainer>, p: nat)
    requires |a| > 0 && |b| > 0 && a[0] == b[0]
    requires OfPriority(a, p) == OfPriority(b, p)
    ensures OfPriority(a[1..], p) == OfPriority(b[1..], p)
  {
    var x, y := OfPriority(a[1..], p), OfPriority(b[1..], p);
    if Priority(a[0]) == p {
      assert OfPriority(a, p) == [a[0]] + x && ([a[0]] + x)[1..] == x;
      assert OfPriority(b, p) == [b[0]] + y && ([b[0]] + y)[1..] == y;
    } else {
      assert OfPriority(a, p) == x;
      assert OfPriority(b, p) == y;
    }
  }

  /** A sequence sorted by priority is determined by its per-priority
      subsequences: any stable sort of the same input yields the same sequence. */
  lemma {:induction false} StableSortIsUnique(a: seq<AtomContainer>, b: seq<AtomContainer>)
    requires SortedByPriority(a) && SortedByPriority(b)
    requires forall p: nat :: OfPriority(a, p) == OfPriority(b, p)
    ensures a == b
    decreases |a|
  {
    if |a| == 0 {
      if |b| > 0 {
        OfPriorityContains(b, 0);
      }
    } else if |b| == 0 {
      OfPriorityContains(a, 0);
    } else {
      SameHead(a, b);
      forall p: nat ensures OfPriority(a[1..], p) == OfPriority(b[1..], p) {
        SameTailFilters(a, b, p);
      }
      StableSortIsUnique(a[1..], b[1..]);
      assert a == [a[0]] + a[1..] && b == [b[0]] + b[1..];
    }
  }

  /** Hence `sort_data` is exactly the stable priority sort: every sorted
      rearrangement that keeps the order within each priority equals it. */
  lemma SortDataIsTheStableSort(m: VideoMetadata, s: seq<AtomContainer>)
    requires SortedByPriority(s)
    requires forall p: nat :: OfPriority(s, p) == OfPriority(m.atoms, p)
    ensures SortData(m).atoms == s
  {
    StableSortIsUnique(SortData(m).atoms, s);
  }

  // --------------------------------------------------------------- minimizing

  /** `is_essential_atom`. */
  predicate IsEssentialAtom(c: AtomContainer)
  {
    c.atomType == FTYP || c.atomType == MOOV || c.atomType == MVHD || c.atomType == TRAK
  }

  function EssentialTags(tags: seq<VideoTag>): (r: seq<VideoTag>)
    ensures forall t | t in r :: t in tags && IsEssentialTag(t)
    ensures forall t | t in tags && IsEssentialTag(t) :: t in r
    ensures |r| <= |tags|
  {
    if |tags| == 0 then []
    else (if IsEssentialTag(tags[0]) then [tags[0]] else []) + EssentialTags(tags[1..])
  }

  /** What minimizing makes of one essential container. */
  function Minimized(c: AtomContainer): AtomContainer
  {
    c.(tags := EssentialTags(c.tags))
  }

  function EssentialAtoms(atoms: seq<AtomContainer>): (r: seq<AtomContainer>)
    ensures |r| <= |atoms|
  {
    if |atoms| == 0 then []
    else
      var c := atoms[0];
      (if IsEssentialAtom(c) then [Minimized(c)] else []) + EssentialAtoms(atoms[1..])
  }

  lemma {:induction false} EssentialAtomsSpec(atoms: seq<AtomContainer>)
    ensures forall d | d in EssentialAtoms(atoms) ::
              IsEssentialAtom(d) && forall t | t in d.tags :: IsEssentialTag(t)
    ensures forall d | d in EssentialAtoms(atoms) ::
              exists c | c in atoms :: IsEssentialAtom(c) && d == Minimized(c)
    ensures forall c | c in atoms && IsEssentialAtom(c) :: Minimized(c) in EssentialAtoms(atoms)
    decreases |atoms|
  {
    if |atoms| > 0 {
      EssentialAtomsSpec(atoms[1..]);
      var c := atoms[0];
      var rest := EssentialAtoms(atoms[1..]);
      assert EssentialAtoms(atoms) == (if IsEssentialAtom(c) then [Minimized(c)] else []) + rest;
      forall d | d in rest
        ensures exists e | e in atoms :: IsEssentialAtom(e) && d == Minimized(e)
      {
        var e :| e in atoms[1..] && IsEssentialAtom(e) && d == Minimized(e);
        assert e in atoms;
      }
      forall e | e in atoms && IsEssentialAtom(e)
        ensures Minimized(e) in EssentialAtoms(atoms)
      {
        if e != c {
          assert e in atoms[1..];
        }
      }
    }
  }

  /** `reduce_to_minimum`: keep the essential containers, in order, and within
      them only the essential tags, in order. */
  function ReduceToMinimum(m: VideoMetadata): (r: VideoMetadata)
    ensures forall d | d in r.atoms :: IsEssentialAtom(d) && forall t | t in d.tags :: IsEssentialTag(t)
    ensures forall d | d in r.atoms :: exists c | c in m.atoms :: IsEssentialAtom(c) && d == Minimized(c)
    ensures forall c | c in m.atoms && IsEssentialAtom(c) :: Minimized(c) in r.atoms
  {
    EssentialAtomsSpec(m.atoms);
    VideoMetadata(EssentialAtoms(m.atoms))
  }

  /** Minimizing a tag list works tag by tag: the kept tags of a
      concatenation are the kept tags of each part, in order. */
  lemma {:induction false} EssentialTagsAppend(a: seq<VideoTag>, b: seq<VideoTag>)
    ensures EssentialTags(a + b) == EssentialTags(a) + EssentialTags(b)
    decreases |a|
  {
    if |a| == 0 {
      assert a + b == b;
    } else {
      assert (a + b)[1..] == a[1..] + b;
      EssentialTagsAppend(a[1..], b);
    }
  }

  /** A list of essential tags is kept whole, in order and with repeats. */
  lemma {:induction false} EssentialTagsKeepsEssential(tags: seq<VideoTag>)
    requires forall i | 0 <= i < |tags| :: IsEssentialTag(tags[i])
    ensures EssentialTags(tags) == tags
    decreases |tags|
  {
    if |tags| > 0 {
      EssentialTagsKeepsEssential(tags[1..]);
      assert tags == [tags[0]] + tags[1..];
    }
  }

  /** Minimizing a container list works container by container: the result of
      a concatenation is the results of its parts, in order. */
  lemma {:induction false} EssentialAtomsAppend(a: seq<AtomContainer>, b: seq<AtomContainer>)
    ensures EssentialAtoms(a + b) == EssentialAtoms(a) + EssentialAtoms(b)
    decreases |a|
  {
    if |a| == 0 {
      assert a + b == b;
    } else {
      assert (a + b)[1..] == a[1..] + b;
      EssentialAtomsAppend(a[1..], b);
    }
  }

  /** So `reduce_to_minimum` keeps the surviving containers in model order:
      reducing a model split in two is reducing each half. */
  lemma ReduceAppend(a: seq<AtomContainer>, b: seq<AtomContainer>)
    ensures ReduceToMinimum(VideoMetadata(a + b)).atoms
            == ReduceToMinimum(VideoMetadata(a)).atoms + ReduceToMinimum(VideoMetadata(b)).atoms
  {
    EssentialAtomsAppend(a, b);
  }

  /** One container on its own: an essential one is kept with its essential
      tags, any other is dropped. */
  lemma ReduceSingle(c: AtomContainer)
    ensures IsEssentialAtom(c) ==> ReduceToMinimum(VideoMetadata([c])).atoms == [c.(tags := EssentialTags(c.tags))]
    ensures !IsEssentialAtom(c) ==> ReduceToMinimum(VideoMetadata([c])).atoms == []
  {
    assert [c][1..] == [];
  }

  lemma {:induction false} EssentialTagsIdempotent(tags: seq<VideoTag>)
    ensures EssentialTags(EssentialTags(tags)) == EssentialTags(tags)
    decreases |tags|
  {
    if |tags| > 0 {
      EssentialTagsIdempotent(tags[1..]);
      var head := if IsEssentialTag(tags[0]) then [tags[0]] else [];
      var rest := EssentialTags(tags[1..]);
      assert EssentialTags(tags) == head + rest;
      if |head| == 1 {
        assert (head + rest)[1..] == rest;
      } else {
        assert head + rest == rest;
      }
    }
  }

  lemma {:induction false} EssentialAtomsIdempotent(atoms: seq<AtomContainer>)
    ensures EssentialAtoms(EssentialAtoms(atoms)) == EssentialAtoms(atoms)
    decreases |atoms|
  {
    if |atoms| > 0 {
      EssentialAtomsIdempotent(atoms[1..]);
      var c := atoms[0];
      var rest := EssentialAtoms(atoms[1..]);
      if IsEssentialAtom(c) {
        var d := Minimized(c);
        EssentialTagsIdempotent(c.tags);
        assert ([d] + rest)[1..] == rest;
        assert IsEssentialAtom(d) && Minimized(d) == d;
        assert EssentialAtoms([d] + rest) == [d] + EssentialAtoms(rest);
      } else {
        assert EssentialAtoms(atoms) == rest;
      }
    }
  }

  /** Minimizing twice is minimizing once. */
  lemma ReduceIdempotent(m: VideoMetadata)
    ensures ReduceToMinimum(ReduceToMinimum(m)) == ReduceToMinimum(m)
  {
    EssentialAtomsIdempotent(m.atoms);
  }

  lemma {:induction false} EssentialAtomsAbove(atoms: seq<AtomContainer>, lo: nat)
    requires forall c | c in atoms :: lo <= Priority(c)
    ensures forall d | d in EssentialAtoms(atoms) :: lo <= Priority(d)
    decreases |atoms|
  {
    if |atoms| > 0 {
      EssentialAtomsAbove(atoms[1..], lo);
      assert Priority(Minimized(atoms[0])) == Priority(atoms[0]);
      assert EssentialAtoms(atoms)
          == (if IsEssentialAtom(atoms[0]) then [Minimized(atoms[0])] else []) + EssentialAtoms(atoms[1..]);
    }
  }

  lemma {:induction false} EssentialAtomsKeepOrder(atoms: seq<AtomContainer>)
    requires SortedByPriority(atoms)
    ensures SortedByPriority(EssentialAtoms(atoms))
    decreases |atoms|
  {
    if |atoms| > 0 {
      EssentialAtomsKeepOrder(atoms[1..]);
      var c := atoms[0];
      var rest := EssentialAtoms(atoms[1..]);
      if IsEssentialAtom(c) {
        var r := [Minimized(c)] + rest;
        assert EssentialAtoms(atoms) == r;
        forall e | e in atoms[1..] ensures Priority(c) <= Priority(e) {
          var k :| 0 <= k < |atoms[1..]| && atoms[1..][k] == e;
          assert atoms[k + 1] == e;
        }
        EssentialAtomsAbove(atoms[1..], Priority(c));
        forall i, j | 0 <= i < j < |r|
          ensures Priority(r[i]) <= Priority(r[j])
        {
          assert r[j] == rest[j - 1];
          if i > 0 {
            assert r[i] == rest[i - 1];
          }
        }
      }
    }
  }

  /** Minimizing keeps a sorted model sorted. */
  lemma ReduceKeepsSorted(m: VideoMetadata)
    requires SortedByPriority(m.atoms)
    ensures SortedByPriority(ReduceToMinimum(m).atoms)
  {
    EssentialAtomsKeepOrder(m.atoms);
  }

  /** In a model where every tag sits in its owner, as `set_tag` keeps it, the
      width and height tags live in `tkhd` containers, which are not essential:
      minimizing keeps only durations and timescales. */
  lemma ReduceKeepsOnlyMovieHeaderTags(m: VideoMetadata)
    requires TagsInOwners(m)
    ensures forall d, t | d in ReduceToMinimum(m).atoms && t in d.tags :: t.Duration? || t.Timescale?
  {
    var r := ReduceToMinimum(m);
    forall d, t | d in r.atoms && t in d.tags
      ensures t.Duration? || t.Timescale?
    {
      var c :| c in m.atoms && IsEssentialAtom(c) && d == Minimized(c);
      assert t in c.tags;
      EssentialTagOwners(t);
    }
  }

  // ----------------------------------------------------------------- decoding

  /** `decode` is a placeholder in the source: it accepts any bytes and
      reports big-endian order and no containers. */
  function Decode(data: seq<uint8>): Result<seq<AtomContainer>, string>
  {
    Ok([])
  }

  /** `general_decoding_wrapper`: decode the bytes handed over (or give up on a
      read error), sort the containers, and fall back to an empty model. */
  function GeneralDecodingWrapper<E>(raw: Result<seq<uint8>, E>): (r: Result<VideoMetadata, E>)
    ensures r == Ok(NewMetadata())
  {
    if raw.Ok? then
      match Decode(raw.value)
      case Ok(atoms) => Ok(SortData(VideoMetadata(atoms)))
      case Err(_) => Ok(NewMetadata())
    else
      Ok(NewMetadata())
  }
}
