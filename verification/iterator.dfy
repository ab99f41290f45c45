/** The tag iterator of src/video_metadata/iterator.rs, as a pure step
    function over an immutable model, and a two-cursor iterator that visits
    every tag of every container once, in order. */
module Iteration {
  import opened Wrappers
  import opened Tags
  import opened Metadata

  /** `VideoMetadataIterator`: the model and one tag index shared by all
      containers. */
  datatype TagIterator = TagIterator(metadata: VideoMetadata, currentTagIndex: nat)

  /** `into_iter`: a fresh iterator always starts at index 0. */
  function IntoIter(m: VideoMetadata): (it: TagIterator)
    ensures it.metadata == m && it.currentTagIndex == 0
  {
    TagIterator(m, 0)
  }

  /** The `for` loop of `next`, from the first container on: the first
      container whose tag count exceeds the current index yields the tag at
      that index; any other container resets the index to 0. Returns the
      item and the index the loop leaves behind. */
  function Scan(atoms: seq<AtomContainer>, index: nat): (Option<VideoTag>, nat)
    decreases |atoms|
  {
    if |atoms| == 0 then (None, index)
    else if index < |atoms[0].tags| then (Some(atoms[0].tags[index]), index + 1)
    else Scan(atoms[1..], 0)
  }

  /** `next`: the item and the iterator after the call. */
  function Next(it: TagIterator): (TagIterator, Option<VideoTag>)
  {
    var (item, index) := Scan(it.metadata.atoms, it.currentTagIndex);
    (it.(currentTagIndex := index), item)
  }

  /** Some later container holds at least one tag. */
  predicate LaterTags(atoms: seq<AtomContainer>)
  {
    exists j | 1 <= j < |atoms| :: |atoms[j].tags| > 0
  }

  /** The first container after the head that holds a tag. */
  function FirstLaterHolder(atoms: seq<AtomContainer>): (j: nat)
    requires LaterTags(atoms)
    ensures 1 <= j < |atoms| && |atoms[j].tags| > 0
    ensures forall k | 1 <= k < j :: |atoms[k].tags| == 0
    decreases |atoms|
  {
    if |atoms[1].tags| > 0 then 1
    else
      assert LaterTags(atoms[1..]) by {
        var j :| 1 <= j < |atoms| && |atoms[j].tags| > 0;
        assert atoms[1..][j - 1] == atoms[j];
      }
      FirstLaterHolder(atoms[1..]) + 1
  }

  /** The loop run over `atoms` with index 0: it yields the first tag of the
      first container that holds one, and leaves index 1 behind. */
  lemma {:induction false} ScanFromZero(atoms: seq<AtomContainer>)
    ensures (exists j | 0 <= j < |atoms| :: |atoms[j].tags| > 0) ==>
              exists j | 0 <= j < |atoms| ::
                && |atoms[j].tags| > 0
                && (forall k | 0 <= k < j :: |atoms[k].tags| == 0)
                && Scan(atoms, 0) == (Some(atoms[j].tags[0]), 1)
    ensures (forall j | 0 <= j < |atoms| :: |atoms[j].tags| == 0) && |atoms| > 0 ==> Scan(atoms, 0) == (None, 0)
    decreases |atoms|
  {
    if |atoms| > 0 && |atoms[0].tags| == 0 {
      ScanFromZero(atoms[1..]);
      if exists j | 0 <= j < |atoms| :: |atoms[j].tags| > 0 {
        var j :| 0 <= j < |atoms| && |atoms[j].tags| > 0;
        assert atoms[1..][j - 1] == atoms[j];
        var j' :| 0 <= j' < |atoms[1..]| && |atoms[1..][j'].tags| > 0
                  && (forall k | 0 <= k < j' :: |atoms[1..][k].tags| == 0)
                  && Scan(atoms[1..], 0) == (Some(atoms[1..][j'].tags[0]), 1);
        forall k | 0 <= k < j' + 1 ensures |atoms[k].tags| == 0 {
          if k > 0 {
            assert atoms[k] == atoms[1..][k - 1];
          }
        }
      } else if |atoms| > 1 {
        forall j | 0 <= j < |atoms[1..]| ensures |atoms[1..][j].tags| == 0 {
          assert atoms[1..][j] == atoms[j + 1];
        }
      }
    }
  }

  /** What one call of `next` does, case by case: the current container
      serves the index if it can; otherwise the first later container holding
      a tag yields its first tag and the index becomes 1; otherwise the call
      ends with nothing, and the index is 0 unless there was no container. */
  lemma NextOutcome(it: TagIterator)
    ensures var atoms, i := it.metadata.atoms, it.currentTagIndex;
            var (it', item) := Next(it);
            && it'.metadata == it.metadata
            && (|atoms| == 0 ==> item == None && it' == it)
            && (|atoms| > 0 && i < |atoms[0].tags| ==>
                  item == Some(atoms[0].tags[i]) && it'.currentTagIndex == i + 1)
            && (|atoms| > 0 && i >= |atoms[0].tags| && LaterTags(atoms) ==>
                  item == Some(atoms[FirstLaterHolder(atoms)].tags[0]) && it'.currentTagIndex == 1)
            && (|atoms| > 0 && i >= |atoms[0].tags| && !LaterTags(atoms) ==>
                  item == None && it'.currentTagIndex == 0)
  {
    var atoms, i := it.metadata.atoms, it.currentTagIndex;
    if |atoms| > 0 && i >= |atoms[0].tags| {
      var rest := atoms[1..];
      ScanFromZero(rest);
      if LaterTags(atoms) {
        var h := FirstLaterHolder(atoms);
        assert rest[h - 1] == atoms[h];
        var j :| 0 <= j < |rest| && |rest[j].tags| > 0
                 && (forall k | 0 <= k < j :: |rest[k].tags| == 0)
                 && Scan(rest, 0) == (Some(rest[j].tags[0]), 1);
        assert rest[j] == atoms[j + 1];
        assert j + 1 == h;
      } else if |rest| > 0 {
        forall j | 0 <= j < |rest| ensures |rest[j].tags| == 0 {
          assert rest[j] == atoms[j + 1];
        }
        assert Scan(rest, 0) == (None, 0);
      }
      assert Scan(atoms, i) == Scan(rest, 0);
    }
  }

  /** A call returns nothing exactly when no container can serve it. */
  lemma NextEnds(it: TagIterator)
    ensures var atoms, i := it.metadata.atoms, it.currentTagIndex;
            Next(it).1 == None <==> |atoms| == 0 || (i >= |atoms[0].tags| && !LaterTags(atoms))
  {
    NextOutcome(it);
  }

  /** Whatever `next` yields is a tag of some container, at the index just
      before the one it leaves behind. */
  lemma NextNeverFabricates(it: TagIterator)
    ensures var (it', item) := Next(it);
            item.Some? ==>
              && it'.currentTagIndex >= 1
              && exists k | 0 <= k < |it.metadata.atoms| ::
                   && it'.currentTagIndex - 1 < |it.metadata.atoms[k].tags|
                   && item.value == it.metadata.atoms[k].tags[it'.currentTagIndex - 1]
  {
    NextOutcome(it);
    var atoms := it.metadata.atoms;
    if |atoms| > 0 && it.currentTagIndex >= |atoms[0].tags| && LaterTags(atoms) {
      var h := FirstLaterHolder(atoms);
      assert 0 < |atoms[h].tags| && Next(it).1.value == atoms[h].tags[0];
    }
  }

  /** The iterator is not fused: once a call on a non-empty model ends with
      nothing, the index is back at 0 and the next call starts over as a
      fresh iterator would. */
  lemma NotFused(it: TagIterator)
    requires |it.metadata.atoms| > 0 && Next(it).1 == None
    ensures Next(it).0 == IntoIter(it.metadata)
  {
    NextOutcome(it);
  }

  // -------------------------------------------------------------- traces

  /** The items of `n` calls in a row. */
  function Run(it: TagIterator, n: nat): (r: seq<Option<VideoTag>>)
    ensures |r| == n
    decreases n
  {
    if n == 0 then [] else [Next(it).1] + Run(Next(it).0, n - 1)
  }

  /** On a model with a single container, calls from index `i` yield the
      remaining tags in order, then nothing. */
  lemma {:induction false} SingleContainerFrom(c: AtomContainer, i: nat)
    requires i <= |c.tags|
    ensures Run(TagIterator(VideoMetadata([c]), i), |c.tags| - i + 1)
            == seq(|c.tags| - i, k requires 0 <= k < |c.tags| - i => Some(c.tags[i + k])) + [None]
    decreases |c.tags| - i
  {
    var it := TagIterator(VideoMetadata([c]), i);
    NextOutcome(it);
    assert !LaterTags([c]);
    if i < |c.tags| {
      SingleContainerFrom(c, i + 1);
    }
  }

  /** So the first `n` calls on a fresh iterator over one container with `n`
      tags yield its tags in order, and call `n + 1` yields nothing. */
  lemma SingleContainerInOrder(c: AtomContainer)
    ensures Run(IntoIter(VideoMetadata([c])), |c.tags| + 1)
            == seq(|c.tags|, k requires 0 <= k < |c.tags| => Some(c.tags[k])) + [None]
  {
    SingleContainerFrom(c, 0);
  }

  /** The iterator after `n` calls. */
  function After(it: TagIterator, n: nat): TagIterator
    decreases n
  {
    if n == 0 then it else After(Next(it).0, n - 1)
  }

  /** Two containers A (two tags) and B (three tags): the index only ever
      takes the values 0, 1 and 2, and every call yields a tag. The
      sequence is A0, A1, B0, A1, B0, ...: B1, B2 are never reached and the
      iteration never ends. */
  lemma {:induction false} TwoContainersNeverEnd(a: AtomContainer, b: AtomContainer, n: nat)
    requires |a.tags| == 2 && |b.tags| == 3
    ensures var it := After(IntoIter(VideoMetadata([a, b])), n);
            && it.metadata == VideoMetadata([a, b])
            && it.currentTagIndex <= 2
            && Next(it).1.Some?
            && Next(it).1.value in {a.tags[0], a.tags[1], b.tags[0]}
  {
    var m := VideoMetadata([a, b]);
    if n > 0 {
      AfterStep(IntoIter(m), n - 1);
      TwoContainersNeverEnd(a, b, n - 1);
    }
    var it := After(IntoIter(m), n);
    assert LaterTags([a, b]) by {
      assert |[a, b][1].tags| > 0;
    }
    assert FirstLaterHolder([a, b]) == 1;
    NextOutcome(it);
  }

  lemma {:induction false} AfterStep(it: TagIterator, n: nat)
    ensures After(it, n + 1) == Next(After(it, n)).0
    decreases n
  {
    if n > 0 {
      AfterStep(Next(it).0, n - 1);
    }
  }

  /** The first five items of that pair of containers. */
  lemma TwoContainersTrace(a: AtomContainer, b: AtomContainer)
    requires |a.tags| == 2 && |b.tags| == 3
    ensures Run(IntoIter(VideoMetadata([a, b])), 5)
            == [Some(a.tags[0]), Some(a.tags[1]), Some(b.tags[0]), Some(a.tags[1]), Some(b.tags[0])]
  {
    var m := VideoMetadata([a, b]);
    assert LaterTags([a, b]) by {
      assert |[a, b][1].tags| > 0;
    }
    assert FirstLaterHolder([a, b]) == 1;
    var i0 := IntoIter(m);
    NextOutcome(i0);
    var i1 := Next(i0).0;
    NextOutcome(i1);
    var i2 := Next(i1).0;
    NextOutcome(i2);
    var i3 := Next(i2).0;
    NextOutcome(i3);
    var i4 := Next(i3).0;
    NextOutcome(i4);
    assert Run(i4, 1) == [Next(i4).1];
    assert Run(i3, 2) == [Next(i3).1] + Run(i4, 1);
    assert Run(i2, 3) == [Next(i2).1] + Run(i3, 2);
    assert Run(i1, 4) == [Next(i1).1] + Run(i2, 3);
    assert Run(i0, 5) == [Next(i0).1] + Run(i1, 4);
  }

  // ----------------------------------------------------- flattening order

  /** Every tag of every container, containers in order. */
  function AllTags(atoms: seq<AtomContainer>): seq<VideoTag>
    decreases |atoms|
  {
    if |atoms| == 0 then [] else atoms[0].tags + AllTags(atoms[1..])
  }

  /** A traversal with a container cursor and a tag cursor. */
  datatype FlatIterator = FlatIterator(metadata: VideoMetadata, atomIndex: nat, tagIndex: nat)

  function FlatStart(m: VideoMetadata): FlatIterator
  {
    FlatIterator(m, 0, 0)
  }

  /** One step: the tag under the cursors, or on to the next container. */
  function FlatNext(it: FlatIterator): (FlatIterator, Option<VideoTag>)
    decreases |it.metadata.atoms| - it.atomIndex
  {
    var atoms := it.metadata.atoms;
    if it.atomIndex >= |atoms| then (it, None)
    else if it.tagIndex < |atoms[it.atomIndex].tags| then
      (it.(tagIndex := it.tagIndex + 1), Some(atoms[it.atomIndex].tags[it.tagIndex]))
    else FlatNext(FlatIterator(it.metadata, it.atomIndex + 1, 0))
  }

  /** The tags still ahead of the cursors. */
  function Remaining(it: FlatIterator): seq<VideoTag>
  {
    var atoms := it.metadata.atoms;
    if it.atomIndex >= |atoms| then []
    else
      var tags := atoms[it.atomIndex].tags;
      (if it.tagIndex <= |tags| then tags[it.tagIndex..] else []) + AllTags(atoms[it.atomIndex + 1..])
  }

  /** Taking the tag under the cursors leaves the rest of the tags ahead. */
  lemma FlatTakeStep(it: FlatIterator)
    requires it.atomIndex < |it.metadata.atoms|
    requires it.tagIndex < |it.metadata.atoms[it.atomIndex].tags|
    ensures Remaining(it) == [it.metadata.atoms[it.atomIndex].tags[it.tagIndex]]
                             + Remaining(it.(tagIndex := it.tagIndex + 1))
  {
    var tags := it.metadata.atoms[it.atomIndex].tags;
    assert tags[it.tagIndex..] == [tags[it.tagIndex]] + tags[it.tagIndex + 1..];
  }

  /** Past the last tag of a container, the tags ahead start at the next one. */
  lemma FlatSkipStep(it: FlatIterator)
    requires it.atomIndex < |it.metadata.atoms|
    requires it.tagIndex >= |it.metadata.atoms[it.atomIndex].tags|
    ensures Remaining(it) == Remaining(FlatIterator(it.metadata, it.atomIndex + 1, 0))
  {
    var atoms, a := it.metadata.atoms, it.atomIndex;
    if a + 1 < |atoms| {
      assert atoms[a + 1..][1..] == atoms[a + 2..];
      assert atoms[a + 1..][0] == atoms[a + 1];
      assert atoms[a + 1].tags[0..] == atoms[a + 1].tags;
    } else {
      assert atoms[a + 1..] == [];
    }
  }

  /** Each step yields the first remaining tag and drops it, or yields
      nothing when no tag remains and then stays put. */
  lemma {:induction false} FlatNextStep(it: FlatIterator)
    ensures var (it', item) := FlatNext(it);
            && it'.metadata == it.metadata
            && (|Remaining(it)| > 0 ==> item == Some(Remaining(it)[0]) && Remaining(it') == Remaining(it)[1..])
            && (|Remaining(it)| == 0 ==> item == None && Remaining(it') == [])
    decreases |it.metadata.atoms| - it.atomIndex
  {
    var atoms := it.metadata.atoms;
    if it.atomIndex < |atoms| {
      if it.tagIndex < |atoms[it.atomIndex].tags| {
        FlatTakeStep(it);
      } else {
        FlatSkipStep(it);
        FlatNextStep(FlatIterator(it.metadata, it.atomIndex + 1, 0));
      }
    }
  }

  function FlatRun(it: FlatIterator, n: nat): (r: seq<Option<VideoTag>>)
    ensures |r| == n
    decreases n
  {
    if n == 0 then [] else [FlatNext(it).1] + FlatRun(FlatNext(it).0, n - 1)
  }

  /** From any position, the calls yield the remaining tags in order, then
      nothing. */
  lemma {:induction false} FlatRunsRemaining(it: FlatIterator)
    ensures FlatRun(it, |Remaining(it)| + 1)
            == seq(|Remaining(it)|, k requires 0 <= k < |Remaining(it)| => Some(Remaining(it)[k])) + [None]
    decreases |Remaining(it)|
  {
    FlatNextStep(it);
    if |Remaining(it)| > 0 {
      FlatRunsRemaining(FlatNext(it).0);
    }
  }

  /** So a fresh two-cursor traversal visits every tag of every container
      exactly once, in order, and then ends. */
  lemma FlatVisitsEveryTag(m: VideoMetadata)
    ensures FlatRun(FlatStart(m), |AllTags(m.atoms)| + 1)
            == seq(|AllTags(m.atoms)|, k requires 0 <= k < |AllTags(m.atoms)| => Some(AllTags(m.atoms)[k])) + [None]
  {
    var it := FlatStart(m);
    if |m.atoms| > 0 {
      assert m.atoms[0].tags[0..] == m.atoms[0].tags;
    }
    assert Remaining(it) == AllTags(m.atoms);
    FlatRunsRemaining(it);
  }

  /** The shared index is where the two part ways: on A (two tags) and B
      (three tags) the first five items differ at the fourth. */
  lemma SharedIndexSkipsTags(a: AtomContainer, b: AtomContainer)
    requires |a.tags| == 2 && |b.tags| == 3 && a.tags[1] != b.tags[1]
    ensures Run(IntoIter(VideoMetadata([a, b])), 4)[3] != FlatRun(FlatStart(VideoMetadata([a, b])), 4)[3]
  {
    TwoContainersTrace(a, b);
    var m := VideoMetadata([a, b]);
    FlatVisitsEveryTag(m);
    assert AllTags(m.atoms) == a.tags + b.tags by {
      assert m.atoms[1..] == [b];
      assert [b][1..] == [];
      assert AllTags([b]) == b.tags + AllTags([]);
      assert AllTags(m.atoms) == a.tags + AllTags([b]);
    }
    assert Run(IntoIter(m), 5)[..4] == Run(IntoIter(m), 4) by {
      RunPrefix(IntoIter(m), 5, 4);
    }
    assert FlatRun(FlatStart(m), 6)[..4] == FlatRun(FlatStart(m), 4) by {
      FlatRunPrefix(FlatStart(m), 6, 4);
    }
  }

  lemma {:induction false} RunPrefix(it: TagIterator, n: nat, k: nat)
    requires k <= n
    ensures Run(it, n)[..k] == Run(it, k)
    decreases k
  {
    if k > 0 {
      RunPrefix(Next(it).0, n - 1, k - 1);
    }
  }

  lemma {:induction false} FlatRunPrefix(it: FlatIterator, n: nat, k: nat)
    requires k <= n
    ensures FlatRun(it, n)[..k] == FlatRun(it, k)
    decreases k
  {
    if k > 0 {
      FlatRunPrefix(FlatNext(it).0, n - 1, k - 1);
    }
  }
}
