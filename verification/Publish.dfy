/** Publishing a staged merge yields the merge's specification, whatever the order in
    which its deletions and copies were staged. */
module Publish {
  import opened FileTree
  import opened Disk
  import opened Staging

  /** The publish renames; None when one of them fails. */
  ghost function PublishAll(disk: Tree, dests: seq<EntryPath>): Option<Tree> {
    if dests == [] then Some(disk) else
      var x := dests[|dests| - 1];
      var before := PublishAll(disk, dests[..|dests| - 1]);
      if before.Some? && CanRename(before.value, Tmp(x), x) then Some(PublishOne(before.value, x)) else None
  }

  /** The tree once everything set aside is discarded. */
  ghost function Discard(disk: Tree, deletes: seq<EntryPath>): Tree {
    WithoutAll(disk, Trashes(deletes))
  }

  ghost function Trashes(deletes: seq<EntryPath>): set<Path> {
    set a | a in deletes :: Trash(a)
  }

  /** Discarding in order meets no error. */
  ghost predicate CanDiscard(disk: Tree, deletes: seq<EntryPath>) {
    forall i :: 0 <= i < |deletes| ==> CanRemove(Discard(disk, deletes[..i]), Trash(deletes[i]))
  }

  lemma PublishOneAt(disk: Tree, x: EntryPath, q: Path)
    requires Named(x) && WellFormed(disk) && Tmp(x) in disk && !disk[Tmp(x)].Dir? && Find(disk, x) != Some(Dir)
    ensures Find(PublishOne(disk, x), q) == Replaced(disk, x, q)
  {
    SideShape(TMP, x);
    MovedAt(RemoveUnder(disk, x), Tmp(x), x, q);
    if x <= Tmp(x) {
      AboveSide(x, TMP, x);
    }
    assert x <= q ==> q == x || x < q;
    assert Tmp(x) <= q ==> q == Tmp(x) || Tmp(x) < q;
    if q == x {
      assert Tmp(x) + q[|x|..] == Tmp(x);
    } else if x <= q {
      assert Tmp(x) < Tmp(x) + q[|x|..];
    }
  }

  lemma PublishOneWellFormed(disk: Tree, x: EntryPath)
    requires Named(x) && WellFormed(disk) && Tmp(x) in disk && !disk[Tmp(x)].Dir? && Find(disk, x) != Some(Dir)
    ensures CanRename(disk, Tmp(x), x)
    ensures WellFormed(PublishOne(disk, x))
  {
    hide PublishOne, WellFormed, CanRename;
    CanPublishOne(disk, x);
    forall q
      ensures Find(PublishOne(disk, x), q) == Replaced(disk, x, q)
    {
      PublishOneAt(disk, x, q);
    }
    ReplacedWellFormed(disk, x, PublishOne(disk, x));
  }

  lemma CanPublishOne(disk: Tree, x: EntryPath)
    requires Named(x) && WellFormed(disk) && Tmp(x) in disk && !disk[Tmp(x)].Dir? && Find(disk, x) != Some(Dir)
    ensures CanRename(disk, Tmp(x), x)
  {
    SideShape(TMP, x);
    assert Parent(x) < Tmp(x);
  }

  /** The entry at `q` after the staged copy has taken its place at `x`. */
  ghost function Replaced(disk: Tree, x: EntryPath, q: Path): Option<Entry> {
    if q == x then Find(disk, Tmp(x)) else if q == Tmp(x) then None else Find(disk, q)
  }

  lemma ReplacedWellFormed(disk: Tree, x: EntryPath, u: Tree)
    requires Named(x) && WellFormed(disk) && Tmp(x) in disk && !disk[Tmp(x)].Dir? && Find(disk, x) != Some(Dir)
    requires forall q :: Find(u, q) == Replaced(disk, x, q)
    ensures WellFormed(u)
  {
    assert Find(u, []) == Replaced(disk, x, []);
    forall p, q | p in u && q < p
      ensures Find(u, q) == Some(Dir)
    {
      assert Find(u, p) == Replaced(disk, x, p);
      assert Find(u, q) == Replaced(disk, x, q);
      if p == x {
        assert q <= Parent(x);
        assert q < Tmp(x);
      }
    }
    WellFormedIf(u);
  }

  // The state of the publish phase after the first k renames.
  ghost predicate Publishing(disk: Tree, start: Tree, tombs: set<Path>, dests: seq<EntryPath>, sources: Tree, k: nat)
    requires k <= |dests|
  {
    && WellFormed(disk)
    && (forall q :: Clean(q) ==> Find(disk, q) == PublishingAt(start, tombs, dests, sources, k, q))
    && (forall i :: k <= i < |dests| ==> Find(disk, Tmp(dests[i])) == Find(sources, dests[i]))
  }

  ghost function PublishingAt(start: Tree, tombs: set<Path>, dests: seq<EntryPath>, sources: Tree, k: nat, q: Path): Option<Entry>
    requires k <= |dests|
  {
    if q in SetOf(dests[..k]) then Find(sources, q) else StagedAt(start, tombs, SetOf(dests), q)
  }

  lemma PublishStep(disk: Tree, start: Tree, tombs: set<Path>, dests: seq<EntryPath>, sources: Tree, k: nat)
    requires k < |dests| && CopyList(dests, sources)
    requires Publishing(disk, start, tombs, dests, sources, k)
    ensures CanRename(disk, Tmp(dests[k]), dests[k])
    ensures Publishing(PublishOne(disk, dests[k]), start, tombs, dests, sources, k + 1)
  {
    hide PublishOne, WellFormed, StagedAt, CanRename, Antichain;
    var x := dests[k];
    var u := PublishOne(disk, x);
    assert dests[..k + 1] == dests[..k] + [x];
    assert SetOf(dests[..k + 1]) == SetOf(dests[..k]) + {x};
    NextCopyReady(disk, start, tombs, dests, sources, k);
    PublishOneWellFormed(disk, x);
    SideShape(TMP, x);
    forall q | Clean(q)
      ensures Find(u, q) == PublishingAt(start, tombs, dests, sources, k + 1, q)
    {
      PublishOneAt(disk, x, q);
      assert Find(disk, q) == PublishingAt(start, tombs, dests, sources, k, q);
    }
    forall i | k + 1 <= i < |dests|
      ensures Find(u, Tmp(dests[i])) == Find(sources, dests[i])
    {
      PublishOneAt(disk, x, Tmp(dests[i]));
      SideShape(TMP, dests[i]);
      if Tmp(dests[i]) == Tmp(x) {
        SidesMeet(TMP, dests[i], TMP, x);
      }
    }
  }

  lemma NextCopyReady(disk: Tree, start: Tree, tombs: set<Path>, dests: seq<EntryPath>, sources: Tree, k: nat)
    requires k < |dests| && CopyList(dests, sources)
    requires Publishing(disk, start, tombs, dests, sources, k)
    ensures Find(disk, Tmp(dests[k])) == Some(sources[dests[k]]) && Find(disk, dests[k]) != Some(Dir)
  {
    var x := dests[k];
    assert x in SetOf(dests) && x !in SetOf(dests[..k]);
    DestinationFree(start, tombs, SetOf(dests), x);
    assert Find(disk, x) == PublishingAt(start, tombs, dests, sources, k, x);
  }

  lemma DestinationFree(start: Tree, tombs: set<Path>, dests: set<Path>, x: Path)
    requires x in dests && Antichain(dests)
    ensures StagedAt(start, tombs, dests, x) != Some(Dir)
  {
  }

  lemma NothingPublished(m: Merge, start: Tree, tombs: set<Path>, sources: Tree)
    requires Staged(m, start, tombs, sources) && CopyList(m.copies, sources)
    ensures m.copies[..0] == [] && Publishing(m.disk, start, tombs, m.copies, sources, 0)
  {
    assert SetOf(m.copies[..0]) == {};
  }

  lemma {:induction false} PublishesAll(m: Merge, start: Tree, tombs: set<Path>, sources: Tree, k: nat)
    requires Staged(m, start, tombs, sources) && CopyList(m.copies, sources) && k <= |m.copies|
    ensures PublishAll(m.disk, m.copies[..k]).Some?
    ensures Publishing(PublishAll(m.disk, m.copies[..k]).value, start, tombs, m.copies, sources, k)
  {
    hide Staged, Publishing, PublishOne, CanRename;
    if k == 0 {
      NothingPublished(m, start, tombs, sources);
    } else {
      PublishesAll(m, start, tombs, sources, k - 1);
      assert m.copies[..k][..k - 1] == m.copies[..k - 1];
      PublishStep(PublishAll(m.disk, m.copies[..k - 1]).value, start, tombs, m.copies, sources, k - 1);
    }
  }

  // ----- discarding what was set aside -----

  ghost function CopiesOf(dests: seq<EntryPath>, sources: Tree): Tree {
    map x | x in SetOf(dests) && x in sources :: sources[x]
  }

  lemma PublishedToUser(disk: Tree, start: Tree, tombs: set<Path>, dests: seq<EntryPath>, sources: Tree, q: Path)
    requires CopyList(dests, sources) && Clean(q)
    requires Publishing(disk, start, tombs, dests, sources, |dests|)
    ensures Find(disk, q) == Find(Published(start, tombs, CopiesOf(dests, sources)), q)
  {
    var copies := CopiesOf(dests, sources);
    assert dests[..|dests|] == dests;
    assert copies.Keys == SetOf(dests);
    PublishedAt(start, tombs, copies, q);
    assert Find(disk, q) == PublishingAt(start, tombs, dests, sources, |dests|, q);
  }

  /** Above something set aside there were only directories, so only a copy can be a
      file there now. */
  lemma FileAboveDeleted(disk: Tree, start: Tree, tombs: set<Path>, dests: seq<EntryPath>, sources: Tree, a: EntryPath, q: Path)
    requires UserTree(start) && CopyList(dests, sources)
    requires Publishing(disk, start, tombs, dests, sources, |dests|)
    requires Named(a) && a in start && q < Trash(a)
    ensures q in disk && !disk[q].Dir? <==> q in SetOf(dests) && q < a
  {
    SideShape(TRASH, a);
    assert q <= Parent(a);
    assert q < a && Clean(q);
    assert dests[..|dests|] == dests;
    assert Find(disk, q) == PublishingAt(start, tombs, dests, sources, |dests|, q);
    assert start[q].Dir?;
  }

  lemma DiscardKeepsUserPaths(disk: Tree, deletes: seq<EntryPath>, q: Path)
    requires Clean(q)
    ensures Find(Discard(disk, deletes), q) == Find(disk, q)
  {
    forall a: EntryPath | a in deletes
      ensures !(Trash(a) <= q)
    {
      SideShape(TRASH, a);
    }
  }

  ghost predicate NoCopyAbove(dests: seq<EntryPath>, a: Path) {
    forall x :: x in SetOf(dests) ==> !(x < a)
  }

  lemma TrashBlocked(disk: Tree, start: Tree, tombs: set<Path>, dests: seq<EntryPath>, sources: Tree, deletes: seq<EntryPath>, a: EntryPath)
    requires UserTree(start) && CopyList(dests, sources)
    requires Publishing(disk, start, tombs, dests, sources, |dests|)
    requires Named(a) && a in start
    ensures CanRemove(Discard(disk, deletes), Trash(a)) <==> NoCopyAbove(dests, a)
  {
    var left := Discard(disk, deletes);
    SideShape(TRASH, a);
    forall q | q < Trash(a)
      ensures q in left && !left[q].Dir? <==> q in SetOf(dests) && q < a
    {
      FileAboveDeleted(disk, start, tombs, dests, sources, a, q);
      assert q <= Parent(a);
      DiscardKeepsUserPaths(disk, deletes, q);
      assert Find(left, q) == Find(disk, q);
    }
    if x :| x in SetOf(dests) && x < a {
      assert x <= Parent(a) && x < Trash(a);
      assert x in left && !left[x].Dir?;
      assert Trash(a) !in disk by {
        DiscardKeepsUserPaths(disk, deletes, x);
        assert x in disk && !disk[x].Dir?;
      }
    }
  }

  /** Discarding meets no error exactly when nothing was set aside strictly below a
      published file: the file now stands where the trash's directory was. */
  lemma DiscardSucceedsIff(m: Merge, start: Tree, tombs: set<Path>, sources: Tree, disk: Tree)
    requires Staged(m, start, tombs, sources) && CopyList(m.copies, sources)
    requires Publishing(disk, start, tombs, m.copies, sources, |m.copies|)
    ensures CanDiscard(disk, m.deletes) <==> forall i :: 0 <= i < |m.deletes| ==> NoCopyAbove(m.copies, m.deletes[i])
  {
    forall i | 0 <= i < |m.deletes|
      ensures CanRemove(Discard(disk, m.deletes[..i]), Trash(m.deletes[i])) <==> NoCopyAbove(m.copies, m.deletes[i])
    {
      var a := m.deletes[i];
      assert a in m.deletes;
      TrashBlocked(disk, start, tombs, m.copies, sources, m.deletes[..i], a);
    }
  }

  // ----- which deletions are recorded -----

  /** The i-th deletion finds its target: it exists and no earlier one took it away. */
  ghost predicate Recorded(start: Tree, targets: seq<EntryPath>, i: nat)
    requires i < |targets|
  {
    targets[i] in start && !Covered(SetOf(targets[..i]), targets[i])
  }

  ghost predicate RecordedOf(start: Tree, targets: seq<EntryPath>, deletes: seq<EntryPath>) {
    && (forall i :: 0 <= i < |targets| && Recorded(start, targets, i) ==> targets[i] in deletes)
    && (forall a :: a in deletes ==> exists i :: 0 <= i < |targets| && targets[i] == a && Recorded(start, targets, i))
  }

  lemma {:induction false} DeletesRecorded(disk: Tree, start: Tree, sources: Tree, targets: seq<EntryPath>)
    requires Staged(Merge(disk, [], []), start, {}, sources) && Paths(targets)
    ensures RecordedOf(start, targets, StageDeletes(Merge(disk, [], []), targets).deletes)
  {
    if targets != [] {
      var n := |targets| - 1;
      var before := StageDeletes(Merge(disk, [], []), targets[..n]);
      DeletesRecorded(disk, start, sources, targets[..n]);
      DeletesStaged(disk, start, sources, targets[..n]);
      DeleteStep(before, start, SetOf(targets[..n]), sources, targets[n]);
      RecordedStep(start, targets, before.deletes);
    }
  }

  lemma RecordedStep(start: Tree, targets: seq<EntryPath>, deletes: seq<EntryPath>)
    requires targets != []
    requires RecordedOf(start, targets[..|targets| - 1], deletes)
    ensures RecordedOf(start, targets,
      if Recorded(start, targets, |targets| - 1) then deletes + [targets[|targets| - 1]] else deletes)
  {
    var n := |targets| - 1;
    assert forall i :: 0 <= i < n ==> targets[..n][..i] == targets[..i];
    assert forall i :: 0 <= i < n ==> (Recorded(start, targets, i) <==> Recorded(start, targets[..n], i));
  }

  /** A copy adds to the record nothing but its own destination. */
  lemma {:induction false} CopiesRecordOnlyDestinations(m: Merge, dests: seq<EntryPath>, sources: Tree)
    requires CopyList(dests, sources) && StageCopies(m, dests, sources).Some?
    ensures forall a :: a in m.deletes ==> a in StageCopies(m, dests, sources).value.deletes
    ensures forall a :: a in StageCopies(m, dests, sources).value.deletes ==> a in m.deletes || a in dests
  {
    if dests != [] {
      CopyListPrefix(dests, sources);
      CopiesRecordOnlyDestinations(m, dests[..|dests| - 1], sources);
    }
  }

  // ----- side files -----

  lemma KnownAfterSetAside(m: Merge, a: EntryPath)
    requires Named(a) && WellFormed(m.disk) && SideFilesKnown(m.disk, SetOf(m.copies), m.deletes)
    ensures SideFilesKnown(StageDelete(m, a).disk, SetOf(m.copies), StageDelete(m, a).deletes)
  {
    if a in m.disk {
      var m' := StageDelete(m, a);
      assert forall b :: b in m.deletes ==> b in m'.deletes;
      assert a in m'.deletes;
      forall q | q in m'.disk && !Clean(q) && !(Trash(a) <= q)
        ensures q in m.disk
      {
        SetAsideAt(m.disk, a, q);
        assert Find(m'.disk, q).Some?;
      }
    }
  }

  lemma {:induction false} KnownAfterDeletes(start: Tree, targets: seq<EntryPath>)
    requires UserTree(start) && Paths(targets)
    ensures var m := StageDeletes(Merge(start, [], []), targets); SideFilesKnown(m.disk, {}, m.deletes)
  {
    if targets != [] {
      var n := |targets| - 1;
      var before := StageDeletes(Merge(start, [], []), targets[..n]);
      KnownAfterDeletes(start, targets[..n]);
      UserTreeStaged(start, map[]);
      DeletesStaged(start, start, map[], targets[..n]);
      KnownAfterSetAside(before, targets[n]);
    }
  }

  lemma UserTreeStaged(start: Tree, sources: Tree)
    requires UserTree(start)
    ensures Staged(Merge(start, [], []), start, {}, sources)
  {
    forall x: EntryPath | Named(x)
      ensures Find(start, Tmp(x)) != Some(Dir)
    {
      SideShape(TMP, x);
    }
    assert SetOf([]) == {};
  }

  lemma KnownAfterCopy(m: Merge, start: Tree, tombs: set<Path>, sources: Tree, x: EntryPath)
    requires Staged(m, start, tombs, sources) && Named(x) && Apart(SetOf(m.copies), x) && x in sources
    requires SideFilesKnown(m.disk, SetOf(m.copies), m.deletes) && StageCopy(m, x, sources[x]).Some?
    ensures var m' := StageCopy(m, x, sources[x]).value; SideFilesKnown(m'.disk, SetOf(m'.copies), m'.deletes)
  {
    hide WithTmp, CanCopy, WellFormed, NoTmpDirs, UserTree, StagedAt, SetAside, RoomAbove;
    var m1 := ClearDestination(m, x);
    var m' := StageCopy(m, x, sources[x]).value;
    KnownAfterSetAside(m, x);
    assert SetOf(m'.copies) == SetOf(m.copies) + {x};
    forall q | q in m'.disk && !Clean(q) && q != Tmp(x)
      ensures q in m1.disk
    {
      WithTmpAt(m1.disk, x, sources[x], q);
      assert Find(m'.disk, q).Some?;
      assert forall r :: r < x ==> Clean(r);
    }
  }

  lemma {:induction false} KnownAfterCopies(m: Merge, start: Tree, tombs: set<Path>, sources: Tree, dests: seq<EntryPath>)
    requires Staged(m, start, tombs, sources) && m.copies == [] && CopyList(dests, sources)
    requires SideFilesKnown(m.disk, {}, m.deletes) && StageCopies(m, dests, sources).Some?
    ensures var m' := StageCopies(m, dests, sources).value; SideFilesKnown(m'.disk, SetOf(dests), m'.deletes)
  {
    hide Staged, SideFilesKnown, WithTmp, CanCopy;
    if dests == [] {
      assert SetOf(dests) == {};
    } else {
      var n := |dests| - 1;
      CopyListPrefix(dests, sources);
      KnownAfterCopies(m, start, tombs, sources, dests[..n]);
      CopiesStaged(m, start, tombs, sources, dests[..n]);
      var before := StageCopies(m, dests[..n], sources).value;
      assert SetOf(before.copies) == SetOf(dests[..n]);
      KnownAfterCopy(before, start, tombs, sources, dests[n]);
      assert SetOf(StageCopies(m, dests, sources).value.copies) == SetOf(dests);
    }
  }

  lemma {:induction false} KnownAfterPublish(m: Merge, start: Tree, tombs: set<Path>, sources: Tree, k: nat)
    requires Staged(m, start, tombs, sources) && CopyList(m.copies, sources) && k <= |m.copies|
    requires SideFilesKnown(m.disk, SetOf(m.copies), m.deletes)
    ensures PublishAll(m.disk, m.copies[..k]).Some?
    ensures SideFilesKnown(PublishAll(m.disk, m.copies[..k]).value, SetOf(m.copies[k..]), m.deletes)
  {
    hide Staged, SideFilesKnown, Publishing, PublishOne;
    PublishesAll(m, start, tombs, sources, k);
    if k == 0 {
      assert m.copies[0..] == m.copies;
    } else {
      var x := m.copies[k - 1];
      KnownAfterPublish(m, start, tombs, sources, k - 1);
      PublishesAll(m, start, tombs, sources, k - 1);
      assert m.copies[..k][..k - 1] == m.copies[..k - 1];
      var before := PublishAll(m.disk, m.copies[..k - 1]).value;
      PublishStep(before, start, tombs, m.copies, sources, k - 1);
      OneLessSideFile(before, start, tombs, m, sources, k - 1);
    }
  }

  lemma OneLessSideFile(disk: Tree, start: Tree, tombs: set<Path>, m: Merge, sources: Tree, k: nat)
    requires k < |m.copies| && CopyList(m.copies, sources)
    requires Publishing(disk, start, tombs, m.copies, sources, k)
    requires SideFilesKnown(disk, SetOf(m.copies[k..]), m.deletes)
    ensures SideFilesKnown(PublishOne(disk, m.copies[k]), SetOf(m.copies[k + 1..]), m.deletes)
  {
    hide PublishOne, SideFilesKnown, PublishingAt, WellFormed, Antichain;
    NextCopyReady(disk, start, tombs, m.copies, sources, k);
    assert m.copies[k..] == [m.copies[k]] + m.copies[k + 1..];
    SideFilesBefore(disk, m.copies[k]);
    KnownButOne(disk, PublishOne(disk, m.copies[k]), m.copies[k], m.copies[k + 1..], m.deletes);
  }

  lemma SideFilesBefore(disk: Tree, x: EntryPath)
    requires Named(x) && WellFormed(disk) && Find(disk, Tmp(x)).Some? && !disk[Tmp(x)].Dir? && Find(disk, x) != Some(Dir)
    ensures forall q :: q in PublishOne(disk, x) && !Clean(q) ==> q in disk && q != Tmp(x)
  {
    forall q | q in PublishOne(disk, x) && !Clean(q)
      ensures q in disk && q != Tmp(x)
    {
      PublishOneAt(disk, x, q);
      assert Find(PublishOne(disk, x), q) == Replaced(disk, x, q);
    }
  }

  lemma KnownButOne(disk: Tree, u: Tree, x: EntryPath, rest: seq<EntryPath>, deletes: seq<EntryPath>)
    requires SideFilesKnown(disk, SetOf([x] + rest), deletes)
    requires forall q :: q in u && !Clean(q) ==> q in disk && q != Tmp(x)
    ensures SideFilesKnown(u, SetOf(rest), deletes)
  {
    assert SetOf([x] + rest) == SetOf(rest) + {x};
  }

  // ----- the whole merge -----

  /** No deletion that found its target lies strictly below a copy. */
  ghost predicate NoDeleteBelowCopy(start: Tree, targets: seq<EntryPath>, dests: seq<EntryPath>) {
    forall i :: 0 <= i < |targets| && Recorded(start, targets, i) ==> NoCopyAbove(dests, targets[i])
  }

  lemma StagedMergeShape(start: Tree, targets: seq<EntryPath>, dests: seq<EntryPath>, sources: Tree)
    requires UserTree(start) && Paths(targets) && CopyList(dests, sources)
    ensures StageMerge(start, targets, dests, sources).Some? <==> RoomForAll(start, SetOf(targets), dests)
    ensures StageMerge(start, targets, dests, sources).Some? ==>
      var m := StageMerge(start, targets, dests, sources).value;
      Staged(m, start, SetOf(targets), sources) && m.copies == dests && SideFilesKnown(m.disk, SetOf(dests), m.deletes)
  {
    UserTreeStaged(start, sources);
    DeletesStaged(start, start, sources, targets);
    KnownAfterDeletes(start, targets);
    var m := StageDeletes(Merge(start, [], []), targets);
    CopiesStaged(m, start, SetOf(targets), sources, dests);
    if StageMerge(start, targets, dests, sources).Some? {
      KnownAfterCopies(m, start, SetOf(targets), sources, dests);
    }
  }

  /** Staging any list of deletions, in any order and nesting, followed by copies none
      below another, fails only where a kept file is in the way of a copy; the publish
      renames then all succeed. Discarding fails exactly when some deletion that found
      its target lies below a copy, and otherwise leaves the specified tree: the start
      less the deleted subtrees, overlaid with the copies, and no side file. */
  lemma MergeMeetsSpec(start: Tree, targets: seq<EntryPath>, dests: seq<EntryPath>, sources: Tree)
    requires UserTree(start) && Paths(targets) && CopyList(dests, sources)
    requires RoomForAll(start, SetOf(targets), dests)
    ensures StageMerge(start, targets, dests, sources).Some?
    ensures var m := StageMerge(start, targets, dests, sources).value;
      && PublishAll(m.disk, m.copies).Some?
      && var disk := PublishAll(m.disk, m.copies).value;
      && (CanDiscard(disk, m.deletes) <==> NoDeleteBelowCopy(start, targets, dests))
      && Discard(disk, m.deletes) == Published(start, SetOf(targets), CopiesOf(dests, sources))
  {
    StagedMergeShape(start, targets, dests, sources);
    var m := StageMerge(start, targets, dests, sources).value;
    assert m.copies[..|m.copies|] == m.copies;
    assert m.copies[|m.copies|..] == [];
    PublishesAll(m, start, SetOf(targets), sources, |m.copies|);
    KnownAfterPublish(m, start, SetOf(targets), sources, |m.copies|);
    var disk := PublishAll(m.disk, m.copies).value;
    DiscardIff(start, targets, dests, sources, disk);
    assert SetOf([]) == {};
    DiscardedIsPublished(disk, start, SetOf(targets), dests, sources, m.deletes);
  }

  lemma DiscardIff(start: Tree, targets: seq<EntryPath>, dests: seq<EntryPath>, sources: Tree, disk: Tree)
    requires UserTree(start) && Paths(targets) && CopyList(dests, sources)
    requires StageMerge(start, targets, dests, sources).Some?
    requires Publishing(disk, start, SetOf(targets), dests, sources, |dests|)
    ensures CanDiscard(disk, StageMerge(start, targets, dests, sources).value.deletes) <==>
      NoDeleteBelowCopy(start, targets, dests)
  {
    var m := StageMerge(start, targets, dests, sources).value;
    var first := StageDeletes(Merge(start, [], []), targets);
    StagedMergeShape(start, targets, dests, sources);
    DiscardSucceedsIff(m, start, SetOf(targets), sources, disk);
    UserTreeStaged(start, sources);
    DeletesRecorded(start, start, sources, targets);
    CopiesRecordOnlyDestinations(first, dests, sources);
    RecordedBelowCopy(start, targets, dests, first.deletes, m.deletes);
  }

  lemma RecordedBelowCopy(start: Tree, targets: seq<EntryPath>, dests: seq<EntryPath>, first: seq<EntryPath>, deletes: seq<EntryPath>)
    requires Antichain(SetOf(dests)) && RecordedOf(start, targets, first)
    requires forall a :: a in first ==> a in deletes
    requires forall a :: a in deletes ==> a in first || a in dests
    ensures (forall i :: 0 <= i < |deletes| ==> NoCopyAbove(dests, deletes[i])) <==> NoDeleteBelowCopy(start, targets, dests)
  {
    assert forall a :: a in dests ==> a in SetOf(dests) && NoCopyAbove(dests, a);
    if NoDeleteBelowCopy(start, targets, dests) {
      forall i | 0 <= i < |deletes|
        ensures NoCopyAbove(dests, deletes[i])
      {
        assert deletes[i] in deletes;
      }
    } else {
      var i :| 0 <= i < |targets| && Recorded(start, targets, i) && !NoCopyAbove(dests, targets[i]);
      assert targets[i] in deletes;
    }
  }

  lemma DiscardedIsPublished(disk: Tree, start: Tree, tombs: set<Path>, dests: seq<EntryPath>, sources: Tree, deletes: seq<EntryPath>)
    requires UserTree(start) && CopyList(dests, sources)
    requires Publishing(disk, start, tombs, dests, sources, |dests|)
    requires SideFilesKnown(disk, {}, deletes)
    ensures Discard(disk, deletes) == Published(start, tombs, CopiesOf(dests, sources))
  {
    var left, spec := Discard(disk, deletes), Published(start, tombs, CopiesOf(dests, sources));
    forall q
      ensures Find(left, q) == Find(spec, q)
    {
      if Clean(q) {
        PublishedToUser(disk, start, tombs, dests, sources, q);
        DiscardKeepsUserPaths(disk, deletes, q);
      } else {
        PublishedIsClean(start, tombs, dests, sources, q);
        SideFileDiscarded(disk, deletes, q);
      }
    }
    SameTree(left, spec);
  }

  lemma SideFileDiscarded(disk: Tree, deletes: seq<EntryPath>, q: Path)
    requires SideFilesKnown(disk, {}, deletes) && !Clean(q)
    ensures q !in Discard(disk, deletes)
  {
    if q in disk {
      var a :| a in deletes && Trash(a) <= q;
      assert Trash(a) in Trashes(deletes);
    }
  }

  lemma PublishedIsClean(start: Tree, tombs: set<Path>, dests: seq<EntryPath>, sources: Tree, q: Path)
    requires UserTree(start) && CopyList(dests, sources) && !Clean(q)
    ensures q !in Published(start, tombs, CopiesOf(dests, sources))
  {
    PublishedAt(start, tombs, CopiesOf(dests, sources), q);
    assert forall x :: x in SetOf(dests) ==> Clean(x);
    assert forall x :: x in SetOf(dests) && q < x ==> Clean(q);
  }
}
