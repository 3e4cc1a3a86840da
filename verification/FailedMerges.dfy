/** What a merge leaves behind when it fails: while it was staged, or after its copies
    were published. */
module FailedMerges {
  import opened FileTree
  import opened Disk
  import opened Staging
  import opened Publish
  import opened Rollback
  import opened RollbackInputs
  import opened Merger

  // ----- what a failed publish leaves -----

  /** The first entry that cannot be discarded: it was set aside below a copy. */
  ghost predicate BreaksAt(dests: seq<EntryPath>, deletes: seq<EntryPath>, j: nat) {
    j < |deletes| && !NoCopyAbove(dests, deletes[j]) && forall k :: 0 <= k < j ==> NoCopyAbove(dests, deletes[k])
  }

  /** The entries that the rollback brings back although every copy is in place: not yet
      discarded, not taken along by another entry, and with nothing published at their
      place that a rename cannot replace. */
  ghost function Returning(start: Tree, dests: seq<EntryPath>, deletes: seq<EntryPath>, j: nat): set<Path>
    requires j <= |deletes|
  {
    set a | a in deletes[j..] && !Buried(deletes, a) && !AboveSome(SetOf(dests), a) &&
            (a in dests ==> Find(start, a) != Some(Dir))
  }

  /** What a user finds at `q`: in a returned entry what it held when it was set aside,
      elsewhere what the finished merge would show. */
  ghost function LeftAt(start: Tree, tombs: set<Path>, dests: seq<EntryPath>, sources: Tree, deletes: seq<EntryPath>, j: nat, q: Path): Option<Entry>
    requires j <= |deletes|
  {
    if Covered(Returning(start, dests, deletes, j), q) then
      if exists b :: b in deletes && Buried(deletes, b) && b <= q then None else Find(start, q)
    else Find(Published(start, tombs, CopiesOf(dests, sources)), q)
  }

  // ----- the trash while publishing -----

  lemma {:induction false} PublishKeepsTrash(m: Merge, start: Tree, tombs: set<Path>, sources: Tree, k: nat)
    requires Staged(m, start, tombs, sources) && CopyList(m.copies, sources) && k <= |m.copies|
    requires TrashKept(m.disk, start, m.deletes) && InnerFirst(m.deletes)
    ensures PublishAll(m.disk, m.copies[..k]).Some?
    ensures TrashKept(PublishAll(m.disk, m.copies[..k]).value, start, m.deletes)
  {
    hide Staged, TrashKept, Publishing, PublishOne, InnerFirst;
    PublishesAll(m, start, tombs, sources, k);
    if k == 0 {
      assert m.copies[..0] == [];
    } else {
      PublishKeepsTrash(m, start, tombs, sources, k - 1);
      PublishesAll(m, start, tombs, sources, k - 1);
      assert m.copies[..k][..k - 1] == m.copies[..k - 1];
      var before := PublishAll(m.disk, m.copies[..k - 1]).value;
      PublishStep(before, start, tombs, m.copies, sources, k - 1);
      OnePublished(before, start, tombs, m, sources, k - 1);
    }
  }

  lemma OnePublished(disk: Tree, start: Tree, tombs: set<Path>, m: Merge, sources: Tree, k: nat)
    requires k < |m.copies| && CopyList(m.copies, sources)
    requires Publishing(disk, start, tombs, m.copies, sources, k)
    requires TrashKept(disk, start, m.deletes) && InnerFirst(m.deletes)
    ensures TrashKept(PublishOne(disk, m.copies[k]), start, m.deletes)
  {
    hide PublishOne, PublishingAt, WellFormed, KeptOf, Antichain;
    var x := m.copies[k];
    NextCopyReady(disk, start, tombs, m.copies, sources, k);
    forall a | a in m.deletes
      ensures KeptOf(PublishOne(disk, x), start, m.deletes, a)
    {
      forall s
        ensures Find(PublishOne(disk, x), Trash(a) + s) == Find(disk, Trash(a) + s)
      {
        PublishOneAt(disk, x, Trash(a) + s);
        TrashIsNoCopy(a, x, s);
      }
      SameTrash(disk, PublishOne(disk, x), start, m.deletes, a);
    }
  }

  lemma TrashIsNoCopy(a: EntryPath, x: EntryPath, s: Path)
    requires Named(a) && Named(x)
    ensures Trash(a) + s != x && !(Tmp(x) <= Trash(a) + s)
  {
    SideShape(TRASH, a);
    assert Trash(a) <= Trash(a) + s;
    if Tmp(x) <= Trash(a) + s {
      PrefixesComparable(Tmp(x), Trash(a), Trash(a) + s);
      if Tmp(x) <= Trash(a) {
        SidesMeet(TMP, x, TRASH, a);
      } else {
        SidesMeet(TRASH, a, TMP, x);
      }
    }
  }

  // ----- the tree from which the rollback starts -----

  /** Published, the first `j` entries discarded, the side files of the copies dropped. */
  ghost function Cut(published: Tree, m: Merge, j: nat): Tree
    requires j <= |m.deletes|
  {
    DropTmps(Discard(published, m.deletes[..j]), m.copies)
  }

  lemma CutWellFormed(published: Tree, m: Merge, j: nat)
    requires WellFormed(published) && j <= |m.deletes| && Paths(m.copies) && InnerFirst(m.deletes)
    ensures WellFormed(Cut(published, m, j))
  {
    hide WithoutAll, WellFormed;
    WithoutAllWellFormed(published, Trashes(m.deletes[..j]));
    WithoutAllWellFormed(Discard(published, m.deletes[..j]), Tmps(m.copies));
  }

  lemma CutKeepsUserPaths(published: Tree, m: Merge, j: nat, q: Path)
    requires j <= |m.deletes| && Paths(m.copies) && Clean(q)
    ensures Find(Cut(published, m, j), q) == Find(published, q)
  {
    DiscardKeepsUserPaths(published, m.deletes[..j], q);
    forall x: EntryPath | x in m.copies
      ensures !(Tmp(x) <= q)
    {
      SideShape(TMP, x);
    }
  }

  lemma CutTrash(published: Tree, m: Merge, j: nat, i: nat, s: Path)
    requires j <= |m.deletes| && i < |m.deletes| && Paths(m.copies) && InnerFirst(m.deletes)
    ensures Find(Cut(published, m, j), Trash(m.deletes[i]) + s) ==
      if i < j then None else Find(published, Trash(m.deletes[i]) + s)
  {
    var a := m.deletes[i];
    var q := Trash(a) + s;
    assert a in m.deletes && Trash(a) <= q;
    forall x: EntryPath | x in m.copies
      ensures !(Tmp(x) <= q)
    {
      TrashIsNoCopy(a, x, s);
    }
    if i < j {
      assert a in m.deletes[..j];
      assert Trash(a) in Trashes(m.deletes[..j]);
    } else {
      forall b: EntryPath | b in m.deletes[..j]
        ensures !(Trash(b) <= q)
      {
        var k :| 0 <= k < j && m.deletes[k] == b;
        assert b in m.deletes;
        if Trash(b) <= q {
          TrashApart(a, b, q);
        }
      }
    }
  }

  /** Every copy is in place, and what was set aside is still where it was. */
  ghost predicate AllPublished(published: Tree, m: Merge, start: Tree, tombs: set<Path>, sources: Tree) {
    && UserTree(start) && CopyList(m.copies, sources) && InnerFirst(m.deletes)
    && Publishing(published, start, tombs, m.copies, sources, |m.copies|)
    && TrashKept(published, start, m.deletes)
    && (forall a :: a in m.deletes ==> a in start && (a in tombs || (a in m.copies && Find(start, a) == Some(Dir))))
  }

  /** An entry that nothing took along has no copy above it. */
  lemma NoCopyAboveIfKept(published: Tree, m: Merge, start: Tree, tombs: set<Path>, sources: Tree, a: EntryPath)
    requires AllPublished(published, m, start, tombs, sources) && a in m.deletes && !Buried(m.deletes, a)
    ensures NoCopyAbove(m.copies, a)
  {
    TrashIsFull(published, start, m.deletes, a);
    assert Named(a);
    SideShape(TRASH, a);
    forall x | x in SetOf(m.copies)
      ensures !(x < a)
    {
      AboveIsAboveTrash(a, x);
      if x < Trash(a) {
        FileAboveDeleted(published, start, tombs, m.copies, sources, a, x);
      }
    }
  }

  lemma AboveIsAboveTrash(a: EntryPath, x: Path)
    ensures x < a ==> x < Trash(a)
  {
    assert x < a ==> x <= Parent(a);
    assert Parent(a) < Trash(a);
  }

  lemma PlaceTaken(published: Tree, m: Merge, start: Tree, tombs: set<Path>, sources: Tree, j: nat, a: EntryPath)
    requires AllPublished(published, m, start, tombs, sources) && j <= |m.deletes| && a in m.deletes
    requires NoCopyAbove(m.copies, a)
    ensures Find(Cut(published, m, j), a) ==
      if a in m.copies then Some(sources[a]) else if AboveSome(SetOf(m.copies), a) then Some(Dir) else None
  {
    var copies := CopiesOf(m.copies, sources);
    assert Named(a);
    assert copies.Keys == SetOf(m.copies);
    CutKeepsUserPaths(published, m, j, a);
    PublishedToUser(published, start, tombs, m.copies, sources, a);
    PublishedAt(start, tombs, copies, a);
    assert a in tombs ==> Covered(tombs, a);
  }

  /** Something published below `a` is still there. */
  lemma CopyBelowStays(published: Tree, m: Merge, start: Tree, tombs: set<Path>, sources: Tree, j: nat, x: EntryPath)
    requires AllPublished(published, m, start, tombs, sources) && j <= |m.deletes| && x in m.copies
    ensures Find(Cut(published, m, j), x) == Some(sources[x])
  {
    assert Named(x);
    CutKeepsUserPaths(published, m, j, x);
    assert m.copies[..|m.copies|] == m.copies;
    assert Find(published, x) == PublishingAt(start, tombs, m.copies, sources, |m.copies|, x);
  }

  /** Which renames of the rollback succeed. */
  lemma CanReturnIff(published: Tree, m: Merge, start: Tree, tombs: set<Path>, sources: Tree, j: nat, a: EntryPath)
    requires AllPublished(published, m, start, tombs, sources) && j <= |m.deletes| && a in m.deletes
    ensures CanRename(Cut(published, m, j), Trash(a), a) <==> a in Returning(start, m.copies, m.deletes, j)
  {
    hide TrashKept, PublishingAt, Distinct, Antichain, UserTree;
    var disk := Cut(published, m, j);
    var i := TrashAt(published, m, start, j, a);
    if i >= j && !Buried(m.deletes, a) {
      NoCopyAboveIfKept(published, m, start, tombs, sources, a);
      PlaceTaken(published, m, start, tombs, sources, j, a);
      TrashNotBelow(a, []);
      assert Trash(a) + [] == Trash(a);
      PlaceBlockedIff(published, m, start, tombs, sources, j, a);
    }
  }

  lemma TrashAt(published: Tree, m: Merge, start: Tree, j: nat, a: EntryPath) returns (i: nat)
    requires WellFormed(published) && TrashKept(published, start, m.deletes) && InnerFirst(m.deletes) && Paths(m.copies)
    requires j <= |m.deletes| && a in m.deletes && a in start
    ensures i < |m.deletes| && m.deletes[i] == a && (a in m.deletes[j..] <==> i >= j)
    ensures Find(Cut(published, m, j), Trash(a)) == if i >= j && !Buried(m.deletes, a) then Some(start[a]) else None
    ensures i >= j && !Buried(m.deletes, a) ==> Find(Cut(published, m, j), Parent(a)) == Some(Dir)
  {
    hide Cut, Clean;
    i :| 0 <= i < |m.deletes| && m.deletes[i] == a;
    assert KeptOf(published, start, m.deletes, a);
    CutTrash(published, m, j, i, []);
    assert Trash(a) + [] == Trash(a);
    if a in m.deletes[j..] {
      var k :| j <= k < |m.deletes| && m.deletes[k] == a;
      assert i == k;
    }
    if i >= j {
      assert m.deletes[j..][i - j] == a;
      if !Buried(m.deletes, a) {
        TrashIsFull(published, start, m.deletes, a);
        CutWellFormed(published, m, j);
        SideShape(TRASH, a);
        assert Parent(a) < Trash(a);
      }
    }
  }

  lemma PlaceBlockedIff(published: Tree, m: Merge, start: Tree, tombs: set<Path>, sources: Tree, j: nat, a: EntryPath)
    requires AllPublished(published, m, start, tombs, sources) && j <= |m.deletes| && a in m.deletes
    requires NoCopyAbove(m.copies, a)
    ensures var disk := Cut(published, m, j);
      ((a in disk ==> start[a].Dir? == disk[a].Dir?) &&
       (a in disk && disk[a].Dir? ==> forall q :: q in disk ==> !(a < q))) <==>
      (!AboveSome(SetOf(m.copies), a) && (a in m.copies ==> !start[a].Dir?))
  {
    var disk := Cut(published, m, j);
    PlaceTaken(published, m, start, tombs, sources, j, a);
    if a in m.copies {
      assert a in SetOf(m.copies) && !sources[a].Dir?;
    } else if AboveSome(SetOf(m.copies), a) {
      var x :| x in SetOf(m.copies) && a < x;
      CopyBelowStays(published, m, start, tombs, sources, j, x);
      assert x in disk;
    }
  }

  // ----- what the user finds -----

  /** The tree after the rollback. */
  ghost predicate RolledBack(published: Tree, m: Merge, j: nat, left: Tree)
    requires j <= |m.deletes|
  {
    var disk := Cut(published, m, j);
    RestoredTo(disk, Back(disk, m.deletes), left)
  }

  lemma UserFinds(published: Tree, m: Merge, start: Tree, tombs: set<Path>, sources: Tree, j: nat, left: Tree, q: Path)
    requires AllPublished(published, m, start, tombs, sources) && j <= |m.deletes|
    requires RolledBack(published, m, j, left) && Clean(q)
    ensures Find(left, q) == LeftAt(start, tombs, m.copies, sources, m.deletes, j, q)
  {
    hide Publishing, TrashKept, UserTree, Cut, CanRename, Returning, RestoredTo;
    var disk := Cut(published, m, j);
    forall a | a in m.deletes
      ensures a in Back(disk, m.deletes) <==> a in Returning(start, m.copies, m.deletes, j)
    {
      CanReturnIff(published, m, start, tombs, sources, j, a);
    }
    ReturningAreRecorded(start, m.copies, m.deletes, j);
    if Covered(Returning(start, m.copies, m.deletes, j), q) {
      var a :| a in Returning(start, m.copies, m.deletes, j) && a <= q;
      UnfoldRestored(disk, Back(disk, m.deletes), left, q);
      ReturnedHolds(published, m, start, j, a, q);
    } else {
      UserPathStays(disk, Back(disk, m.deletes), left, q);
      CutKeepsUserPaths(published, m, j, q);
      PublishedToUser(published, start, tombs, m.copies, sources, q);
    }
  }

  lemma ReturningAreRecorded(start: Tree, dests: seq<EntryPath>, deletes: seq<EntryPath>, j: nat)
    requires j <= |deletes|
    ensures forall a :: a in Returning(start, dests, deletes, j) ==> a in deletes && a in deletes[j..] && !Buried(deletes, a)
  {
  }

  /** The trash of an entry that is not discarded holds what `LeftAt` says. */
  lemma ReturnedHolds(published: Tree, m: Merge, start: Tree, j: nat, a: EntryPath, q: Path)
    requires TrashKept(published, start, m.deletes) && InnerFirst(m.deletes) && Paths(m.copies) && j <= |m.deletes|
    requires a in m.deletes[j..] && !Buried(m.deletes, a) && a <= q && Clean(q)
    ensures Find(Cut(published, m, j), Trash(a) + q[|a|..]) ==
      if exists b :: b in m.deletes && Buried(m.deletes, b) && b <= q then None else Find(start, q)
  {
    hide Cut;
    var s := q[|a|..];
    var k :| 0 <= k < |m.deletes| - j && m.deletes[j..][k] == a;
    assert m.deletes[j + k] == a && a in m.deletes;
    CutTrash(published, m, j, j + k, s);
    SplitAt(q, a);
    assert KeptOf(published, start, m.deletes, a);
    assert HeldAt(published, start, m.deletes, a, s);
    BuriedBelow(m.deletes, a, q);
  }

  lemma BuriedBelow(deletes: seq<EntryPath>, a: EntryPath, q: Path)
    requires a in deletes && !Buried(deletes, a) && a <= q
    ensures (exists b :: b in deletes && Buried(deletes, b) && b <= q) <==> exists b :: b in deletes && a < b && b <= q
  {
    if b :| b in deletes && Buried(deletes, b) && b <= q {
      PrefixesComparable(a, b, q);
      assert b <= a ==> b == a || b < a;
      assert a <= b ==> b == a || a < b;
    }
    if b :| b in deletes && a < b && b <= q {
      assert Buried(deletes, b);
    }
  }

  lemma OnlyTrashLeft(published: Tree, m: Merge, start: Tree, tombs: set<Path>, sources: Tree, j: nat, left: Tree, q: Path)
    requires AllPublished(published, m, start, tombs, sources) && SideFilesKnown(published, {}, m.deletes)
    requires j <= |m.deletes| && RolledBack(published, m, j, left) && q in left && !Clean(q)
    ensures InTrash(m.deletes, q)
  {
    hide PublishingAt, WellFormed, UserTree, CanRename, RestoredTo, CopyList, Cut, SideFilesKnown, TrashKept, InnerFirst, InTrash, Clean;
    var disk := Cut(published, m, j);
    if q in disk {
      CutOnlyRemoves(published, m, j, q);
      KnownIsTrash(published, m.deletes, q);
    } else {
      var a := CameFrom(disk, Back(disk, m.deletes), left, q);
      CutOnlyRemoves(published, m, j, Trash(a) + q[|a|..]);
      StillInTrash(published, m, start, a, q);
    }
  }

  /** What is new after renaming back came out of a trash. */
  lemma CameFrom(disk: Tree, back: set<EntryPath>, left: Tree, q: Path) returns (a: EntryPath)
    requires RestoredTo(disk, back, left) && q in left && q !in disk
    ensures a in back && a <= q && Trash(a) + q[|a|..] in disk
  {
    hide RestoredTo;
    UnfoldRestored(disk, back, left, q);
    assert Find(left, q).Some?;
    a :| a in back && a <= q;
  }

  lemma CutOnlyRemoves(published: Tree, m: Merge, j: nat, q: Path)
    requires j <= |m.deletes|
    ensures q in Cut(published, m, j) ==> q in published
  {
  }

  lemma KnownIsTrash(published: Tree, deletes: seq<EntryPath>, q: Path)
    requires SideFilesKnown(published, {}, deletes) && q in published && !Clean(q)
    ensures InTrash(deletes, q)
  {
  }

  lemma StillInTrash(published: Tree, m: Merge, start: Tree, a: EntryPath, q: Path)
    requires WellFormed(published) && TrashKept(published, start, m.deletes) && InnerFirst(m.deletes)
    requires a in m.deletes && a <= q && !Clean(q) && Trash(a) + q[|a|..] in published
    ensures InTrash(m.deletes, q)
  {
    var s := q[|a|..];
    SplitAt(q, a);
    assert Named(a) && !Clean(s);
    assert Trash(a) == Trash(a) + s || Trash(a) < Trash(a) + s;
    assert Trash(a) in published;
    assert KeptOf(published, start, m.deletes, a);
    assert HeldAt(published, start, m.deletes, a, s);
  }

  lemma StagedIsDroppable(start: Tree, targets: seq<EntryPath>, dests: seq<EntryPath>, sources: Tree)
    requires UserTree(start) && Paths(targets) && CopyList(dests, sources) && StageMerge(start, targets, dests, sources).Some?
    ensures var m := StageMerge(start, targets, dests, sources).value;
      && InnerFirst(m.deletes) && TrashKept(m.disk, start, m.deletes)
      && (forall a :: a in m.deletes ==>
            a in start && (a in SetOf(targets) || (a in dests && Find(start, a) == Some(Dir))))
  {
    hide StageDeletes, StageCopies, Staged;
    var first := StageDeletes(Merge(start, [], []), targets);
    var m := StageMerge(start, targets, dests, sources).value;
    DeletesReach(start, targets);
    NoCopiesYet(start, targets);
    CopiesReach(first, start, sources, dests);
    UserTreeStaged(start, sources);
    DeletesStaged(start, start, sources, targets);
    CopiesRecord(first, start, SetOf(targets), sources, dests);
    RecordedDeletes(start, targets);
    forall a | a in m.deletes
      ensures a in SetOf(targets) || (a in dests && Find(start, a) == Some(Dir))
    {
      assert a in SetOf(m.deletes);
    }
  }

  /** After the publish renames of a staged merge. */
  lemma PublishReaches(start: Tree, targets: seq<EntryPath>, dests: seq<EntryPath>, sources: Tree)
    requires UserTree(start) && Paths(targets) && CopyList(dests, sources) && StageMerge(start, targets, dests, sources).Some?
    ensures var m := StageMerge(start, targets, dests, sources).value;
      && m.copies == dests && PublishAll(m.disk, dests).Some?
      && AllPublished(PublishAll(m.disk, dests).value, m, start, SetOf(targets), sources)
      && SideFilesKnown(PublishAll(m.disk, dests).value, {}, m.deletes)
  {
    hide StageMerge, Publishing, TrashKept, SideFilesKnown, UserTree, Staged, InnerFirst, PublishAll;
    var m, n := StageMerge(start, targets, dests, sources).value, |dests|;
    StagedMergeShape(start, targets, dests, sources);
    StagedIsDroppable(start, targets, dests, sources);
    assert m.copies[..n] == dests && m.copies[n..] == [];
    assert SetOf([]) == {};
    PublishesAll(m, start, SetOf(targets), sources, n);
    PublishKeepsTrash(m, start, SetOf(targets), sources, n);
    KnownAfterPublish(m, start, SetOf(targets), sources, n);
  }

  /** Publishing a staged merge breaks off only with every copy in place. */
  lemma BrokeAfterCopies(m: Merge, start: Tree, tombs: set<Path>, sources: Tree, i: nat, j: nat, left: Tree)
    requires Staged(m, start, tombs, sources) && CopyList(m.copies, sources)
    requires i <= |m.copies| && j <= |m.deletes| && BrokeAt(m, i, j, left)
    ensures i == |m.copies| && j < |m.deletes|
  {
    hide Staged, Publishing, PublishOne, CanRemove, BrokenPublish;
    if i < |m.copies| {
      PublishesAll(m, start, tombs, sources, i);
      PublishStep(PublishAll(m.disk, m.copies[..i]).value, start, tombs, m.copies, sources, i);
    }
  }

  /** A failed publish leaves every copy in place and, of what was set aside, brings back
      exactly the entries named by `Returning`; the rest of it is discarded or stays in
      trash. Nothing else in the tree is touched. */
  lemma FailedPublishLeaves(start: Tree, targets: seq<EntryPath>, dests: seq<EntryPath>, sources: Tree, left: Tree)
    returns (j: nat)
    requires UserTree(start) && Paths(targets) && CopyList(dests, sources)
    requires StageMerge(start, targets, dests, sources).Some?
    requires PublishBroke(StageMerge(start, targets, dests, sources).value, left)
    ensures var m := StageMerge(start, targets, dests, sources).value;
      && BreaksAt(dests, m.deletes, j)
      && (forall q :: Clean(q) ==> Find(left, q) == LeftAt(start, SetOf(targets), dests, sources, m.deletes, j, q))
      && (forall q :: q in left && !Clean(q) ==> InTrash(m.deletes, q))
  {
    hide StageMerge, AllPublished, SideFilesKnown, RolledBack, Clean, InTrash, LeftAt, CanRemove, PublishAll, Staged, UserTree;
    var m, tombs := StageMerge(start, targets, dests, sources).value, SetOf(targets);
    StagedMergeShape(start, targets, dests, sources);
    var i, n :| 0 <= i <= |m.copies| && 0 <= n <= |m.deletes| && BrokeAt(m, i, n, left);
    j := n;
    BrokeAfterCopies(m, start, tombs, sources, i, j, left);
    assert m.copies[..i] == dests;
    PublishReaches(start, targets, dests, sources);
    var published := PublishAll(m.disk, dests).value;
    BreaksThere(published, m, start, tombs, sources, j);
    RollsBack(published, m, start, tombs, sources, j);
    forall q | Clean(q)
      ensures Find(left, q) == LeftAt(start, tombs, dests, sources, m.deletes, j, q)
    {
      UserFinds(published, m, start, tombs, sources, j, left, q);
    }
    forall q | q in left && !Clean(q)
      ensures InTrash(m.deletes, q)
    {
      OnlyTrashLeft(published, m, start, tombs, sources, j, left, q);
    }
  }

  lemma BreaksThere(published: Tree, m: Merge, start: Tree, tombs: set<Path>, sources: Tree, j: nat)
    requires AllPublished(published, m, start, tombs, sources) && j < |m.deletes|
    requires !CanRemove(Discard(published, m.deletes[..j]), Trash(m.deletes[j]))
    requires forall k :: 0 <= k < j ==> CanRemove(Discard(published, m.deletes[..k]), Trash(m.deletes[k]))
    ensures BreaksAt(m.copies, m.deletes, j)
  {
    hide CanRemove, Discard, Publishing, TrashKept, UserTree, NoCopyAbove;
    forall k | 0 <= k <= j
      ensures CanRemove(Discard(published, m.deletes[..k]), Trash(m.deletes[k])) <==> NoCopyAbove(m.copies, m.deletes[k])
    {
      assert m.deletes[k] in m.deletes;
      TrashBlocked(published, start, tombs, m.copies, sources, m.deletes[..k], m.deletes[k]);
    }
  }

  lemma RollsBack(published: Tree, m: Merge, start: Tree, tombs: set<Path>, sources: Tree, j: nat)
    requires AllPublished(published, m, start, tombs, sources) && j <= |m.deletes|
    ensures RolledBack(published, m, j, RollBack(Merge(Discard(published, m.deletes[..j]), m.copies, m.deletes)))
  {
    hide WellFormed, InnerFirst, Cut;
    CutWellFormed(published, m, j);
    RestoreAllRestores(Cut(published, m, j), m.deletes);
    assert Cut(published, m, j) == DropTmps(Discard(published, m.deletes[..j]), m.copies) by {
      CutIs(published, m, j);
    }
  }

  lemma CutIs(published: Tree, m: Merge, j: nat)
    requires j <= |m.deletes|
    ensures Cut(published, m, j) == DropTmps(Discard(published, m.deletes[..j]), m.copies)
  {
  }

  /** A copy is in place after a failed publish unless it replaced a file that the merge
      was also to delete. */
  lemma CopyLeft(start: Tree, tombs: set<Path>, dests: seq<EntryPath>, sources: Tree, deletes: seq<EntryPath>, j: nat, x: EntryPath)
    requires CopyList(dests, sources) && j <= |deletes| && x in dests
    requires forall a :: a in deletes ==> a in tombs || (a in dests && Find(start, a) == Some(Dir))
    requires x !in tombs || Find(start, x) == Some(Dir)
    ensures LeftAt(start, tombs, dests, sources, deletes, j, x) == Some(sources[x])
  {
    hide Published;
    PublishedAt(start, tombs, CopiesOf(dests, sources), x);
    assert x in SetOf(dests);
    forall a | a in Returning(start, dests, deletes, j)
      ensures !(a <= x)
    {
      assert a in deletes;
      assert a < x ==> AboveSome(SetOf(dests), a);
      assert a <= x ==> a == x || a < x;
    }
  }

  /** A publish fails only below a directory that a copy has replaced by a file. */
  lemma BreaksBelowCopy(start: Tree, tombs: set<Path>, dests: seq<EntryPath>, sources: Tree, deletes: seq<EntryPath>, j: nat)
    returns (x: EntryPath)
    requires UserTree(start) && CopyList(dests, sources) && BreaksAt(dests, deletes, j)
    requires forall a :: a in deletes ==> a in start && (a in tombs || a in dests)
    ensures x in dests && x < deletes[j] && deletes[j] in tombs && deletes[j] in start && Find(start, x) == Some(Dir)
  {
    var t := deletes[j];
    assert t in deletes;
    var y :| y in SetOf(dests) && y < t;
    x := y;
    assert t in dests ==> t in SetOf(dests);
  }

  // ----- failed merges, by their inputs -----

  /** The paths of a merge are user paths other than the root. */
  ghost predicate MergePaths(dest: Tree, tombs: set<Path>, sources: Tree) {
    && UserTree(dest) && Antichain(sources.Keys)
    && (forall t :: t in tombs ==> Named(t))
    && (forall x :: x in sources ==> Named(x) && !sources[x].Dir?)
  }

  ghost predicate FaultOk(fault: Fault) {
    fault.AfterTmp? ==> !fault.partial.Dir?
  }

  /** Some copies were staged, the next one failed, and the merge was dropped. */
  ghost predicate StagingBroke(dest: Tree, tombs: set<Path>, sources: Tree, left: Tree) {
    exists targets, dests, x, fault ::
      && Paths(targets) && SetOf(targets) == tombs && CopyList(dests, sources) && CopyList(dests + [x], sources) && FaultOk(fault)
      && BrokeWith(dest, targets, dests, sources, Failed(x, fault), left)
  }

  ghost predicate BrokeWith(dest: Tree, targets: seq<EntryPath>, dests: seq<EntryPath>, sources: Tree, last: LastCopy, left: Tree)
    requires CopyList(dests, sources)
  {
    var staged := StageMerge(dest, targets, dests, sources);
    staged.Some? && left == RollBack(BrokenOff(staged.value, last))
  }

  /** Everything was staged, and publishing failed. */
  ghost predicate PublishFailed(dest: Tree, tombs: set<Path>, sources: Tree, left: Tree) {
    exists targets, dests ::
      && Paths(targets) && SetOf(targets) == tombs && CopyList(dests, sources) && SetOf(dests) == sources.Keys
      && FailedWith(dest, targets, dests, sources, left)
  }

  ghost predicate FailedWith(dest: Tree, targets: seq<EntryPath>, dests: seq<EntryPath>, sources: Tree, left: Tree)
    requires CopyList(dests, sources)
  {
    var staged := StageMerge(dest, targets, dests, sources);
    staged.Some? && PublishBroke(staged.value, left)
  }

  ghost predicate MergeFailed(dest: Tree, tombs: set<Path>, sources: Tree, left: Tree) {
    StagingBroke(dest, tombs, sources, left) || PublishFailed(dest, tombs, sources, left)
  }

  /** A failed publish is never a rollback: every copy whose path was not to be deleted is
      in place, and below one of them, once a directory, the old entries are gone. */
  lemma PublishFailedKeepsCopies(dest: Tree, tombs: set<Path>, sources: Tree, left: Tree)
    requires MergePaths(dest, tombs, sources) && PublishFailed(dest, tombs, sources, left)
    ensures forall x :: x in sources && (x !in tombs || Find(dest, x) == Some(Dir)) ==> Find(left, x) == Some(sources[x])
    ensures exists x, t ::
      && x in sources && t in tombs && t in dest && x < t
      && Find(dest, x) == Some(Dir) && Find(left, x) == Some(sources[x])
  {
    hide StageMerge, PublishBroke, InTrash, LeftAt, UserTree, InnerFirst, TrashKept;
    var targets, dests :|
      && Paths(targets) && SetOf(targets) == tombs && CopyList(dests, sources) && SetOf(dests) == sources.Keys
      && FailedWith(dest, targets, dests, sources, left);
    var m := StageMerge(dest, targets, dests, sources).value;
    var j := FailedPublishLeaves(dest, targets, dests, sources, left);
    StagedIsDroppable(dest, targets, dests, sources);
    forall x | x in sources && (x !in tombs || Find(dest, x) == Some(Dir))
      ensures Find(left, x) == Some(sources[x])
    {
      assert x in SetOf(dests) && Clean(x);
      CopyLeft(dest, tombs, dests, sources, m.deletes, j, x);
    }
    var x := BreaksBelowCopy(dest, tombs, dests, sources, m.deletes, j);
    assert x in SetOf(dests);
  }

  /** Everything that some run of the staging sets aside. */
  ghost function Displaced(dest: Tree, tombs: set<Path>, sources: Tree): set<Path> {
    (set t | t in tombs && t in dest) + set x | x in sources && ClearsDir(dest, tombs, x)
  }

  /** Whatever holds a file and is set aside has nothing else set aside above it, and no
      copy that can be staged lies below it. */
  ghost predicate SafeMerge(dest: Tree, tombs: set<Path>, sources: Tree) {
    forall a :: a in Displaced(dest, tombs, sources) && HoldsFile(dest, a) ==>
      && (forall b :: b in Displaced(dest, tombs, sources) ==> !(b < a))
      && (forall y :: y in sources && RoomAbove(dest, tombs, y) ==> !(a < y))
  }

  /** A merge that fails while it is staged gives every file back, in whatever order its
      deletions and copies are taken and wherever a copy breaks off: exactly when its
      inputs are safe, or it has no copies to fail. */
  lemma BrokenStagingRestoresIff(dest: Tree, tombs: set<Path>, sources: Tree)
    requires MergePaths(dest, tombs, sources)
    ensures (forall left :: StagingBroke(dest, tombs, sources, left) ==> FilesBack(dest, left)) <==>
      sources == map[] || SafeMerge(dest, tombs, sources)
  {
    hide StagingBroke, FilesBack, SafeMerge, MergePaths;
    if sources == map[] {
      forall left | StagingBroke(dest, tombs, sources, left)
        ensures false
      {
        NothingToCopy(dest, tombs, sources, left);
      }
    } else if SafeMerge(dest, tombs, sources) {
      forall left | StagingBroke(dest, tombs, sources, left)
        ensures FilesBack(dest, left)
      {
        SafeStagingRestores(dest, tombs, sources, left);
      }
    } else {
      var left := UnsafeStagingLoses(dest, tombs, sources);
    }
  }

  lemma NothingToCopy(dest: Tree, tombs: set<Path>, sources: Tree, left: Tree)
    requires StagingBroke(dest, tombs, sources, left)
    ensures sources != map[]
  {
    var targets, dests, x, fault :|
      && Paths(targets) && SetOf(targets) == tombs && CopyList(dests, sources) && CopyList(dests + [x], sources) && FaultOk(fault)
      && BrokeWith(dest, targets, dests, sources, Failed(x, fault), left);
    assert (dests + [x])[|dests|] in sources;
  }

  lemma SafeStagingRestores(dest: Tree, tombs: set<Path>, sources: Tree, left: Tree)
    requires MergePaths(dest, tombs, sources) && StagingBroke(dest, tombs, sources, left) && SafeMerge(dest, tombs, sources)
    ensures FilesBack(dest, left)
  {
    hide StageMerge, BrokenOff, FilesBack, UserTree, Clean, SafeMerge, SafeToDrop;
    var targets, dests, x, fault :|
      && Paths(targets) && SetOf(targets) == tombs && CopyList(dests, sources) && CopyList(dests + [x], sources) && FaultOk(fault)
      && BrokeWith(dest, targets, dests, sources, Failed(x, fault), left);
    StagedMergeShape(dest, targets, dests, sources);
    SafeForAll(dest, tombs, sources, dests, Failed(x, fault));
    EveryOrderRestoresIff(dest, tombs, dests, sources, Failed(x, fault));
    assert FilesBackInOrder(dest, targets, dests, sources, Failed(x, fault));
  }

  lemma SafeForAll(dest: Tree, tombs: set<Path>, sources: Tree, dests: seq<EntryPath>, last: LastCopy)
    requires SafeMerge(dest, tombs, sources) && CopyList(AllDests(dests, last), sources) && CopyList(dests, sources)
    requires RoomForAll(dest, tombs, dests)
    ensures SafeToDrop(dest, tombs, dests, last)
  {
    hide RoomAbove, ClearsDir, HoldsFile;
    var all := AllDests(dests, last);
    assert last.Failed? ==> all[|all| - 1] == last.dest;
    assert forall x :: x in all ==> x in sources;
    assert Removed(dest, tombs, dests, last) <= Displaced(dest, tombs, sources);
    forall y | y in MadeFor(dest, tombs, dests, last)
      ensures y in sources && RoomAbove(dest, tombs, y)
    {
    }
  }

  lemma OneCopy(sources: Tree, x: EntryPath)
    requires x in sources && Named(x) && !sources[x].Dir?
    ensures CopyList([], sources) && CopyList([] + [x], sources) && SetOf([]) == {}
  {
    assert [] + [x] == [x];
  }

  lemma UnsafeStagingLoses(dest: Tree, tombs: set<Path>, sources: Tree) returns (left: Tree)
    requires MergePaths(dest, tombs, sources) && !SafeMerge(dest, tombs, sources) && sources != map[]
    ensures StagingBroke(dest, tombs, sources, left) && !FilesBack(dest, left)
  {
    hide StageMerge, BrokenOff, FilesBack, UserTree, Clean, SafeMerge, SafeToDrop, FilesBackInOrder;
    var last := UnsafeCopy(dest, tombs, sources);
    OneCopy(sources, last.dest);
    EveryOrderRestoresIff(dest, tombs, [], sources, last);
    var targets :| Paths(targets) && SetOf(targets) == tombs && !FilesBackInOrder(dest, targets, [], sources, last);
    StagedMergeShape(dest, targets, [], sources);
    left := RollBack(BrokenOff(StageMerge(dest, targets, [], sources).value, last));
    assert BrokeWith(dest, targets, [], sources, Failed(last.dest, last.fault), left);
    assert !FilesBack(dest, left) by { NotInOrder(dest, targets, [], sources, last); }
  }

  lemma NotInOrder(dest: Tree, targets: seq<EntryPath>, dests: seq<EntryPath>, sources: Tree, last: LastCopy)
    requires CopyList(dests, sources) && StageMerge(dest, targets, dests, sources).Some?
    requires !FilesBackInOrder(dest, targets, dests, sources, last)
    ensures !FilesBack(dest, RollBack(BrokenOff(StageMerge(dest, targets, dests, sources).value, last)))
  {
    hide StageMerge, BrokenOff, FilesBack, RollBack, CopyList;
  }

  /** A first copy whose failure loses a file. */
  lemma UnsafeCopy(dest: Tree, tombs: set<Path>, sources: Tree) returns (last: LastCopy)
    requires MergePaths(dest, tombs, sources) && !SafeMerge(dest, tombs, sources) && sources != map[]
    ensures last.Failed? && FaultOk(last.fault) && last.dest in sources && !SafeToDrop(dest, tombs, [], last)
  {
    hide RoomAbove, HoldsFile, UserTree, Clean;
    var a :| a in Displaced(dest, tombs, sources) && HoldsFile(dest, a) &&
      !((forall b :: b in Displaced(dest, tombs, sources) ==> !(b < a)) &&
        (forall y :: y in sources && RoomAbove(dest, tombs, y) ==> !(a < y)));
    if y :| y in sources && RoomAbove(dest, tombs, y) && a < y {
      last := Failed(y, AfterTmp(File([])));
      DeletedAbove(dest, tombs, sources, a, y);
      assert y in MadeFor(dest, tombs, [], last) && y in LeftFor(dest, tombs, last);
      assert !Restorable(dest, MadeFor(dest, tombs, [], last), LeftFor(dest, tombs, last), a);
      assert a in Removed(dest, tombs, [], last);
    } else {
      var b :| b in Displaced(dest, tombs, sources) && b < a;
      var x :| x in sources;
      assert Named(x);
      last := Failed(if b in tombs then x else b, BeforeParents);
      DeletedBelow(dest, tombs, sources, b, a);
      assert a in Removed(dest, tombs, [], last);
      assert b in Removed(dest, tombs, [], last) by {
        if b !in tombs {
          assert AllDests([], last) == [] + [last.dest];
          assert b in AllDests([], last);
        }
      }
    }
  }

  /** What is set aside above a copy, or below something else set aside, is a deletion. */
  lemma DeletedAbove(dest: Tree, tombs: set<Path>, sources: Tree, a: Path, y: Path)
    requires Antichain(sources.Keys) && a in Displaced(dest, tombs, sources) && y in sources && a < y
    ensures a in tombs && a in dest
  {
  }

  lemma DeletedBelow(dest: Tree, tombs: set<Path>, sources: Tree, b: Path, a: Path)
    requires Antichain(sources.Keys) && a in Displaced(dest, tombs, sources) && b in Displaced(dest, tombs, sources) && b < a
    ensures a in tombs && a in dest
  {
    if b in tombs {
      assert Covered(tombs, a);
    }
  }
}
