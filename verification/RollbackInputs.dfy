/** What a rollback gives back, told by the inputs of the merge: a tombstone set has no
    order, so the question is asked of every order of the deletions. */
module RollbackInputs {
  import opened FileTree
  import opened Staging
  import opened Publish
  import opened Rollback

  /** A copy to `x` finds a directory that no deletion removed. */
  ghost predicate ClearsDir(start: Tree, tombs: set<Path>, x: Path) {
    Find(start, x) == Some(Dir) && !Covered(tombs, x)
  }

  /** Everything that some order of the deletions sets aside. */
  ghost function Removed(start: Tree, tombs: set<Path>, dests: seq<EntryPath>, last: LastCopy): set<Path> {
    (set t | t in tombs && t in start) + set x | x in AllDests(dests, last) && ClearsDir(start, tombs, x)
  }

  /** The copies whose parent directories are made ... */
  ghost function MadeFor(start: Tree, tombs: set<Path>, dests: seq<EntryPath>, last: LastCopy): set<Path> {
    SetOf(dests) +
    if last.Failed? && !last.fault.BeforeParents? && RoomAbove(start, tombs, last.dest) then {last.dest} else {}
  }

  /** ... and the one that leaves a side file behind. */
  ghost function LeftFor(start: Tree, tombs: set<Path>, last: LastCopy): set<Path> {
    if last.Failed? && last.fault.AfterTmp? && RoomAbove(start, tombs, last.dest) then {last.dest} else {}
  }

  /** Whatever is set aside and holds a file has nothing else set aside above it, and no
      copy in its place. */
  ghost predicate SafeToDrop(start: Tree, tombs: set<Path>, dests: seq<EntryPath>, last: LastCopy) {
    forall a :: a in Removed(start, tombs, dests, last) && HoldsFile(start, a) ==>
      && (forall b :: b in Removed(start, tombs, dests, last) ==> !(b < a))
      && Restorable(start, MadeFor(start, tombs, dests, last), LeftFor(start, tombs, last), a)
  }

  // ----- what is recorded -----

  lemma ClearedIff(m: Merge, start: Tree, tombs: set<Path>, sources: Tree, x: EntryPath)
    requires Staged(m, start, tombs, sources) && Named(x) && Apart(SetOf(m.copies), x)
    ensures SetOf(ClearDestination(m, x).deletes) == SetOf(m.deletes) + if ClearsDir(start, tombs, x) then {x} else {}
  {
    assert Find(m.disk, x) == StagedAt(start, tombs, SetOf(m.copies), x);
    assert StagedAt(start, tombs, SetOf(m.copies), x) == Some(Dir) <==> ClearsDir(start, tombs, x);
    SetOfMore(m.deletes, x);
  }

  ghost function Cleared(start: Tree, tombs: set<Path>, dests: seq<EntryPath>): set<Path> {
    set x | x in dests && ClearsDir(start, tombs, x)
  }

  lemma ClearedMore(start: Tree, tombs: set<Path>, dests: seq<EntryPath>, x: EntryPath)
    ensures Cleared(start, tombs, dests + [x]) ==
            Cleared(start, tombs, dests) + if ClearsDir(start, tombs, x) then {x} else {}
  {
    assert forall y :: y in dests + [x] <==> y in dests || y == x;
  }

  lemma CopyRecords(m: Merge, start: Tree, tombs: set<Path>, sources: Tree, x: EntryPath, e: Entry)
    requires Staged(m, start, tombs, sources) && Named(x) && Apart(SetOf(m.copies), x) && StageCopy(m, x, e).Some?
    ensures SetOf(StageCopy(m, x, e).value.deletes) == SetOf(m.deletes) + if ClearsDir(start, tombs, x) then {x} else {}
  {
    hide Staged, ClearsDir, WithTmp, CanCopy, ClearDestination;
    ClearedIff(m, start, tombs, sources, x);
  }

  lemma {:induction false} CopiesRecord(m: Merge, start: Tree, tombs: set<Path>, sources: Tree, dests: seq<EntryPath>)
    requires Staged(m, start, tombs, sources) && m.copies == [] && CopyList(dests, sources)
    requires StageCopies(m, dests, sources).Some?
    ensures SetOf(StageCopies(m, dests, sources).value.deletes) == SetOf(m.deletes) + Cleared(start, tombs, dests)
  {
    hide Staged, ClearsDir, StageCopy, SetOf, Paths, Distinct, Antichain;
    if dests == [] {
      assert Cleared(start, tombs, dests) == {};
    } else {
      var n := |dests| - 1;
      var x := LastNamed(dests, sources);
      CopyListPrefix(dests, sources);
      CopiesStaged(m, start, tombs, sources, dests[..n]);
      CopiesRecord(m, start, tombs, sources, dests[..n]);
      var before := StageCopies(m, dests[..n], sources).value;
      CopyRecords(before, start, tombs, sources, x, sources[x]);
      ClearedMore(start, tombs, dests[..n], x);
    }
  }

  lemma LastNamed(dests: seq<EntryPath>, sources: Tree) returns (x: EntryPath)
    requires CopyList(dests, sources) && dests != []
    ensures x == dests[|dests| - 1] && Named(x) && x in sources && dests == dests[..|dests| - 1] + [x]
  {
    x := dests[|dests| - 1];
  }

  /** The recorded entries, the parents made and the side file left, for one order. */
  lemma RecordedInputs(start: Tree, targets: seq<EntryPath>, dests: seq<EntryPath>, sources: Tree, last: LastCopy)
    requires UserTree(start) && Paths(targets) && CopyList(AllDests(dests, last), sources) && CopyList(dests, sources)
    requires StageMerge(start, targets, dests, sources).Some?
    ensures var m := StageMerge(start, targets, dests, sources).value; var tombs := SetOf(targets);
      && SetOf(BrokenOff(m, last).deletes) ==
           SetOf(StageDeletes(Merge(start, [], []), targets).deletes) + Cleared(start, tombs, AllDests(dests, last))
      && Made(m, last) == MadeFor(start, tombs, dests, last) && Left(m, last) == LeftFor(start, tombs, last)
  {
    hide Staged, ClearsDir, WithTmp, CanCopy, ClearDestination, StageDeletes, RoomAbove, Distinct, Antichain, UserTree;
    var m, first, tombs := StageMerge(start, targets, dests, sources).value, StageDeletes(Merge(start, [], []), targets), SetOf(targets);
    StagedMergeShape(start, targets, dests, sources);
    UserTreeStaged(start, sources);
    DeletesStaged(start, start, sources, targets);
    CopiesRecord(first, start, tombs, sources, dests);
    if last.Failed? {
      var x, all := last.dest, AllDests(dests, last);
      assert all[..|all| - 1] == dests && all[|all| - 1] == x && Named(all[|all| - 1]);
      CopyListPrefix(all, sources);
      ClearedIff(m, start, tombs, sources, x);
      ClearedMore(start, tombs, dests, x);
      RoomStep(m, start, tombs, sources, x);
    }
  }

  lemma RecordedDeletes(start: Tree, targets: seq<EntryPath>)
    requires UserTree(start) && Paths(targets)
    ensures RecordedOf(start, targets, StageDeletes(Merge(start, [], []), targets).deletes)
  {
    UserTreeStaged(start, map[]);
    DeletesRecorded(start, start, map[], targets);
  }

  // ----- every order -----

  /** No order records anything but what the inputs say. */
  lemma RecordedAreRemoved(start: Tree, targets: seq<EntryPath>, dests: seq<EntryPath>, sources: Tree, last: LastCopy)
    requires UserTree(start) && Paths(targets) && CopyList(AllDests(dests, last), sources) && CopyList(dests, sources)
    requires StageMerge(start, targets, dests, sources).Some?
    ensures var d := BrokenOff(StageMerge(start, targets, dests, sources).value, last);
      SetOf(d.deletes) <= Removed(start, SetOf(targets), dests, last)
  {
    hide StageDeletes, StageMerge, BrokenOff;
    RecordedInputs(start, targets, dests, sources, last);
    RecordedDeletes(start, targets);
  }

  /** An order in which everything deeper comes first. */
  ghost predicate DeepestFirst(targets: seq<EntryPath>) {
    forall i, j :: 0 <= i < j < |targets| ==> |targets[i]| >= |targets[j]| && targets[i] != targets[j]
  }

  lemma DeeperIsRecorded(start: Tree, targets: seq<EntryPath>, i: nat)
    requires DeepestFirst(targets) && i < |targets| && targets[i] in start
    ensures Recorded(start, targets, i)
  {
    var t := targets[i];
    forall u | u in SetOf(targets[..i])
      ensures !(u <= t)
    {
      var j :| 0 <= j < i && targets[j] == u;
      assert u <= t ==> |u| <= |t|;
      assert u <= t && |u| == |t| ==> u == t;
    }
  }

  /** That order records everything. */
  lemma DeepestFirstRecordsAll(start: Tree, targets: seq<EntryPath>, dests: seq<EntryPath>, sources: Tree, last: LastCopy)
    requires UserTree(start) && Paths(targets) && CopyList(AllDests(dests, last), sources) && CopyList(dests, sources)
    requires StageMerge(start, targets, dests, sources).Some? && DeepestFirst(targets)
    ensures var d := BrokenOff(StageMerge(start, targets, dests, sources).value, last);
      SetOf(d.deletes) == Removed(start, SetOf(targets), dests, last)
  {
    hide StageDeletes, StageMerge, BrokenOff;
    RecordedInputs(start, targets, dests, sources, last);
    RecordedDeletes(start, targets);
    var deletes := StageDeletes(Merge(start, [], []), targets).deletes;
    forall t | t in SetOf(targets) && t in start
      ensures t in SetOf(deletes)
    {
      var i :| 0 <= i < |targets| && targets[i] == t;
      DeeperIsRecorded(start, targets, i);
    }
  }

  lemma {:induction false} DeepestFirstOrder(tombs: set<Path>) returns (targets: seq<EntryPath>)
    requires forall t :: t in tombs ==> Named(t)
    ensures Paths(targets) && SetOf(targets) == tombs && DeepestFirst(targets)
    decreases |tombs|
  {
    hide Clean;
    if tombs == {} {
      targets := [];
    } else {
      var t := Shallowest(tombs);
      assert Named(t);
      var rest := DeepestFirstOrder(tombs - {t});
      targets := rest + [t];
      SetOfMore(rest, t);
      DeepestFirstMore(rest, t);
    }
  }

  lemma DeepestFirstMore(rest: seq<EntryPath>, t: EntryPath)
    requires DeepestFirst(rest) && forall u :: u in SetOf(rest) ==> |t| <= |u| && u != t
    ensures DeepestFirst(rest + [t])
  {
    forall i | 0 <= i < |rest|
      ensures |rest[i]| >= |t| && rest[i] != t
    {
      assert rest[i] in SetOf(rest);
    }
  }

  lemma {:induction false} Shallowest(tombs: set<Path>) returns (t: Path)
    requires tombs != {}
    ensures t in tombs && forall u :: u in tombs ==> |t| <= |u|
    decreases |tombs|
  {
    t :| t in tombs;
    if tombs - {t} != {} {
      var u := Shallowest(tombs - {t});
      if |u| < |t| {
        t := u;
      }
    }
  }

  ghost predicate FilesBackInOrder(start: Tree, targets: seq<EntryPath>, dests: seq<EntryPath>, sources: Tree, last: LastCopy)
    requires CopyList(dests, sources)
  {
    StageMerge(start, targets, dests, sources).Some? &&
    FilesBack(start, RollBack(BrokenOff(StageMerge(start, targets, dests, sources).value, last)))
  }

  /** For one order: all files come back exactly when each recorded entry that held one is
      safe among the recorded ones. */
  lemma OneOrderIff(start: Tree, targets: seq<EntryPath>, dests: seq<EntryPath>, sources: Tree, last: LastCopy)
    requires UserTree(start) && Paths(targets) && CopyList(AllDests(dests, last), sources) && CopyList(dests, sources)
    requires last.Failed? && last.fault.AfterTmp? ==> !last.fault.partial.Dir?
    requires StageMerge(start, targets, dests, sources).Some?
    ensures var recorded := SetOf(BrokenOff(StageMerge(start, targets, dests, sources).value, last).deletes);
      var tombs := SetOf(targets);
      FilesBackInOrder(start, targets, dests, sources, last) <==>
      forall a :: a in recorded && HoldsFile(start, a) ==>
        && (forall b :: b in recorded ==> !(b < a))
        && Restorable(start, MadeFor(start, tombs, dests, last), LeftFor(start, tombs, last), a)
  {
    hide StageMerge, BrokenOff, RollBack, Restorable, HoldsFile, Made, Left, MadeFor, LeftFor, FilesBack;
    var m := StageMerge(start, targets, dests, sources).value;
    var deletes := BrokenOff(m, last).deletes;
    RecordedInputs(start, targets, dests, sources, last);
    RollbackRestoresFilesIff(start, targets, dests, sources, last);
    assert forall a :: a in deletes <==> a in SetOf(deletes);
    forall a
      ensures Buried(deletes, a) <==> exists b :: b in SetOf(deletes) && b < a
    {
      if b :| b in SetOf(deletes) && b < a {
        assert b in deletes;
      }
    }
  }

  /** Whatever the order of the deletions, dropping the merge after any prefix of its
      copies, a failing one included, gives every file back: exactly when the inputs are
      safe. */
  lemma EveryOrderRestoresIff(start: Tree, tombs: set<Path>, dests: seq<EntryPath>, sources: Tree, last: LastCopy)
    requires UserTree(start) && (forall t :: t in tombs ==> Named(t))
    requires CopyList(AllDests(dests, last), sources) && CopyList(dests, sources)
    requires last.Failed? && last.fault.AfterTmp? ==> !last.fault.partial.Dir?
    requires RoomForAll(start, tombs, dests)
    ensures (forall targets :: Paths(targets) && SetOf(targets) == tombs ==> FilesBackInOrder(start, targets, dests, sources, last)) <==>
      SafeToDrop(start, tombs, dests, last)
  {
    hide StageMerge, BrokenOff, FilesBackInOrder, Restorable, HoldsFile, MadeFor, LeftFor, Removed;
    if SafeToDrop(start, tombs, dests, last) {
      forall targets | Paths(targets) && SetOf(targets) == tombs
        ensures FilesBackInOrder(start, targets, dests, sources, last)
      {
        StagedMergeShape(start, targets, dests, sources);
        OneOrderIff(start, targets, dests, sources, last);
        RecordedAreRemoved(start, targets, dests, sources, last);
      }
    } else {
      var targets := DeepestFirstOrder(tombs);
      StagedMergeShape(start, targets, dests, sources);
      OneOrderIff(start, targets, dests, sources, last);
      DeepestFirstRecordsAll(start, targets, dests, sources, last);
      assert !FilesBackInOrder(start, targets, dests, sources, last);
    }
  }
}
