/** Concrete inputs on which a promise of the store does not hold: each one is an
    instance of the condition that the theorem of the same property names. */
module Examples {
  import opened FileTree
  import opened MergeView
  import opened Layers
  import opened Edits
  import opened EditLaws
  import opened EditInvariants
  import opened OpenLaws
  import opened Rename
  import opened Staging
  import opened Publish
  import opened Rollback
  import opened RollbackInputs
  import opened Merger
  import opened FailedMerges
  import opened MergeOrders
  import opened PathText
  import opened TombLog
  import opened Commit
  import opened Chain
  import opened Store
  import opened CommitRun
  import opened CommitContent
  import opened Siblings

  const A: Path := ["a"]
  const AB: Path := ["a", "b"]
  const D: Path := ["d"]
  const DX: Path := ["d", "x"]

  function Plainly(files: Tree, tombs: set<Path>): Layer {
    Layer(None, Lazy, {}, files, EMPTY_TREE, tombs, map[], 0, 0, false)
  }

  // ----- merges -----

  // A directory with one file, and a file to take the directory's place.
  const DIR_AB: Tree := map[[] := Dir, A := Dir, AB := File([])]
  const FILE_A: Tree := map[A := File([1])]

  /** Publishing fails after its renames when a directory with a deleted file becomes a
      file: the set-aside entry would have to be removed from below that file. */
  lemma DeletedBelowNewFile()
    ensures CopyList([A], FILE_A) && StageMerge(DIR_AB, [AB], [A], FILE_A).Some?
    ensures var m := StageMerge(DIR_AB, [AB], [A], FILE_A).value;
      PublishAll(m.disk, m.copies).Some? && !CanDiscard(PublishAll(m.disk, m.copies).value, m.deletes)
  {
    var targets: seq<EntryPath>, dests: seq<EntryPath> := [AB], [A];
    UserStart(DIR_AB);
    assert SetOf(dests) == {A};
    assert RoomForAll(DIR_AB, SetOf(targets), dests) by {
      assert forall q :: q in DIR_AB && q < A ==> q == [];
    }
    MergeMeetsSpec(DIR_AB, targets, dests, FILE_A);
    assert Recorded(DIR_AB, targets, 0) by {
      assert targets[..0] == [] && SetOf([]) == {};
    }
    assert A in SetOf(dests) && A < AB;
    assert !NoCopyAbove(dests, targets[0]);
  }

  /** Then the commit reports an error, the new file stands at "/a", and the old "/a/b" is
      gone. */
  lemma FailedPublishReplaces()
    ensures CopyList([A], FILE_A) && StageMerge(DIR_AB, [AB], [A], FILE_A).Some?
    ensures forall left :: PublishBroke(StageMerge(DIR_AB, [AB], [A], FILE_A).value, left) ==>
      Find(left, A) == Some(File([1])) && AB !in left
  {
    DeletedBelowNewFile();
    forall left | PublishBroke(StageMerge(DIR_AB, [AB], [A], FILE_A).value, left)
      ensures Find(left, A) == Some(File([1])) && AB !in left
    {
      OneFailedPublish(left);
    }
  }

  lemma OneFailedPublish(left: Tree)
    requires CopyList([A], FILE_A) && StageMerge(DIR_AB, [AB], [A], FILE_A).Some?
    requires PublishBroke(StageMerge(DIR_AB, [AB], [A], FILE_A).value, left)
    ensures Find(left, A) == Some(File([1])) && AB !in left
  {
    hide StageMerge, PublishBroke, Published;
    var targets: seq<EntryPath>, dests: seq<EntryPath> := [AB], [A];
    UserStart(DIR_AB);
    var m := StageMerge(DIR_AB, targets, dests, FILE_A).value;
    assert SetOf(targets) == {AB} && SetOf(dests) == {A};
    StagedIsDroppable(DIR_AB, targets, dests, FILE_A);
    DirIsCleared(targets, dests, m);
    var j := FailedPublishLeaves(DIR_AB, targets, dests, FILE_A, left);
    forall a | a in m.deletes
      ensures a !in Returning(DIR_AB, dests, m.deletes, j)
    {
      assert a == A || a == AB;
      assert A < AB && Buried(m.deletes, AB);
    }
    assert Clean(A) && Clean(AB);
    PublishedAt(DIR_AB, {AB}, CopiesOf(dests, FILE_A), A);
    PublishedAt(DIR_AB, {AB}, CopiesOf(dests, FILE_A), AB);
    assert Covered({AB}, AB);
    assert Find(left, AB) == LeftAt(DIR_AB, {AB}, dests, FILE_A, m.deletes, j, AB);
  }

  lemma DirIsCleared(targets: seq<EntryPath>, dests: seq<EntryPath>, m: Merge)
    requires UserTree(DIR_AB) && Paths(targets) && CopyList(dests, FILE_A) && StageMerge(DIR_AB, targets, dests, FILE_A) == Some(m)
    requires A in dests && SetOf(targets) == {AB}
    ensures A in m.deletes
  {
    hide StageMerge, StageDeletes;
    RecordedInputs(DIR_AB, targets, dests, FILE_A, LastCopy.Nothing);
    assert !Covered({AB}, A) && ClearsDir(DIR_AB, {AB}, A);
    assert A in SetOf(m.deletes);
  }

  /** Of two deletions, one in the other, the inner file comes back if the outer directory
      was set aside first, ... */
  lemma OuterFirstComesBack()
    ensures CopyList([], map[]) && FilesBackInOrder(DIR_AB, [A, AB], [], map[], LastCopy.Nothing)
  {
    hide StageMerge, FilesBackInOrder;
    var targets: seq<EntryPath>, none: seq<EntryPath> := [A, AB], [];
    var m := DeletionsOnly(targets);
    OneOrderIff(DIR_AB, targets, none, map[], LastCopy.Nothing);
    assert A < AB && SetOf(targets[..1]) == {A};
    assert !Recorded(DIR_AB, targets, 1);
  }

  /** ... and is lost if it was set aside before it. */
  lemma InnerFirstIsLost()
    ensures CopyList([], map[]) && !FilesBackInOrder(DIR_AB, [AB, A], [], map[], LastCopy.Nothing)
  {
    hide StageMerge, FilesBackInOrder;
    var targets: seq<EntryPath>, none: seq<EntryPath> := [AB, A], [];
    var m := DeletionsOnly(targets);
    OneOrderIff(DIR_AB, targets, none, map[], LastCopy.Nothing);
    assert A < AB && !(AB <= A);
    assert SetOf(targets[..1]) == {AB} && SetOf(targets[..0]) == {};
    assert Recorded(DIR_AB, targets, 0) && Recorded(DIR_AB, targets, 1);
    assert AB in m.deletes && A in m.deletes;
    assert AB in SetOf(m.deletes) && A in SetOf(m.deletes);
    assert AB in Leaves(DIR_AB) && HoldsFile(DIR_AB, AB);
  }

  lemma DeletionsOnly(targets: seq<EntryPath>) returns (m: Merge)
    requires SetOf(targets) == {A, AB} && |targets| == 2 && Paths(targets)
    ensures UserTree(DIR_AB) && CopyList([], map[]) && StageMerge(DIR_AB, targets, [], map[]) == Some(m)
    ensures RecordedOf(DIR_AB, targets, m.deletes)
  {
    UserStart(DIR_AB);
    assert SetOf([]) == {};
    StagedMergeShape(DIR_AB, targets, [], map[]);
    m := StageMerge(DIR_AB, targets, [], map[]).value;
    RecordedDeletes(DIR_AB, targets);
  }

  const DA: Path := ["d", "a"]
  const DAB: Path := ["d", "a", "b"]
  const DEEP: Tree := map[[] := Dir, D := Dir, DA := Dir, DAB := File([])]
  const FILE_DA: Tree := map[DA := File([1])]

  /** A directory is deleted, and what was a directory in it is made again as a file. The
      merge goes through if the outer deletion is staged before the inner one, and fails if
      it is staged after it. */
  lemma OrderDecides()
    ensures CopyList([DA], FILE_DA)
    ensures GoesThrough(DEEP, [D, DAB], [DA], FILE_DA) && !GoesThrough(DEEP, [DAB, D], [DA], FILE_DA)
  {
    hide GoesThrough;
    var outer: seq<EntryPath>, inner: seq<EntryPath>, dests: seq<EntryPath> := [D, DAB], [DAB, D], [DA];
    DeepStart();
    assert SetOf(outer) == SetOf(inner) == {D, DAB} && SetOf(dests) == {DA};
    GoesThroughIff(DEEP, {D, DAB}, FILE_DA, outer, dests);
    GoesThroughIff(DEEP, {D, DAB}, FILE_DA, inner, dests);
    assert D < DA && DA < DAB && D <= DAB && !(DA < D) && !(DAB <= D);
    assert SetOf(outer[..1]) == {D} && SetOf(inner[..0]) == {};
    assert !Recorded(DEEP, outer, 1) by { assert Covered(SetOf(outer[..1]), DAB); }
    assert Recorded(DEEP, inner, 0);
    assert !NoCopyAbove(dests, inner[0]) by { assert DA in SetOf(dests); }
  }

  lemma DeepStart()
    ensures UserTree(DEEP) && Paths([D, DAB]) && Paths([DAB, D]) && CopyList([DA], FILE_DA)
    ensures RoomForCopies(DEEP, {D, DAB}, FILE_DA)
  {
    assert !IsSide("d") && !IsSide("a") && !IsSide("b");
    forall p, q | p in DEEP && q < p
      ensures Find(DEEP, q) == Some(Dir)
    {
      assert q == [] || q == D || q == DA;
    }
    WellFormedIf(DEEP);
    assert SetOf([DA]) == {DA};
    forall q | q in DEEP && AboveSome(FILE_DA.Keys, q)
      ensures DEEP[q].Dir?
    {
      assert q < DA;
    }
  }

  const C: Path := ["c"]
  const ONE_FILE: Tree := map[[] := Dir, A := File([])]
  const AB_AND_C: Tree := map[AB := File([1]), C := File([2])]

  /** A copy staged strictly below a deleted file keeps the file from coming back when the
      next copy fails: the copy's empty directory stands in its place. */
  lemma CopyBlocksReturn()
    ensures CopyList([AB], AB_AND_C) && StageMerge(ONE_FILE, [A], [AB], AB_AND_C).Some?
    ensures !FilesBackInOrder(ONE_FILE, [A], [AB], AB_AND_C, Failed(C, BeforeParents))
  {
    hide StageMerge, FilesBackInOrder, Restorable, HoldsFile, CopyList, UserTree, MadeFor, LeftFor;
    var targets: seq<EntryPath>, dests: seq<EntryPath> := [A], [AB];
    var last := Failed(C, BeforeParents);
    BelowDeleted(last);
    StagedMergeShape(ONE_FILE, targets, dests, AB_AND_C);
    OneOrderIff(ONE_FILE, targets, dests, AB_AND_C, last);
    RecordedInputs(ONE_FILE, targets, dests, AB_AND_C, last);
    RecordedDeletes(ONE_FILE, targets);
    DeletedFileRecorded(targets);
  }

  lemma DeletedFileRecorded(targets: seq<EntryPath>)
    requires targets == [A]
    ensures Recorded(ONE_FILE, targets, 0)
  {
    assert targets[..0] == [] && SetOf([]) == {};
  }

  lemma BelowDeleted(last: LastCopy)
    requires last == Failed(C, BeforeParents)
    ensures UserTree(ONE_FILE) && Paths([A]) && SetOf([A]) == {A} && RoomForAll(ONE_FILE, {A}, [AB])
    ensures CopyList([AB], AB_AND_C) && CopyList(AllDests([AB], last), AB_AND_C)
    ensures HoldsFile(ONE_FILE, A)
    ensures !Restorable(ONE_FILE, MadeFor(ONE_FILE, {A}, [AB], last), LeftFor(ONE_FILE, {A}, last), A)
  {
    OneFile(ONE_FILE, A);
    TwoCopies(last);
    assert !IsSide("a");
    assert Covered({A}, A);
    assert forall q :: q in ONE_FILE ==> q == [] || q == A;
    assert A in Leaves(ONE_FILE);
    assert AB in MadeFor(ONE_FILE, {A}, [AB], last) && A < AB;
  }

  lemma TwoCopies(last: LastCopy)
    requires last == Failed(C, BeforeParents)
    ensures CopyList([AB], AB_AND_C) && CopyList(AllDests([AB], last), AB_AND_C) && SetOf([AB]) == {AB}
  {
    var dests: seq<EntryPath>, all: seq<EntryPath> := [AB], [AB, C];
    assert !IsSide("a") && !IsSide("b") && !IsSide("c");
    assert AB[0] == "a" && C[0] == "c";
    assert SetOf(dests) == {AB} && SetOf(all) == {AB, C} && AllDests(dests, last) == all;
  }

  lemma UserStart(start: Tree)
    requires start == map[[] := Dir, A := Dir, AB := File([])]
    ensures UserTree(start) && Paths([A]) && Paths([AB])
  {
    assert !IsSide("a") && !IsSide("b");
    forall p, q | p in start && q < p
      ensures Find(start, q) == Some(Dir)
    {
      assert q == [] || q == A;
    }
    WellFormedIf(start);
  }

  // ----- commits -----

  /** A commit into the base tree does not show a file that main has deleted. */
  lemma DeletedInMain()
    ensures var c, m := Plainly(map[[] := Dir, A := File([1])], {}), Plainly(EMPTY_TREE, {A});
      var base' := Published(EMPTY_TREE, {}, Leaves(c.files));
      A in Files(Overlaid(c, Overlaid(m, EMPTY_TREE))) && A !in Files(Overlaid(m, base'))
  {
    var c, m := Plainly(map[[] := Dir, A := File([1])], {}), Plainly(EMPTY_TREE, {A});
    assert Reachable(Overlaid(c, Overlaid(m, EMPTY_TREE)), A);
  }

  /** A directory without files in the child, over a file of the parent: the commit drops
      the directory, and the parent shows the file. */
  lemma FilelessDirMasks()
    ensures var c, p := Plainly(map[[] := Dir, D := Dir], {}), Plainly(map[[] := Dir, D := File([1])], {});
      forall p' :: NestedCommitted(c, p, EMPTY_TREE, Leaves(c.files), p') ==>
        Files(Overlaid(p', EMPTY_TREE)) != Files(Overlaid(c, Overlaid(p, EMPTY_TREE)))
  {
    hide Files, Published, Overlaid;
    var c, p := Plainly(map[[] := Dir, D := Dir], {}), Plainly(map[[] := Dir, D := File([1])], {});
    OneFile(c.files, D);
    OneFile(p.files, D);
    var v, copies := Overlaid(p, EMPTY_TREE), Leaves(c.files);
    OwnSources(c);
    OverlaidAt(p, EMPTY_TREE, D);
    assert D in FilelessDirs(c, copies) && Find(WithoutAll(v, {}), D) == Some(File([1]));
    forall p' | NestedCommitted(c, p, EMPTY_TREE, copies, p')
      ensures Files(Overlaid(p', EMPTY_TREE)) != Files(Overlaid(c, v))
    {
      NestedCommitPreservesView(c, p, EMPTY_TREE, copies, p');
    }
  }

  /** A file that the child hides: the parent goes on showing it after the commit. */
  lemma HiddenStaysInParent()
    ensures var c, p := Plainly(EMPTY_TREE, {}).(hides := {D}), Plainly(map[[] := Dir, D := File([1])], {});
      forall p' :: NestedCommitted(c, p, EMPTY_TREE, Leaves(c.files), p') ==>
        Files(Overlaid(p', EMPTY_TREE)) != Files(Overlaid(c, Overlaid(p, EMPTY_TREE)))
  {
    hide Files, Published, Overlaid;
    var c, p := Plainly(EMPTY_TREE, {}).(hides := {D}), Plainly(map[[] := Dir, D := File([1])], {});
    OneFile(p.files, D);
    var v, copies := Overlaid(p, EMPTY_TREE), Leaves(c.files);
    OwnSources(c);
    OverlaidAt(p, EMPTY_TREE, D);
    OverlaidAt(p, EMPTY_TREE, []);
    var kept := WithoutAll(v, {});
    assert Find(kept, D) == Some(File([1])) && Find(kept, []) == Some(Dir);
    forall q | q < D
      ensures Find(kept, q) == Some(Dir)
    {
      assert q == [];
    }
    assert Concealed(copies, kept, {D}, D);
    forall p' | NestedCommitted(c, p, EMPTY_TREE, copies, p')
      ensures Files(Overlaid(p', EMPTY_TREE)) != Files(Overlaid(c, v))
    {
      NestedCommitPreservesView(c, p, EMPTY_TREE, copies, p');
    }
  }

  /** Removing an empty delta directory that stood over an inherited file shows the file. */
  lemma EmptyDirUncovers()
    ensures var b, inherited := Plainly(map[[] := Dir, D := Dir], {}), map[[] := Dir, D := File([1])];
      && Shrinks(b.files, EMPTY_TREE)
      && Files(Overlaid(b, inherited)) != Files(Overlaid(b.(files := EMPTY_TREE), inherited))
  {
    hide Files, Overlaid;
    var b, inherited: Tree := Plainly(map[[] := Dir, D := Dir], {}), map[[] := Dir, D := File([1])];
    OneFile(b.files, D);
    assert Masked(b, inherited, D);
    ShrinkKeepsFilesIff(b, EMPTY_TREE, inherited);
  }

  // ----- edits -----

  /** So does deleting the last file of such a directory. */
  lemma DeleteUncovers()
    ensures var b, inherited := Plainly(map[[] := Dir, D := Dir, DX := File([3])], {}), map[[] := Dir, D := File([1])];
      var b' := DeleteEdit(b, 1, InheritedAt(b, inherited, DX), DX).layer;
      && Files(Overlaid(b', inherited)) != WithoutAll(Files(Overlaid(b, inherited)), {DX})
      && Find(Overlaid(b', inherited), D) == Some(File([1]))
  {
    hide Files, Overlaid, DeleteEdit;
    var b, inherited: Tree := Plainly(map[[] := Dir, D := Dir, DX := File([3])], {}), map[[] := Dir, D := File([1])];
    NestedFile(b.files);
    var b' := DeleteEdit(b, 1, InheritedAt(b, inherited, DX), DX).layer;
    forall e | D <= e && e < DX
      ensures e !in b.touches
    {
    }
    assert Empties(b, DX, D) && Masked(b, inherited, D);
    DeleteIsExact(b, 1, inherited, DX);
    EmptiedGoes(b, b', inherited);
    OverlaidAt(b', inherited, D);
  }

  /** And reverting it. */
  lemma RevertUncovers()
    ensures var b, inherited := Plainly(map[[] := Dir, D := Dir, DX := File([3])], {}), map[[] := Dir, D := File([1])];
      var b' := RevertEdit(b, 1, DX).layer;
      WithoutAll(Files(Overlaid(b', inherited)), {DX}) != WithoutAll(Files(Overlaid(b, inherited)), {DX})
  {
    hide Files, Overlaid, RevertEdit;
    var b, inherited: Tree := Plainly(map[[] := Dir, D := Dir, DX := File([3])], {}), map[[] := Dir, D := File([1])];
    NestedFile(b.files);
    forall e | D <= e && e < DX
      ensures e !in b.touches
    {
    }
    assert Empties(b, DX, D) && Masked(b, inherited, D);
    RevertIsExact(b, 1, inherited, DX);
  }

  lemma EmptiedGoes(b: Layer, b': Layer, inherited: Tree)
    requires b == Plainly(map[[] := Dir, D := Dir, DX := File([3])], {}) && WellFormed(b.files) && Empties(b, DX, D)
    requires DX !in inherited && b' == DeleteEdit(b, 1, InheritedAt(b, inherited, DX), DX).layer
    ensures D !in b'.files && !Covered(b'.tombs, D) && !Covered(b'.hides, D)
  {
    EmptiesIff(b, b'.touches, DX, D);
    assert D in RemoveUnder(b.files, DX);
  }

  /** Writing to a deleted file brings the rest of its old content back. */
  lemma WriteOverDeleted()
    ensures var b := Plainly(EMPTY_TREE, {A});
      var inherited: Tree := map[[] := Dir, A := File([7, 7])];
      var d := WriteEdit(b, 0, None, InheritedAt(b, inherited, A), A, 0, [1]);
      && Content(Overlaid(b, inherited), A) == [] && d.result == Success(1)
      && Find(Overlaid(d.layer, inherited), A) == Some(File([1, 7]))
  {
    assert Overwrite([7, 7], 0, [1]) == [1, 7];
  }

  /** Opening a deleted file for writing brings it back. */
  lemma OpenBringsBack()
    ensures var b, inherited := Plainly(EMPTY_TREE, {A}), map[[] := Dir, A := File([7])];
      var d := EnsureEdit(b, 0, None, InheritedAt(b, inherited, A), A);
      d.result.Success? && A !in Overlaid(b, inherited) && Find(Overlaid(d.layer, inherited), A) == Some(File([7]))
  {
  }

  /** Opening a deleted directory, as mkdir does, brings back every file in it. */
  lemma OpenBringsDirBack()
    ensures var b, inherited := Plainly(EMPTY_TREE, {D}), map[[] := Dir, D := Dir, DX := File([3])];
      var d := EnsureEdit(b, 0, None, InheritedAt(b, inherited, D), D);
      && d.result.Success? && D !in d.layer.files
      && DX !in Files(Overlaid(b, inherited)) && DX in Files(Overlaid(d.layer, inherited))
  {
    hide Files, Overlaid;
    var b, inherited: Tree := Plainly(EMPTY_TREE, {D}), map[[] := Dir, D := Dir, DX := File([3])];
    var b' := EnsureEdit(b, 0, None, InheritedAt(b, inherited, D), D).layer;
    forall q | q < D
      ensures Find(Overlaid(b, inherited), q) == Some(Dir)
    {
      assert q == [];
      OverlaidAt(b, inherited, q);
    }
    forall q | D <= q && q < DX
      ensures DirWithout(b, inherited, q)
    {
      assert q == D;
    }
    assert b.tombs - {D} == {};
    assert Reveals(b, inherited, D, DX);
    OpenIsOpened(b, 0, None, inherited, D);
    RevealedIsNew(b, b', inherited, D, DX);
    WithParentsAt(EMPTY_TREE, D, D);
  }

  const S: Path := ["s"]
  const SX: Path := ["s", "x"]
  const T: Path := ["t"]
  const TX: Path := ["t", "x"]

  /** Moving a directory onto one whose file of the same name was deleted leaves the moved
      file under its tombstone. */
  lemma MoveOntoTombstone()
    ensures var b := Plainly(map[[] := Dir, S := Dir, SX := File([1])], {TX});
      var inherited := map[[] := Dir, T := Dir, TX := File([2])];
      TombsMinimal(b, inherited) && !TombsMinimal(RenameEdit(b, 1, None, inherited, S, T, false).layer, inherited)
  {
    hide RenameEdit;
    var b := Plainly(map[[] := Dir, S := Dir, SX := File([1])], {TX});
    var inherited: Tree := map[[] := Dir, T := Dir, TX := File([2])];
    MovedDir(b.files);
    assert S[0] != T[0] && SX[0] != TX[0];
    forall q | q in b.files && q < T
      ensures b.files[q].Dir?
    {
      assert q == [];
    }
    assert MovesDelta(b, 1, None, inherited, S, T, false);
    assert T < TX && TX[|T|..] == ["x"] && S + ["x"] == SX;
    assert IsFile(b.files, S + TX[|T|..]);
    assert BuriesFile(b, 1, None, inherited, S, T, false);
    RenameKeepsTombsMinimalIff(b, 1, None, inherited, S, T, false);
  }

  lemma MovedDir(t: Tree)
    requires t == map[[] := Dir, S := Dir, SX := File([1])]
    ensures WellFormed(t)
  {
    forall q, r | q in t && r < q
      ensures Find(t, r) == Some(Dir)
    {
      assert r == [] || r == S;
    }
    WellFormedIf(t);
  }

  // ----- the text of the records -----

  /** Stopping a rewrite of the tombstones before the log is removed brings back what the
      log added. */
  lemma CrashReplaysLog()
    ensures var f := TombFiles(Some(""), Some("+ /a\n"));
      LoadTombs(SnapshotCut(f, [], "")) == {"/a"} && LoadTombs(Rewritten([])) == {}
  {
    hide Lines, Read;
    assert LineSafe("/a") by {
      BackKeepsFirst("/a");
      assert TrimSpaceFront("/a") == "/a";
    }
    var g := Appended(TombFiles(Some(""), None), '+', "/a");
    assert g.log == Some("+ /a\n") by {
      assert "" + ['+', ' '] + "/a" + "\n" == "+ /a\n";
    }
    AppendedLoads(TombFiles(Some(""), None), '+', "/a");
    NothingRead();
    RewrittenLoads([]);
    assert SnapshotCut(g, [], "") == g by {
      assert Join([]) + "" == "";
    }
  }

  lemma NothingRead()
    ensures Lines("") == [] && Join([]) == "" && LoadTombs(TombFiles(Some(""), None)) == {}
  {
    assert Lines("") == [];
  }

  /** A legacy path that ends in a carriage return does not survive the migration. */
  lemma CarriageReturnLost()
    ensures var f := TombFiles(Some("/a\r\r\n"), None);
      "/a\r" in LoadTombs(f) && "/a\r" !in LoadTombs(Migrated(f, ["/a\r"]))
  {
    hide Lines, Blank, StripCr;
    var f := TombFiles(Some("/a\r\r\n"), None);
    var order := ["/a\r"];
    LinesWithCr();
    assert SnapshotSet(f) == {"/a\r"} == AsSet(order);
    MigratedLoads(f, order);
    assert LinesOf(f.log) == [];
    assert Replay(SnapshotSet(f), []) == SnapshotSet(f) && Replay(Stripped(SnapshotSet(f)), []) == Stripped(SnapshotSet(f));
    assert Stripped(SnapshotSet(f)) == {"/a"};
  }

  lemma LinesWithCr()
    ensures Lines("/a\r\r\n") == ["/a\r"] && !Blank("/a\r") && StripCr("/a\r") == "/a"
  {
    assert "/a\r\r\n" == "/a\r\r" + "\n" + "";
    FirstLine("/a\r\r", "");
    assert StripCr("/a\r\r") == "/a\r";
    assert Lines("") == [];
    BackKeepsFirst("/a\r");
    assert TrimSpaceFront("/a\r") == "/a\r";
  }

  // ----- a chain that can be committed -----

  const B: Path := ["b"]

  const BASE: Tree := map[[] := Dir, A := File([1])]
  const TOP := Plainly(EMPTY_TREE, {})
  const MIDDLE := Plainly(map[[] := Dir, B := File([2])], {A})
  const LAST := Plainly(map[[] := Dir, D := Dir, DX := File([3])], {B})

  /** Main, a branch that deletes "/a" and writes "/b", and a branch of that one which
      deletes "/b" and writes "/d/x". */
  lemma ReadyChain()
    ensures ChainReady(BASE, [TOP, MIDDLE, LAST]) && TombsApart([TOP, MIDDLE, LAST])
  {
    hide ChainView;
    MiddleReady();
    NestedFile(LAST.files);
    ViewLacksD();
    assert A[0] == "a" && B[0] == "b" && D[0] == "d";
    ExtendReady(BASE, [TOP, MIDDLE], LAST);
    assert [TOP, MIDDLE] + [LAST] == [TOP, MIDDLE, LAST];
    assert forall l :: l in [TOP, MIDDLE, LAST] ==> l == TOP || l == MIDDLE || l == LAST;
  }

  lemma MiddleReady()
    ensures ChainReady(BASE, [TOP, MIDDLE])
  {
    TopReady();
    OneFile(MIDDLE.files, B);
    assert [TOP][..0] == [] && ChainView(BASE, [TOP]) == Overlaid(TOP, BASE);
    ExtendReady(BASE, [TOP], MIDDLE);
    assert [TOP] + [MIDDLE] == [TOP, MIDDLE];
  }

  lemma TopReady()
    ensures ChainReady(BASE, [TOP])
  {
    OneFile(BASE, A);
    assert ChainView(BASE, [TOP][..0]) == BASE;
  }

  lemma OneFile(t: Tree, p: Path)
    requires t.Keys == {[], p} && |p| == 1 && t[[]] == Dir
    ensures WellFormed(t)
  {
    forall q, r | q in t && r < q
      ensures Find(t, r) == Some(Dir)
    {
      assert r == [];
    }
    WellFormedIf(t);
  }

  lemma NestedFile(t: Tree)
    requires t == map[[] := Dir, D := Dir, DX := File([3])]
    ensures WellFormed(t)
  {
    forall q, r | q in t && r < q
      ensures Find(t, r) == Some(Dir)
    {
      assert r == [] || r == D;
    }
    WellFormedIf(t);
  }

  lemma ViewLacksD()
    ensures D !in ChainView(BASE, [TOP, MIDDLE]) && Find(ChainView(BASE, [TOP, MIDDLE]), []) == Some(Dir)
  {
    assert [TOP, MIDDLE][..1] == [TOP] && [TOP][..0] == [];
    assert ChainView(BASE, [TOP]) == Overlaid(TOP, BASE);
    assert ChainView(BASE, [TOP, MIDDLE]) == Overlaid(MIDDLE, Overlaid(TOP, BASE));
    assert A[0] != D[0] && B[0] != D[0];
  }

  // ----- siblings -----

  // Main with an empty delta, merged into so many times, and two branches under it: one has
  // made "/a", the other has overwritten the "/b" of the base tree.
  function MainAfter(count: nat): Layer {
    Plainly(EMPTY_TREE, {}).(commitCount := count)
  }

  const MAKES_A := Plainly(EMPTY_TREE[A := File([3])], {}).(parent := Some(MAIN), touches := map[A := Touch(A, Identity(Missing, 0), None)])
  const EDITS_B := Plainly(EMPTY_TREE[B := File([2])], {}).(parent := Some(MAIN), touches := map[B := Touch(B, Identity(Regular, 1), Some([1]))])
  const ONE_B: Tree := EMPTY_TREE[B := File([1])]

  const BOTH_OPEN := Store(ONE_B, map[MAIN := MainAfter(0), "one" := MAKES_A, "two" := EDITS_B], 2, 2)
  const ONE_DONE := Store(ONE_B[A := File([3])], map[MAIN := MainAfter(1), "two" := EDITS_B], 2, 3)
  const BOTH_DONE := Store(ONE_B[A := File([3])][B := File([2])], map[MAIN := MainAfter(2)], 2, 4)

  lemma FlatForest(bs: Branches)
    requires MAIN in bs && bs[MAIN].parent == None
    requires forall n :: n in bs && n != MAIN ==> bs[n].parent == Some(MAIN)
    ensures Forest(bs)
  {
    assert DepthIs(bs, MAIN, 0);
    forall n | n in bs
      ensures exists k :: DepthIs(bs, n, k)
    {
      assert n != MAIN ==> DepthIs(bs, n, 1);
    }
  }

  lemma OneFilePublished(base: Tree, p: Path, e: Entry)
    requires |p| == 1 && Find(base, []) == Some(Dir) && forall q :: q in base ==> !(p < q)
    ensures Published(base, {}, map[p := e]) == base[p := e] && RoomForCopies(base, {}, map[p := e])
  {
    var copies: Tree := map[p := e];
    assert p in copies.Keys;
    forall q
      ensures Find(Published(base, {}, copies), q) == Find(base[p := e], q)
    {
      PublishedAt(base, {}, copies, q);
      assert q < p ==> q == [];
      assert p <= q ==> p == q || p < q;
      assert AboveSome(copies.Keys, q) ==> q < p;
      assert q < p ==> AboveSome(copies.Keys, q);
    }
    SameTree(Published(base, {}, copies), base[p := e]);
    forall q | q in base && AboveSome(copies.Keys, q)
      ensures q == []
    {
      assert q < p;
    }
  }

  lemma OnlySource(c: Layer, changed: bool, inherited: Tree, p: Path, e: Entry)
    requires c.files == EMPTY_TREE[p := e] && p != [] && !e.Dir? && (!changed || Unmoved(c, inherited, {}, p))
    ensures SourcesOf(c, map[p := e]) && !CommitPanics(c, changed, inherited, {})
    ensures CommitSources(c, changed, inherited, {}) == map[p := e]
  {
    CommitPanicsIff(c, changed, inherited, {});
    assert Leaves(c.files) == map[p := e];
    PublishedContent(c, changed, inherited, {}, p);
  }

  /** Main after a commit of a branch that has one file and deletes nothing. */
  lemma OneFileCommitted(s: Store, name: string, p: Path, e: Entry, n: nat, s': Store)
    requires Forest(s.branches) && Removable(s.branches, name) && s.branches[name].parent == Some(MAIN)
    requires s.branches[MAIN] == MainAfter(n) && s.branches[name].files == EMPTY_TREE[p := e] && s.branches[name].tombs == {}
    requires |p| == 1 && !e.Dir? && Find(s.base, []) == Some(Dir) && forall q :: q in s.base ==> !(p < q)
    requires s' == Store(s.base[p := e], (s.branches - {name})[MAIN := MainAfter(n + 1)], s.used, s.epoch + 1)
    requires !ParentChanged(s, name) || Unmoved(s.branches[name], InheritedView(s, name), {}, p)
    ensures CommittedWith(s, name, {}, s')
  {
    hide Published, RoomForCopies, InheritedView, Unmoved, CommitSources, CommitPanics, Forest, ParentChanged;
    OneFilePublished(s.base, p, e);
    OnlySource(s.branches[name], ParentChanged(s, name), InheritedView(s, name), p, e);
    ParentIsLive(s.branches, name);
    var c, m, copies := s.branches[name], s.branches[MAIN], map[p := e];
    assert copies.Keys + c.tombs == {p};
    assert WithoutAll(m.files, {p}) == EMPTY_TREE by {
      assert !(p <= []);
    }
    assert BaseCommitted(c, m, s.base, copies, s'.branches[MAIN], s'.base);
    assert CommitDone(s, name, copies, s');
    assert ChosenSources(s, name, {}) == copies;
  }

  lemma OneFileTree(t: Tree, p: Path, e: Entry)
    requires |p| == 1 && t == EMPTY_TREE[p := e]
    ensures WellFormed(t)
  {
    forall r, q | r in t && q < r
      ensures Find(t, q) == Some(Dir)
    {
      assert q == [];
    }
    WellFormedIf(t);
  }

  lemma BothOpenOk()
    ensures StoreOk(BOTH_OPEN)
  {
    hide WellFormed;
    FlatForest(BOTH_OPEN.branches);
    OneFileTree(ONE_B, B, File([1]));
    OneFileTree(MAKES_A.files, A, File([3]));
    OneFileTree(EDITS_B.files, B, File([2]));
    EmptyTreeOk();
  }

  lemma EmptyTreeOk()
    ensures WellFormed(EMPTY_TREE)
  {
  }

  lemma FirstSiblingDone()
    ensures Forest(BOTH_OPEN.branches) && Forest(ONE_DONE.branches) && CommittedWith(BOTH_OPEN, "one", {}, ONE_DONE)
  {
    hide CommittedWith;
    FlatForest(BOTH_OPEN.branches);
    FlatForest(ONE_DONE.branches);
    assert !ParentChanged(BOTH_OPEN, "one");
    OneFileCommitted(BOTH_OPEN, "one", A, File([3]), 0, ONE_DONE);
  }

  lemma SecondSiblingDone()
    ensures Forest(ONE_DONE.branches) && Forest(BOTH_DONE.branches) && ParentChanged(ONE_DONE, "two")
    ensures CommittedWith(ONE_DONE, "two", {}, BOTH_DONE)
  {
    hide CommittedWith;
    FlatForest(ONE_DONE.branches);
    FlatForest(BOTH_DONE.branches);
    MainView(ONE_DONE);
    OverlaidAt(MainAfter(1), ONE_DONE.base, B);
    assert Find(InheritedView(ONE_DONE, "two"), B) == Some(File([1]));
    assert BOTH_DONE.branches == (ONE_DONE.branches - {"two"})[MAIN := MainAfter(2)];
    OneFileCommitted(ONE_DONE, "two", B, File([2]), 1, BOTH_DONE);
  }

  lemma AAndBApart()
    ensures !(A <= B) && !(B <= A)
  {
    assert A[0] != B[0];
  }

  lemma SiblingsApart()
    requires StoreOk(BOTH_OPEN)
    ensures CanTakeTurns(BOTH_OPEN, ["one", "two"], MAIN)
  {
    hide StoreOk, Siblings.Apart, ClearAt, Leaves;
    FilesApart();
    NothingInTheWay();
    assert AllApart(BOTH_OPEN, ["one", "two"]);
  }

  lemma FilesApart()
    ensures Leaves(MAKES_A.files) == map[A := File([3])] && Leaves(EDITS_B.files) == map[B := File([2])]
    ensures Siblings.Apart(MAKES_A, EDITS_B)
  {
    AAndBApart();
  }

  lemma NothingInTheWay()
    ensures forall x :: ClearAt(MainAfter(0), {}, x)
  {
  }

  lemma SiblingsKeepOwn()
    requires StoreOk(BOTH_OPEN)
    ensures AllKeepOwn(BOTH_OPEN, ["one", "two"], [{}, {}])
  {
    hide LayerOk, WellFormed;
    assert Leaves(MAKES_A.files) == map[A := File([3])] && Leaves(EDITS_B.files) == map[B := File([2])];
    MainView(BOTH_OPEN);
    OverlaidAt(MainAfter(0), ONE_B, A);
    OverlaidAt(MainAfter(0), ONE_B, B);
    assert Unmoved(MAKES_A, InheritedView(BOTH_OPEN, "one"), {}, A);
    assert Unmoved(EDITS_B, InheritedView(BOTH_OPEN, "two"), {}, B);
  }

  /** Two siblings with different files are committed in turn. The second finds main changed,
      and both files are in main: the edit of "/b" is not lost. */
  lemma SiblingsKeepBothEdits()
    ensures InTurn([BOTH_OPEN, ONE_DONE, BOTH_DONE], ["one", "two"], [{}, {}], MAIN)
    ensures Forest(ONE_DONE.branches) && ParentChanged(ONE_DONE, "two")
    ensures Forest(BOTH_DONE.branches)
    ensures Find(Files(View(BOTH_DONE, MAIN)), A) == Some(File([3])) && Find(Files(View(BOTH_DONE, MAIN)), B) == Some(File([2]))
  {
    hide CommittedWith, Files, View, StoreOk, CanTakeTurns, AllKeepOwn;
    var states, names, newers: seq<set<Path>> := [BOTH_OPEN, ONE_DONE, BOTH_DONE], ["one", "two"], [{}, {}];
    BothOpenOk();
    FirstSiblingDone();
    SecondSiblingDone();
    SiblingsApart();
    SiblingsKeepOwn();
    forall i | 0 <= i < 2
      ensures Forest(states[i].branches) && CommittedWith(states[i], names[i], newers[i], states[i + 1])
    {
      if i == 0 {
        FlatForest(BOTH_OPEN.branches);
      }
    }
    assert names[0] == "one" && names[1] == "two";
    SiblingFilesStay(states, names, newers, MAIN, 0, A);
    SiblingFilesStay(states, names, newers, MAIN, 1, B);
  }
}
