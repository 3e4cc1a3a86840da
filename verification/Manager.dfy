/** The branch manager as an object: each call changes the store step by step and
    refines one action of the store's runs. */
module Manager {
  import opened FileTree
  import opened Disk
  import opened Layers
  import opened Edits
  import opened EditLaws
  import opened EditRuns
  import opened Rename
  import opened Store
  import opened Snapshots
  import opened Staging
  import opened Rollback
  import opened FailedMerges
  import opened MergeOrders
  import opened Commit
  import opened CommitRun
  import opened CommitSteps
  import opened Runs
  import opened Quota
  import opened CopyUp

  const FRESH_MAIN := Layer(None, Lazy, {}, EMPTY_TREE, EMPTY_TREE, {}, map[], 0, 0, false)

  /** The branches on disk, and main. */
  function WithMain(loaded: Branches): Branches {
    if MAIN in loaded then loaded else loaded[MAIN := FRESH_MAIN]
  }

  /** A store directory without branches can be opened. */
  lemma FreshStoreOk(baseTree: Tree)
    requires WellFormed(baseTree)
    ensures StoreOk(Store(baseTree, WithMain(map[]), 0, 0))
  {
    OnlyMain(WithMain(map[]));
  }

  class BranchManager {
    var branches: Branches
    var base: Tree
    var epoch: nat
    const quota: StorageQuota

    function Abs(): Store
      reads this, quota
    {
      Store(base, branches, quota.usedBytes, epoch)
    }

    ghost predicate Valid()
      reads this, quota
    {
      StoreOk(Abs())
    }

    /** Open a store: the branches found on disk, with main added if it is not among them,
        over the base tree. `found` are the bytes of everything that the walk of the store
        finds. A fresh store shows the base tree. */
    constructor (baseTree: Tree, loaded: Branches, found: nat, maxBytes: Option<nat>)
      requires StoreOk(Store(baseTree, WithMain(loaded), found, 0))
      ensures Valid() && fresh(quota) && quota.maxBytes == maxBytes
      ensures Abs() == Store(baseTree, WithMain(loaded), found, 0)
      ensures MAIN !in loaded ==> View(Abs(), MAIN) == baseTree
    {
      branches := if MAIN in loaded then loaded else loaded[MAIN := FRESH_MAIN];
      base := baseTree;
      epoch := 0;
      quota := new StorageQuota(maxBytes);
      new;
      quota.usedBytes := found;
      if MAIN !in loaded {
        FreshMainShowsBase(Abs());
      }
    }

    // ----- reading -----

    method ResolvePath(name: string, p: Path) returns (r: Result<Option<Entry>>)
      requires Valid()
      ensures r == if name in branches then Success(Find(View(Abs(), name), p)) else Failure(NotFound)
    {
      if name in branches {
        ResolveIsView(Abs(), name, p);
      }
      r := Resolve(Abs(), name, p);
    }

    method CollectNames(name: string, d: Path) returns (r: Result<set<string>>)
      requires Valid()
      ensures r == if name in branches then Success(Children(View(Abs(), name), d)) else Failure(NotFound)
    {
      if name in branches {
        ListingIsChildren(Abs(), name, d);
      }
      r := CollectDirNames(Abs(), name, d);
    }

    /** What the branch inherits at a path, unless a hide rule masks it. */
    method ResolveInheritedForTouch(name: string, p: Path) returns (inh: Option<Entry>)
      requires Valid() && name in branches
      ensures inh == InheritedAt(branches[name], InheritedView(Abs(), name), p)
    {
      if Covered(branches[name].hides, p) {
        return None;
      }
      ResolveIsView(Abs(), name, p);
      inh := InheritedResolve(Abs(), name, p).value;
    }

    // ----- creating, freezing and aborting branches -----

    /** The tree a new branch keeps of its parent: what is reachable, or nothing. */
    method FrozenTree(parent: string, mode: Mode) returns (inherited: Tree)
      requires Valid() && parent in branches
      ensures inherited == if mode.Lazy? then EMPTY_TREE else ReachablePart(View(Abs(), parent))
      ensures WellFormed(inherited)
    {
      inherited := EMPTY_TREE;
      if mode.Snapshot? {
        inherited := SnapshotVisibleTree(Abs(), parent);
        ViewPrefixClosed(Abs(), parent);
        ReachablePartWellFormed(View(Abs(), parent));
      }
    }

    method CreateBranch(name: string, parent: string, mode: Mode, hides: set<Path>) returns (r: Result<()>)
      requires Valid() && [] !in hides
      modifies this
      ensures Valid() && Abs() == Created(old(Abs()), name, parent, mode, hides)
      ensures r == if name in old(branches) then Failure(AlreadyExists)
                   else if parent !in old(branches) then Failure(ParentNotFound) else Success(())
    {
      hide StoreOk, WellFormed, ReachablePart, View;
      ForestOf(Abs());
      if name in branches {
        return Failure(AlreadyExists);
      }
      if parent !in branches {
        return Failure(ParentNotFound);
      }
      var inherited := FrozenTree(parent, mode);
      var b := NewBranch(parent, mode, hides, inherited, branches[parent].commitCount);
      NewBranchOk(parent, mode, hides, inherited, branches[parent].commitCount);
      LayerAdded(Abs(), name, b);
      branches := branches[name := b];
      epoch := epoch + 1;
      r := Success(());
    }

    method SetFrozen(name: string, frozen: bool) returns (r: Result<()>)
      requires Valid()
      modifies this
      ensures Valid() && Abs() == Runs.Frozen(old(Abs()), name, frozen)
      ensures r == if name == MAIN then Failure(CannotOperateOnMain)
                   else if name !in old(branches) then Failure(NotFound) else Success(())
    {
      if name == MAIN {
        return Failure(CannotOperateOnMain);
      }
      if name !in branches {
        return Failure(NotFound);
      }
      LayerChanged(Abs(), name, branches[name].(frozen := frozen), quota.usedBytes, epoch + 1);
      branches := branches[name := branches[name].(frozen := frozen)];
      epoch := epoch + 1;
      r := Success(());
    }

    method AbortBranch(name: string) returns (r: Result<string>)
      requires Valid()
      modifies this
      ensures Valid() && Abs() == Aborted(old(Abs()), name)
      ensures r == if name == MAIN then Failure(CannotOperateOnMain)
                   else if name !in old(branches) then Failure(NotFound)
                   else if !IsLeaf(old(branches), name) then Failure(NotALeaf)
                   else Success(old(branches)[name].parent.value)
    {
      if name == MAIN {
        return Failure(CannotOperateOnMain);
      }
      if name !in branches {
        return Failure(NotFound);
      }
      if !IsLeaf(branches, name) {
        return Failure(NotALeaf);
      }
      OnlyMainHasNoParent(branches, name);
      AbortKeepsForest(branches, name);
      r := Success(branches[name].parent.value);
      branches := branches - {name};
    }

    // ----- editing -----

    ghost function Inherits(name: string, p: Path): Option<Entry>
      requires Valid() && name in branches
      reads this, quota
    {
      InheritedAt(branches[name], InheritedView(Abs(), name), p)
    }

    /** Write at an offset. */
    method WriteDataToBranch(name: string, p: Path, offset: int, data: seq<byte>) returns (r: Result<nat>)
      requires Valid() && p != []
      requires name in branches && p !in branches[name].files ==> !(Inherits(name, p).Some? && Inherits(name, p).value.Symlink?)
      modifies this, quota
      ensures Valid() && Abs() == Edited(old(Abs()), quota.maxBytes, name, Write(p, offset, data))
      ensures name in old(branches) ==>
        r == WriteEdit(old(branches)[name], old(quota.usedBytes), quota.maxBytes, old(Inherits(name, p)), p, offset, data).result
      ensures name !in old(branches) ==>
        r == Failure(if offset < 0 then InvalidOffset else if offset + |data| >= U64_LIMIT then FileTooLarge else NotFound)
    {
      hide WriteEdit;
      EditKeepsStoreOk(Abs(), quota.maxBytes, name, Write(p, offset, data));
      ghost var before := Abs();
      if name !in branches {
        return Failure(if offset < 0 then InvalidOffset else if offset + |data| >= U64_LIMIT then FileTooLarge else NotFound);
      }
      r := WriteData(name, p, offset, data);
      assert Abs() == Edited(before, quota.maxBytes, name, Write(p, offset, data));
    }

    method WriteData(name: string, p: Path, offset: int, data: seq<byte>) returns (r: Result<nat>)
      requires Valid() && p != [] && name in branches
      modifies this`branches, quota
      ensures var d := WriteEdit(old(branches)[name], old(quota.usedBytes), quota.maxBytes, old(Inherits(name, p)), p, offset, data);
        branches == old(branches)[name := d.layer] && quota.usedBytes == d.used && r == d.result
    {
      hide FirstTouch, WithParents, ParentsOk, QuotaAllows, InheritedView, InheritedAt, Overwrite, WriteInPlace;
      var b := branches[name];
      if offset < 0 {
        return Failure(InvalidOffset);
      }
      if offset + |data| >= U64_LIMIT {
        return Failure(FileTooLarge);
      }
      if b.frozen {
        return Failure(Frozen);
      }
      if p !in b.files {
        var inherited := ResolveInheritedForTouch(name, p);
        ghost var steps;
        r, steps := FirstWrite(name, p, inherited, offset, data);
        return;
      }
      branches := branches[name := b.(tombs := b.tombs - {p})];
      r := WriteDelta(name, p, offset, data);
    }

    /** The first write to a path: the touch is recorded and the parents are made.
        `steps` are the states that the branch goes through. */
    method FirstWrite(name: string, p: Path, inherited: Option<Entry>, offset: nat, data: seq<byte>)
      returns (r: Result<nat>, ghost steps: seq<Layer>)
      requires name in branches && p != [] && p !in branches[name].files && !branches[name].frozen && offset + |data| < U64_LIMIT
      modifies this`branches, quota
      ensures var d := WriteEdit(old(branches)[name], old(quota.usedBytes), quota.maxBytes, inherited, p, offset, data);
        branches == old(branches)[name := d.layer] && quota.usedBytes == d.used && r == d.result
      ensures r.Success? ==> steps == WriteSteps(old(branches)[name], inherited, p, offset, data)
    {
      hide FirstTouch, QuotaAllows, Overwrite, ParentsOk, WithParents;
      var first := branches[name];
      var touched := first.(touches := FirstTouch(first.touches, p, inherited, true));
      branches := branches[name := touched];
      steps := [first, touched];
      var copyUp := inherited.Some? && inherited.value.File?;
      if copyUp {
        var fits := quota.Check(Max(|inherited.value.data|, offset + |data|));
        if !fits {
          return Failure(NoSpace), steps;
        }
      }
      if !ParentsOk(touched.files, p) {
        return Failure(Io), steps;
      }
      ghost var made := MakeParents(name, p);
      ParentsLeaveFree(first.files, p);
      ghost var rest;
      if copyUp {
        rest := CopyUpAndWrite(name, p, inherited.value.data, offset, data);
        r := Success(|data|);
      } else {
        r, rest := CreateAndWrite(name, p, inherited, offset, data);
      }
      steps := steps + made + rest;
    }

    /** The inherited file is copied to a staging file, written there and renamed into the
        deltas; only then does the tombstone go. */
    method CopyUpAndWrite(name: string, p: Path, content: seq<byte>, offset: nat, data: seq<byte>) returns (ghost steps: seq<Layer>)
      requires name in branches
      modifies this`branches, quota
      ensures var b, written := old(branches)[name], Overwrite(content, offset, data);
        && branches == old(branches)[name := b.(files := b.files[p := File(written)], tombs := b.tombs - {p})]
        && quota.usedBytes == old(quota.usedBytes) + |written|
        && steps == FileSteps(b, Some(File(content)), p, written)
    {
      hide Overwrite;
      var b := branches[name];
      var staging := content;
      staging := Overwrite(staging, offset, data);
      b := b.(files := b.files[p := File(staging)]);
      branches := branches[name := b];
      steps := [b];
      quota.Add(|staging|);
      b := b.(tombs := b.tombs - {p});
      branches := branches[name := b];
      steps := steps + [b];
    }

    /** Any other path is shown, created empty and written in place. */
    method CreateAndWrite(name: string, p: Path, inherited: Option<Entry>, offset: nat, data: seq<byte>)
      returns (r: Result<nat>, ghost steps: seq<Layer>)
      requires name in branches && p !in branches[name].files && !(inherited.Some? && inherited.value.File?)
      modifies this`branches, quota
      ensures var b := old(branches)[name];
        var d := WriteInPlace(b.(tombs := b.tombs - {p}), old(quota.usedBytes), quota.maxBytes, p, offset, data);
        branches == old(branches)[name := d.layer] && quota.usedBytes == d.used && r == d.result
      ensures r.Success? ==> steps == FileSteps(old(branches)[name], inherited, p, Overwrite([], offset, data))
    {
      hide QuotaAllows, Overwrite, FileSteps;
      CreateSteps(branches[name], inherited, p, Overwrite([], offset, data));
      var b := branches[name];
      b := b.(tombs := b.tombs - {p});
      branches := branches[name := b];
      steps := [b];
      if offset + |data| > 0 {
        var fits := quota.Check(offset + |data|);
        if !fits {
          return Failure(NoSpace), steps;
        }
      }
      ghost var files := b.files;
      b := b.(files := b.files[p := File([])]);
      branches := branches[name := b];
      steps := steps + [b];
      var content := Overwrite([], offset, data);
      b := b.(files := b.files[p := File(content)]);
      assert b.files == files[p := File(content)];
      branches := branches[name := b];
      steps := steps + [b];
      quota.Add(|content|);
      r := Success(|data|);
    }

    /** create_dir_all of a path's parent in the deltas, one directory at a time. */
    method MakeParents(name: string, p: Path) returns (ghost steps: seq<Layer>)
      requires name in branches && p != []
      modifies this`branches
      ensures branches == old(branches)[name := old(branches)[name].(files := WithParents(old(branches)[name].files, p))]
      ensures steps == ParentSteps(old(branches)[name], p)
    {
      hide WithParents;
      ghost var b := branches[name];
      steps := [];
      NoParentsYet(b.files, p);
      for k := 0 to |p|
        invariant branches == old(branches)[name := b.(files := WithParents(b.files, p[..k]))]
        invariant steps == ParentSteps(b, p)[..k]
      {
        var d := p[..k];
        OneMoreParent(b.files, p, k);
        if d !in branches[name].files {
          branches := branches[name := branches[name].(files := branches[name].files[d := Dir])];
        }
        steps := steps + [branches[name]];
        assert ParentSteps(b, p)[..k + 1] == ParentSteps(b, p)[..k] + [branches[name]];
      }
      assert p[..|p|] == p;
    }

    method WriteDelta(name: string, p: Path, offset: nat, data: seq<byte>) returns (r: Result<nat>)
      requires name in branches
      modifies this`branches, quota
      ensures var d := WriteInPlace(old(branches)[name], old(quota.usedBytes), quota.maxBytes, p, offset, data);
        branches == old(branches)[name := d.layer] && quota.usedBytes == d.used && r == d.result
    {
      var b := branches[name];
      if p in b.files && !b.files[p].File? {
        return Failure(Io);
      }
      var content := if p in b.files then b.files[p].data else [];
      if offset + |data| > |content| {
        var fits := quota.Check(offset + |data| - |content|);
        if !fits {
          return Failure(NoSpace);
        }
      }
      var written := Overwrite(content, offset, data);
      OverwriteLength(content, offset, data);
      branches := branches[name := b.(files := b.files[p := File(written)])];
      if |written| > |content| {
        quota.Add(|written| - |content|);
      }
      r := Success(|data|);
    }

    /** Bring a path into the deltas before it is opened for writing. */
    method EnsureDeltaPathForWrite(name: string, p: Path) returns (r: Result<()>)
      requires Valid() && p != []
      modifies this, quota
      ensures Valid() && Abs() == Edited(old(Abs()), quota.maxBytes, name, OpenForWrite(p))
      ensures r == if name !in old(branches) then Failure(NotFound)
        else EnsureEdit(old(branches)[name], old(quota.usedBytes), quota.maxBytes, old(Inherits(name, p)), p).result
    {
      hide EnsureEdit;
      EditKeepsStoreOk(Abs(), quota.maxBytes, name, OpenForWrite(p));
      ghost var before := Abs();
      if name !in branches {
        return Failure(NotFound);
      }
      r := EnsureDelta(name, p);
      assert Abs() == Edited(before, quota.maxBytes, name, OpenForWrite(p));
    }

    method EnsureDelta(name: string, p: Path) returns (r: Result<()>)
      requires Valid() && p != [] && name in branches
      modifies this`branches, quota
      ensures var d := EnsureEdit(old(branches)[name], old(quota.usedBytes), quota.maxBytes, old(Inherits(name, p)), p);
        branches == old(branches)[name := d.layer] && quota.usedBytes == d.used && r == d.result
    {
      hide FirstTouch, WithParents, ParentsOk, QuotaAllows, InheritedView, InheritedAt;
      var b := branches[name];
      if b.frozen {
        return Failure(Frozen);
      }
      if p !in b.files {
        var inherited := ResolveInheritedForTouch(name, p);
        b := b.(touches := FirstTouch(b.touches, p, inherited, true));
        if inherited.Some? && !inherited.value.Dir? {
          var size := SizeOf(inherited.value);
          var fits := quota.Check(size);
          if !fits || !ParentsOk(b.files, p) {
            branches := branches[name := b];
            return Failure(if fits then Io else NoSpace);
          }
          ParentsThereAfter(b.files, p, inherited.value);
          b := b.(files := WithParents(b.files, p)[p := inherited.value]);
          quota.Add(size);
        }
      } else {
        ParentsThere(b.files, p);
      }
      b := b.(tombs := b.tombs - {p});
      branches := branches[name := b];
      if !ParentsOk(b.files, p) {
        return Failure(Io);
      }
      branches := branches[name := b.(files := WithParents(b.files, p))];
      r := Success(());
    }

    /** Remove the deltas at and below a path, free their bytes and prune. */
    method RemoveDelta(name: string, p: Path)
      requires name in branches && p != [] && WellFormed(branches[name].files)
      modifies this`branches, quota
      ensures var b := old(branches)[name];
        branches == old(branches)[name := b.(files := WithoutDelta(b.files, b.touches, p))] &&
        quota.usedBytes == old(quota.usedBytes) - Size(Under(b.files, p))
    {
      var b := branches[name];
      if p in b.files {
        var freed := FreedBy(b.files, p);
        RemoveUnderWellFormed(b.files, p);
        b := b.(files := RemoveUnder(b.files, p));
        quota.Sub(freed);
        var left := PruneEmptyDeltaParents(b.files, b.touches, Parent(p));
        branches := branches[name := b.(files := left)];
      } else {
        NothingUnder(b.files, p);
      }
    }

    method DeletePathInBranch(name: string, p: Path) returns (r: Result<()>)
      requires Valid() && p != []
      modifies this, quota
      ensures Valid() && Abs() == Edited(old(Abs()), quota.maxBytes, name, Delete(p))
      ensures r == if name !in old(branches) then Failure(NotFound)
        else DeleteEdit(old(branches)[name], old(quota.usedBytes), old(Inherits(name, p)), p).result
    {
      EditKeepsStoreOk(Abs(), quota.maxBytes, name, Delete(p));
      if name !in branches {
        return Failure(NotFound);
      }
      if branches[name].frozen {
        return Failure(Frozen);
      }
      DeletePath(name, p);
      r := Success(());
    }

    /** The common part of delete and rmdir. */
    method DeletePath(name: string, p: Path)
      requires Valid() && p != [] && name in branches && !branches[name].frozen
      modifies this`branches, quota
      ensures var d := DeleteEdit(old(branches)[name], old(quota.usedBytes), old(Inherits(name, p)), p);
        branches == old(branches)[name := d.layer] && quota.usedBytes == d.used
    {
      hide FirstTouch, WithoutDelta, Size, Under, InheritedView, InheritedAt, StoreOk, WellFormed;
      FilesWellFormed(Abs(), name);
      var inherited := ResolveInheritedForTouch(name, p);
      var b := branches[name];
      branches := branches[name := b.(touches := FirstTouch(b.touches, p, inherited, false))];
      RemoveDelta(name, p);
      b := branches[name];
      branches := branches[name := b.(tombs := if inherited.Some? then b.tombs + {p} else b.tombs - {p})];
    }

    method RmdirPathInBranch(name: string, p: Path) returns (r: Result<()>)
      requires Valid() && p != []
      modifies this, quota
      ensures Valid() && Abs() == Edited(old(Abs()), quota.maxBytes, name, Rmdir(p))
      ensures r == if name !in old(branches) then Failure(NotFound)
        else RmdirEdit(old(branches)[name], old(quota.usedBytes), old(InheritedView(Abs(), name)), p).result
    {
      hide RmdirEdit;
      EditKeepsStoreOk(Abs(), quota.maxBytes, name, Rmdir(p));
      ghost var before := Abs();
      if name !in branches {
        return Failure(NotFound);
      }
      r := RmdirPath(name, p);
      assert Abs() == Edited(before, quota.maxBytes, name, Rmdir(p));
    }

    method RmdirPath(name: string, p: Path) returns (r: Result<()>)
      requires Valid() && p != [] && name in branches
      modifies this`branches, quota
      ensures var d := RmdirEdit(old(branches)[name], old(quota.usedBytes), old(InheritedView(Abs(), name)), p);
        branches == old(branches)[name := d.layer] && quota.usedBytes == d.used && r == d.result
    {
      hide DeleteEdit, Children;
      if branches[name].frozen {
        return Failure(Frozen);
      }
      var resolved := ResolvePath(name, p);
      assert View(Abs(), name) == Overlaid(branches[name], InheritedView(Abs(), name));
      if resolved.value.None? {
        return Failure(NoEntry);
      }
      if !resolved.value.value.Dir? {
        return Failure(NotADirectory);
      }
      var names := CollectNames(name, p);
      if names.value != {} {
        return Failure(NotEmpty);
      }
      DeleteSucceeds(branches[name], quota.usedBytes, Inherits(name, p), p);
      DeletePath(name, p);
      r := Success(());
    }

    method RevertPathInBranch(name: string, p: Path) returns (r: Result<()>)
      requires Valid() && p != []
      modifies this, quota
      ensures Valid() && Abs() == Edited(old(Abs()), quota.maxBytes, name, Revert(p))
      ensures r == if name !in old(branches) then Failure(NotFound)
        else if old(branches)[name].frozen then Failure(Frozen) else Success(())
    {
      hide RevertEdit;
      EditKeepsStoreOk(Abs(), quota.maxBytes, name, Revert(p));
      ghost var before := Abs();
      if name !in branches {
        return Failure(NotFound);
      }
      r := RevertPath(name, p);
      if r.Success? {
        epoch := epoch + 1;
      }
      assert Abs() == Edited(before, quota.maxBytes, name, Revert(p));
    }

    method RevertPath(name: string, p: Path) returns (r: Result<()>)
      requires p != [] && name in branches && WellFormed(branches[name].files)
      modifies this`branches, quota
      ensures var d := RevertEdit(old(branches)[name], old(quota.usedBytes), p);
        branches == old(branches)[name := d.layer] && quota.usedBytes == d.used && r == d.result
      ensures r == if old(branches)[name].frozen then Failure(Frozen) else Success(())
    {
      hide WithoutDelta, Size, Under;
      if branches[name].frozen {
        return Failure(Frozen);
      }
      RemoveDelta(name, p);
      var b := branches[name];
      b := b.(tombs := NotUnder(b.tombs, p));
      b := b.(touches := WithoutUnder(b.touches, p));
      branches := branches[name := b];
      r := Success(());
    }

    /** rename, on top of the calls above: copy both sides up, drop the destination's
        delta, move the source's over it and update the tombstones. */
    method RenamePath(name: string, src: Path, dst: Path, noReplace: bool) returns (r: Result<()>)
      requires Valid() && src != [] && dst != []
      modifies this, quota
      ensures Valid() && Abs() == Renamed(old(Abs()), quota.maxBytes, name, src, dst, noReplace)
      ensures r == if name !in old(branches) then Failure(NotFound)
        else RenameEdit(old(branches)[name], old(quota.usedBytes), quota.maxBytes, old(InheritedView(Abs(), name)), src, dst, noReplace).result
    {
      if name !in branches {
        return Failure(NotFound);
      }
      ghost var before, inherited := Abs(), InheritedView(Abs(), name);
      r := RenameIn(name, inherited, src, dst, noReplace);
      RenameKeepsOk(before.branches[name], before.used, quota.maxBytes, inherited, src, dst, noReplace);
      RenameKeepsLinks(before.branches[name], before.used, quota.maxBytes, inherited, src, dst, noReplace);
      LayerChanged(before, name, branches[name], quota.usedBytes, epoch);
    }

    method RenameIn(name: string, ghost inherited: Tree, src: Path, dst: Path, noReplace: bool) returns (r: Result<()>)
      requires Valid() && src != [] && dst != [] && name in branches && inherited == InheritedView(Abs(), name)
      modifies this`branches, quota
      ensures var d := RenameEdit(old(branches)[name], old(quota.usedBytes), quota.maxBytes, inherited, src, dst, noReplace);
        branches == old(branches)[name := d.layer] && quota.usedBytes == d.used && r == d.result
    {
      hide EnsureEdit, FinishRename, Overlaid, InheritedAt, StoreOk, InheritedView;
      if branches[name].frozen {
        return Failure(Frozen);
      }
      ghost var b, used := branches[name], quota.usedBytes;
      var source := Shows(name, inherited, src);
      var target := Shows(name, inherited, dst);
      if !source {
        return Failure(NoEntry);
      }
      if noReplace && target {
        return Failure(Exists);
      }
      var srcInherited := ResolveInheritedForTouch(name, src);
      r := OpenSide(name, inherited, src);
      if r.Success? {
        InheritedAtSame(b, branches[name], inherited, dst);
        r := OpenSide(name, inherited, dst);
      }
      if r.Failure? {
        return Failure(Io);
      }
      ghost var two := OpenBoth(b, used, quota.maxBytes, inherited, src, dst);
      assert branches[name] == two.layer && quota.usedBytes == two.used;
      r := MoveDelta(name, inherited, b, two, srcInherited.Some?, src, dst);
    }

    /** Whether the branch shows something at a path. */
    method Shows(name: string, ghost inherited: Tree, p: Path) returns (found: bool)
      requires Valid() && name in branches && inherited == InheritedView(Abs(), name)
      ensures found <==> p in Overlaid(branches[name], inherited)
    {
      ResolveIsView(Abs(), name, p);
      found := Resolve(Abs(), name, p).value.Some?;
    }

    /** The move itself, once both sides have been opened. */
    method MoveDelta(name: string, ghost inherited: Tree, ghost first: Layer, ghost two: Done<()>, srcInherited: bool, src: Path, dst: Path)
      returns (r: Result<()>)
      requires Valid() && src != [] && dst != [] && name in branches && inherited == InheritedView(Abs(), name)
      requires branches[name] == two.layer && quota.usedBytes == two.used
      requires srcInherited <==> InheritedAt(first, inherited, src).Some?
      modifies this`branches
      ensures var d := FinishRename(first, two, inherited, src, dst);
        branches == old(branches)[name := d.layer] && quota.usedBytes == d.used && r == d.result
    {
      hide Moved, CanRename, RemoveUnder, Overlaid, InheritedAt;
      var existed := Shows(name, inherited, dst);
      var b := branches[name];
      if existed {
        b := b.(files := RemoveUnder(b.files, dst));
      }
      if !CanRename(b.files, src, dst) {
        branches := branches[name := b];
        return Failure(Io);
      }
      b := b.(files := Moved(RemoveUnder(b.files, dst), src, dst));
      b := b.(tombs := if srcInherited then b.tombs + {src} else b.tombs - {src});
      b := b.(tombs := b.tombs - {dst});
      branches := branches[name := b];
      r := Success(());
    }

    /** Open one side of a rename for writing; what the branch inherits stays. */
    method OpenSide(name: string, ghost inherited: Tree, p: Path) returns (r: Result<()>)
      requires Valid() && p != [] && name in branches && inherited == InheritedView(Abs(), name)
      modifies this`branches, quota
      ensures Valid() && name in branches && inherited == InheritedView(Abs(), name)
      ensures branches[name].hides == old(branches)[name].hides
      ensures var d := EnsureEdit(old(branches)[name], old(quota.usedBytes), quota.maxBytes, InheritedAt(old(branches)[name], inherited, p), p);
        branches == old(branches)[name := d.layer] && quota.usedBytes == d.used && r == d.result
    {
      hide EnsureEdit;
      ghost var before := Abs();
      r := EnsureDelta(name, p);
      EnsureKeepsLayerOk(before.branches[name], before.used, quota.maxBytes, InheritedAt(before.branches[name], inherited, p), p);
      LayerChanged(before, name, branches[name], quota.usedBytes, epoch);
      OwnLayerIsNotInherited(before, Abs(), name);
    }

    // ----- committing -----

    /** What a commit publishes at each delta file of the branch. */
    method ChooseSources(name: string, changed: bool, newer: set<Path>) returns (panicked: bool, sources: Tree)
      requires Valid() && name in branches
      ensures panicked <==> CommitPanics(branches[name], changed, InheritedView(Abs(), name), newer)
      ensures !panicked ==> sources == CommitSources(branches[name], changed, InheritedView(Abs(), name), newer)
    {
      hide MergeSource, InheritedView, InheritedAt, Chosen, CommitPanics, CommitSources;
      var c := branches[name];
      ghost var inherited := InheritedView(Abs(), name);
      var order := WalkFiles(c.files);
      sources := map[];
      NothingChosen(c, changed, inherited, newer, order);
      for i := 0 to |order|
        invariant Chosen(c, changed, inherited, newer, order, i, sources)
      {
        var x := order[i];
        assert x in SetOf(order);
        var inh := ResolveInheritedForTouch(name, x);
        var chosen := ChooseSource(c, changed, inh, inherited, newer, x);
        if chosen.Panics? {
          OnePanics(c, changed, inherited, newer, x);
          return true, map[];
        }
        ChosenMore(c, changed, inherited, newer, order, i, sources);
        sources := sources[x := if chosen.Merged? then chosen.result else c.files[x]];
      }
      panicked := false;
      AllChosen(c, changed, inherited, newer, order, sources);
    }

    /** Merge a branch under main into the base tree and clear main's deltas. */
    method CommitToBase(name: string, sources: Tree, faults: map<nat, Fault>) returns (ok: bool)
      requires Valid() && Removable(branches, name) && branches[name].parent == Some(MAIN)
      requires SourcesOf(branches[name], sources) && MergePaths(base, branches[name].tombs, sources)
      requires FaultsOk(faults)
      modifies this
      ensures ok ==> CommitDone(old(Abs()), name, sources, Abs())
      ensures !ok ==> CommitFailed(old(Abs()), MAIN, Abs())
      ensures !ok ==> MergeFailedWith(faults == map[], old(base), old(branches)[name].tombs, sources, base)
      ensures faults == map[] ==> EndsIn(old(base), old(branches)[name].tombs, sources, ok)
      ensures WellFormed(base) && branches.Keys <= old(branches).Keys
      ensures MAIN in branches && WellFormed(branches[MAIN].files) && branches[MAIN].tombs == old(branches)[MAIN].tombs
    {
      hide StagingBroke, PublishFailed, Published, CanMerge, EndsIn, MergePaths, RoomForCopies, CommitDone, WithoutAll,
        DepthIs, UserTree;
      var c := branches[name];
      var left, deleted;
      ok, left, deleted := MergeInto(base, c.tombs, sources, faults);
      base := left;
      if !ok {
        return;
      }
      var m := branches[MAIN];
      var files := RemoveEntries(m.files, sources.Keys + c.tombs);
      RootStays(c, sources);
      WithoutAllWellFormed(m.files, sources.Keys + c.tombs);
      m := m.(files := files);
      m := m.(commitCount := m.commitCount + 1);
      ghost var before := Abs().(base := old(base));
      branches := (branches - {name})[MAIN := m];
      epoch := epoch + 1;
      BaseMerged(before, name, sources, Abs());
    }

    /** Merge a nested branch into its parent's deltas and tombstones. */
    method CommitToParent(name: string, up: string, sources: Tree, faults: map<nat, Fault>) returns (ok: bool)
      requires Valid() && Removable(branches, name) && branches[name].parent == Some(up) && up in branches && up != MAIN
      requires SourcesOf(branches[name], sources) && MergePaths(branches[up].files, branches[name].tombs, sources)
      requires FaultsOk(faults) && up != name
      modifies this
      ensures base == old(base)
      ensures ok ==> CommitDone(old(Abs()), name, sources, Abs())
      ensures !ok ==> CommitFailed(old(Abs()), up, Abs())
      ensures !ok ==>
        MergeFailedWith(faults == map[], old(branches)[up].files, old(branches)[name].tombs, sources, branches[up].files)
      ensures faults == map[] ==> EndsIn(old(branches)[up].files, old(branches)[name].tombs, sources, ok)
      ensures branches.Keys <= old(branches).Keys && up in branches && WellFormed(branches[up].files)
      ensures branches[up].tombs <= old(branches)[up].tombs + old(branches)[name].tombs
    {
      hide StagingBroke, PublishFailed, Published, CanMerge, EndsIn, MergePaths, RoomForCopies, InheritedView, MergedTombs, CommitDone, Shrinks, WellFormed, CommitFailed;
      FilesWellFormed(Abs(), up);
      var c, p := branches[name], branches[up];
      var tombs := FoldTombs(Abs(), up, c.tombs, sources.Keys);
      var left, deleted;
      ok, left, deleted := MergeInto(p.files, c.tombs, sources, faults);
      p := p.(files := left);
      if !ok {
        ghost var before := Abs();
        branches := branches[up := p];
        ParentLeft(before, up, left, Abs());
        return;
      }
      var files := PruneAbove(p.files, p.touches, deleted);
      p := p.(files := files);
      p := p.(tombs := tombs);
      p := p.(commitCount := p.commitCount + 1);
      ghost var before := Abs();
      branches := (branches - {name})[up := p];
      epoch := epoch + 1;
      MergedIsPruned(c, before.branches[up], sources, deleted, left, files);
      ParentMerged(before, name, up, sources, Abs());
      FoldedFrom(before.branches[up], InheritedView(before, up), c.tombs, sources.Keys);
    }

    /** Commit a leaf branch into its parent. `newer` are the paths whose inherited entry
        was modified at another time than recorded; `faults` are the copies at which the
        operating system fails. */
    method CommitBranch(name: string, newer: set<Path>, faults: map<nat, Fault>) returns (r: Result<string>)
      requires Valid() && CommitNames(Abs(), name) && FaultsOk(faults)
      modifies this
      ensures Valid() && CommitStep(old(Abs()), name, Abs())
      ensures name == MAIN ==> r == Failure(CannotOperateOnMain)
      ensures name != MAIN && name !in old(branches) ==> r == Failure(NotFound)
      ensures name != MAIN && name in old(branches) && !IsLeaf(old(branches), name) ==> r == Failure(NotALeaf)
      ensures r.Success? ==> CommittedWith(old(Abs()), name, newer, Abs()) && r.value == old(branches)[name].parent.value
      ensures Removable(old(branches), name) ==> (r == Failure(Panicked) <==> !Committable(old(Abs()), name, newer))
      ensures r.Failure? && r.error != Io ==> Abs() == old(Abs())
      ensures r == Failure(Io) ==> CommitBrokeOff(old(Abs()), name, newer, faults == map[], Abs())
      ensures faults == map[] ==> CommitEnds(old(Abs()), name, newer, r.Success?)
    {
      hide RoomForCopies, CommitDone, Published, EndsIn, StagingBroke, PublishFailed, InheritedView, CommitSources, CommitPanics,
        WellFormed, LayerOk, DepthIs, UserTree, MergePaths;
      if name == MAIN {
        return Failure(CannotOperateOnMain);
      }
      if name !in branches {
        return Failure(NotFound);
      }
      if !IsLeaf(branches, name) {
        return Failure(NotALeaf);
      }
      OnlyMainHasNoParent(branches, name);
      ParentIsLive(branches, name);
      var up := branches[name].parent.value;
      var changed := branches[up].commitCount != branches[name].forkVersion;
      var panicked, sources := ChooseSources(name, changed, newer);
      if panicked {
        return Failure(Panicked);
      }
      CommitSourcesOk(branches[name], changed, InheritedView(Abs(), name), newer);
      SourcesAreNamed(Abs(), name, sources);
      ghost var before := Abs();
      var ok;
      if up == MAIN {
        ok := CommitToBase(name, sources, faults);
      } else {
        ok := CommitToParent(name, up, sources, faults);
      }
      CommitKeepsStoreOk(before, name, up, sources, Abs(), ok);
      r := if ok then Success(up) else Failure(Io);
    }
  }

  lemma EnsureKeepsLayerOk(b: Layer, used: int, max: Option<nat>, inh: Option<Entry>, p: Path)
    requires LayerOk(b) && p != []
    ensures var b' := EnsureEdit(b, used, max, inh, p).layer; LayerOk(b') && LinksKept(b, b')
  {
    EnsureKeepsOk(b, used, max, inh, p);
    EnsureKeepsLinks(b, used, max, inh, p);
  }

  lemma InheritedAtSame(b: Layer, b': Layer, inherited: Tree, p: Path)
    requires b.hides == b'.hides
    ensures InheritedAt(b, inherited, p) == InheritedAt(b', inherited, p)
  {
  }

  ghost predicate FaultsOk(faults: map<nat, Fault>) {
    forall k :: k in faults && faults[k].AfterTmp? ==> !faults[k].partial.Dir?
  }

  /** Users do not use the names of side files. */
  ghost predicate CommitNames(s: Store, name: string)
    requires Forest(s.branches)
  {
    name in s.branches && s.branches[name].parent.Some? ==>
      && UserTree(DestinationOf(s, name))
      && (forall t :: t in s.branches[name].tombs ==> Named(t))
      && (forall x :: x in Leaves(s.branches[name].files) ==> Named(x))
  }

  /** Without a fault, and with room for the copies, only publishing can have failed. */
  ghost predicate MergeFailedWith(faultless: bool, dest: Tree, tombs: set<Path>, sources: Tree, left: Tree) {
    && MergeFailed(dest, tombs, sources, left)
    && (faultless && RoomForCopies(dest, tombs, sources) ==> PublishFailed(dest, tombs, sources, left))
  }

  /** The merge of the chosen content failed. */
  ghost predicate CommitBrokeOff(s: Store, name: string, newer: set<Path>, faultless: bool, s': Store)
    requires Forest(s.branches)
  {
    && Removable(s.branches, name) && Forest(s'.branches)
    && name in s'.branches && s'.branches[name].parent == s.branches[name].parent
    && !CommitPanics(s.branches[name], ParentChanged(s, name), InheritedView(s, name), newer)
    && var sources := CommitSources(s.branches[name], ParentChanged(s, name), InheritedView(s, name), newer);
    MergeFailedWith(faultless, DestinationOf(s, name), s.branches[name].tombs, sources, DestinationOf(s', name))
  }

  /** What a failed commit leaves at its destination: if the merge broke off while it was
      staged, every file, given safe inputs; otherwise, and always when no copy fails and no
      kept file is in the way, the committed files are all in place although the commit
      reports an error, save those that the branch has deleted too. */
  lemma FailedCommitLeaves(s: Store, name: string, newer: set<Path>, faultless: bool, s': Store)
    requires Forest(s.branches) && CommitNames(s, name) && StoreOk(s) && CommitBrokeOff(s, name, newer, faultless, s')
    ensures var sources := CommitSources(s.branches[name], ParentChanged(s, name), InheritedView(s, name), newer);
      var dest, left, tombs := DestinationOf(s, name), DestinationOf(s', name), s.branches[name].tombs;
      && (StagingBroke(dest, tombs, sources, left) && SafeMerge(dest, tombs, sources) ==> FilesBack(dest, left))
      && (!StagingBroke(dest, tombs, sources, left) || (faultless && RoomForCopies(dest, tombs, sources)) ==>
            forall x :: x in sources && x !in tombs ==> Find(left, x) == Some(sources[x]))
  {
    hide StagingBroke, SafeMerge, FilesBack, PublishFailed, DestinationOf, CommitSources, InheritedView, UserTree, CommitPanics;
    var c := s.branches[name];
    var sources := CommitSources(c, ParentChanged(s, name), InheritedView(s, name), newer);
    var dest, left := DestinationOf(s, name), DestinationOf(s', name);
    CommitSourcesOk(c, ParentChanged(s, name), InheritedView(s, name), newer);
    SourcesAreNamed(s, name, sources);
    if StagingBroke(dest, c.tombs, sources, left) {
      BrokenStagingRestoresIff(dest, c.tombs, sources);
    }
    if PublishFailed(dest, c.tombs, sources, left) {
      PublishFailedKeepsCopies(dest, c.tombs, sources, left);
    }
  }

  /** How a commit without faults ends: as some order of its deletions and copies decides. */
  ghost predicate CommitEnds(s: Store, name: string, newer: set<Path>, ok: bool)
    requires Forest(s.branches)
  {
    if Committable(s, name, newer) then
      EndsIn(DestinationOf(s, name), s.branches[name].tombs, ChosenSources(s, name, newer), ok)
    else !ok
  }

  /** A commit that can be tried fails in some order exactly when a kept file is in the way of
      a committed one or an existing deletion lies below one, and succeeds in some order
      exactly when neither is true of the outermost deletions: between the two the order of
      the hash set decides. */
  lemma CommitEndsIff(s: Store, name: string, newer: set<Path>)
    requires StoreOk(s) && CommitNames(s, name) && Committable(s, name, newer)
    ensures var dest, tombs, sources := DestinationOf(s, name), s.branches[name].tombs, ChosenSources(s, name, newer);
      && (CommitEnds(s, name, newer, false) <==> !CanMerge(dest, tombs, sources))
      && (CommitEnds(s, name, newer, true) <==>
          RoomForCopies(dest, tombs, sources) && NoOuterTombBelowCopies(dest, tombs, sources))
  {
    hide CanMerge, RoomForCopies, NoOuterTombBelowCopies, EndsIn, DestinationOf, CommitSources, InheritedView, UserTree, CommitPanics;
    var sources := ChosenSources(s, name, newer);
    CommitSourcesOk(s.branches[name], ParentChanged(s, name), InheritedView(s, name), newer);
    SourcesAreNamed(s, name, sources);
    CanFailIff(DestinationOf(s, name), s.branches[name].tombs, sources);
  }

  lemma BaseMerged(s: Store, name: string, sources: Tree, s': Store)
    requires Forest(s.branches) && Removable(s.branches, name) && s.branches[name].parent == Some(MAIN)
    requires SourcesOf(s.branches[name], sources) && RoomForCopies(s.base, s.branches[name].tombs, sources)
    requires var c, m := s.branches[name], s.branches[MAIN];
      var m' := m.(files := WithoutAll(m.files, sources.Keys + c.tombs), commitCount := m.commitCount + 1);
      s' == Store(Published(s.base, c.tombs, sources), (s.branches - {name})[MAIN := m'], s.used, s.epoch + 1)
    ensures CommitDone(s, name, sources, s')
  {
  }

  lemma ParentMerged(s: Store, name: string, up: string, sources: Tree, s': Store)
    requires Forest(s.branches) && Removable(s.branches, name) && s.branches[name].parent == Some(up)
    requires up in s.branches && up != MAIN && up != name && SourcesOf(s.branches[name], sources)
    requires up in s'.branches && RoomForCopies(s.branches[up].files, s.branches[name].tombs, sources)
    requires var c, p := s.branches[name], s.branches[up];
      var p' := p.(files := MergedFiles(c, p, sources),
                   tombs := MergedTombs(p, InheritedView(s, up), c.tombs, sources.Keys), commitCount := p.commitCount + 1);
      s' == Store(s.base, (s.branches - {name})[up := p'], s.used, s.epoch + 1)
    ensures CommitDone(s, name, sources, s')
  {
  }

  /** Pruning above the recorded deletions gives the merged deltas of the parent. */
  lemma MergedIsPruned(c: Layer, p: Layer, sources: Tree, deleted: seq<EntryPath>, left: Tree, files: Tree)
    requires LayerOk(c) && LayerOk(p) && SourcesOf(c, sources) && RoomForCopies(p.files, c.tombs, sources)
    requires left == Published(p.files, c.tombs, sources) && Stands(p.files, c.tombs, deleted)
    requires files == PrunedAll(left, p.touches, deleted)
    ensures files == MergedFiles(c, p, sources) && WellFormed(files)
  {
    hide Published, Stands, PrunedAll;
    ChildShape(c, sources);
    MergedShrinks(c, p, sources);
    PrunedAllIsHollow(p.files, c.tombs, sources, p.touches, deleted);
  }

  lemma ParentLeft(s: Store, up: string, left: Tree, s': Store)
    requires up in s.branches && up != MAIN && WellFormed(left)
    requires s' == s.(branches := s.branches[up := s.branches[up].(files := left)])
    ensures CommitFailed(s, up, s')
  {
  }

  lemma FoldedFrom(p: Layer, ip: Tree, tombs: set<Path>, copied: set<Path>)
    ensures MergedTombs(p, ip, tombs, copied) <= p.tombs + tombs
  {
  }

  /** `sources` has the content chosen for the first `i` delta files. */
  ghost predicate Chosen(c: Layer, changed: bool, inherited: Tree, newer: set<Path>, order: seq<EntryPath>, i: nat, sources: Tree) {
    && i <= |order| && sources.Keys == SetOf(order[..i])
    && forall x :: x in sources ==>
         x in c.files && !MergeSource(c, changed, inherited, newer, x).Panics? && sources[x] == SourceEntry(c, changed, inherited, newer, x)
  }

  lemma NothingChosen(c: Layer, changed: bool, inherited: Tree, newer: set<Path>, order: seq<EntryPath>)
    ensures Chosen(c, changed, inherited, newer, order, 0, map[])
  {
  }

  lemma ChosenMore(c: Layer, changed: bool, inherited: Tree, newer: set<Path>, order: seq<EntryPath>, i: nat, sources: Tree)
    requires Chosen(c, changed, inherited, newer, order, i, sources) && i < |order| && order[i] in c.files
    requires !MergeSource(c, changed, inherited, newer, order[i]).Panics?
    ensures Chosen(c, changed, inherited, newer, order, i + 1,
                   sources[order[i] := SourceEntry(c, changed, inherited, newer, order[i])])
  {
    hide MergeSource;
    SetOfMore(order[..i], order[i]);
    assert order[..i + 1] == order[..i] + [order[i]];
  }

  lemma OnePanics(c: Layer, changed: bool, inherited: Tree, newer: set<Path>, x: Path)
    requires x in Leaves(c.files) && MergeSource(c, changed, inherited, newer, x).Panics?
    ensures CommitPanics(c, changed, inherited, newer)
  {
  }

  lemma AllChosen(c: Layer, changed: bool, inherited: Tree, newer: set<Path>, order: seq<EntryPath>, sources: Tree)
    requires SetOf(order) == Leaves(c.files).Keys && Chosen(c, changed, inherited, newer, order, |order|, sources)
    ensures !CommitPanics(c, changed, inherited, newer)
    ensures sources == CommitSources(c, changed, inherited, newer)
  {
    hide MergeSource;
    assert order[..|order|] == order;
  }

  lemma SourcesAreNamed(s: Store, name: string, sources: Tree)
    requires StoreOk(s) && CommitNames(s, name) && name in s.branches && s.branches[name].parent.Some?
    requires SourcesOf(s.branches[name], sources)
    ensures MergePaths(DestinationOf(s, name), s.branches[name].tombs, sources)
  {
    LeavesAreAntichain(s.branches[name].files);
  }

  lemma CommitKeepsStoreOk(s: Store, name: string, up: string, copies: Tree, s': Store, ok: bool)
    requires StoreOk(s) && Removable(s.branches, name) && s.branches[name].parent == Some(up) && up in s.branches
    requires ok ==> CommitDone(s, name, copies, s')
    requires !ok ==> CommitFailed(s, up, s')
    requires WellFormed(s'.base) && up in s'.branches && WellFormed(s'.branches[up].files)
    requires s'.branches[up].tombs <= s.branches[up].tombs + s.branches[name].tombs
    ensures StoreOk(s')
  {
    if ok {
      CommitKeepsForest(s, name, copies, s');
      CommitMergesUp(s, name, copies, s');
    } else if up != MAIN {
      LayerKeepsForest(s.branches, up, s'.branches[up]);
    }
    forall n | n in s'.branches
      ensures LayerOk(s'.branches[n])
    {
      assert n != up ==> s'.branches[n] == s.branches[n];
    }
  }

  lemma FilesWellFormed(s: Store, name: string)
    requires StoreOk(s) && name in s.branches
    ensures WellFormed(s.branches[name].files)
  {
  }

  lemma DeleteSucceeds(b: Layer, used: int, inh: Option<Entry>, p: Path)
    requires p != [] && !b.frozen
    ensures DeleteEdit(b, used, inh, p).result == Success(())
  {
  }

  lemma NoParentsYet(files: Tree, p: Path)
    ensures WithParents(files, p[..0]) == files
  {
    assert p[..0] == [];
  }

  lemma OneMoreParent(files: Tree, p: Path, k: nat)
    requires k < |p|
    ensures var made := WithParents(files, p[..k]);
      WithParents(files, p[..k + 1]) == if p[..k] in made then made else made[p[..k] := Dir]
  {
    var made := WithParents(files, p[..k]);
    var more := if p[..k] in made then made else made[p[..k] := Dir];
    forall q
      ensures Find(WithParents(files, p[..k + 1]), q) == Find(more, q)
    {
      WithParentsAt(files, p[..k], q);
      WithParentsAt(files, p[..k + 1], q);
      WithParentsAt(files, p[..k], p[..k]);
      assert q < p[..k + 1] <==> q < p[..k] || q == p[..k];
    }
    SameTree(WithParents(files, p[..k + 1]), more);
  }

  lemma CreateSteps(b: Layer, inherited: Option<Entry>, p: Path, content: seq<byte>)
    requires !(inherited.Some? && inherited.value.File?)
    ensures var shown := b.(tombs := b.tombs - {p});
      FileSteps(b, inherited, p, content) ==
        [shown, shown.(files := b.files[p := File([])]), shown.(files := b.files[p := File([])][p := File(content)])]
  {
    assert b.files[p := File([])][p := File(content)] == b.files[p := File(content)];
  }

  lemma ParentsLeaveFree(files: Tree, p: Path)
    requires p !in files
    ensures p !in WithParents(files, p)
  {
    WithParentsAt(files, p, p);
  }

  lemma ParentsThere(files: Tree, p: Path)
    requires WellFormed(files) && p != [] && p in files
    ensures ParentsOk(files, p) && WithParents(files, p) == files
  {
    assert forall q :: q in Ancestors({p}) ==> q in files by {
      forall q | q in Ancestors({p})
        ensures q in files
      {
        AncestorsAreAbove({p}, q);
      }
    }
  }

  lemma ParentsThereAfter(files: Tree, p: Path, e: Entry)
    requires p != [] && ParentsOk(files, p)
    ensures var files' := WithParents(files, p)[p := e]; ParentsOk(files', p) && WithParents(files', p) == files'
  {
    var files' := WithParents(files, p)[p := e];
    forall q
      ensures Find(WithParents(files', p), q) == Find(files', q)
      ensures q < p ==> Find(files', q) == Some(Dir)
    {
      WithParentsAt(files, p, q);
      WithParentsAt(files', p, q);
    }
    SameTree(WithParents(files', p), files');
    forall q | q in files' && q < p
      ensures files'[q].Dir?
    {
      assert Find(files', q) == Some(Dir);
    }
  }

  lemma NothingUnder(files: Tree, p: Path)
    requires WellFormed(files) && p !in files
    ensures Size(Under(files, p)) == 0
  {
    forall q | q in files
      ensures !(p <= q)
    {
      assert p <= q ==> p == q || p < q;
    }
    SizeOfNone(Under(files, p));
  }

  lemma EditKeepsStoreOk(s: Store, max: Option<nat>, name: string, op: Op)
    requires StoreOk(s) && op.path != []
    ensures StoreOk(Edited(s, max, name, op))
  {
    EditConservesTotal(s, max, name, op);
  }

  lemma ForestOf(s: Store)
    requires StoreOk(s)
    ensures Forest(s.branches)
  {
  }

  lemma NewBranchOk(parent: string, mode: Mode, hides: set<Path>, inherited: Tree, version: nat)
    requires WellFormed(inherited) && [] !in hides
    ensures LayerOk(NewBranch(parent, mode, hides, inherited, version))
  {
  }

  lemma LayerAdded(s: Store, name: string, b: Layer)
    requires StoreOk(s) && name !in s.branches && b.parent.Some? && b.parent.value in s.branches && LayerOk(b)
    ensures StoreOk(s.(branches := s.branches[name := b], epoch := s.epoch + 1))
  {
    CreateKeepsForest(s.branches, name, b);
  }

  lemma LayerChanged(s: Store, name: string, b: Layer, used: int, epoch: nat)
    requires StoreOk(s) && name in s.branches && b.parent == s.branches[name].parent && LayerOk(b)
    ensures StoreOk(Store(s.base, s.branches[name := b], used, epoch))
  {
    LayerKeepsForest(s.branches, name, b);
  }

  lemma OnlyMain(bs: Branches)
    requires bs.Keys == {MAIN} && bs[MAIN].parent == None
    ensures Forest(bs)
  {
    assert DepthIs(bs, MAIN, 0);
  }

  lemma OnlyMainHasNoParent(bs: Branches, name: string)
    requires Forest(bs) && name in bs && name != MAIN
    ensures bs[name].parent.Some?
  {
    assert DepthIs(bs, name, Depth(bs, name));
  }

  lemma FreshMainShowsBase(s: Store)
    requires StoreOk(s) && s.branches[MAIN].files == EMPTY_TREE && s.branches[MAIN].tombs == {} && s.branches[MAIN].hides == {}
    ensures View(s, MAIN) == s.base
  {
    MainView(s);
  }
}
