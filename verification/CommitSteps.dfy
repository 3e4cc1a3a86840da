/** The loops of a commit: choosing what to publish, merging into a tree, folding
    tombstones and pruning. */
module CommitSteps {
  import opened FileTree
  import opened MergeView
  import opened Layers
  import opened Edits
  import opened EditLaws
  import opened TextMerge
  import opened Staging
  import opened Publish
  import opened Rollback
  import opened Merger
  import opened FailedMerges
  import opened MergeOrders
  import opened Commit
  import opened Chain
  import opened Store
  import opened CommitRun

  // ----- choosing what to publish -----

  /** What is published at one delta file. */
  method ChooseSource(c: Layer, changed: bool, inh: Option<Entry>, ghost inherited: Tree, newer: set<Path>, x: Path)
    returns (r: Outcome<Entry>)
    requires x in c.files && inh == InheritedAt(c, inherited, x)
    ensures r == MergeSource(c, changed, inherited, newer, x)
  {
    var record := TouchOf(c, x);
    if !changed || (record.identity == IdentityOf(inh) && x !in newer) {
      return Merged(c.files[x]);
    }
    if record.identity.kind.Regular? && record.base.Some? && BoundedText(Some(c.files[x])).Some? && BoundedText(inh).Some? {
      var merged := TryThreeWayTextMerge(record.base.value, inh.value.data, c.files[x].data);
      match merged
      case Merged(text) => return Merged(File(text));
      case Overlapping => return Merged(c.files[x]);
      case Panics => return Panics;
    }
    r := Merged(c.files[x]);
  }

  /** The delta files in the order of the walk. */
  method WalkFiles(files: Tree) returns (order: seq<EntryPath>)
    requires [] !in Leaves(files)
    ensures Distinct(order) && SetOf(order) == Leaves(files).Keys
  {
    order := [];
    var rest := Leaves(files).Keys;
    while rest != {}
      invariant rest <= Leaves(files).Keys && SetOf(order) == Leaves(files).Keys - rest && Distinct(order)
      decreases rest
    {
      var x: Path :| x in rest;
      SetOfMore(order, x);
      order := order + [x];
      rest := rest - {x};
    }
  }

  // ----- merging into a tree -----

  method StageTombs(merge: StagedMerge, dest: Tree, tombs: set<Path>) returns (ghost targets: seq<EntryPath>)
    requires merge.Valid() && merge.Value() == Merge(dest, [], []) && !merge.committed
    requires forall t :: t in tombs ==> Named(t)
    modifies merge
    ensures merge.Valid() && !merge.committed && Paths(targets) && SetOf(targets) == tombs
    ensures merge.Value() == StageDeletes(Merge(dest, [], []), targets)
  {
    hide Staging.StageDelete;
    targets := [];
    var rest := tombs;
    while rest != {}
      invariant merge.Valid() && !merge.committed && Paths(targets)
      invariant rest <= tombs && SetOf(targets) == tombs - rest
      invariant merge.Value() == StageDeletes(Merge(dest, [], []), targets)
      decreases rest
    {
      var t: Path :| t in rest;
      assert (targets + [t])[..|targets|] == targets;
      merge.StageDelete(t);
      SetOfMore(targets, t);
      targets := targets + [t];
      rest := rest - {t};
    }
  }

  /** Stage the copies in the given order; the n-th fails if `faults` says so. */
  method StageSources(merge: StagedMerge, dests: seq<EntryPath>, sources: Tree, faults: map<nat, Fault>) returns (ok: bool, ghost n: nat)
    requires merge.Valid() && !merge.committed && CopyList(dests, sources)
    requires forall k :: k in faults && faults[k].AfterTmp? ==> !faults[k].partial.Dir?
    modifies merge
    ensures merge.Valid() && !merge.committed && n <= |dests| && CopyList(dests[..n], sources)
    ensures var before := StageCopies(old(merge.Value()), dests[..n], sources);
      && before.Some?
      && (ok ==> n == |dests| && merge.Value() == before.value)
      && (!ok ==> n < |dests| && CopyList(dests[..n] + [dests[n]], sources))
      && (!ok ==> exists fault :: FaultOk(fault) && merge.Value() == BrokenOff(before.value, Failed(dests[n], fault)))
      && (!ok && faults == map[] ==> StageCopy(before.value, dests[n], sources[dests[n]]).None?)
  {
    hide StageCopy, BrokenOff;
    ghost var start := merge.Value();
    var k := 0;
    assert dests[..0] == [];
    while k < |dests|
      invariant 0 <= k <= |dests| && merge.Valid() && !merge.committed && CopyList(dests[..k], sources)
      invariant StageCopies(start, dests[..k], sources) == Some(merge.Value())
    {
      CopyListTake(dests, sources, k);
      assert dests[..k + 1][..k] == dests[..k];
      var copied := merge.StageCopy(dests[k], sources[dests[k]], if k in faults then Some(faults[k]) else None);
      if !copied {
        assert dests[..k] + [dests[k]] == dests[..k + 1];
        assert FaultOk(FaultOf(if k in faults then Some(faults[k]) else None));
        return false, k;
      }
      k := k + 1;
    }
    assert dests[..k] == dests;
    return true, k;
  }

  lemma CopyListTake(dests: seq<EntryPath>, sources: Tree, k: nat)
    requires CopyList(dests, sources) && k < |dests|
    ensures CopyList(dests[..k], sources) && CopyList(dests[..k + 1], sources)
    ensures Named(dests[k]) && dests[k] in sources && !sources[dests[k]].Dir?
  {
    assert forall i :: 0 <= i < k + 1 ==> dests[..k + 1][i] == dests[i];
    assert SetOf(dests[..k + 1]) <= SetOf(dests) && SetOf(dests[..k]) <= SetOf(dests);
  }

  lemma LeavesOfSources(sources: Tree)
    requires forall x :: x in sources ==> !sources[x].Dir?
    ensures Leaves(sources) == sources
  {
  }

  /** The paths of the copies, in the order of the walk. */
  method CopyOrder(sources: Tree) returns (dests: seq<EntryPath>)
    requires Antichain(sources.Keys) && forall x :: x in sources ==> Named(x) && !sources[x].Dir?
    ensures CopyList(dests, sources) && SetOf(dests) == sources.Keys
  {
    LeavesOfSources(sources);
    dests := WalkFiles(sources);
    forall i | 0 <= i < |dests|
      ensures dests[i] in sources
    {
      assert dests[i] in SetOf(dests);
    }
  }

  lemma StageOneMore(dest: Tree, targets: seq<EntryPath>, dests: seq<EntryPath>, sources: Tree, n: nat)
    requires UserTree(dest) && Paths(targets) && CopyList(dests, sources) && n < |dests|
    requires CopyList(dests[..n], sources) && RoomForAll(dest, SetOf(targets), dests)
    ensures StageMerge(dest, targets, dests[..n], sources).Some?
    ensures StageCopy(StageMerge(dest, targets, dests[..n], sources).value, dests[n], sources[dests[n]]).Some?
  {
    CopyListTake(dests, sources, n);
    StagedMergeShape(dest, targets, dests[..n + 1], sources);
    assert dests[..n + 1][..n] == dests[..n];
  }

  /** Merge deletions and copies into a tree. On success exactly the specified tree is left.
      Otherwise the merge was dropped while it was staged, or its publish failed and, where
      no deletion was asked for, left every copy in place. Without a fault it ends as the
      order of the deletions decides, always well when no kept file is in the way of a copy
      and no existing deletion lies below one, and fails in the first of the two ways only
      when a kept file is in the way. */
  method MergeInto(dest: Tree, tombs: set<Path>, sources: Tree, faults: map<nat, Fault>)
    returns (ok: bool, left: Tree, deleted: seq<EntryPath>)
    requires MergePaths(dest, tombs, sources)
    requires forall k :: k in faults && faults[k].AfterTmp? ==> !faults[k].partial.Dir?
    ensures WellFormed(left)
    ensures ok ==> left == Published(dest, tombs, sources) && RoomForCopies(dest, tombs, sources)
    ensures Stands(dest, tombs, deleted)
    ensures !ok ==> MergeFailed(dest, tombs, sources, left)
    ensures !ok && !StagingBroke(dest, tombs, sources, left) ==>
      forall x :: x in sources && x !in tombs ==> Find(left, x) == Some(sources[x])
    ensures !ok && faults == map[] && RoomForCopies(dest, tombs, sources) ==> PublishFailed(dest, tombs, sources, left)
    ensures faults == map[] ==> EndsIn(dest, tombs, sources, ok)
    ensures faults == map[] && CanMerge(dest, tombs, sources) ==> ok
  {
    hide StageCopy, BrokenOff, RollBack, PublishBroke, Publishes, Published, RoomForCopies, NoTombBelowCopies, StageDeletes,
      StagingBroke, PublishFailed, Stands, EndsIn, CanMerge;
    CanFailIff(dest, tombs, sources);
    var merge := new StagedMerge(dest);
    ghost var targets := StageTombs(merge, dest, tombs);
    deleted := merge.deletes;
    DeletionsStand(dest, tombs, targets);
    var dests := CopyOrder(sources);
    RoomIff(dest, tombs, dests, sources);
    StagedMergeShape(dest, targets, dests, sources);
    var staged, n := StageSources(merge, dests, sources, faults);
    if !staged {
      ghost var fault :| FaultOk(fault) &&
        merge.Value() == BrokenOff(StageMerge(dest, targets, dests[..n], sources).value, Failed(dests[n], fault));
      if RoomForAll(dest, tombs, dests) {
        StageOneMore(dest, targets, dests, sources, n);
      }
      merge.Drop();
      DroppedWhileStaging(dest, targets, dests[..n], sources, dests[n], fault, merge.disk);
      if faults == map[] {
        EndsUnstaged(dest, tombs, sources, targets, dests);
      }
      return false, merge.disk, deleted;
    }
    assert dests[..n] == dests;
    ok := merge.Commit();
    left := merge.disk;
    MergedOrFailed(dest, tombs, targets, dests, sources, ok, left);
    if !ok {
      PublishFailedKeepsCopies(dest, tombs, sources, left);
    }
  }

  lemma EndsUnstaged(dest: Tree, tombs: set<Path>, sources: Tree, targets: seq<EntryPath>, dests: seq<EntryPath>)
    requires Orders(tombs, sources, targets, dests) && StageMerge(dest, targets, dests, sources).None?
    ensures EndsIn(dest, tombs, sources, false)
  {
    assert !GoesThrough(dest, targets, dests, sources);
  }

  lemma DroppedWhileStaging(dest: Tree, targets: seq<EntryPath>, dests: seq<EntryPath>, sources: Tree, x: EntryPath, fault: Fault, left: Tree)
    requires Paths(targets) && CopyList(dests, sources) && CopyList(dests + [x], sources) && FaultOk(fault)
    requires BrokeWith(dest, targets, dests, sources, Failed(x, fault), left)
    ensures StagingBroke(dest, SetOf(targets), sources, left)
  {
  }

  lemma MergedOrFailed(dest: Tree, tombs: set<Path>, targets: seq<EntryPath>, dests: seq<EntryPath>, sources: Tree, ok: bool, left: Tree)
    requires MergePaths(dest, tombs, sources) && Paths(targets) && SetOf(targets) == tombs
    requires CopyList(dests, sources) && SetOf(dests) == sources.Keys
    requires StageMerge(dest, targets, dests, sources).Some?
    requires var m := StageMerge(dest, targets, dests, sources).value;
      && (ok <==> Publishes(m)) && (!ok ==> PublishBroke(m, left))
      && (ok ==> left == Discard(PublishAll(m.disk, m.copies).value, m.deletes))
    ensures ok ==> left == Published(dest, tombs, sources) && RoomForCopies(dest, tombs, sources)
    ensures !ok ==> PublishFailed(dest, tombs, sources, left)
    ensures EndsIn(dest, tombs, sources, ok)
  {
    hide StageMerge, PublishAll, CanDiscard, Discard, Published, PublishBroke, RoomForCopies, RoomForAll, NoDeleteBelowCopy,
      NoTombBelowCopies, UserTree, Staged, SideFilesKnown, CopyList, Paths;
    var m := StageMerge(dest, targets, dests, sources).value;
    StagedMergeShape(dest, targets, dests, sources);
    RoomIff(dest, tombs, dests, sources);
    MergeMeetsSpec(dest, targets, dests, sources);
    CopiesOfAll(dests, sources);
    assert Orders(tombs, sources, targets, dests) && (ok <==> GoesThrough(dest, targets, dests, sources));
    if !ok {
      assert FailedWith(dest, targets, dests, sources, left);
    }
  }

  lemma CopiesOfAll(dests: seq<EntryPath>, sources: Tree)
    requires CopyList(dests, sources) && SetOf(dests) == sources.Keys
    ensures CopiesOf(dests, sources) == sources
  {
  }

  /** The recorded deletions stand for all that found something: each of these lies at or
      below a recorded one. */
  ghost predicate Stands(dest: Tree, tombs: set<Path>, deleted: seq<EntryPath>) {
    && (forall a :: a in deleted ==> a in tombs && a in dest)
    && forall t :: t in tombs && t in dest ==> Covered(SetOf(deleted), t)
  }

  lemma DeletionsStand(dest: Tree, tombs: set<Path>, targets: seq<EntryPath>)
    requires UserTree(dest) && Paths(targets) && SetOf(targets) == tombs
    ensures Stands(dest, tombs, StageDeletes(Merge(dest, [], []), targets).deletes)
  {
    hide StageDeletes, Staged;
    var deleted := StageDeletes(Merge(dest, [], []), targets).deletes;
    UserTreeStaged(dest, map[]);
    DeletesRecorded(dest, dest, map[], targets);
    forall t | t in tombs && t in dest
      ensures Covered(SetOf(deleted), t)
    {
      var i :| 0 <= i < |targets| && targets[i] == t;
      RecordedAbove(dest, targets, deleted, t, i);
    }
  }

  lemma {:induction false} RecordedAbove(dest: Tree, targets: seq<EntryPath>, deleted: seq<EntryPath>, t: Path, i: nat)
    requires WellFormed(dest) && t in dest && RecordedOf(dest, targets, deleted)
    requires i < |targets| && targets[i] <= t
    ensures Covered(SetOf(deleted), t)
  {
    assert targets[i] == t || targets[i] < t;
    if Recorded(dest, targets, i) {
      assert targets[i] in SetOf(deleted);
    } else {
      var u :| u in SetOf(targets[..i]) && u <= targets[i];
      var j :| 0 <= j < i && targets[j] == u;
      RecordedAbove(dest, targets, deleted, t, j);
    }
  }

  // ----- tombstones and pruning -----

  /** Each tombstone of the child stays where the parent inherits the path and goes
      otherwise; one at a committed file goes. */
  method FoldTombs(s: Store, up: string, tombs: set<Path>, copied: set<Path>) returns (folded: set<Path>)
    requires StoreOk(s) && up in s.branches
    ensures folded == MergedTombs(s.branches[up], InheritedView(s, up), tombs, copied)
  {
    var p := s.branches[up];
    ghost var ip := InheritedView(s, up);
    folded := p.tombs;
    var rest := tombs;
    while rest != {}
      invariant rest <= tombs
      invariant forall t :: t in folded <==> (t in p.tombs + (tombs - rest) && (t in tombs - rest ==> InheritedExists(p, ip, t)))
      decreases rest
    {
      var t :| t in rest;
      ResolveIsView(s, up, t);
      if !Covered(p.hides, t) && InheritedResolve(s, up, t).value.Some? {
        folded := folded + {t};
      } else {
        folded := folded - {t};
      }
      rest := rest - {t};
    }
    var left := copied;
    while left != {}
      invariant left <= copied
      invariant forall t :: t in folded <==>
        (t in p.tombs + tombs && t !in copied - left && (t in tombs ==> InheritedExists(p, ip, t)))
      decreases left
    {
      var x :| x in left;
      folded := folded - {x};
      left := left - {x};
    }
  }

  ghost function PrunedAll(files: Tree, touches: map<Path, Touch>, deleted: seq<EntryPath>): Tree {
    if deleted == [] then files
    else Pruned(PrunedAll(files, touches, deleted[..|deleted| - 1]), touches, Parent(deleted[|deleted| - 1]))
  }

  lemma {:induction false} PrunedAllShrinks(files: Tree, touches: map<Path, Touch>, deleted: seq<EntryPath>)
    requires WellFormed(files)
    ensures Shrinks(files, PrunedAll(files, touches, deleted))
  {
    if deleted != [] {
      var n := |deleted| - 1;
      var before := PrunedAll(files, touches, deleted[..n]);
      PrunedAllShrinks(files, touches, deleted[..n]);
      PrunedShrinks(before, touches, Parent(deleted[n]));
      ShrinksTransitive(files, before, PrunedAll(files, touches, deleted));
    }
  }

  /** Nothing is left to prune above any of the deletions, nor anywhere else where there was
      nothing to prune before, whatever their order. */
  lemma {:induction false} PrunedAllCompletely(files: Tree, touches: map<Path, Touch>, deleted: seq<EntryPath>, e: Path)
    requires WellFormed(files)
    requires !CanPrune(files, touches, e) || exists i :: 0 <= i < |deleted| && e == Parent(deleted[i])
    ensures !CanPrune(PrunedAll(files, touches, deleted), touches, e)
  {
    if deleted != [] {
      var n := |deleted| - 1;
      PrunedAllShrinks(files, touches, deleted[..n]);
      if e != Parent(deleted[n]) {
        if i :| 0 <= i < |deleted| && e == Parent(deleted[i]) {
          assert e == Parent(deleted[..n][i]);
        }
        PrunedAllCompletely(files, touches, deleted[..n], e);
      }
      PrunedCompletely(PrunedAll(files, touches, deleted[..n]), touches, Parent(deleted[n]), e);
    }
  }

  /** What is pruned is an untouched directory above a deletion. */
  lemma {:induction false} PrunedAllAbove(files: Tree, touches: map<Path, Touch>, deleted: seq<EntryPath>, d: Path)
    requires WellFormed(files) && d in files && d !in PrunedAll(files, touches, deleted)
    ensures d != [] && files[d].Dir? && d !in touches && AboveSome(SetOf(deleted), d)
  {
    var n := |deleted| - 1;
    var before := PrunedAll(files, touches, deleted[..n]);
    PrunedAllShrinks(files, touches, deleted[..n]);
    if d in before {
      PrunedIff(before, touches, Parent(deleted[n]), d);
      UpToParent(deleted[n], d);
      assert deleted[n] in SetOf(deleted);
    } else {
      PrunedAllAbove(files, touches, deleted[..n], d);
      assert SetOf(deleted[..n]) <= SetOf(deleted);
    }
  }

  /** `q` is a directory of the merged tree with nothing below it. */
  ghost predicate Bare(dest: Tree, tombs: set<Path>, copies: Tree, q: Path) {
    var merged := Published(dest, tombs, copies);
    q in merged && merged[q].Dir? && forall r :: r in merged ==> !(q < r)
  }

  /** The parent of some recorded deletion, of those below `q`, is `q`, if nothing else is
      there any more. */
  lemma {:induction false} DeletedRightBelow(dest: Tree, tombs: set<Path>, copies: Tree, deleted: seq<EntryPath>, q: Path, t: Path)
    requires WellFormed(dest) && Plain(copies) && Stands(dest, tombs, deleted) && t in tombs && t in dest && q < t
    requires Bare(dest, tombs, copies, q)
    ensures exists u :: u in deleted && q == Parent(u)
    decreases |t|
  {
    hide Bare, Stands, Plain, WellFormed;
    var u, t' := CloserDeletion(dest, tombs, copies, deleted, q, t);
    if q != Parent(u) {
      DeletedRightBelow(dest, tombs, copies, deleted, q, t');
    }
  }

  /** The recorded deletion that stands for `t` is right below `q`, or another deletion
      lies between them. */
  lemma CloserDeletion(dest: Tree, tombs: set<Path>, copies: Tree, deleted: seq<EntryPath>, q: Path, t: Path)
    returns (u: EntryPath, t': Path)
    requires WellFormed(dest) && Plain(copies) && Stands(dest, tombs, deleted) && t in tombs && t in dest && q < t
    requires Bare(dest, tombs, copies, q)
    ensures u in deleted && (q == Parent(u) || (t' in tombs && t' in dest && q < t' && |t'| < |t|))
  {
    hide Bare, Plain, Stands, Covered, WellFormed;
    BareIsKept(dest, tombs, copies, q);
    u := StandsFor(dest, tombs, deleted, t);
    PrefixesComparable(u, q, t);
    NotCovered(tombs, q, u);
    UpToParent(u, q);
    var d := Parent(u);
    t' := u;
    if d != q {
      assert q < d;
      StaysAbove(dest, u, d);
      BetweenIsDeleted(dest, tombs, copies, q, d);
      t' := CoverOf(tombs, d);
      PrefixesComparable(t', q, d);
      NotCovered(tombs, q, t');
      StaysAbove(dest, d, t');
    }
  }

  lemma StandsFor(dest: Tree, tombs: set<Path>, deleted: seq<EntryPath>, t: Path) returns (u: EntryPath)
    requires Stands(dest, tombs, deleted) && t in tombs && t in dest
    ensures u in deleted && u <= t && u in tombs && u in dest
  {
    u :| u in SetOf(deleted) && u <= t;
  }

  lemma CoverOf(tombs: set<Path>, d: Path) returns (t: Path)
    requires Covered(tombs, d)
    ensures t in tombs && t <= d
  {
    t :| t in tombs && t <= d;
  }

  lemma NotCovered(tombs: set<Path>, q: Path, t: Path)
    requires !Covered(tombs, q) && t in tombs
    ensures !(t <= q)
    ensures q <= t ==> q < t
  {
  }

  /** Such a directory was there before and has nothing to do with a copy. */
  lemma BareIsKept(dest: Tree, tombs: set<Path>, copies: Tree, q: Path)
    requires Plain(copies) && Bare(dest, tombs, copies, q)
    ensures !Covered(tombs, q) && Unrelated(copies, q)
  {
    hide Published;
    assert Find(Published(dest, tombs, copies), q) == Some(Dir);
    PublishedAt(dest, tombs, copies, q);
    forall x | x in copies
      ensures !(q < x)
    {
      PublishedAt(dest, tombs, copies, x);
      assert Find(Published(dest, tombs, copies), x) == Some(copies[x]);
    }
  }

  lemma BetweenIsDeleted(dest: Tree, tombs: set<Path>, copies: Tree, q: Path, d: Path)
    requires Plain(copies) && d in dest && q < d && Bare(dest, tombs, copies, q)
    ensures Covered(tombs, d)
  {
    hide Published;
    BareIsKept(dest, tombs, copies, q);
    PublishedAt(dest, tombs, copies, d);
    forall x | x in copies
      ensures !(x <= d)
    {
      if x <= d {
        PrefixesComparable(x, q, d);
      }
      assert x <= q ==> Covered(copies.Keys, q);
      assert q <= x ==> q == x || q < x;
    }
  }

  /** Pruning above the recorded deletions in their order takes away exactly the hollow
      directories, whatever the order. */
  lemma PrunedAllIsHollow(dest: Tree, tombs: set<Path>, copies: Tree, touches: map<Path, Touch>, deleted: seq<EntryPath>)
    requires WellFormed(dest) && Plain(copies) && WellFormed(Published(dest, tombs, copies)) && Stands(dest, tombs, deleted)
    ensures var merged := Published(dest, tombs, copies);
      PrunedAll(merged, touches, deleted) == WithoutHollow(merged, touches, Gone(dest, tombs))
  {
    hide Published, CanPrune;
    var merged, gone := Published(dest, tombs, copies), Gone(dest, tombs);
    var left := PrunedAll(merged, touches, deleted);
    PrunedAllShrinks(merged, touches, deleted);
    forall d | d in merged
      ensures d !in left <==> Hollow(merged, touches, gone, d)
    {
      if d !in left {
        PrunedIsHollow(dest, tombs, merged, touches, deleted, d);
      } else {
        KeptIsNotHollow(dest, tombs, copies, touches, deleted, d);
      }
    }
    assert forall d :: d in left ==> d in merged && left[d] == merged[d];
  }

  lemma PrunedIsHollow(dest: Tree, tombs: set<Path>, merged: Tree, touches: map<Path, Touch>, deleted: seq<EntryPath>, d: Path)
    requires WellFormed(merged) && Stands(dest, tombs, deleted) && d in merged && d !in PrunedAll(merged, touches, deleted)
    ensures Hollow(merged, touches, Gone(dest, tombs), d)
  {
    var left := PrunedAll(merged, touches, deleted);
    PrunedAllShrinks(merged, touches, deleted);
    PrunedAllAbove(merged, touches, deleted, d);
    forall q | q in merged && d <= q
      ensures merged[q].Dir? && q !in touches && AboveSome(Gone(dest, tombs), q)
    {
      assert d == q || d < q;
      PrunedAllAbove(merged, touches, deleted, q);
      var a :| a in SetOf(deleted) && q < a;
      assert a in Gone(dest, tombs);
    }
  }

  /** Otherwise the deepest directory left below it could still be pruned. */
  lemma KeptIsNotHollow(dest: Tree, tombs: set<Path>, copies: Tree, touches: map<Path, Touch>, deleted: seq<EntryPath>, d: Path)
    requires WellFormed(dest) && Plain(copies) && WellFormed(Published(dest, tombs, copies)) && Stands(dest, tombs, deleted)
    requires var merged := Published(dest, tombs, copies); d in PrunedAll(merged, touches, deleted)
    ensures !Hollow(Published(dest, tombs, copies), touches, Gone(dest, tombs), d)
  {
    hide Published;
    var merged, gone := Published(dest, tombs, copies), Gone(dest, tombs);
    var left := PrunedAll(merged, touches, deleted);
    PrunedAllShrinks(merged, touches, deleted);
    if Hollow(merged, touches, gone, d) {
      var q := Deepest(left, d);
      assert q in merged && left[q] == merged[q];
      assert q != [] && CanPrune(left, touches, q);
      if CanPrune(merged, touches, q) {
        var t :| t in gone && q < t;
        assert Bare(dest, tombs, copies, q);
        DeletedRightBelow(dest, tombs, copies, deleted, q, t);
        var u :| u in deleted && q == Parent(u);
        var i :| 0 <= i < |deleted| && deleted[i] == u;
      }
      PrunedAllCompletely(merged, touches, deleted, q);
    }
  }

  lemma {:induction false} Deepest(t: Tree, d: Path) returns (q: Path)
    requires d in t
    ensures q in t && d <= q && forall r :: r in t ==> !(q < r)
  {
    var below := set r | r in t && d <= r;
    assert d in below;
    q := Longest(below);
    forall r | r in t
      ensures !(q < r)
    {
      assert q < r ==> r in below && |r| > |q|;
    }
  }

  lemma {:induction false} Longest(s: set<Path>) returns (q: Path)
    requires s != {}
    ensures q in s && forall r :: r in s ==> |r| <= |q|
    decreases |s|
  {
    q :| q in s;
    if s - {q} != {} {
      var r := Longest(s - {q});
      if |q| < |r| {
        q := r;
      }
    }
  }

  /** Prune above every deletion that found its target. */
  method PruneAbove(files: Tree, touches: map<Path, Touch>, deleted: seq<EntryPath>) returns (left: Tree)
    ensures left == PrunedAll(files, touches, deleted)
  {
    left := files;
    for i := 0 to |deleted|
      invariant left == PrunedAll(files, touches, deleted[..i])
    {
      assert deleted[..i + 1][..i] == deleted[..i];
      left := PruneEmptyDeltaParents(left, touches, Parent(deleted[i]));
    }
    assert deleted[..|deleted|] == deleted;
  }

  /** Remove empty delta directories from `start` upwards, up to a touched one. */
  method PruneEmptyDeltaParents(files: Tree, touches: map<Path, Touch>, start: Path) returns (left: Tree)
    ensures left == Pruned(files, touches, start)
  {
    left := files;
    var current := start;
    while CanPrune(left, touches, current)
      invariant Pruned(left, touches, current) == Pruned(files, touches, start)
      decreases |current|
    {
      left := left - {current};
      current := Parent(current);
    }
  }

  /** Remove main's deltas at and below every committed or deleted path. */
  method RemoveEntries(files: Tree, paths: set<Path>) returns (left: Tree)
    ensures left == WithoutAll(files, paths)
  {
    left := files;
    var rest := paths;
    while rest != {}
      invariant rest <= paths && left == WithoutAll(files, paths - rest)
      decreases rest
    {
      var p :| p in rest;
      WithoutOneMore(files, paths - rest, p);
      assert paths - rest + {p} == paths - (rest - {p});
      left := RemoveUnder(left, p);
      rest := rest - {p};
    }
    assert paths - rest == paths;
  }

  lemma WithoutOneMore(t: Tree, tops: set<Path>, p: Path)
    ensures RemoveUnder(WithoutAll(t, tops), p) == WithoutAll(t, tops + {p})
  {
    forall q
      ensures Covered(tops + {p}, q) <==> Covered(tops, q) || p <= q
    {
      assert p in tops + {p};
    }
  }

  // ----- chains go through -----

  /** Along a ready chain nothing makes a commit fail: the merge of the last branch into
      its parent goes through, ... */
  lemma ReadyPairCanMerge(c: Layer, p: Layer, ip: Tree)
    requires LayerOk(c) && c.hides == {} && KindStable(c, Overlaid(p, ip)) && NoTombBelow(c.tombs, c.files)
    ensures CanMerge(p.files, c.tombs, Leaves(c.files))
  {
    RoomInParent(c, p, ip);
  }

  /** ... and so does the merge of the first branch into the base tree. */
  lemma ReadyBaseCanMerge(c: Layer, m: Layer, base: Tree)
    requires LayerOk(c) && c.hides == {} && m.hides == {} && NoTombBelow(c.tombs, c.files)
    requires KindStable(c, Overlaid(m, base)) && KindStable(m, base) && MainLets(m, c.files)
    ensures CanMerge(base, c.tombs, Leaves(c.files))
  {
    RoomInBase(c, m, base);
  }

  ghost function LastMerged(base: Tree, chain: seq<Layer>): Layer
    requires |chain| >= 2
  {
    var n := |chain| - 1;
    MergedParent(chain[n], chain[n - 1], ChainView(base, chain[..n - 1]), Leaves(chain[n].files))
  }

  /** Committing the chain deepest first, no merge fails in any order of its deletions. */
  ghost predicate ChainMerges(base: Tree, chain: seq<Layer>)
    requires |chain| >= 2
    decreases |chain|
  {
    var n := |chain| - 1;
    var c := chain[n];
    if n == 1 then CanMerge(base, c.tombs, Leaves(c.files))
    else CanMerge(chain[n - 1].files, c.tombs, Leaves(c.files)) && ChainMerges(base, chain[..n - 1] + [LastMerged(base, chain)])
  }

  /** So a ready chain whose tombstones lie apart from its files is committed to the end,
      and main then shows what the deepest branch showed. */
  lemma {:induction false} ReadyChainCommits(base: Tree, chain: seq<Layer>) returns (base': Tree, m': Layer)
    requires |chain| >= 2 && ChainReady(base, chain) && TombsApart(chain)
    ensures ChainMerges(base, chain) && ChainCommitted(base, chain, base', m')
    ensures Files(Overlaid(m', base')) == Files(ChainView(base, chain))
    decreases |chain|
  {
    hide ChainReady, TombsApart, CanMerge, MergedParent, ChainView, Files, Overlaid;
    var n := |chain| - 1;
    var c := chain[n];
    if n == 1 {
      LastCanMerge(base, chain);
      base', m' := Published(base, c.tombs, Leaves(c.files)), ClearedMain(c, chain[0], Leaves(c.files));
    } else {
      var p' := LastMerged(base, chain);
      NextCanMerge(base, chain);
      NestedStepReady(base, chain, p');
      NestedStepKeepsApart(base, chain, p');
      base', m' := ReadyChainCommits(base, chain[..n - 1] + [p']);
    }
    ChainCommitPreservesView(base, chain, base', m');
  }

  lemma LastCanMerge(base: Tree, chain: seq<Layer>)
    requires |chain| == 2 && ChainReady(base, chain) && TombsApart(chain)
    ensures CanMerge(base, chain[1].tombs, Leaves(chain[1].files))
  {
    LastPair(base, chain);
    assert chain[..0] == [] && chain[1] in chain;
    ReadyBaseCanMerge(chain[1], chain[0], base);
  }

  lemma NextCanMerge(base: Tree, chain: seq<Layer>)
    requires |chain| >= 2 && ChainReady(base, chain) && TombsApart(chain)
    ensures CanMerge(chain[|chain| - 2].files, chain[|chain| - 1].tombs, Leaves(chain[|chain| - 1].files))
  {
    var n := |chain| - 1;
    LastPair(base, chain);
    assert chain[n] in chain;
    ReadyPairCanMerge(chain[n], chain[n - 1], ChainView(base, chain[..n - 1]));
  }
}
