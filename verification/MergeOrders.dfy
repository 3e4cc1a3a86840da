/** Which merges go through: the commit holds its deletions in a set without order, so the
    question is asked of every order and of some order. */
module MergeOrders {
  import opened FileTree
  import opened Staging
  import opened Publish
  import opened RollbackInputs
  import opened Merger
  import opened FailedMerges

  /** An order of the deletions and one of the copies. */
  ghost predicate Orders(tombs: set<Path>, sources: Tree, targets: seq<EntryPath>, dests: seq<EntryPath>) {
    Paths(targets) && SetOf(targets) == tombs && CopyList(dests, sources) && SetOf(dests) == sources.Keys
  }

  /** Without a fault the merge is staged and published. */
  ghost predicate GoesThrough(dest: Tree, targets: seq<EntryPath>, dests: seq<EntryPath>, sources: Tree)
    requires CopyList(dests, sources)
  {
    var staged := StageMerge(dest, targets, dests, sources);
    staged.Some? && Publishes(staged.value)
  }

  /** No deletion names an existing path strictly below a copy. */
  ghost predicate NoTombBelowCopies(dest: Tree, tombs: set<Path>, sources: Tree) {
    forall t, x :: t in tombs && t in dest && x in sources ==> !(x < t)
  }

  /** Nothing in the tree makes the merge fail: no kept file is in the way of a copy and
      no deletion removes something below one. */
  ghost predicate CanMerge(dest: Tree, tombs: set<Path>, sources: Tree) {
    RoomForCopies(dest, tombs, sources) && NoTombBelowCopies(dest, tombs, sources)
  }

  lemma RoomIff(dest: Tree, tombs: set<Path>, dests: seq<EntryPath>, sources: Tree)
    requires SetOf(dests) == sources.Keys
    ensures RoomForAll(dest, tombs, dests) <==> RoomForCopies(dest, tombs, sources)
  {
    if RoomForAll(dest, tombs, dests) {
      forall q | q in dest && !Covered(tombs, q) && AboveSome(sources.Keys, q)
        ensures dest[q].Dir?
      {
        var x :| x in sources.Keys && q < x;
        assert x in SetOf(dests);
      }
    } else {
      var i :| 0 <= i < |dests| && !RoomAbove(dest, tombs, dests[i]);
      assert dests[i] in SetOf(dests);
    }
  }

  lemma BelowCopies(dest: Tree, targets: seq<EntryPath>, dests: seq<EntryPath>, sources: Tree)
    requires NoTombBelowCopies(dest, SetOf(targets), sources) && SetOf(dests) == sources.Keys
    ensures NoDeleteBelowCopy(dest, targets, dests)
  {
    forall i | 0 <= i < |targets| && Recorded(dest, targets, i)
      ensures NoCopyAbove(dests, targets[i])
    {
      assert targets[i] in SetOf(targets);
    }
  }

  /** In one order the merge goes through exactly when no kept file is in the way of a copy
      and no deletion that finds its target lies below one. */
  lemma GoesThroughIff(dest: Tree, tombs: set<Path>, sources: Tree, targets: seq<EntryPath>, dests: seq<EntryPath>)
    requires UserTree(dest) && Orders(tombs, sources, targets, dests)
    ensures GoesThrough(dest, targets, dests, sources) <==>
      RoomForCopies(dest, tombs, sources) && NoDeleteBelowCopy(dest, targets, dests)
  {
    hide StageMerge, PublishAll, CanDiscard, Discard, RoomForCopies, RoomForAll, NoDeleteBelowCopy, UserTree, Staged, SideFilesKnown;
    StagedMergeShape(dest, targets, dests, sources);
    RoomIff(dest, tombs, dests, sources);
    if RoomForAll(dest, tombs, dests) {
      MergeMeetsSpec(dest, targets, dests, sources);
    }
  }

  // ----- every order -----

  ghost predicate AlwaysGoesThrough(dest: Tree, tombs: set<Path>, sources: Tree) {
    forall targets, dests :: Orders(tombs, sources, targets, dests) ==> GoesThrough(dest, targets, dests, sources)
  }

  ghost predicate SometimesGoesThrough(dest: Tree, tombs: set<Path>, sources: Tree) {
    exists targets, dests :: Orders(tombs, sources, targets, dests) && GoesThrough(dest, targets, dests, sources)
  }

  lemma SomeCopyOrder(sources: Tree) returns (dests: seq<EntryPath>)
    requires Antichain(sources.Keys) && forall x :: x in sources ==> Named(x) && !sources[x].Dir?
    ensures CopyList(dests, sources) && SetOf(dests) == sources.Keys
  {
    hide Clean;
    dests := DeepestFirstOrder(sources.Keys);
    forall i | 0 <= i < |dests|
      ensures dests[i] in sources
    {
      assert dests[i] in SetOf(dests);
    }
  }

  /** With the deeper deletions first every existing one finds its target. */
  lemma DeepestFirstIff(dest: Tree, tombs: set<Path>, sources: Tree, targets: seq<EntryPath>, dests: seq<EntryPath>)
    requires Orders(tombs, sources, targets, dests) && DeepestFirst(targets)
    ensures NoDeleteBelowCopy(dest, targets, dests) <==> NoTombBelowCopies(dest, tombs, sources)
  {
    if NoTombBelowCopies(dest, tombs, sources) {
      BelowCopies(dest, targets, dests, sources);
    } else {
      var t, x :| t in tombs && t in dest && x in sources && x < t;
      var i :| 0 <= i < |targets| && targets[i] == t;
      DeeperIsRecorded(dest, targets, i);
      assert x in SetOf(dests);
      assert !NoCopyAbove(dests, targets[i]);
    }
  }

  /** A merge goes through in every order of its deletions and copies exactly when no kept
      file is in the way of a copy and no existing deletion lies below one. */
  lemma AlwaysGoesThroughIff(dest: Tree, tombs: set<Path>, sources: Tree)
    requires MergePaths(dest, tombs, sources)
    ensures AlwaysGoesThrough(dest, tombs, sources) <==> CanMerge(dest, tombs, sources)
  {
    hide GoesThrough, RoomForCopies, NoDeleteBelowCopy, NoTombBelowCopies, UserTree, Clean, CopyList;
    var targets := DeepestFirstOrder(tombs);
    var dests := SomeCopyOrder(sources);
    assert Orders(tombs, sources, targets, dests);
    GoesThroughIff(dest, tombs, sources, targets, dests);
    DeepestFirstIff(dest, tombs, sources, targets, dests);
    if CanMerge(dest, tombs, sources) {
      forall targets, dests | Orders(tombs, sources, targets, dests)
        ensures GoesThrough(dest, targets, dests, sources)
      {
        BelowCopies(dest, targets, dests, sources);
        GoesThroughIff(dest, tombs, sources, targets, dests);
      }
    }
  }

  // ----- some order -----

  /** A deletion with no other above it. */
  ghost predicate Outermost(tombs: set<Path>, t: Path) {
    t in tombs && forall u :: u in tombs ==> !(u < t)
  }

  ghost predicate NoOuterTombBelowCopies(dest: Tree, tombs: set<Path>, sources: Tree) {
    forall t, x :: Outermost(tombs, t) && t in dest && x in sources ==> !(x < t)
  }

  ghost predicate ShallowestFirst(targets: seq<EntryPath>) {
    forall i, j :: 0 <= i < j < |targets| ==> |targets[i]| <= |targets[j]|
  }

  lemma {:induction false} ShallowestFirstOrder(tombs: set<Path>) returns (targets: seq<EntryPath>)
    requires forall t :: t in tombs ==> Named(t)
    ensures Paths(targets) && SetOf(targets) == tombs && ShallowestFirst(targets)
    decreases |tombs|
  {
    hide Clean;
    if tombs == {} {
      targets := [];
    } else {
      var t := Shallowest(tombs);
      assert Named(t);
      var rest := ShallowestFirstOrder(tombs - {t});
      targets := [t] + rest;
      ShallowestFirstMore(t, rest);
    }
  }

  lemma ShallowestFirstMore(t: EntryPath, rest: seq<EntryPath>)
    requires ShallowestFirst(rest) && forall u :: u in SetOf(rest) ==> |t| <= |u|
    ensures ShallowestFirst([t] + rest) && SetOf([t] + rest) == SetOf(rest) + {t}
  {
    forall i | 0 <= i < |rest|
      ensures |t| <= |rest[i]|
    {
      assert rest[i] in SetOf(rest);
    }
  }

  /** With the outer deletions first only the outermost find their targets. */
  lemma ShallowRecordsOutermost(dest: Tree, targets: seq<EntryPath>, i: nat)
    requires ShallowestFirst(targets) && i < |targets| && Recorded(dest, targets, i)
    ensures Outermost(SetOf(targets), targets[i])
  {
    forall u | u in SetOf(targets)
      ensures !(u < targets[i])
    {
      var j :| 0 <= j < |targets| && targets[j] == u;
      assert i <= j ==> |targets[i]| <= |u|;
      assert j < i ==> targets[..i][j] == u && u in SetOf(targets[..i]);
    }
  }

  /** An outermost deletion finds its target in every order. */
  lemma {:induction false} OutermostIsRecorded(dest: Tree, targets: seq<EntryPath>, i: nat) returns (k: nat)
    requires i < |targets| && targets[i] in dest && Outermost(SetOf(targets), targets[i])
    ensures k < |targets| && targets[k] == targets[i] && Recorded(dest, targets, k)
  {
    if Covered(SetOf(targets[..i]), targets[i]) {
      var u :| u in SetOf(targets[..i]) && u <= targets[i];
      var j :| 0 <= j < i && targets[j] == u;
      assert u in SetOf(targets) && u == targets[i];
      k := OutermostIsRecorded(dest, targets, j);
    } else {
      k := i;
    }
  }

  lemma ShallowIff(dest: Tree, tombs: set<Path>, sources: Tree, targets: seq<EntryPath>, dests: seq<EntryPath>)
    requires Orders(tombs, sources, targets, dests)
    ensures NoDeleteBelowCopy(dest, targets, dests) ==> NoOuterTombBelowCopies(dest, tombs, sources)
    ensures ShallowestFirst(targets) && NoOuterTombBelowCopies(dest, tombs, sources) ==> NoDeleteBelowCopy(dest, targets, dests)
  {
    if NoDeleteBelowCopy(dest, targets, dests) {
      forall t, x | Outermost(tombs, t) && t in dest && x in sources
        ensures !(x < t)
      {
        assert t in SetOf(targets);
        var i :| 0 <= i < |targets| && targets[i] == t;
        var k := OutermostIsRecorded(dest, targets, i);
        assert x in SetOf(dests);
      }
    }
    if ShallowestFirst(targets) && NoOuterTombBelowCopies(dest, tombs, sources) {
      forall i | 0 <= i < |targets| && Recorded(dest, targets, i)
        ensures NoCopyAbove(dests, targets[i])
      {
        ShallowRecordsOutermost(dest, targets, i);
      }
    }
  }

  /** A merge goes through in some order exactly when that holds of the outermost deletions
      alone: where the two conditions differ, the order of the hash set decides. */
  lemma SometimesGoesThroughIff(dest: Tree, tombs: set<Path>, sources: Tree)
    requires MergePaths(dest, tombs, sources)
    ensures SometimesGoesThrough(dest, tombs, sources) <==>
      RoomForCopies(dest, tombs, sources) && NoOuterTombBelowCopies(dest, tombs, sources)
  {
    hide GoesThrough, RoomForCopies, NoDeleteBelowCopy, NoOuterTombBelowCopies, UserTree, Clean, CopyList;
    if SometimesGoesThrough(dest, tombs, sources) {
      var targets, dests :| Orders(tombs, sources, targets, dests) && GoesThrough(dest, targets, dests, sources);
      GoesThroughIff(dest, tombs, sources, targets, dests);
      ShallowIff(dest, tombs, sources, targets, dests);
    }
    if RoomForCopies(dest, tombs, sources) && NoOuterTombBelowCopies(dest, tombs, sources) {
      var targets := ShallowestFirstOrder(tombs);
      var dests := SomeCopyOrder(sources);
      assert Orders(tombs, sources, targets, dests);
      ShallowIff(dest, tombs, sources, targets, dests);
      GoesThroughIff(dest, tombs, sources, targets, dests);
    }
  }

  /** `ok` is how the merge ends in some order of its deletions and copies. */
  ghost predicate EndsIn(dest: Tree, tombs: set<Path>, sources: Tree, ok: bool) {
    exists targets, dests :: Orders(tombs, sources, targets, dests) && (ok <==> GoesThrough(dest, targets, dests, sources))
  }

  /** So a merge can fail exactly when `CanMerge` does not hold. */
  lemma CanFailIff(dest: Tree, tombs: set<Path>, sources: Tree)
    requires MergePaths(dest, tombs, sources)
    ensures EndsIn(dest, tombs, sources, false) <==> !CanMerge(dest, tombs, sources)
    ensures EndsIn(dest, tombs, sources, true) <==>
      RoomForCopies(dest, tombs, sources) && NoOuterTombBelowCopies(dest, tombs, sources)
  {
    hide Orders, GoesThrough, CanMerge, RoomForCopies, NoOuterTombBelowCopies, MergePaths;
    AlwaysGoesThroughIff(dest, tombs, sources);
    SometimesGoesThroughIff(dest, tombs, sources);
  }
}
