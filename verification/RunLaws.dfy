/** What runs of the store mean for one branch: what it goes on inheriting, what freezing
    and aborting do, and when a commit finds its parent changed. */
module RunLaws {
  import opened FileTree
  import opened Disk
  import opened Layers
  import opened Edits
  import opened EditLaws
  import opened EditRuns
  import opened Rename
  import opened Commit
  import opened Store
  import opened Snapshots
  import opened CommitRun
  import opened Runs

  // ----- every state is a store -----

  /** A done commit leaves a forest of layers over a base tree, all well-formed. */
  lemma CommitKeepsOk(s: Store, name: string, copies: Tree, s': Store)
    requires StoreOk(s) && Removable(s.branches, name) && s.branches[name].parent.value in s.branches
    requires CommitDone(s, name, copies, s')
    ensures StoreOk(s')
  {
    hide Forest, Published, RoomForCopies, MergedFiles, MergedTombs, WellFormed, DepthIs;
    var up := s.branches[name].parent.value;
    var c, p := s.branches[name], s.branches[up];
    CommitKeepsForest(s, name, copies, s');
    RootStays(c, copies);
    if up == MAIN {
      ChildShape(c, copies);
      LeavesAreAntichain(c.files);
      PublishedWellFormed(s.base, c.tombs, copies);
      WithoutAllWellFormed(p.files, copies.Keys + c.tombs);
    } else {
      NestedKeepsOk(c, p, InheritedView(s, up), copies);
    }
    forall n | n in s'.branches
      ensures LayerOk(s'.branches[n])
    {
      assert n != up ==> s'.branches[n] == s.branches[n];
    }
  }

  lemma NestedKeepsOk(c: Layer, p: Layer, ip: Tree, copies: Tree)
    requires LayerOk(c) && LayerOk(p) && SourcesOf(c, copies) && RoomForCopies(p.files, c.tombs, copies)
    ensures LayerOk(MergedParent(c, p, ip, copies))
  {
    hide Published, WellFormed, MergedFiles;
    MergedShrinks(c, p, copies);
  }

  lemma NextKeepsStoreOk(s: Store, max: Option<nat>, a: Action, s': Store)
    requires StoreOk(s) && ActionOk(a) && Next(s, max, a, s')
    ensures StoreOk(s')
  {
    hide Forest, WellFormed, DepthIs, View, InheritedView, Created, Edited, Renamed;
    NextKeepsForest(s, max, a, s');
    match a
    case Create(name, parent, mode, hides) =>
      if s' != s {
        CreatedOk(s, name, parent, mode, hides);
      }
    case Edit(name, op) => EditConservesTotal(s, max, name, op);
    case RenameFile(name, src, dst, noReplace) => RenamedOk(s, max, name, src, dst, noReplace);
    case SetFrozen(name, frozen) =>
    case CommitBranch(name) =>
      if s' != s && !CommitFailed(s, s.branches[name].parent.value, s') {
        var copies :| CommitDone(s, name, copies, s');
        CommitKeepsOk(s, name, copies, s');
      }
    case AbortBranch(name) =>
  }

  lemma CreatedOk(s: Store, name: string, parent: string, mode: Mode, hides: set<Path>)
    requires StoreOk(s) && [] !in hides && Forest(Created(s, name, parent, mode, hides).branches)
    ensures StoreOk(Created(s, name, parent, mode, hides))
  {
    if name !in s.branches && parent in s.branches {
      ViewPrefixClosed(s, parent);
      ReachablePartWellFormed(View(s, parent));
    }
  }

  lemma RenamedOk(s: Store, max: Option<nat>, name: string, src: Path, dst: Path, noReplace: bool)
    requires StoreOk(s) && src != [] && dst != [] && Forest(Renamed(s, max, name, src, dst, noReplace).branches)
    ensures StoreOk(Renamed(s, max, name, src, dst, noReplace))
  {
    if name in s.branches {
      RenameKeepsOk(s.branches[name], s.used, max, InheritedView(s, name), src, dst, noReplace);
    }
  }

  /** Every state of a run is a forest of well-formed layers over a well-formed base tree,
      after failed and done commits too. */
  lemma {:induction false} RunKeepsStoreOk(states: seq<Store>, max: Option<nat>, actions: seq<Action>)
    requires IsRun(states, max, actions) && StoreOk(states[0])
    ensures forall i :: 0 <= i < |states| ==> StoreOk(states[i])
  {
    hide StoreOk, Next, ActionOk;
    if actions != [] {
      var n := |actions| - 1;
      RunKeepsStoreOk(states[..n + 1], max, actions[..n]);
      assert states[..n + 1][n] == states[n];
      assert ActionOk(actions[n]) && Steps(states[n], max, actions[n], states[n + 1]);
      OkIsForest(states[n]);
      NextKeepsStoreOk(states[n], max, actions[n], states[n + 1]);
      forall i | 0 <= i < |states|
        ensures StoreOk(states[i])
      {
        assert i <= n ==> states[..n + 1][i] == states[i];
      }
    }
  }

  lemma OkIsForest(s: Store)
    requires StoreOk(s)
    ensures Forest(s.branches)
  {
  }

  // ----- a branch left alone -----

  /** A run in which no call edits, renames in, commits, commits into or aborts the branch. */
  ghost predicate LeftAlone(states: seq<Store>, actions: seq<Action>, name: string) {
    |states| == |actions| + 1 && forall i :: 0 <= i < |actions| ==> name !in Modified(states[i], actions[i])
  }

  lemma {:induction false} LeftAloneStays(states: seq<Store>, max: Option<nat>, actions: seq<Action>, name: string)
    requires IsRun(states, max, actions) && Forest(states[0].branches) && name in states[0].branches
    requires LeftAlone(states, actions, name)
    ensures var last := states[|actions|];
      && Forest(last.branches) && name in last.branches && ShowAlike(states[0].branches[name], last.branches[name])
      && last.branches[name].forkVersion == states[0].branches[name].forkVersion
  {
    hide Forest, Modified;
    if actions != [] {
      var n := |actions| - 1;
      assert states[..n + 1][n] == states[n] && states[..n + 1][0] == states[0];
      LeftAloneStays(states[..n + 1], max, actions[..n], name);
      assert ActionOk(actions[n]) && Steps(states[n], max, actions[n], states[n + 1]);
      NextKeepsForest(states[n], max, actions[n], states[n + 1]);
      UnmodifiedShowsAlike(states[n], max, actions[n], states[n + 1], name);
      LinkStays(states[n], max, actions[n], states[n + 1], name);
    }
  }

  // ----- what a new branch goes on inheriting -----

  /** A new branch can be written and depends on itself, and by a Lazy link on everything
      that its parent depends on. */
  lemma CreatedFootprint(s: Store, name: string, parent: string, mode: Mode, hides: set<Path>)
    requires StoreOk(s) && name !in s.branches && parent in s.branches && [] !in hides
    ensures var s' := Created(s, name, parent, mode, hides);
      && Forest(s'.branches) && name in s'.branches && !s'.branches[name].frozen
      && Footprint(s'.branches, name) == if mode.Lazy? then {name} + Footprint(s.branches, parent) else {name}
  {
    var s' := Created(s, name, parent, mode, hides);
    NextKeepsForest(s, None, Create(name, parent, mode, hides), s');
    ParentIsHigher(s'.branches, name);
    StepIsolated(s, None, Create(name, parent, mode, hides), s', parent);
  }

  /** After any run from its creation that leaves it alone, whatever else is called, a Lazy
      branch shows exactly what its parent shows by then outside the hidden paths, and a
      Snapshot branch reaches what the parent reached when the branch was created. */
  lemma CreatedInherits(states: seq<Store>, max: Option<nat>, actions: seq<Action>, s: Store,
                        name: string, parent: string, mode: Mode, hides: set<Path>)
    requires StoreOk(s) && name !in s.branches && parent in s.branches && [] !in hides
    requires IsRun(states, max, actions) && states[0] == Created(s, name, parent, mode, hides)
    requires LeftAlone(states, actions, name)
    ensures var last := states[|actions|];
      && Forest(last.branches) && name in last.branches && parent in last.branches
      && (mode.Lazy? ==> View(last, name) == WithoutAll(View(last, parent), hides))
      && (mode.Snapshot? ==> ReachablePart(View(last, name)) == ReachablePart(WithoutAll(View(s, parent), hides)))
  {
    hide StoreOk, Next, ReachablePart, WithoutAll, Overlaid, Forest, LeftAlone;
    var last := states[|actions|];
    OkIsForest(s);
    CreatedShowsParent(s, name, parent, mode, hides);
    CreatedFootprint(s, name, parent, mode, hides);
    CreatedOk(s, name, parent, mode, hides);
    LeftAloneStays(states, max, actions, name);
    RunKeepsStoreOk(states, max, actions);
    ParentIsLive(last.branches, name);
    if mode.Lazy? {
      ViewPrefixClosed(last, parent);
      NewLayerShows(last.branches[name], View(last, parent));
    } else {
      SnapshotStays(states[0], last, name);
    }
  }

  /** A Snapshot branch shows what it showed whatever becomes of all other layers. */
  lemma SnapshotStays(s: Store, s': Store, name: string)
    requires Forest(s.branches) && Forest(s'.branches) && name in s.branches && name in s'.branches
    requires ShowAlike(s.branches[name], s'.branches[name]) && s.branches[name].mode.Snapshot? && s.branches[name].parent.Some?
    ensures View(s', name) == View(s, name)
  {
  }

  // ----- one step of a branch that stays -----

  /** The call is a commit of a child of `up` that went through. */
  ghost predicate MergesInto(s: Store, a: Action, s': Store, up: string) {
    a.CommitBranch? && a.name in s.branches && a.name !in s'.branches && s.branches[a.name].parent == Some(up)
  }

  /** A branch that outlives a call keeps its place and the version it was created from, and
      counts the call if it was a commit into it. */
  lemma LinkStays(s: Store, max: Option<nat>, a: Action, s': Store, n: string)
    requires Forest(s.branches) && ActionOk(a) && Next(s, max, a, s') && n in s.branches && n in s'.branches
    ensures s'.branches[n].parent == s.branches[n].parent && s'.branches[n].forkVersion == s.branches[n].forkVersion
    ensures s'.branches[n].commitCount == s.branches[n].commitCount + if MergesInto(s, a, s', n) then 1 else 0
  {
    hide Forest, InheritedView, MergedFiles, MergedTombs, Published, RoomForCopies, WithoutAll;
    match a
    case Edit(name, op) =>
      if name == n {
        StepKeepsCounts(State(s.branches[n], s.used), max, InheritedView(s, n), op);
      }
    case RenameFile(name, src, dst, noReplace) =>
      if name == n {
        RenameKeepsCounts(s.branches[n], s.used, max, InheritedView(s, n), src, dst, noReplace);
      }
    case CommitBranch(name) => CommitCounts(s, name, s', n);
    case _ =>
  }

  ghost predicate SameCounts(b: Layer, b': Layer) {
    b'.parent == b.parent && b'.forkVersion == b.forkVersion && b'.commitCount == b.commitCount && b'.frozen == b.frozen
  }

  lemma StepKeepsCounts(s: State, max: Option<nat>, inherited: Tree, op: Op)
    requires op.path != []
    ensures SameCounts(s.b, Step(s, max, inherited, op).b)
  {
    hide FirstTouch, QuotaAllows, Overwrite, WithParents, WithoutDelta, Overlaid, ParentsOk;
  }

  lemma RenameKeepsCounts(b: Layer, used: int, max: Option<nat>, inherited: Tree, src: Path, dst: Path, noReplace: bool)
    requires src != [] && dst != []
    ensures SameCounts(b, RenameEdit(b, used, max, inherited, src, dst, noReplace).layer)
  {
    hide Overlaid, RenamedTombs, EnsureEdit, ClearedForRename, InheritedAt, CanRename, RemoveUnder, Moved;
    var one := OpenSource(b, used, max, inherited, src);
    EnsureKeepsCounts(b, used, max, InheritedAt(b, inherited, src), src);
    EnsureKeepsCounts(one.layer, one.used, max, InheritedAt(b, inherited, dst), dst);
  }

  lemma EnsureKeepsCounts(b: Layer, used: int, max: Option<nat>, inh: Option<Entry>, p: Path)
    requires p != []
    ensures SameCounts(b, EnsureEdit(b, used, max, inh, p).layer)
  {
    hide QuotaAllows, FirstTouch, WithParents, ParentsOk;
  }

  lemma CommitCounts(s: Store, name: string, s': Store, n: string)
    requires Forest(s.branches) && CommitStep(s, name, s') && n in s.branches && n in s'.branches
    ensures s'.branches[n].parent == s.branches[n].parent && s'.branches[n].forkVersion == s.branches[n].forkVersion
    ensures s'.branches[n].commitCount ==
      s.branches[n].commitCount + if MergesInto(s, CommitBranch(name), s', n) then 1 else 0
  {
    hide Forest, InheritedView, MergedFiles, MergedTombs, Published, RoomForCopies, WithoutAll;
    if s' != s && !CommitFailed(s, s.branches[name].parent.value, s') {
      var copies :| CommitDone(s, name, copies, s');
      ParentIsLive(s.branches, name);
    }
  }

  // ----- when the parent has changed -----

  /** The branch is there in every state of the run. */
  ghost predicate Lives(states: seq<Store>, name: string) {
    forall i :: 0 <= i < |states| ==> name in states[i].branches
  }

  /** Some commit into `up` went through on the way. */
  ghost predicate MergedMeanwhile(states: seq<Store>, actions: seq<Action>, up: string)
    requires |states| == |actions| + 1
  {
    exists i :: 0 <= i < |actions| && MergesInto(states[i], actions[i], states[i + 1], up)
  }

  lemma {:induction false} CountGrows(states: seq<Store>, max: Option<nat>, actions: seq<Action>, name: string, up: string)
    requires IsRun(states, max, actions) && Forest(states[0].branches) && Lives(states, name)
    requires states[0].branches[name].parent == Some(up)
    ensures var s, last := states[0], states[|actions|];
      && Forest(last.branches) && up in s.branches && up in last.branches
      && last.branches[name].parent == Some(up) && last.branches[name].forkVersion == s.branches[name].forkVersion
      && last.branches[up].commitCount >= s.branches[up].commitCount
      && (last.branches[up].commitCount > s.branches[up].commitCount <==> MergedMeanwhile(states, actions, up))
  {
    hide Forest, MergesInto;
    ParentIsLive(states[0].branches, name);
    if actions != [] {
      var n := |actions| - 1;
      assert states[..n + 1][n] == states[n] && states[..n + 1][0] == states[0];
      CountGrows(states[..n + 1], max, actions[..n], name, up);
      assert ActionOk(actions[n]) && Steps(states[n], max, actions[n], states[n + 1]);
      NextKeepsForest(states[n], max, actions[n], states[n + 1]);
      assert name in states[n + 1].branches;
      LinkStays(states[n], max, actions[n], states[n + 1], name);
      ParentIsLive(states[n + 1].branches, name);
      LinkStays(states[n], max, actions[n], states[n + 1], up);
      MergedOneMore(states, actions, up);
    }
  }

  lemma MergedOneMore(states: seq<Store>, actions: seq<Action>, up: string)
    requires |states| == |actions| + 1 && actions != []
    ensures var n := |actions| - 1;
      MergedMeanwhile(states, actions, up) <==>
        MergedMeanwhile(states[..n + 1], actions[..n], up) || MergesInto(states[n], actions[n], states[n + 1], up)
  {
    hide MergesInto;
    var n := |actions| - 1;
    assert forall i :: 0 <= i <= n ==> states[..n + 1][i] == states[i];
    assert forall i :: 0 <= i < n ==> actions[..n][i] == actions[i];
    if MergedMeanwhile(states[..n + 1], actions[..n], up) {
      var i :| 0 <= i < n && MergesInto(states[..n + 1][i], actions[..n][i], states[..n + 1][i + 1], up);
      assert MergesInto(states[i], actions[i], states[i + 1], up);
    }
    if MergedMeanwhile(states, actions, up) {
      var i :| 0 <= i <= n && MergesInto(states[i], actions[i], states[i + 1], up);
      assert i < n ==> MergesInto(states[..n + 1][i], actions[..n][i], states[..n + 1][i + 1], up);
    }
  }

  /** As long as a branch lives, its commit finds the parent changed exactly when a commit of
      a sibling has gone through since the branch was created. */
  lemma ParentChangedIff(states: seq<Store>, max: Option<nat>, actions: seq<Action>, s: Store,
                         name: string, parent: string, mode: Mode, hides: set<Path>)
    requires StoreOk(s) && name !in s.branches && parent in s.branches && [] !in hides
    requires IsRun(states, max, actions) && states[0] == Created(s, name, parent, mode, hides) && Lives(states, name)
    ensures var last := states[|actions|];
      && Forest(last.branches) && last.branches[name].parent == Some(parent)
      && (ParentChanged(last, name) <==> MergedMeanwhile(states, actions, parent))
  {
    hide MergedMeanwhile, Forest, Lives;
    CreatedShowsParent(s, name, parent, mode, hides);
    assert name in states[0].branches;
    CountGrows(states, max, actions, name, parent);
    LivesToTheEnd(states, actions, name);
  }

  lemma LivesToTheEnd(states: seq<Store>, actions: seq<Action>, name: string)
    requires |states| == |actions| + 1 && Lives(states, name)
    ensures name in states[|actions|].branches
  {
  }

  // ----- freezing -----

  /** The call makes the branch writable, removes it or merges a child into it. */
  ghost predicate Reaches(s: Store, a: Action, name: string) {
    match a
    case SetFrozen(other, frozen) => other == name && !frozen
    case AbortBranch(other) => other == name
    case CommitBranch(other) => other == name || (other in s.branches && s.branches[other].parent == Some(name))
    case _ => false
  }

  lemma FrozenStep(s: Store, max: Option<nat>, a: Action, s': Store, name: string)
    requires Forest(s.branches) && ActionOk(a) && Next(s, max, a, s')
    requires name in s.branches && s.branches[name].frozen && !Reaches(s, a, name)
    ensures name in s'.branches && s'.branches[name] == s.branches[name]
    ensures (a.Edit? || a.RenameFile?) && a.name == name ==> s' == s
  {
    if a.CommitBranch? {
      CommitLeavesOthers(s, a.name, s', name);
    }
  }

  /** From freezing a branch until something thaws, removes or merges into it, no call changes
      its deltas, tombstones or touch records: every edit and rename in it changes nothing at
      all. */
  lemma {:induction false} FrozenStays(states: seq<Store>, max: Option<nat>, actions: seq<Action>, name: string)
    requires IsRun(states, max, actions) && Forest(states[0].branches) && name in states[0].branches && name != MAIN
    requires actions != [] && actions[0] == SetFrozen(name, true)
    requires forall i :: 1 <= i < |actions| ==> !Reaches(states[i], actions[i], name)
    ensures var last := states[|actions|];
      && Forest(last.branches) && name in last.branches
      && last.branches[name] == states[0].branches[name].(frozen := true)
    ensures forall i :: 1 <= i < |actions| && (actions[i].Edit? || actions[i].RenameFile?) && actions[i].name == name ==>
      states[i + 1] == states[i]
  {
    hide Forest, Reaches;
    var n := |actions| - 1;
    assert ActionOk(actions[n]) && Steps(states[n], max, actions[n], states[n + 1]);
    if n == 0 {
      NextKeepsForest(states[0], max, actions[0], states[1]);
    } else {
      assert states[..n + 1][n] == states[n] && states[..n + 1][0] == states[0] && states[..n + 1][1] == states[1];
      FrozenStays(states[..n + 1], max, actions[..n], name);
      NextKeepsForest(states[n], max, actions[n], states[n + 1]);
      FrozenStep(states[n], max, actions[n], states[n + 1], name);
      forall i | 1 <= i < |actions| && (actions[i].Edit? || actions[i].RenameFile?) && actions[i].name == name
        ensures states[i + 1] == states[i]
      {
        if i < n {
          assert actions[..n][i] == actions[i] && states[..n + 1][i] == states[i] && states[..n + 1][i + 1] == states[i + 1];
        }
      }
    }
  }

  /** Thawing a frozen branch gives back the one that was frozen; only the epoch has moved. */
  lemma ThawUndoesFreeze(s: Store, name: string)
    requires name in s.branches && name != MAIN && !s.branches[name].frozen
    ensures var s' := Runs.Frozen(Runs.Frozen(s, name, true), name, false);
      s'.branches == s.branches && s'.base == s.base && s'.used == s.used && s'.epoch > s.epoch
    ensures Runs.Frozen(s, name, true).branches[name].frozen
  {
    var s' := Runs.Frozen(Runs.Frozen(s, name, true), name, false);
    assert s'.branches[name] == s.branches[name];
  }

  // ----- aborting -----

  /** Aborting a leaf removes it, so that nothing can be looked up in it any more, and every
      other branch stays and shows what it showed; nothing else can be aborted. */
  lemma AbortRemovesOnlyTheLeaf(s: Store, name: string, other: string, p: Path)
    requires Forest(s.branches) && other in s.branches && other != name
    ensures var s' := Aborted(s, name);
      && Forest(s'.branches) && other in s'.branches && View(s', other) == View(s, other)
      && (Removable(s.branches, name) ==> Resolve(s', name, p) == Failure(NotFound))
      && (!Removable(s.branches, name) ==> s' == s)
  {
    if Removable(s.branches, name) {
      NextKeepsForest(s, None, AbortBranch(name), Aborted(s, name));
      LeafInNoFootprint(s.branches, other, name);
      StepIsolated(s, None, AbortBranch(name), Aborted(s, name), other);
    }
  }

  // ----- the epoch -----

  /** The call adds a branch, freezes or thaws a live branch other than main, reverts a path
      of a writable branch, or is a commit that goes through. */
  ghost predicate MovesEpoch(s: Store, a: Action, s': Store) {
    match a
    case Create(name, _, _, _) => name !in s.branches && name in s'.branches
    case SetFrozen(name, _) => name in s.branches && name != MAIN
    case Edit(name, op) => op.Revert? && name in s.branches && !s.branches[name].frozen
    case CommitBranch(name) => name in s.branches && name !in s'.branches
    case _ => false
  }

  /** Exactly these calls move the epoch, by one. */
  lemma EpochMovesIff(s: Store, max: Option<nat>, a: Action, s': Store)
    requires Forest(s.branches) && ActionOk(a) && Next(s, max, a, s')
    ensures s'.epoch == s.epoch + if MovesEpoch(s, a, s') then 1 else 0
  {
    hide Forest, InheritedView, View, Step, RenameEdit, MergedFiles, MergedTombs, Published;
    if a.CommitBranch? && s' != s && !CommitFailed(s, s.branches[a.name].parent.value, s') {
      var copies :| CommitDone(s, a.name, copies, s');
      ParentIsLive(s.branches, a.name);
    }
  }

  /** Only edits and renames change the byte count of the quota. */
  lemma OnlyEditsCount(s: Store, max: Option<nat>, a: Action, s': Store)
    requires Forest(s.branches) && ActionOk(a) && Next(s, max, a, s') && !a.Edit? && !a.RenameFile?
    ensures s'.used == s.used
  {
    hide Forest, InheritedView, View, MergedFiles, MergedTombs, Published;
    if a.CommitBranch? && s' != s && !CommitFailed(s, s.branches[a.name].parent.value, s') {
      var copies :| CommitDone(s, a.name, copies, s');
    }
  }

  /** The epoch never falls, and while it stands still only an edit, a rename or a commit that
      failed while merging has changed what any branch shows. */
  lemma SameEpochSameViews(s: Store, max: Option<nat>, a: Action, s': Store, n: string)
    requires Forest(s.branches) && ActionOk(a) && Next(s, max, a, s') && n in s.branches && n in s'.branches
    requires !a.Edit? && !a.RenameFile?
    requires a.CommitBranch? && a.name in s.branches && s.branches[a.name].parent.Some? && s.branches[a.name].parent.value in s.branches
      ==> !CommitFailed(s, s.branches[a.name].parent.value, s')
    ensures s'.epoch >= s.epoch && Forest(s'.branches)
    ensures s'.epoch == s.epoch ==> View(s', n) == View(s, n)
  {
    NextKeepsForest(s, max, a, s');
    if s'.epoch == s.epoch && s' != s && a.AbortBranch? {
      AbortRemovesOnlyTheLeaf(s, a.name, n, []);
    }
  }
}
