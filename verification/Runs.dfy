/** Runs of the whole store: creating, editing, renaming, freezing, committing and
    aborting branches in any order. */
module Runs {
  import opened FileTree
  import opened Layers
  import opened Edits
  import opened EditLaws
  import opened EditRuns
  import opened Rename
  import opened Store
  import opened Snapshots
  import opened CommitRun
  import opened Sums

  datatype Action =
    | Create(name: string, parent: string, mode: Mode, hides: set<Path>)
    | Edit(name: string, op: Op)
    | RenameFile(name: string, src: Path, dst: Path, noReplace: bool)
    | SetFrozen(name: string, frozen: bool)
    | CommitBranch(name: string)
    | AbortBranch(name: string)

  ghost predicate ActionOk(a: Action) {
    match a
    case Create(_, _, _, hides) => [] !in hides
    case Edit(_, op) => op.path != []
    case RenameFile(_, src, dst, _) => src != [] && dst != []
    case _ => true
  }

  ghost function Created(s: Store, name: string, parent: string, mode: Mode, hides: set<Path>): Store
    requires Forest(s.branches)
  {
    if name in s.branches || parent !in s.branches then s else
      var inherited := if mode.Lazy? then EMPTY_TREE else ReachablePart(View(s, parent));
      s.(branches := s.branches[name := NewBranch(parent, mode, hides, inherited, s.branches[parent].commitCount)],
         epoch := s.epoch + 1)
  }

  ghost function Edited(s: Store, max: Option<nat>, name: string, op: Op): Store
    requires Forest(s.branches) && op.path != []
  {
    if name !in s.branches then s else
      var r := Step(State(s.branches[name], s.used), max, InheritedView(s, name), op);
      s.(branches := s.branches[name := r.b], used := r.used,
         epoch := if op.Revert? && !s.branches[name].frozen then s.epoch + 1 else s.epoch)
  }

  ghost function Renamed(s: Store, max: Option<nat>, name: string, src: Path, dst: Path, noReplace: bool): Store
    requires Forest(s.branches) && src != [] && dst != []
  {
    if name !in s.branches then s else
      var r := RenameEdit(s.branches[name], s.used, max, InheritedView(s, name), src, dst, noReplace);
      s.(branches := s.branches[name := r.layer], used := r.used)
  }

  ghost function Frozen(s: Store, name: string, frozen: bool): Store {
    if name == MAIN || name !in s.branches then s
    else s.(branches := s.branches[name := s.branches[name].(frozen := frozen)], epoch := s.epoch + 1)
  }

  ghost function Aborted(s: Store, name: string): Store {
    if Removable(s.branches, name) then s.(branches := s.branches - {name}) else s
  }

  /** A commit is refused and changes nothing, fails while merging and leaves some tree
      at its destination, or is done. */
  ghost predicate CommitStep(s: Store, name: string, s': Store)
    requires Forest(s.branches)
  {
    s' == s ||
    (Removable(s.branches, name) &&
     var up := s.branches[name].parent.value;
     up in s.branches && (CommitFailed(s, up, s') || exists copies :: CommitDone(s, name, copies, s')))
  }

  ghost predicate CommitFailed(s: Store, up: string, s': Store)
    requires up in s.branches
  {
    if up == MAIN then WellFormed(s'.base) && s' == s.(base := s'.base)
    else up in s'.branches && WellFormed(s'.branches[up].files) &&
         s' == s.(branches := s.branches[up := s.branches[up].(files := s'.branches[up].files)])
  }

  /** One call; a call that fails early changes nothing. */
  ghost predicate Next(s: Store, max: Option<nat>, a: Action, s': Store)
    requires Forest(s.branches) && ActionOk(a)
  {
    match a
    case Create(name, parent, mode, hides) => s' == s || s' == Created(s, name, parent, mode, hides)
    case Edit(name, op) => s' == Edited(s, max, name, op)
    case RenameFile(name, src, dst, noReplace) => s' == Renamed(s, max, name, src, dst, noReplace)
    case SetFrozen(name, frozen) => s' == Frozen(s, name, frozen)
    case CommitBranch(name) => CommitStep(s, name, s')
    case AbortBranch(name) => s' == Aborted(s, name)
  }

  /** A run: what a step does is only said of a forest, and that every state is one has to
      be shown. */
  ghost predicate IsRun(states: seq<Store>, max: Option<nat>, actions: seq<Action>) {
    && |states| == |actions| + 1
    && forall i :: 0 <= i < |actions| ==> ActionOk(actions[i]) && Steps(states[i], max, actions[i], states[i + 1])
  }

  ghost predicate Steps(s: Store, max: Option<nat>, a: Action, s': Store)
    requires ActionOk(a)
  {
    Forest(s.branches) ==> Next(s, max, a, s')
  }

  // ----- the forest -----

  lemma CreateKeepsForest(bs: Branches, name: string, b: Layer)
    requires Forest(bs) && name !in bs && b.parent.Some? && b.parent.value in bs
    ensures Forest(bs[name := b])
  {
    var bs' := bs[name := b];
    forall other | other in bs
      ensures DepthIs(bs', other, Depth(bs, other))
    {
      ParentsStayLive(bs, bs', other);
      DepthGrows(bs, bs', other, Depth(bs, other));
    }
    assert DepthIs(bs', name, Depth(bs, b.parent.value) + 1);
  }

  lemma ParentsStayLive(bs: Branches, bs': Branches, name: string)
    requires Forest(bs) && name in bs && bs.Keys <= bs'.Keys
    ensures bs[name].parent.Some? ==> bs[name].parent.value in bs'
  {
    if bs[name].parent.Some? {
      ParentIsLive(bs, name);
    }
  }

  lemma {:induction false} DepthGrows(bs: Branches, bs': Branches, name: string, n: nat)
    requires DepthIs(bs, name, n)
    requires forall m :: m in bs ==> m in bs' && bs'[m].parent == bs[m].parent
    ensures DepthIs(bs', name, n)
    decreases n
  {
    if bs[name].parent.Some? {
      DepthGrows(bs, bs', bs[name].parent.value, n - 1);
    }
  }

  lemma AbortKeepsForest(bs: Branches, name: string)
    requires Forest(bs) && Removable(bs, name)
    ensures Forest(bs - {name})
  {
    forall m | m in bs - {name} && bs[m].parent.Some?
      ensures bs[m].parent.value in bs - {name}
    {
      ParentIsLive(bs, m);
    }
    ForestStays(bs, bs - {name});
  }

  ghost predicate LinksKept(b: Layer, b': Layer) {
    b'.parent == b.parent && b'.mode == b.mode && b'.inherited == b.inherited && b'.hides == b.hides
  }

  lemma InPlaceKeepsLinks(b: Layer, used: int, max: Option<nat>, p: Path, offset: nat, data: seq<byte>)
    ensures LinksKept(b, WriteInPlace(b, used, max, p, offset, data).layer)
  {
  }

  lemma WriteKeepsLinks(b: Layer, used: int, max: Option<nat>, inh: Option<Entry>, p: Path, offset: int, data: seq<byte>)
    requires p != []
    ensures LinksKept(b, WriteEdit(b, used, max, inh, p, offset, data).layer)
  {
    if offset >= 0 {
      InPlaceKeepsLinks(b.(tombs := b.tombs - {p}), used, max, p, offset, data);
      var b1 := b.(touches := FirstTouch(b.touches, p, inh, true), files := WithParents(b.files, p), tombs := b.tombs - {p});
      InPlaceKeepsLinks(b1, used, max, p, offset, data);
    }
  }

  lemma EnsureKeepsLinks(b: Layer, used: int, max: Option<nat>, inh: Option<Entry>, p: Path)
    requires p != []
    ensures LinksKept(b, EnsureEdit(b, used, max, inh, p).layer)
  {
  }

  lemma StepKeepsLinks(s: State, max: Option<nat>, inherited: Tree, op: Op)
    requires op.path != []
    ensures LinksKept(s.b, Step(s, max, inherited, op).b)
  {
    var inh := InheritedAt(s.b, inherited, op.path);
    match op
    case Write(p, offset, data) => WriteKeepsLinks(s.b, s.used, max, inh, p, offset, data);
    case OpenForWrite(p) => EnsureKeepsLinks(s.b, s.used, max, inh, p);
    case _ =>
  }

  lemma RenameKeepsLinks(b: Layer, used: int, max: Option<nat>, inherited: Tree, src: Path, dst: Path, noReplace: bool)
    requires src != [] && dst != []
    ensures LinksKept(b, RenameEdit(b, used, max, inherited, src, dst, noReplace).layer)
  {
    hide Overlaid, RenamedTombs, InheritedAt, EnsureEdit, RemoveUnder;
    EnsureKeepsLinks(b, used, max, InheritedAt(b, inherited, src), src);
    var one := OpenSource(b, used, max, inherited, src);
    EnsureKeepsLinks(one.layer, one.used, max, InheritedAt(b, inherited, dst), dst);
  }

  lemma EditKeepsForest(s: Store, max: Option<nat>, name: string, op: Op)
    requires Forest(s.branches) && op.path != []
    ensures Forest(Edited(s, max, name, op).branches)
  {
    if name in s.branches {
      StepKeepsLinks(State(s.branches[name], s.used), max, InheritedView(s, name), op);
      LayerKeepsForest(s.branches, name, Edited(s, max, name, op).branches[name]);
    }
  }

  lemma RenameKeepsForest(s: Store, max: Option<nat>, name: string, src: Path, dst: Path, noReplace: bool)
    requires Forest(s.branches) && src != [] && dst != []
    ensures Forest(Renamed(s, max, name, src, dst, noReplace).branches)
  {
    if name in s.branches {
      RenameKeepsLinks(s.branches[name], s.used, max, InheritedView(s, name), src, dst, noReplace);
      LayerKeepsForest(s.branches, name, Renamed(s, max, name, src, dst, noReplace).branches[name]);
    }
  }

  /** Every call keeps each branch connected to main by parent links. */
  lemma NextKeepsForest(s: Store, max: Option<nat>, a: Action, s': Store)
    requires Forest(s.branches) && ActionOk(a) && Next(s, max, a, s')
    ensures Forest(s'.branches)
  {
    match a
    case Create(name, parent, mode, hides) =>
      if s' != s {
        CreateKeepsForest(s.branches, name, s'.branches[name]);
      }
    case Edit(name, op) => EditKeepsForest(s, max, name, op);
    case RenameFile(name, src, dst, noReplace) => RenameKeepsForest(s, max, name, src, dst, noReplace);
    case SetFrozen(name, frozen) =>
      if s' != s {
        LayerKeepsForest(s.branches, name, s'.branches[name]);
      }
    case CommitBranch(name) => CommitStepKeepsForest(s, name, s');
    case AbortBranch(name) =>
      if s' != s {
        AbortKeepsForest(s.branches, name);
      }
  }

  lemma CommitStepKeepsForest(s: Store, name: string, s': Store)
    requires Forest(s.branches) && CommitStep(s, name, s')
    ensures Forest(s'.branches)
  {
    if s' != s {
      var up := s.branches[name].parent.value;
      if CommitFailed(s, up, s') {
        if up != MAIN {
          LayerKeepsForest(s.branches, up, s'.branches[up]);
        }
      } else {
        var copies :| CommitDone(s, name, copies, s');
        CommitKeepsForest(s, name, copies, s');
      }
    }
  }

  /** Every state of a run is a forest. */
  lemma {:induction false} RunKeepsForest(states: seq<Store>, max: Option<nat>, actions: seq<Action>)
    requires IsRun(states, max, actions) && Forest(states[0].branches)
    ensures forall i :: 0 <= i < |states| ==> Forest(states[i].branches)
  {
    hide Forest, Next, ActionOk;
    if actions != [] {
      var n := |actions| - 1;
      RunKeepsForest(states[..n + 1], max, actions[..n]);
      assert states[..n + 1][n] == states[n];
      assert ActionOk(actions[n]) && Steps(states[n], max, actions[n], states[n + 1]);
      NextKeepsForest(states[n], max, actions[n], states[n + 1]);
      forall i | 0 <= i < |states|
        ensures Forest(states[i].branches)
      {
        assert i <= n ==> states[..n + 1][i] == states[i];
      }
    }
  }

  /** In every reachable state looking up any path of any live branch ends and succeeds:
      no parent is ever missing. */
  lemma ReachableLookupsSucceed(states: seq<Store>, max: Option<nat>, actions: seq<Action>, i: nat, name: string, p: Path)
    requires IsRun(states, max, actions) && Forest(states[0].branches)
    requires i < |states| && name in states[i].branches
    ensures Forest(states[i].branches)
    ensures Resolve(states[i], name, p) == Success(Find(View(states[i], name), p))
  {
    RunKeepsForest(states, max, actions);
    ResolveIsView(states[i], name, p);
  }

  // ----- isolation -----

  /** The layers whose deltas, tombstones or existence an action may change; main
      stands for the base tree too. */
  ghost function Modified(s: Store, a: Action): set<string> {
    match a
    case Create(_, _, _, _) => {}
    case Edit(name, _) => {name}
    case RenameFile(name, _, _, _) => {name}
    case SetFrozen(_, _) => {}
    case CommitBranch(name) =>
      if name in s.branches && s.branches[name].parent.Some? then {name, s.branches[name].parent.value} else {}
    case AbortBranch(name) => {name}
  }

  lemma UnmodifiedShowsAlike(s: Store, max: Option<nat>, a: Action, s': Store, n: string)
    requires Forest(s.branches) && ActionOk(a) && Next(s, max, a, s')
    requires n in s.branches && n !in Modified(s, a)
    ensures n in s'.branches && ShowAlike(s.branches[n], s'.branches[n])
  {
    if a.CommitBranch? {
      CommitLeavesOthers(s, a.name, s', n);
    }
  }

  lemma CommitLeavesOthers(s: Store, name: string, s': Store, n: string)
    requires Forest(s.branches) && CommitStep(s, name, s') && n in s.branches
    requires name in s.branches && s.branches[name].parent.Some? ==> n != name && n != s.branches[name].parent.value
    ensures n in s'.branches && s'.branches[n] == s.branches[n]
    ensures !(name in s.branches && s.branches[name].parent == Some(MAIN)) ==> s'.base == s.base
  {
    if s' != s && !CommitFailed(s, s.branches[name].parent.value, s') {
      var copies :| CommitDone(s, name, copies, s');
    }
  }

  lemma BaseUnmodified(s: Store, max: Option<nat>, a: Action, s': Store)
    requires Forest(s.branches) && ActionOk(a) && Next(s, max, a, s') && MAIN !in Modified(s, a)
    ensures s'.base == s.base
  {
    if a.CommitBranch? {
      CommitLeavesOthers(s, a.name, s', MAIN);
    }
  }

  /** One call changes what a branch shows only if it modifies a layer of the branch's
      footprint. */
  lemma StepIsolated(s: Store, max: Option<nat>, a: Action, s': Store, name: string)
    requires Forest(s.branches) && ActionOk(a) && Next(s, max, a, s')
    requires name in s.branches && Modified(s, a) !! Footprint(s.branches, name)
    ensures Forest(s'.branches) && name in s'.branches && View(s', name) == View(s, name)
    ensures Footprint(s'.branches, name) == Footprint(s.branches, name)
  {
    NextKeepsForest(s, max, a, s');
    forall n | n in Footprint(s.branches, name)
      ensures n in s'.branches && ShowAlike(s.branches[n], s'.branches[n])
    {
      UnmodifiedShowsAlike(s, max, a, s', n);
    }
    if MAIN in Footprint(s.branches, name) {
      BaseUnmodified(s, max, a, s');
    }
    ViewDependsOnFootprint(s, s', name);
  }

  /** Isolation over whole runs: whatever is created, written, deleted, renamed,
      reverted, frozen, committed or aborted, a branch stays and shows what it showed as
      long as no call modifies the branch or a layer it reaches by Lazy parent links.
      Siblings, and everything above a Snapshot branch, are out of sight. */
  lemma {:induction false} RunIsolated(states: seq<Store>, max: Option<nat>, actions: seq<Action>, name: string)
    requires IsRun(states, max, actions) && Forest(states[0].branches) && name in states[0].branches
    requires forall i :: 0 <= i < |actions| ==> Modified(states[i], actions[i]) !! Footprint(states[0].branches, name)
    ensures Forest(states[|actions|].branches) && name in states[|actions|].branches
    ensures View(states[|actions|], name) == View(states[0], name)
    ensures Footprint(states[|actions|].branches, name) == Footprint(states[0].branches, name)
  {
    if actions != [] {
      var n := |actions| - 1;
      RunIsolated(states[..n + 1], max, actions[..n], name);
      assert states[..n + 1][n] == states[n] && states[..n + 1][0] == states[0];
      StepIsolated(states[n], max, actions[n], states[n + 1], name);
    }
  }

  // ----- what a new branch shows -----

  /** A new branch, Lazy or Snapshot, reaches exactly what its parent reaches outside the
      hidden paths, with the same entries. */
  lemma CreatedShowsParent(s: Store, name: string, parent: string, mode: Mode, hides: set<Path>)
    requires StoreOk(s) && name !in s.branches && parent in s.branches && [] !in hides
    ensures var s' := Created(s, name, parent, mode, hides);
      && Forest(s'.branches) && name in s'.branches
      && ReachablePart(View(s', name)) == ReachablePart(WithoutAll(View(s, parent), hides))
  {
    var s' := Created(s, name, parent, mode, hides);
    var v, b := View(s, parent), s'.branches[name];
    NextKeepsForest(s, None, Create(name, parent, mode, hides), s');
    ViewPrefixClosed(s, parent);
    NewLayerShows(b, v);
    if mode.Lazy? {
      StepIsolated(s, None, Create(name, parent, mode, hides), s', parent);
    } else {
      ReachablePartWellFormed(v);
      FrozenShowsSame(b, v);
    }
  }

  lemma NewLayerShows(b: Layer, v: Tree)
    requires b.files == EMPTY_TREE && b.tombs == {} && [] !in b.hides && Find(v, []) == Some(Dir)
    ensures Overlaid(b, v) == WithoutAll(v, b.hides)
  {
    forall q
      ensures Find(Overlaid(b, v), q) == Find(WithoutAll(v, b.hides), q)
    {
      OverlaidAt(b, v, q);
      assert q == [] ==> !Covered(b.hides, q);
    }
    SameTree(Overlaid(b, v), WithoutAll(v, b.hides));
  }

  // ----- the quota over all branches -----

  /** The bytes of all deltas. */
  ghost function TotalSize(bs: Branches): nat {
    Sum(map name | name in bs :: Size(bs[name].files))
  }

  lemma TotalWithLayer(bs: Branches, name: string, b: Layer)
    requires name in bs
    ensures TotalSize(bs[name := b]) == TotalSize(bs) - Size(bs[name].files) + Size(b.files)
  {
    var m := map n | n in bs :: Size(bs[n].files);
    var bs' := bs[name := b];
    assert (map n | n in bs' :: Size(bs'[n].files)) == m[name := Size(b.files)];
    SumUpdate(m, name, Size(b.files));
    SumWithout(m, name);
  }

  /** Along every run of edits of any branches, the byte count minus the size of all
      deltas stays the same, and the quota holds once it does. */
  lemma {:induction false} RunConservesTotal(states: seq<Store>, max: Option<nat>, actions: seq<Action>)
    requires IsRun(states, max, actions) && StoreOk(states[0])
    requires forall i :: 0 <= i < |actions| ==> actions[i].Edit?
    ensures StoreOk(states[|actions|])
    ensures states[|actions|].used - TotalSize(states[|actions|].branches) == states[0].used - TotalSize(states[0].branches)
    ensures max.Some? && states[0].used <= max.value ==> states[|actions|].used <= max.value
  {
    if actions != [] {
      var n := |actions| - 1;
      RunConservesTotal(states[..n + 1], max, actions[..n]);
      EditConservesTotal(states[n], max, actions[n].name, actions[n].op);
    }
  }

  lemma EditConservesTotal(s: Store, max: Option<nat>, name: string, op: Op)
    requires StoreOk(s) && op.path != []
    ensures var s' := Edited(s, max, name, op);
      && StoreOk(s') && s'.used - TotalSize(s'.branches) == s.used - TotalSize(s.branches)
      && (max.Some? && s.used <= max.value ==> s'.used <= max.value)
  {
    if name in s.branches {
      var b, inherited := State(s.branches[name], s.used), InheritedView(s, name);
      var b' := Step(b, max, inherited, op);
      StepConserves(b, max, inherited, op);
      StepIsLocal(b, max, inherited, op);
      LocalKeepsOk(b.b, b'.b, op.path);
      StepKeepsLinks(b, max, inherited, op);
      TotalWithLayer(s.branches, name, b'.b);
      LayerKeepsForest(s.branches, name, b'.b);
    }
  }
}
