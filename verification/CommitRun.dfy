/** What a commit does to the store: the content it publishes, the destination it
    merges into and the branch it removes. */
module CommitRun {
  import opened FileTree
  import opened Layers
  import opened Edits
  import opened EditLaws
  import opened TextMerge
  import opened Commit
  import opened Chain
  import opened Store
  import opened Snapshots

  // ----- the content to publish -----

  function TouchOf(c: Layer, x: Path): Touch {
    if x in c.touches then c.touches[x] else Touch(x, IdentityOf(None), None)
  }

  /** What is published at the delta file `x`. `changed`: the parent has been merged
      into since the fork. `newer` are the paths whose inherited entry has another
      modification time than when the branch first touched them. */
  function MergeSource(c: Layer, changed: bool, inherited: Tree, newer: set<Path>, x: Path): Outcome<Entry>
    requires x in c.files
  {
    var record, cur := TouchOf(c, x), InheritedAt(c, inherited, x);
    if !changed || (record.identity == IdentityOf(cur) && x !in newer) then Merged(c.files[x])
    else if record.identity.kind.Regular? && record.base.Some? && BoundedText(cur).Some? && BoundedText(Some(c.files[x])).Some? then
      match ThreeWayMerge(record.base.value, BoundedText(cur).value, c.files[x].data)
      case Merged(text) => Merged(File(text))
      case Overlapping => Merged(c.files[x])
      case Panics => Panics
    else Merged(c.files[x])
  }

  ghost predicate CommitPanics(c: Layer, changed: bool, inherited: Tree, newer: set<Path>) {
    exists x :: x in Leaves(c.files) && MergeSource(c, changed, inherited, newer, x).Panics?
  }

  ghost function CommitSources(c: Layer, changed: bool, inherited: Tree, newer: set<Path>): Tree
    requires !CommitPanics(c, changed, inherited, newer)
  {
    map x | x in Leaves(c.files) :: SourceEntry(c, changed, inherited, newer, x)
  }

  ghost function SourceEntry(c: Layer, changed: bool, inherited: Tree, newer: set<Path>, x: Path): Entry
    requires x in c.files
  {
    match MergeSource(c, changed, inherited, newer, x)
    case Merged(e) => e
    case _ => c.files[x]
  }

  /** Every delta file is published, as a file or symlink; without a change in the
      parent, as it is. */
  lemma CommitSourcesOk(c: Layer, changed: bool, inherited: Tree, newer: set<Path>)
    requires !CommitPanics(c, changed, inherited, newer)
    ensures SourcesOf(c, CommitSources(c, changed, inherited, newer))
    ensures !changed ==> CommitSources(c, changed, inherited, newer) == Leaves(c.files)
  {
  }

  // ----- the branch a commit works on -----

  predicate IsLeaf(bs: Branches, name: string) {
    forall other :: other in bs ==> bs[other].parent != Some(name)
  }

  /** A branch that can be committed or aborted: live, not main, nobody's parent. */
  ghost predicate Removable(bs: Branches, name: string) {
    name in bs && name != MAIN && IsLeaf(bs, name) && bs[name].parent.Some?
  }

  /** The store after a successful commit that published `copies`. */
  ghost predicate CommitDone(s: Store, name: string, copies: Tree, s': Store)
    requires Forest(s.branches) && Removable(s.branches, name) && s.branches[name].parent.value in s.branches
  {
    var up := s.branches[name].parent.value;
    var c, p := s.branches[name], s.branches[up];
    && SourcesOf(c, copies) && RoomForCopies(if up == MAIN then s.base else p.files, c.tombs, copies)
    && s'.used == s.used && s'.epoch == s.epoch + 1
    && up in s'.branches && s'.branches == (s.branches - {name})[up := s'.branches[up]]
    && if up == MAIN then BaseCommitted(c, p, s.base, copies, s'.branches[up], s'.base)
       else
         s'.base == s.base && NestedCommitted(c, p, InheritedView(s, up), copies, s'.branches[up])
  }

  // ----- a commit with the content it chooses -----

  /** The tree that a commit of the branch merges into. */
  ghost function DestinationOf(s: Store, name: string): Tree
    requires Forest(s.branches) && name in s.branches && s.branches[name].parent.Some?
  {
    ParentIsLive(s.branches, name);
    if s.branches[name].parent.value == MAIN then s.base else s.branches[s.branches[name].parent.value].files
  }

  /** The parent has been merged into since the branch was created. */
  ghost predicate ParentChanged(s: Store, name: string)
    requires Forest(s.branches) && name in s.branches && s.branches[name].parent.Some?
  {
    ParentIsLive(s.branches, name);
    s.branches[s.branches[name].parent.value].commitCount != s.branches[name].forkVersion
  }

  /** The branch can be committed and its content can be chosen. */
  ghost predicate Committable(s: Store, name: string, newer: set<Path>)
    requires Forest(s.branches)
  {
    && Removable(s.branches, name)
    && !CommitPanics(s.branches[name], ParentChanged(s, name), InheritedView(s, name), newer)
  }

  ghost function ChosenSources(s: Store, name: string, newer: set<Path>): Tree
    requires Forest(s.branches) && Committable(s, name, newer)
  {
    CommitSources(s.branches[name], ParentChanged(s, name), InheritedView(s, name), newer)
  }

  /** The commit is done, with the chosen content. */
  ghost predicate CommittedWith(s: Store, name: string, newer: set<Path>, s': Store)
    requires Forest(s.branches)
  {
    && Committable(s, name, newer) && s.branches[name].parent.value in s.branches
    && CommitDone(s, name, ChosenSources(s, name, newer), s')
  }

  // ----- the forest survives -----

  /** Removing branches that are nobody's parent and changing layers but not their
      parent links leaves the others where they are. */
  lemma {:induction false} DepthStays(bs: Branches, bs': Branches, name: string, n: nat)
    requires DepthIs(bs, name, n) && name in bs'
    requires forall m :: m in bs' && m in bs ==>
      bs'[m].parent == bs[m].parent && (bs[m].parent.Some? ==> bs[m].parent.value in bs')
    ensures DepthIs(bs', name, n)
    decreases n
  {
    if bs[name].parent.Some? {
      DepthStays(bs, bs', bs[name].parent.value, n - 1);
    }
  }

  lemma ForestStays(bs: Branches, bs': Branches)
    requires Forest(bs) && MAIN in bs' && bs'.Keys <= bs.Keys
    requires forall m :: m in bs' ==> bs'[m].parent == bs[m].parent && (bs[m].parent.Some? ==> bs[m].parent.value in bs')
    ensures Forest(bs')
  {
    forall name | name in bs'
      ensures exists n :: DepthIs(bs', name, n)
    {
      DepthStays(bs, bs', name, Depth(bs, name));
    }
  }

  lemma ParentIsLive(bs: Branches, name: string)
    requires Forest(bs) && name in bs && bs[name].parent.Some?
    ensures bs[name].parent.value in bs && bs[name].parent.value != name
  {
    ParentIsHigher(bs, name);
  }

  /** A commit of `name` leaves, next to its parent `up`, every other layer as it is. */
  ghost predicate MergedUp(bs: Branches, bs': Branches, name: string, up: string) {
    && up in bs && up in bs' && bs' == (bs - {name})[up := bs'[up]]
    && bs'[up].parent == bs[up].parent && bs'[up].mode == bs[up].mode && bs'[up].inherited == bs[up].inherited
    && bs'[up].hides == bs[up].hides
  }

  lemma CommitMergesUp(s: Store, name: string, copies: Tree, s': Store)
    requires Forest(s.branches) && Removable(s.branches, name) && s.branches[name].parent.value in s.branches
    requires CommitDone(s, name, copies, s')
    ensures MergedUp(s.branches, s'.branches, name, s.branches[name].parent.value)
  {
  }

  lemma MergeUpKeepsForest(bs: Branches, bs': Branches, name: string, up: string)
    requires Forest(bs) && Removable(bs, name) && MergedUp(bs, bs', name, up) && up != name
    ensures Forest(bs')
  {
    forall m | m in bs'
      ensures bs'[m].parent == bs[m].parent
      ensures bs[m].parent.Some? ==> bs[m].parent.value in bs'
    {
      if bs[m].parent.Some? {
        ParentIsLive(bs, m);
      }
    }
    ForestStays(bs, bs');
  }

  lemma CommitKeepsForest(s: Store, name: string, copies: Tree, s': Store)
    requires Forest(s.branches) && Removable(s.branches, name) && s.branches[name].parent.value in s.branches
    requires CommitDone(s, name, copies, s')
    ensures Forest(s'.branches)
  {
    CommitMergesUp(s, name, copies, s');
    ParentIsLive(s.branches, name);
    MergeUpKeepsForest(s.branches, s'.branches, name, s.branches[name].parent.value);
  }

  /** What the parent inherits is not touched by a commit into it. */
  lemma ParentInheritsTheSame(s: Store, s': Store, name: string, up: string)
    requires Forest(s.branches) && Removable(s.branches, name) && s.branches[name].parent == Some(up)
    requires MergedUp(s.branches, s'.branches, name, up) && up != name && s'.base == s.base
    ensures Forest(s'.branches) && InheritedView(s', up) == InheritedView(s, up)
  {
    MergeUpKeepsForest(s.branches, s'.branches, name, up);
    if s.branches[up].parent.Some? {
      AboveIsElsewhere(s, name, s');
    }
  }

  lemma AboveIsElsewhere(s: Store, name: string, s': Store)
    requires Forest(s.branches) && Forest(s'.branches) && Removable(s.branches, name) && s'.base == s.base
    requires var up := s.branches[name].parent.value;
      && up in s.branches && up in s'.branches && s.branches[up].parent.Some?
      && s'.branches == (s.branches - {name})[up := s'.branches[up]]
    ensures var top := s.branches[s.branches[name].parent.value].parent.value;
      top in s.branches && top in s'.branches && View(s', top) == View(s, top)
  {
    var up := s.branches[name].parent.value;
    var top := s.branches[up].parent.value;
    ParentIsHigher(s.branches, up);
    forall n | n in Footprint(s.branches, top)
      ensures n in s'.branches && s'.branches[n] == s.branches[n]
    {
      FootprintIsAbove(s.branches, top, n);
      LeafInNoFootprint(s.branches, top, name);
    }
    ViewDependsOnFootprint(s, s', top);
  }

  lemma {:induction false} FootprintIsAbove(bs: Branches, name: string, n: string)
    requires Forest(bs) && name in bs && n in Footprint(bs, name)
    ensures Depth(bs, n) <= Depth(bs, name)
    decreases Depth(bs, name)
  {
    if n != name {
      ParentIsHigher(bs, name);
      FootprintIsAbove(bs, bs[name].parent.value, n);
    }
  }

  /** A branch without children is in no footprint but its own. */
  lemma {:induction false} LeafInNoFootprint(bs: Branches, name: string, leaf: string)
    requires Forest(bs) && name in bs && IsLeaf(bs, leaf) && name != leaf
    ensures leaf !in Footprint(bs, name)
    decreases Depth(bs, name)
  {
    if bs[name].parent.Some? && bs[name].mode.Lazy? {
      ParentIsHigher(bs, name);
      LeafInNoFootprint(bs, bs[name].parent.value, leaf);
    }
  }

  // ----- the parent shows what the child showed -----

  /** The store in which the branch has the content that its commit publishes. */
  ghost function WithContent(s: Store, name: string, copies: Tree): (s2: Store)
    requires Forest(s.branches) && name in s.branches
    ensures Forest(s2.branches) && name in s2.branches
  {
    LayerKeepsForest(s.branches, name, WithSources(s.branches[name], copies));
    s.(branches := s.branches[name := WithSources(s.branches[name], copies)])
  }

  lemma OwnContent(s: Store, name: string)
    requires Forest(s.branches) && name in s.branches
    ensures WithContent(s, name, Leaves(s.branches[name].files)) == s
  {
    OwnSources(s.branches[name]);
  }

  lemma LayerKeepsForest(bs: Branches, name: string, b: Layer)
    requires Forest(bs) && name in bs && b.parent == bs[name].parent
    ensures Forest(bs[name := b])
  {
    forall m | m in bs && bs[m].parent.Some?
      ensures bs[m].parent.value in bs
    {
      ParentIsLive(bs, m);
    }
    ForestStays(bs, bs[name := b]);
  }

  /** A branch's own layer is no part of what it inherits. */
  lemma OwnLayerIsNotInherited(s: Store, s': Store, name: string)
    requires Forest(s.branches) && Forest(s'.branches) && name in s.branches && name in s'.branches && s'.base == s.base
    requires s'.branches == s.branches[name := s'.branches[name]]
    requires var b, b' := s.branches[name], s'.branches[name];
      b'.parent == b.parent && b'.mode == b.mode && b'.inherited == b.inherited
    ensures InheritedView(s', name) == InheritedView(s, name)
  {
    if s.branches[name].parent.Some? {
      var up := s.branches[name].parent.value;
      ParentIsHigher(s.branches, name);
      forall n | n in Footprint(s.branches, up)
        ensures n in s'.branches && s'.branches[n] == s.branches[n]
      {
        FootprintIsAbove(s.branches, up, n);
      }
      ViewDependsOnFootprint(s, s', up);
    }
  }

  /** The branch sees its parent as the parent is now: it inherits live, or from a tree
      frozen of the parent's present view, over which its directories are stable. */
  ghost predicate SeesParent(s: Store, name: string)
    requires Forest(s.branches) && name in s.branches && s.branches[name].parent.Some?
  {
    ParentIsLive(s.branches, name);
    var c, v := s.branches[name], View(s, s.branches[name].parent.value);
    c.mode.Lazy? || (c.inherited == ReachablePart(v) && KindStable(c, v))
  }

  /** Such a branch shows its layer over the parent's live view. */
  lemma ChildShowsOverParent(s: Store, name: string, copies: Tree)
    requires StoreOk(s) && name in s.branches && s.branches[name].parent.Some? && SourcesOf(s.branches[name], copies)
    requires s.branches[name].parent.value in s.branches && SeesParent(s, name)
    ensures Files(View(WithContent(s, name, copies), name)) ==
            Files(Overlaid(WithSources(s.branches[name], copies), View(s, s.branches[name].parent.value)))
  {
    var c, up := s.branches[name], s.branches[name].parent.value;
    var c2, v := WithSources(c, copies), View(s, up);
    OwnLayerIsNotInherited(s, WithContent(s, name, copies), name);
    if c.mode.Snapshot? {
      ViewPrefixClosed(s, up);
      SourcesKeepForm(c, copies, v);
      FrozenShowsSame(c2, v);
      FilesAreReachable(Overlaid(c2, ReachablePart(v)), Overlaid(c2, v));
    }
  }

  lemma SourcesKeepForm(c: Layer, copies: Tree, v: Tree)
    requires LayerOk(c) && SourcesOf(c, copies) && KindStable(c, v)
    ensures LayerOk(WithSources(c, copies)) && KindStable(WithSources(c, copies), v)
  {
    var files := c.files + copies;
    forall q
      ensures Find(files, q) == Some(Dir) <==> Find(c.files, q) == Some(Dir)
    {
      assert q in copies ==> q in Leaves(c.files);
    }
    forall p, q | p in files && q < p
      ensures Find(files, q) == Some(Dir)
    {
      assert p in copies ==> p in Leaves(c.files);
      assert Find(c.files, q) == Some(Dir);
    }
    assert Find(c.files, []) == Some(Dir);
    WellFormedIf(files);
    forall d | d in files && files[d].Dir?
      ensures d in c.files && c.files[d].Dir?
    {
      assert Find(files, d) == Some(Dir);
    }
  }

  lemma FilesAreReachable(v: Tree, w: Tree)
    requires ReachablePart(v) == ReachablePart(w)
    ensures Files(v) == Files(w)
  {
    forall p
      ensures Find(Files(v), p) == Find(Files(w), p)
    {
      assert Find(ReachablePart(v), p) == Find(ReachablePart(w), p);
    }
    SameTree(Files(v), Files(w));
  }

  /** After a nested commit the parent's view is the child's old view, with the
      published content, exactly when the child's file-less directories and hide rules kept
      no file of the parent from showing and the merge empties no directory that stood over
      a file inherited by the parent. */
  lemma NestedCommitShowsChild(s: Store, name: string, copies: Tree, s': Store)
    requires StoreOk(s) && Removable(s.branches, name) && s.branches[name].parent.value in s.branches
    requires CommitDone(s, name, copies, s') && s.branches[name].parent.value != MAIN
    ensures Forest(s'.branches)
    ensures var up := s.branches[name].parent.value; var c, p := s.branches[name], s.branches[up];
      var same :=
        !Exposes(c, copies, WithoutAll(View(s, up), c.tombs)) &&
        forall d :: Emptied(c, p, copies, d) ==> !Masked(p, InheritedView(s, up), d);
      && (Files(View(s', up)) == Files(Overlaid(WithSources(c, copies), View(s, up))) <==> same)
      && (SeesParent(s, name) ==> (Files(View(s', up)) == Files(View(WithContent(s, name, copies), name)) <==> same))
      && (SeesParent(s, name) && copies == Leaves(c.files) ==> (Files(View(s', up)) == Files(View(s, name)) <==> same))
  {
    hide Exposes, Emptied, Files, SeesParent;
    var up := s.branches[name].parent.value;
    CommitMergesUp(s, name, copies, s');
    ParentIsLive(s.branches, name);
    ParentInheritsTheSame(s, s', name, up);
    ViewPrefixClosed(s, up);
    NestedCommitPreservesView(s.branches[name], s.branches[up], InheritedView(s, up), copies, s'.branches[up]);
    if SeesParent(s, name) {
      ChildShowsOverParent(s, name, copies);
      OwnContent(s, name);
    }
  }

  /** The same for a commit into the base tree: main must neither delete nor block a
      committed file. */
  lemma BaseCommitShowsChild(s: Store, name: string, copies: Tree, s': Store)
    requires StoreOk(s) && Removable(s.branches, name) && s.branches[name].parent == Some(MAIN)
    requires CommitDone(s, name, copies, s') && s.branches[MAIN].hides == {}
    ensures Forest(s'.branches)
    ensures var c := s.branches[name];
      var same := MainClear(s.branches[MAIN], c.tombs, copies) && !Exposes(c, copies, WithoutAll(View(s, MAIN), c.tombs));
      && (Files(View(s', MAIN)) == Files(Overlaid(WithSources(c, copies), View(s, MAIN))) <==> same)
      && (SeesParent(s, name) ==> (Files(View(s', MAIN)) == Files(View(WithContent(s, name, copies), name)) <==> same))
      && (SeesParent(s, name) && copies == Leaves(c.files) ==> (Files(View(s', MAIN)) == Files(View(s, name)) <==> same))
  {
    hide Exposes, Files, SeesParent;
    CommitKeepsForest(s, name, copies, s');
    MainView(s);
    MainView(s');
    CommitIntoBase(s, name, copies, s');
    BaseCommitPreservesView(s.branches[name], s.branches[MAIN], s.base, copies, s'.branches[MAIN], s'.base);
    if SeesParent(s, name) {
      ChildShowsOverParent(s, name, copies);
      OwnContent(s, name);
    }
  }

  lemma CommitIntoBase(s: Store, name: string, copies: Tree, s': Store)
    requires StoreOk(s) && Removable(s.branches, name) && s.branches[name].parent == Some(MAIN)
    requires CommitDone(s, name, copies, s')
    ensures var c, m := s.branches[name], s.branches[MAIN];
      && LayerOk(c) && LayerOk(m) && PrefixClosed(s.base) && SourcesOf(c, copies)
      && MAIN in s'.branches && BaseCommitted(c, m, s.base, copies, s'.branches[MAIN], s'.base)
  {
  }

  lemma MainView(s: Store)
    requires Forest(s.branches)
    ensures View(s, MAIN) == Overlaid(s.branches[MAIN], s.base)
  {
    var n := Depth(s.branches, MAIN);
    assert DepthIs(s.branches, MAIN, n);
  }

  // ----- chains of the store -----

  /** The layers from main down to a branch. */
  ghost function Lineage(s: Store, name: string): seq<Layer>
    requires Forest(s.branches) && name in s.branches
    decreases Depth(s.branches, name)
  {
    match s.branches[name].parent
    case None => [s.branches[name]]
    case Some(up) =>
      ParentIsHigher(s.branches, name);
      Lineage(s, up) + [s.branches[name]]
  }

  /** The branch and every branch above it, but for main, inherits live. */
  ghost predicate LazyLine(bs: Branches, name: string)
    requires Forest(bs) && name in bs
    decreases Depth(bs, name)
  {
    match bs[name].parent
    case None => true
    case Some(up) =>
      ParentIsHigher(bs, name);
      bs[name].mode.Lazy? && LazyLine(bs, up)
  }

  /** Along Lazy links the view of the store is the view of the chain, whatever other
      branches there are. */
  lemma {:induction false} ViewIsChainView(s: Store, name: string)
    requires Forest(s.branches) && name in s.branches && LazyLine(s.branches, name)
    ensures View(s, name) == ChainView(s.base, Lineage(s, name))
    decreases Depth(s.branches, name)
  {
    var chain := Lineage(s, name);
    if s.branches[name].parent.Some? {
      var up := s.branches[name].parent.value;
      ParentIsHigher(s.branches, name);
      ViewIsChainView(s, up);
      assert chain[..|chain| - 1] == Lineage(s, up);
    } else {
      assert chain[..0] == [];
    }
  }
}
