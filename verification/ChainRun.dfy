/** Committing nested Lazy branches of a store one after the other up to main. */
module ChainRun {
  import opened FileTree
  import opened Layers
  import opened Store
  import opened Commit
  import opened Chain
  import opened CommitRun

  /** In `states` the branch is committed, then its parent, and so on until a child of
      main is; every commit publishes the deltas as they are. */
  ghost predicate CommitsUp(states: seq<Store>, name: string)
    decreases |states|
  {
    && |states| >= 2 && Forest(states[0].branches) && Removable(states[0].branches, name)
    && var up := states[0].branches[name].parent.value;
    && up in states[0].branches
    && CommitDone(states[0], name, Leaves(states[0].branches[name].files), states[1])
    && if up == MAIN then |states| == 2 else CommitsUp(states[1..], up)
  }

  /** A commit leaves the links above its parent as they are. */
  lemma {:induction false} LineStaysLazy(bs: Branches, bs': Branches, name: string)
    requires Forest(bs) && Forest(bs') && name in bs && name in bs' && LazyLine(bs, name)
    requires forall m :: m in bs && m in bs' ==> bs'[m].parent == bs[m].parent && bs'[m].mode == bs[m].mode
    ensures LazyLine(bs', name)
    decreases Depth(bs, name)
  {
    if bs[name].parent.Some? {
      ParentIsHigher(bs, name);
      ParentIsHigher(bs', name);
      LineStaysLazy(bs, bs', bs[name].parent.value);
    }
  }

  lemma {:induction false} LineageSame(s: Store, s': Store, name: string)
    requires Forest(s.branches) && Forest(s'.branches) && name in s.branches
    requires forall m :: m in s.branches && Depth(s.branches, m) <= Depth(s.branches, name) && m in s'.branches ==>
      s'.branches[m] == s.branches[m]
    requires name in s'.branches
    ensures Lineage(s', name) == Lineage(s, name)
    decreases Depth(s.branches, name)
  {
    if s.branches[name].parent.Some? {
      ParentIsHigher(s.branches, name);
      ParentIsHigher(s'.branches, name);
      LineageSame(s, s', s.branches[name].parent.value);
    }
  }

  /** A commit of `name` into `up` replaces the last two layers of the lineage by one. */
  lemma LineageAfterCommit(s: Store, s': Store, name: string, up: string)
    requires Forest(s.branches) && Forest(s'.branches) && Removable(s.branches, name)
    requires s.branches[name].parent == Some(up) && up in s.branches && up != MAIN && MergedUp(s.branches, s'.branches, name, up)
    ensures |Lineage(s, name)| >= 3
    ensures Lineage(s', up) == Lineage(s, name)[..|Lineage(s, name)| - 2] + [s'.branches[up]]
    ensures Lineage(s, name)[|Lineage(s, name)| - 2] == s.branches[up]
    ensures Lineage(s, name)[|Lineage(s, name)| - 1] == s.branches[name]
  {
    ParentIsHigher(s.branches, name);
    assert DepthIs(s.branches, up, Depth(s.branches, up));
    var top := s.branches[up].parent.value;
    ParentIsHigher(s.branches, up);
    ParentIsHigher(s'.branches, up);
    LineageSame(s, s', top);
    assert Lineage(s, name) == Lineage(s, top) + [s.branches[up]] + [s.branches[name]];
    assert Lineage(s, top) != [];
  }

  lemma LineageToMain(s: Store, name: string)
    requires Forest(s.branches) && name in s.branches && s.branches[name].parent == Some(MAIN)
    ensures Lineage(s, name) == [s.branches[MAIN], s.branches[name]]
  {
    ParentIsHigher(s.branches, name);
    assert DepthIs(s.branches, MAIN, Depth(s.branches, MAIN));
    assert Lineage(s, MAIN) == [s.branches[MAIN]];
  }

  /** What the parent inherits is the view of the lineage above it. */
  lemma ParentInheritsChain(s: Store, name: string, up: string)
    requires Forest(s.branches) && name in s.branches && LazyLine(s.branches, name) && s.branches[name].parent == Some(up)
    requires up in s.branches && up != MAIN
    ensures |Lineage(s, name)| >= 3
    ensures InheritedView(s, up) == ChainView(s.base, Lineage(s, name)[..|Lineage(s, name)| - 2])
  {
    ParentIsHigher(s.branches, name);
    assert DepthIs(s.branches, up, Depth(s.branches, up));
    var top := s.branches[up].parent.value;
    ParentIsHigher(s.branches, up);
    ViewIsChainView(s, top);
    assert Lineage(s, name) == Lineage(s, top) + [s.branches[up]] + [s.branches[name]];
    assert Lineage(s, name)[..|Lineage(s, name)| - 2] == Lineage(s, top);
    assert Lineage(s, top) != [];
  }

  /** One commit of the store is one step of the chain. */
  lemma CommitIsChainStep(s: Store, s': Store, name: string, up: string)
    requires Forest(s.branches) && Removable(s.branches, name) && LazyLine(s.branches, name)
    requires s.branches[name].parent == Some(up) && up in s.branches && up != MAIN && CommitDone(s, name, Leaves(s.branches[name].files), s')
    ensures Forest(s'.branches) && up in s'.branches && s'.base == s.base && LazyLine(s'.branches, up)
    ensures ChainStep(s.base, Lineage(s, name), s'.branches[up]) && Lineage(s', up) == Stepped(Lineage(s, name), s'.branches[up])
  {
    hide NestedCommitted;
    CommitKeepsForest(s, name, Leaves(s.branches[name].files), s');
    CommitMergesUp(s, name, Leaves(s.branches[name].files), s');
    ParentIsLive(s.branches, name);
    LineageAfterCommit(s, s', name, up);
    ParentInheritsChain(s, name, up);
    LineStaysLazy(s.branches, s'.branches, up);
  }

  ghost predicate ChainStep(base: Tree, chain: seq<Layer>, p': Layer) {
    var n := |chain| - 1;
    n >= 2 && NestedCommitted(chain[n], chain[n - 1], ChainView(base, chain[..n - 1]), Leaves(chain[n].files), p')
  }

  ghost function Stepped(chain: seq<Layer>, p': Layer): seq<Layer>
    requires |chain| >= 2
  {
    chain[..|chain| - 2] + [p']
  }

  lemma ChainSteps(base: Tree, chain: seq<Layer>, p': Layer, base': Tree, m': Layer)
    requires ChainStep(base, chain, p') && ChainCommitted(base, Stepped(chain, p'), base', m')
    ensures ChainCommitted(base, chain, base', m')
  {
    hide NestedCommitted, ChainView;
    assert Stepped(chain, p') == chain[..|chain| - 1 - 1] + [p'];
  }

  /** The commits of the store are the commits of its chain. */
  lemma {:induction false} CommitsUpIsChain(states: seq<Store>, name: string)
    requires CommitsUp(states, name) && LazyLine(states[0].branches, name)
    ensures Forest(states[|states| - 1].branches)
    ensures |Lineage(states[0], name)| >= 2
    ensures ChainCommitted(states[0].base, Lineage(states[0], name),
                           states[|states| - 1].base, states[|states| - 1].branches[MAIN])
    decreases |states|
  {
    hide NestedCommitted, ChainView, ChainCommitted, ChainStep, DepthIs;
    var s, s', last := states[0], states[1], states[|states| - 1];
    var up := s.branches[name].parent.value;
    if up == MAIN {
      CommitKeepsForest(s, name, Leaves(s.branches[name].files), s');
      BaseCommitIsChain(s, s', name);
    } else {
      CommitIsChainStep(s, s', name, up);
      CommitsUpIsChain(states[1..], up);
      assert states[1..][0] == s' && states[1..][|states| - 2] == last;
      ChainSteps(s.base, Lineage(s, name), s'.branches[up], last.base, last.branches[MAIN]);
    }
  }

  lemma BaseCommitIsChain(s: Store, s': Store, name: string)
    requires Forest(s.branches) && Removable(s.branches, name) && s.branches[name].parent == Some(MAIN)
    requires CommitDone(s, name, Leaves(s.branches[name].files), s')
    ensures |Lineage(s, name)| == 2 && MAIN in s'.branches
    ensures ChainCommitted(s.base, Lineage(s, name), s'.base, s'.branches[MAIN])
  {
    LineageToMain(s, name);
  }

  /** Committing a chain of nested Lazy branches of a store bottom-up leaves main showing,
      over the new base tree, exactly the files the deepest branch showed at the start. */
  lemma CommitsUpPreserveView(states: seq<Store>, name: string)
    requires CommitsUp(states, name) && LazyLine(states[0].branches, name)
    requires ChainReady(states[0].base, Lineage(states[0], name))
    ensures Forest(states[|states| - 1].branches)
    ensures Files(View(states[|states| - 1], MAIN)) == Files(View(states[0], name))
  {
    var last := states[|states| - 1];
    CommitsUpIsChain(states, name);
    ViewIsChainView(states[0], name);
    MainView(last);
    ChainCommitPreservesView(states[0].base, Lineage(states[0], name), last.base, last.branches[MAIN]);
  }
}
