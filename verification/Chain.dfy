/** Committing a whole chain of nested branches, deepest first. */
module Chain {
  import opened FileTree
  import opened Layers
  import opened Commit

  /** What the last of a chain of lazy branches shows; the first one is main. */
  ghost function ChainView(base: Tree, chain: seq<Layer>): Tree {
    if chain == [] then base else Overlaid(chain[|chain| - 1], ChainView(base, chain[..|chain| - 1]))
  }

  lemma {:induction false} ChainViewPrefixClosed(base: Tree, chain: seq<Layer>)
    requires WellFormed(base) && forall i :: 0 <= i < |chain| ==> LayerOk(chain[i])
    ensures PrefixClosed(ChainView(base, chain))
  {
    if chain != [] {
      var n := |chain| - 1;
      ChainViewPrefixClosed(base, chain[..n]);
      OverlaidPrefixClosed(chain[n], ChainView(base, chain[..n]));
    }
  }

  ghost predicate NoTombBelow(tombs: set<Path>, files: Tree) {
    forall t, x :: t in tombs && x in files && !files[x].Dir? ==> !(x < t)
  }

  ghost predicate MainLets(m: Layer, files: Tree) {
    forall x :: x in files && !files[x].Dir? ==> !Covered(m.tombs, x)
  }

  /** The state in which a chain can be committed bottom-up without losing a file:
      every branch shows all it inherits but for its own deltas and tombstones, no
      delta directory stands on a visible inherited file, and main deletes nothing that a
      branch wrote. */
  ghost predicate ChainReady(base: Tree, chain: seq<Layer>) {
    && WellFormed(base)
    && (forall i :: 0 <= i < |chain| ==> LayerOk(chain[i]) && chain[i].hides == {})
    && ChainStable(base, chain) && MainLetsAll(chain)
  }

  /** No tombstone of any branch lies below a delta file of another, so that none of the
      chain's merges fails. */
  ghost predicate TombsApart(chain: seq<Layer>) {
    forall l, l' :: l in chain && l' in chain ==> NoTombBelow(l.tombs, l'.files)
  }

  ghost predicate MainLetsAll(chain: seq<Layer>) {
    forall j :: 1 <= j < |chain| ==> MainLets(chain[0], chain[j].files)
  }

  ghost predicate ChainStable(base: Tree, chain: seq<Layer>) {
    forall i :: 0 <= i < |chain| ==> KindStable(chain[i], ChainView(base, chain[..i]))
  }

  ghost predicate ChainCommitted(base: Tree, chain: seq<Layer>, base': Tree, m': Layer)
    requires |chain| >= 2
    decreases |chain|
  {
    var n := |chain| - 1;
    if n == 1 then
      BaseCommitted(chain[1], chain[0], base, Leaves(chain[1].files), m', base')
    else
      exists p' ::
        && NestedCommitted(chain[n], chain[n - 1], ChainView(base, chain[..n - 1]), Leaves(chain[n].files), p')
        && ChainCommitted(base, chain[..n - 1] + [p'], base', m')
  }

  /** A branch of a ready chain keeps nothing from showing but by deleting it. */
  lemma StableExposesNothing(c: Layer, v: Tree)
    requires c.hides == {} && KindStable(c, v)
    ensures !Exposes(c, Leaves(c.files), WithoutAll(v, c.tombs))
  {
  }

  /** Where no delta directory stands over an inherited file, pruning uncovers none. */
  lemma StableUncoversNothing(c: Layer, p: Layer, ip: Tree, copies: Tree)
    requires LayerOk(c) && LayerOk(p) && SourcesOf(c, copies) && RoomForCopies(p.files, c.tombs, copies) && KindStable(p, ip)
    ensures forall d :: Emptied(c, p, copies, d) ==> !Masked(p, ip, d)
  {
    hide Emptied, Published;
    ChildShape(c, copies);
    MergedShrinks(c, p, copies);
    forall d | Emptied(c, p, copies, d)
      ensures !Masked(p, ip, d)
    {
      EmptiedIff(c, p, copies, d);
      PrunedWasParents(p.files, c.tombs, copies, MergedFiles(c, p, copies), d);
    }
  }

  lemma OwnSources(c: Layer)
    ensures SourcesOf(c, Leaves(c.files)) && WithSources(c, Leaves(c.files)) == c
  {
    assert c.files + Leaves(c.files) == c.files;
  }

  lemma AboveLeafIsDir(c: Layer, q: Path)
    requires WellFormed(c.files) && AboveSome(Leaves(c.files).Keys, q)
    ensures q in c.files && c.files[q].Dir?
  {
  }

  lemma RoomInParent(c: Layer, p: Layer, ip: Tree)
    requires LayerOk(c) && c.hides == {} && KindStable(c, Overlaid(p, ip))
    ensures RoomForCopies(p.files, c.tombs, Leaves(c.files))
  {
    forall q | q in p.files && !Covered(c.tombs, q) && AboveSome(Leaves(c.files).Keys, q)
      ensures p.files[q].Dir?
    {
      AboveLeafIsDir(c, q);
      OverlaidAt(p, ip, q);
      assert q in Overlaid(p, ip);
    }
  }

  /** What the child calls a directory, the parent does not inherit as a file. */
  lemma CommittedDirStable(c: Layer, p: Layer, ip: Tree, p': Layer, d: Path)
    requires LayerOk(c) && LayerOk(p) && PrefixClosed(ip) && c.hides == {} && p.hides == {}
    requires KindStable(c, Overlaid(p, ip)) && KindStable(p, ip)
    requires NestedCommitted(c, p, ip, Leaves(c.files), p')
    requires AboveSome(Leaves(c.files).Keys, d) && d in ip && !Covered(p'.tombs, d)
    ensures ip[d].Dir?
  {
    var copies := Leaves(c.files);
    AboveLeafIsDir(c, d);
    NotAtOrBelowLeaf(c, d);
    VisibleNotDeleted(c, p, ip, copies, d);
    FoldedTombs(c, p, ip, copies, d);
    OverlaidAt(p, ip, d);
    assert d in Overlaid(p, ip);
  }

  lemma VisibleNotDeleted(c: Layer, p: Layer, ip: Tree, copies: Tree, d: Path)
    requires PrefixClosed(ip) && p.hides == {} && d in ip
    requires !Covered(copies.Keys, d) && !Covered(Folded(c, p, ip, copies).tombs, d)
    ensures !Covered(c.tombs, d)
  {
    var merged := Folded(c, p, ip, copies).tombs;
    forall t | t in c.tombs && t <= d
      ensures t in merged
    {
      assert t == d || t < d;
    }
  }

  lemma NotAtOrBelowLeaf(c: Layer, d: Path)
    requires WellFormed(c.files) && d in c.files && c.files[d].Dir?
    ensures !Covered(Leaves(c.files).Keys, d)
  {
    assert forall y :: y in Leaves(c.files) && y <= d ==> y == d || y < d;
  }

  lemma NestedKeepsKindStable(c: Layer, p: Layer, ip: Tree, p': Layer)
    requires LayerOk(c) && LayerOk(p) && PrefixClosed(ip) && c.hides == {} && p.hides == {}
    requires KindStable(c, Overlaid(p, ip)) && KindStable(p, ip)
    requires NestedCommitted(c, p, ip, Leaves(c.files), p')
    ensures KindStable(p', ip)
  {
    var copies := Leaves(c.files);
    forall d | d in p'.files && p'.files[d].Dir? && d in ip && !Covered(p'.tombs, d)
      ensures ip[d].Dir?
    {
      PublishedAt(p.files, c.tombs, copies, d);
      assert Find(Published(p.files, c.tombs, copies), d) == Some(Dir);
      if AboveSome(copies.Keys, d) {
        CommittedDirStable(c, p, ip, p', d);
      } else {
        FoldedTombs(c, p, ip, copies, d);
      }
    }
  }

  /** A commit out of a ready pair shows the child's files in the parent. */
  lemma PairStep(c: Layer, p: Layer, ip: Tree, p': Layer)
    requires LayerOk(c) && LayerOk(p) && PrefixClosed(ip) && c.hides == {}
    requires KindStable(c, Overlaid(p, ip)) && KindStable(p, ip)
    requires NestedCommitted(c, p, ip, Leaves(c.files), p')
    ensures Files(Overlaid(p', ip)) == Files(Overlaid(c, Overlaid(p, ip)))
  {
    RoomInParent(c, p, ip);
    OwnSources(c);
    StableExposesNothing(c, Overlaid(p, ip));
    StableUncoversNothing(c, p, ip, Leaves(c.files));
    NestedCommitPreservesView(c, p, ip, Leaves(c.files), p');
  }

  lemma LastPair(base: Tree, chain: seq<Layer>)
    requires |chain| >= 2 && ChainReady(base, chain)
    ensures ChainView(base, chain[..|chain| - 1]) == Overlaid(chain[|chain| - 2], ChainView(base, chain[..|chain| - 2]))
    ensures ChainView(base, chain) == Overlaid(chain[|chain| - 1], ChainView(base, chain[..|chain| - 1]))
    ensures KindStable(chain[|chain| - 1], ChainView(base, chain[..|chain| - 1]))
    ensures KindStable(chain[|chain| - 2], ChainView(base, chain[..|chain| - 2]))
    ensures PrefixClosed(ChainView(base, chain[..|chain| - 2]))
  {
    assert chain[..|chain| - 1][..|chain| - 2] == chain[..|chain| - 2];
    ChainViewPrefixClosed(base, chain[..|chain| - 2]);
  }

  /** After its last branch is committed into the one above, a ready chain shows the
      same files. */
  lemma NestedStepView(base: Tree, chain: seq<Layer>, p': Layer)
    requires |chain| >= 2 && ChainReady(base, chain)
    requires NestedCommitted(chain[|chain| - 1], chain[|chain| - 2], ChainView(base, chain[..|chain| - 2]),
                             Leaves(chain[|chain| - 1].files), p')
    ensures Files(ChainView(base, chain[..|chain| - 2] + [p'])) == Files(ChainView(base, chain))
  {
    var upper := chain[..|chain| - 2];
    LastPair(base, chain);
    assert (upper + [p'])[..|upper|] == upper;
    PairStep(chain[|chain| - 1], chain[|chain| - 2], ChainView(base, upper), p');
  }

  /** ... and is ready again. */
  lemma NestedStepReady(base: Tree, chain: seq<Layer>, p': Layer)
    requires |chain| >= 3 && ChainReady(base, chain)
    requires NestedCommitted(chain[|chain| - 1], chain[|chain| - 2], ChainView(base, chain[..|chain| - 2]),
                             Leaves(chain[|chain| - 1].files), p')
    ensures ChainReady(base, chain[..|chain| - 2] + [p'])
  {
    var n := |chain| - 1;
    var upper := chain[..n - 1];
    LastPair(base, chain);
    NestedKeepsKindStable(chain[n], chain[n - 1], ChainView(base, upper), p');
    RoomInParent(chain[n], chain[n - 1], ChainView(base, upper));
    MergedLayer(chain[0], chain[n], chain[n - 1], ChainView(base, upper), p');
    PrefixReady(base, chain, n - 1);
    ExtendReady(base, upper, p');
  }

  lemma PrefixReady(base: Tree, chain: seq<Layer>, n: nat)
    requires ChainReady(base, chain) && n <= |chain|
    ensures ChainReady(base, chain[..n])
  {
    assert forall i :: 0 <= i < n ==> chain[..n][i] == chain[i] && chain[..n][..i] == chain[..i];
  }

  lemma ExtendReady(base: Tree, upper: seq<Layer>, l: Layer)
    requires upper != [] && ChainReady(base, upper)
    requires LayerOk(l) && l.hides == {} && KindStable(l, ChainView(base, upper))
    requires MainLets(upper[0], l.files)
    ensures ChainReady(base, upper + [l])
  {
    StableExtend(base, upper, l);
    assert MainLetsAll(upper + [l]);
  }

  lemma StableExtend(base: Tree, upper: seq<Layer>, l: Layer)
    requires ChainStable(base, upper) && KindStable(l, ChainView(base, upper))
    ensures ChainStable(base, upper + [l])
  {
    hide KindStable, ChainView;
    var chain := upper + [l];
    assert chain[..|upper|] == upper;
    assert forall i :: 0 <= i < |upper| ==> chain[i] == upper[i] && chain[..i] == upper[..i];
  }

  lemma MergedLayer(m: Layer, c: Layer, p: Layer, ip: Tree, p': Layer)
    requires LayerOk(p) && LayerOk(c) && p.hides == {} && RoomForCopies(p.files, c.tombs, Leaves(c.files))
    requires NestedCommitted(c, p, ip, Leaves(c.files), p')
    ensures LayerOk(p') && p'.hides == {}
    ensures MainLets(m, c.files) && MainLets(m, p.files) ==> MainLets(m, p'.files)
  {
    hide Published, WellFormed;
    MergedShrinks(c, p, Leaves(c.files));
    MergedLeaves(c, p, ip, p');
    assert p'.tombs <= p.tombs + c.tombs;
  }

  lemma MergedLeaves(c: Layer, p: Layer, ip: Tree, p': Layer)
    requires NestedCommitted(c, p, ip, Leaves(c.files), p')
    ensures forall x :: x in p'.files && !p'.files[x].Dir? ==> IsFile(p.files, x) || IsFile(c.files, x)
  {
    forall x | x in p'.files && !p'.files[x].Dir?
      ensures IsFile(p.files, x) || IsFile(c.files, x)
    {
      MergedLeaf(c, p, ip, p', x);
    }
  }

  /** A nested commit of the last branch keeps tombstones and files apart. */
  lemma NestedStepKeepsApart(base: Tree, chain: seq<Layer>, p': Layer)
    requires |chain| >= 2 && TombsApart(chain)
    requires NestedCommitted(chain[|chain| - 1], chain[|chain| - 2], ChainView(base, chain[..|chain| - 2]),
                             Leaves(chain[|chain| - 1].files), p')
    ensures TombsApart(chain[..|chain| - 2] + [p'])
  {
    hide Published, ChainView, NestedCommitted;
    var n := |chain| - 1;
    var upper := chain[..n - 1];
    assert chain[n] in chain && chain[n - 1] in chain;
    MergedLeaves(chain[n], chain[n - 1], ChainView(base, upper), p');
    MergedTombsFrom(chain[n], chain[n - 1], ChainView(base, upper), p');
    forall l | l in chain
      ensures NoTombBelow(l.tombs, p'.files) && NoTombBelow(p'.tombs, l.files)
    {
    }
    assert forall u :: u in upper ==> u in chain;
    TombsExtend(upper, p');
  }

  lemma MergedTombsFrom(c: Layer, p: Layer, ip: Tree, p': Layer)
    requires NestedCommitted(c, p, ip, Leaves(c.files), p')
    ensures p'.tombs <= p.tombs + c.tombs
  {
  }

  lemma TombsExtend(upper: seq<Layer>, l: Layer)
    requires TombsApart(upper) && NoTombBelow(l.tombs, l.files)
    requires forall u :: u in upper ==> NoTombBelow(u.tombs, l.files) && NoTombBelow(l.tombs, u.files)
    ensures TombsApart(upper + [l])
  {
    assert forall u :: u in upper + [l] ==> u in upper || u == l;
  }

  lemma MergedLeaf(c: Layer, p: Layer, ip: Tree, p': Layer, x: Path)
    requires NestedCommitted(c, p, ip, Leaves(c.files), p') && IsFile(p'.files, x)
    ensures IsFile(p.files, x) || IsFile(c.files, x)
  {
    PublishedAt(p.files, c.tombs, Leaves(c.files), x);
    assert Find(Published(p.files, c.tombs, Leaves(c.files)), x) == Some(p'.files[x]);
  }

  /** Committing a chain of nested branches deepest first, the last one into the base
      tree, leaves main showing exactly the files the deepest branch showed at the
      start. */
  lemma {:induction false} ChainCommitPreservesView(base: Tree, chain: seq<Layer>, base': Tree, m': Layer)
    requires |chain| >= 2 && ChainReady(base, chain) && ChainCommitted(base, chain, base', m')
    ensures Files(Overlaid(m', base')) == Files(ChainView(base, chain))
    decreases |chain|
  {
    var n := |chain| - 1;
    if n == 1 {
      LastStep(base, chain, base', m');
    } else {
      var p' :|
        && NestedCommitted(chain[n], chain[n - 1], ChainView(base, chain[..n - 1]), Leaves(chain[n].files), p')
        && ChainCommitted(base, chain[..n - 1] + [p'], base', m');
      NestedStepView(base, chain, p');
      NestedStepReady(base, chain, p');
      ChainCommitPreservesView(base, chain[..n - 1] + [p'], base', m');
    }
  }

  lemma LastStep(base: Tree, chain: seq<Layer>, base': Tree, m': Layer)
    requires |chain| == 2 && ChainReady(base, chain)
    requires BaseCommitted(chain[1], chain[0], base, Leaves(chain[1].files), m', base')
    ensures Files(Overlaid(m', base')) == Files(ChainView(base, chain))
  {
    LastPair(base, chain);
    assert chain[..0] == [];
    assert MainLets(chain[0], chain[1].files);
    BaseStep(chain[1], chain[0], base, m', base');
  }

  lemma BaseStep(c: Layer, m: Layer, base: Tree, m': Layer, base': Tree)
    requires LayerOk(c) && LayerOk(m) && PrefixClosed(base) && c.hides == {} && m.hides == {}
    requires KindStable(c, Overlaid(m, base)) && MainLets(m, c.files)
    requires BaseCommitted(c, m, base, Leaves(c.files), m', base')
    ensures Files(Overlaid(m', base')) == Files(Overlaid(c, Overlaid(m, base)))
  {
    OwnSources(c);
    StableExposesNothing(c, Overlaid(m, base));
    assert MainClear(m, c.tombs, Leaves(c.files)) by {
      RoomInParent(c, m, base);
    }
    BaseCommitPreservesView(c, m, base, Leaves(c.files), m', base');
  }

  lemma RoomInBase(c: Layer, m: Layer, base: Tree)
    requires LayerOk(c) && c.hides == {} && m.hides == {}
    requires KindStable(c, Overlaid(m, base)) && KindStable(m, base) && MainLets(m, c.files)
    ensures RoomForCopies(base, c.tombs, Leaves(c.files))
  {
    forall q | q in base && !Covered(c.tombs, q) && AboveSome(Leaves(c.files).Keys, q)
      ensures base[q].Dir?
    {
      AboveLeafIsDir(c, q);
      OverlaidAt(m, base, q);
      var x :| x in Leaves(c.files) && q < x;
      assert !Covered(m.tombs, x);
      assert forall t :: t in m.tombs && t <= q ==> t <= x;
      assert q in Overlaid(m, base);
    }
  }
}
