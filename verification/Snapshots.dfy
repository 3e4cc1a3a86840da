/** Snapshot branches: the tree frozen at creation, and how it relates to looking
    through the parent. */
module Snapshots {
  import opened FileTree
  import opened Layers
  import opened EditRuns
  import opened Store

  ghost function ReachablePart(v: Tree): Tree {
    map p | p in v && Reachable(v, p) :: v[p]
  }

  /** What is frozen is a tree on disk. */
  lemma ReachablePartWellFormed(v: Tree)
    requires Find(v, []) == Some(Dir)
    ensures WellFormed(ReachablePart(v))
  {
    forall p, q | p in ReachablePart(v) && q < p
      ensures Find(ReachablePart(v), q) == Some(Dir)
    {
      assert Reachable(v, q);
    }
    WellFormedIf(ReachablePart(v));
  }

  /** As long as no delta directory stands over an inherited file, a branch over the
      frozen tree and the same branch over the live view reach the same paths and find
      the same entries there. */
  lemma FrozenShowsSame(b: Layer, v: Tree)
    requires LayerOk(b) && PrefixClosed(v) && KindStable(b, v)
    ensures ReachablePart(Overlaid(b, ReachablePart(v))) == ReachablePart(Overlaid(b, v))
  {
    var eager, live := Overlaid(b, ReachablePart(v)), Overlaid(b, v);
    forall p
      ensures Find(ReachablePart(eager), p) == Find(ReachablePart(live), p)
    {
      if Reachable(live, p) {
        LiveReachesFrozen(b, v, p);
      } else if Reachable(eager, p) {
        FrozenReachesLive(b, v, p);
      }
    }
    SameTree(ReachablePart(eager), ReachablePart(live));
  }

  lemma LiveReachesFrozen(b: Layer, v: Tree, p: Path)
    requires LayerOk(b) && PrefixClosed(v) && KindStable(b, v)
    requires Reachable(Overlaid(b, v), p)
    ensures Reachable(Overlaid(b, ReachablePart(v)), p)
    ensures Find(Overlaid(b, ReachablePart(v)), p) == Find(Overlaid(b, v), p)
  {
    LiveIsFrozen(b, v, p, p);
    forall q | q < p
      ensures Find(Overlaid(b, ReachablePart(v)), q) == Some(Dir)
    {
      LiveIsFrozen(b, v, p, q);
    }
    ReachableIf(Overlaid(b, ReachablePart(v)), p);
  }

  lemma FrozenReachesLive(b: Layer, v: Tree, p: Path)
    requires Reachable(Overlaid(b, ReachablePart(v)), p)
    ensures Reachable(Overlaid(b, v), p)
  {
    FrozenIsLive(b, v, p);
    forall q | q < p
      ensures Find(Overlaid(b, v), q) == Some(Dir)
    {
      FrozenIsLive(b, v, q);
    }
    ReachableIf(Overlaid(b, v), p);
  }

  lemma FrozenIsLive(b: Layer, v: Tree, q: Path)
    requires q in Overlaid(b, ReachablePart(v))
    ensures Find(Overlaid(b, v), q) == Find(Overlaid(b, ReachablePart(v)), q)
  {
    OverlaidAt(b, v, q);
    OverlaidAt(b, ReachablePart(v), q);
  }

  lemma LiveIsFrozen(b: Layer, v: Tree, p: Path, q: Path)
    requires LayerOk(b) && PrefixClosed(v) && KindStable(b, v)
    requires Reachable(Overlaid(b, v), p) && q <= p
    ensures Find(Overlaid(b, ReachablePart(v)), q) == Find(Overlaid(b, v), q)
  {
    var live := Overlaid(b, v);
    assert q == p || q < p;
    if q !in b.files {
      forall r | r < q
        ensures r in v && v[r].Dir?
      {
        assert r < p && r in live && live[r].Dir?;
        assert forall t :: t in b.tombs + b.hides && t <= r ==> t <= q;
      }
      assert Reachable(v, q);
    }
  }

  /** A branch right after its creation. */
  function NewBranch(parent: string, mode: Mode, hides: set<Path>, inherited: Tree, version: nat): Layer {
    Layer(Some(parent), mode, hides, EMPTY_TREE, inherited, {}, map[], 0, version, false)
  }

  /** An eager snapshot refines lazy inheritance: a Snapshot and a Lazy branch created
      from the same parent with the same hide rules reach the same paths, with equal
      entries. */
  lemma SnapshotRefinesLazy(s: Store, parent: string, hides: set<Path>, version: nat)
    requires StoreOk(s) && parent in s.branches && [] !in hides
    ensures var v := View(s, parent);
      var eager := NewBranch(parent, Snapshot, hides, ReachablePart(v), version);
      var lazy := NewBranch(parent, Lazy, hides, EMPTY_TREE, version);
      ReachablePart(Overlaid(eager, eager.inherited)) == ReachablePart(Overlaid(lazy, v))
  {
    var v := View(s, parent);
    var eager := NewBranch(parent, Snapshot, hides, ReachablePart(v), version);
    var lazy := NewBranch(parent, Lazy, hides, EMPTY_TREE, version);
    ViewPrefixClosed(s, parent);
    ReachablePartWellFormed(v);
    FrozenShowsSame(lazy, v);
    OverlaidDepends(eager, lazy, ReachablePart(v));
  }

  // ----- the recursive copy -----

  ghost function Below(v: Tree, d: Path): set<Path> {
    set q | q in v && d < q
  }

  /** The copy of directory `d` once the children in `done` have been copied. */
  ghost predicate Copied(v: Tree, d: Path, done: set<string>, dst: Tree, out: Tree) {
    forall q :: Find(out, q) ==
      if !(d < q) then Find(dst, q) else if q[|d|] in done then Find(ReachablePart(v), q) else None
  }

  lemma ChildReachable(v: Tree, d: Path, n: string)
    requires Reachable(v, d) && v[d].Dir? && d + [n] in v
    ensures Reachable(v, d + [n])
  {
    forall q | q < d + [n]
      ensures q in v && v[q].Dir?
    {
      assert q == d || q < d;
    }
  }

  /** Nothing is reachable under a name that the directory does not have. */
  lemma OnlyChildrenReachable(v: Tree, d: Path, q: Path)
    requires d < q && Reachable(v, q)
    ensures q[|d|] in Children(v, d)
  {
    var c := d + [q[|d|]];
    assert c <= q;
    assert c == q || c < q;
    ChildrenAt(v, d, q[|d|]);
  }

  /** `next` is `out` with what is reachable at and below `c`. */
  ghost predicate ChildPlaced(v: Tree, c: Path, out: Tree, next: Tree)
    requires c in v
  {
    forall q :: Find(next, q) == if c < q then Find(ReachablePart(v), q) else if q == c then Some(v[c]) else Find(out, q)
  }

  ghost predicate Free(dst: Tree, d: Path) {
    forall q :: d < q ==> q !in dst
  }

  /** Everything reachable below `d`, and otherwise what was there. */
  ghost predicate SubtreeCopied(v: Tree, d: Path, dst: Tree, out: Tree) {
    forall q :: Find(out, q) == if d < q then Find(ReachablePart(v), q) else Find(dst, q)
  }

  lemma SubtreePlaced(v: Tree, c: Path, out: Tree, next: Tree)
    requires c in v && (if v[c].Dir? then SubtreeCopied(v, c, out[c := v[c]], next)
                        else Free(out[c := v[c]], c) && next == out[c := v[c]])
    ensures ChildPlaced(v, c, out, next)
  {
    if !v[c].Dir? {
      NothingBelowFile(v, c);
    }
  }

  lemma ChildIsFree(v: Tree, d: Path, n: string, done: set<string>, dst: Tree, out: Tree, e: Entry)
    requires Copied(v, d, done, dst, out) && n !in done
    ensures Free(out[d + [n] := e], d + [n])
  {
    forall q | d + [n] < q
      ensures q !in out
    {
      assert d < q && q[|d|] == n;
      assert Find(out, q) == None;
    }
  }

  lemma BelowShrinks(v: Tree, d: Path, n: string)
    requires d + [n] in v
    ensures Below(v, d + [n]) < Below(v, d)
  {
    assert d + [n] in Below(v, d) && d + [n] !in Below(v, d + [n]);
    forall q | q in Below(v, d + [n])
      ensures q in Below(v, d)
    {
    }
  }

  lemma ChildCopied(v: Tree, d: Path, n: string, done: set<string>, dst: Tree, out: Tree, next: Tree)
    requires Copied(v, d, done, dst, out) && n !in done && Reachable(v, d + [n])
    requires ChildPlaced(v, d + [n], out, next)
    ensures Copied(v, d, done + {n}, dst, next)
  {
    var c := d + [n];
    forall q
      ensures Find(next, q) ==
        if !(d < q) then Find(dst, q) else if q[|d|] in done + {n} then Find(ReachablePart(v), q) else None
    {
      assert c <= q <==> d < q && q[|d|] == n;
      assert c <= q <==> q == c || c < q;
    }
  }

  lemma NothingBelowFile(v: Tree, c: Path)
    requires c in v && !v[c].Dir?
    ensures forall q :: c < q ==> !Reachable(v, q)
  {
  }

  lemma AllCopied(v: Tree, d: Path, dst: Tree, out: Tree)
    requires Copied(v, d, Children(v, d), dst, out)
    ensures SubtreeCopied(v, d, dst, out)
  {
    forall q | d < q
      ensures Find(out, q) == Find(ReachablePart(v), q)
    {
      if Reachable(v, q) {
        OnlyChildrenReachable(v, d, q);
      }
    }
  }

  method ChildNames(s: Store, source: string, d: Path) returns (names: set<string>)
    requires StoreOk(s) && source in s.branches
    ensures names == Children(View(s, source), d)
  {
    ListingIsChildren(s, source, d);
    names := CollectDirNames(s, source, d).value;
  }

  method LookUpChild(s: Store, source: string, d: Path, n: string) returns (e: Entry)
    requires StoreOk(s) && source in s.branches
    requires var v := View(s, source); Reachable(v, d) && v[d].Dir? && n in Children(v, d)
    ensures Find(View(s, source), d + [n]) == Some(e) && Reachable(View(s, source), d + [n])
  {
    ChildrenAt(View(s, source), d, n);
    ChildReachable(View(s, source), d, n);
    ResolveIsView(s, source, d + [n]);
    e := Resolve(s, source, d + [n]).value.value;
  }

  /** The recursive walk terminates, whatever order it takes the names in, and copies
      exactly the reachable entries below `d`. */
  method SnapshotVisibleDir(s: Store, source: string, d: Path, dst: Tree) returns (out: Tree)
    requires StoreOk(s) && source in s.branches
    requires Reachable(View(s, source), d) && View(s, source)[d].Dir?
    requires Free(dst, d)
    ensures SubtreeCopied(View(s, source), d, dst, out)
    decreases Below(View(s, source), d)
  {
    ghost var v := View(s, source);
    var names := ChildNames(s, source, d);
    ghost var done: set<string> := {};
    out := dst;
    while names != {}
      invariant names + done == Children(v, d) && names !! done
      invariant Copied(v, d, done, dst, out)
      decreases names
    {
      var n :| n in names;
      names := names - {n};
      var child := d + [n];
      var entry := LookUpChild(s, source, d, n);
      ChildIsFree(v, d, n, done, dst, out, entry);
      BelowShrinks(v, d, n);
      ghost var before := out;
      out := out[child := entry];
      if entry.Dir? {
        out := SnapshotVisibleDir(s, source, child, out);
      }
      SubtreePlaced(v, child, before, out);
      ChildCopied(v, d, n, done, dst, before, out);
      done := done + {n};
    }
    AllCopied(v, d, dst, out);
  }

  /** The whole snapshot: exactly the reachable part of the source's view. */
  method SnapshotVisibleTree(s: Store, source: string) returns (out: Tree)
    requires StoreOk(s) && source in s.branches
    ensures out == ReachablePart(View(s, source))
  {
    ViewPrefixClosed(s, source);
    out := SnapshotVisibleDir(s, source, [], EMPTY_TREE);
    forall q
      ensures Find(out, q) == Find(ReachablePart(View(s, source)), q)
    {
      assert q == [] || [] < q;
      assert Reachable(View(s, source), []);
    }
    SameTree(out, ReachablePart(View(s, source)));
  }
}
