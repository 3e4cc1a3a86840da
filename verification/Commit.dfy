/** Committing a branch into its parent keeps what the branch showed. */
module Commit {
  import opened FileTree
  import opened Layers
  import opened MergeView
  import opened Edits

  /** A delta set that can be committed: the leaves of a delta tree, each with the
      content to publish (the branch's own, or the result of an automatic merge). */
  ghost predicate SourcesOf(c: Layer, copies: Tree) {
    copies.Keys == Leaves(c.files).Keys && forall x :: x in copies ==> !copies[x].Dir?
  }

  lemma RootStays(c: Layer, sources: Tree)
    requires LayerOk(c) && SourcesOf(c, sources)
    ensures [] !in sources.Keys + c.tombs
  {
  }

  /** The child with the content that the commit publishes. */
  ghost function WithSources(c: Layer, copies: Tree): Layer {
    c.(files := c.files + copies)
  }

  ghost predicate InheritedExists(p: Layer, ip: Tree, t: Path) {
    !Covered(p.hides, t) && t in ip
  }

  /** A tombstone of the child stays only where the parent's inherited view has the
      path; one at a committed file goes. */
  ghost function MergedTombs(p: Layer, ip: Tree, tombs: set<Path>, copied: set<Path>): set<Path> {
    set t | t in p.tombs + tombs && t !in copied && (t in tombs ==> InheritedExists(p, ip, t))
  }

  /** The parent after a nested commit, before empty delta directories are pruned. */
  ghost function Folded(c: Layer, p: Layer, ip: Tree, copies: Tree): Layer {
    p.(files := Published(p.files, c.tombs, copies), tombs := MergedTombs(p, ip, c.tombs, copies.Keys))
  }

  /** The delta entries of the parent that the child deletes. */
  ghost function Gone(dest: Tree, tombs: set<Path>): set<Path> {
    set t | t in tombs && t in dest
  }

  /** The merge leaves of the parent's directory `d` nothing but untouched directories
      above deleted entries: pruning takes it away. */
  ghost predicate Emptied(c: Layer, p: Layer, copies: Tree, d: Path) {
    Hollow(Published(p.files, c.tombs, copies), p.touches, Gone(p.files, c.tombs), d)
  }

  ghost function MergedFiles(c: Layer, p: Layer, copies: Tree): Tree {
    WithoutHollow(Published(p.files, c.tombs, copies), p.touches, Gone(p.files, c.tombs))
  }

  /** The parent after a nested commit. */
  ghost function MergedParent(c: Layer, p: Layer, ip: Tree, copies: Tree): Layer {
    Folded(c, p, ip, copies).(files := MergedFiles(c, p, copies), commitCount := p.commitCount + 1)
  }

  ghost predicate NestedCommitted(c: Layer, p: Layer, ip: Tree, copies: Tree, p': Layer) {
    p' == MergedParent(c, p, ip, copies)
  }

  lemma MergedShrinks(c: Layer, p: Layer, copies: Tree)
    requires LayerOk(c) && LayerOk(p) && SourcesOf(c, copies) && RoomForCopies(p.files, c.tombs, copies)
    ensures WellFormed(Published(p.files, c.tombs, copies))
    ensures Shrinks(Published(p.files, c.tombs, copies), MergedFiles(c, p, copies))
  {
    ChildShape(c, copies);
    PublishedWellFormed(p.files, c.tombs, copies);
    WithoutHollowShrinks(Published(p.files, c.tombs, copies), p.touches, Gone(p.files, c.tombs));
  }

  /** The child's directories that hold no committed file. */
  ghost function FilelessDirs(c: Layer, copies: Tree): set<Path> {
    set q | q in c.files && c.files[q].Dir? && !AboveSome(copies.Keys, q)
  }

  lemma ChildShape(c: Layer, copies: Tree)
    requires WellFormed(c.files) && SourcesOf(c, copies)
    ensures Plain(copies)
    ensures DirsClosed(copies, FilelessDirs(c, copies))
    ensures forall q :: q in FilelessDirs(c, copies) ==> Unrelated(copies, q)
  {
    LeavesAreAntichain(c.files);
    assert forall y, q :: y in copies && q in FilelessDirs(c, copies) && y <= q ==> y < q || y == q;
  }

  /** What the child shows: its deltas over the parent's view less what it deletes and
      hides. */
  lemma ChildLooksLike(c: Layer, copies: Tree, v: Tree)
    requires WellFormed(c.files) && SourcesOf(c, copies)
    ensures LooksLike(copies, FilelessDirs(c, copies), WithoutAll(WithoutAll(v, c.tombs), c.hides), Overlaid(WithSources(c, copies), v))
  {
    var shown := Overlaid(WithSources(c, copies), v);
    forall q
      ensures q in copies ==> Find(shown, q) == Some(copies[q])
      ensures AboveSome(copies.Keys, q) ==> Find(shown, q) == Some(Dir)
      ensures Unrelated(copies, q) ==>
        Find(shown, q) == if q in FilelessDirs(c, copies) then Some(Dir) else Find(WithoutAll(WithoutAll(v, c.tombs), c.hides), q)
    {
      ChildShows(c, copies, v, q);
    }
  }

  lemma ChildShows(c: Layer, copies: Tree, v: Tree, q: Path)
    requires WellFormed(c.files) && SourcesOf(c, copies)
    ensures var e := Find(Overlaid(WithSources(c, copies), v), q);
      && (q in copies ==> e == Some(copies[q]))
      && (AboveSome(copies.Keys, q) ==> e == Some(Dir))
      && (Unrelated(copies, q) && q in FilelessDirs(c, copies) ==> e == Some(Dir))
      && (Unrelated(copies, q) && q !in FilelessDirs(c, copies) ==> e == Find(WithoutAll(WithoutAll(v, c.tombs), c.hides), q))
  {
    hide Overlaid, WellFormed, SourcesOf, WithSources;
    OverlaidAt(WithSources(c, copies), v, q);
    ChildFilesAt(c, copies, q);
  }

  lemma ChildFilesAt(c: Layer, copies: Tree, q: Path)
    requires WellFormed(c.files) && SourcesOf(c, copies)
    ensures var b := WithSources(c, copies);
      && b.tombs == c.tombs && b.hides == c.hides
      && Find(b.files, q) == if q in copies then Some(copies[q]) else Find(c.files, q)
    ensures AboveSome(copies.Keys, q) ==> q in c.files && c.files[q].Dir? && q !in copies
    ensures q in c.files && q !in copies ==> c.files[q].Dir?
  {
  }

  lemma FoldedAt(c: Layer, p: Layer, ip: Tree, copies: Tree, q: Path)
    requires PrefixClosed(ip) && Unrelated(copies, q)
    ensures Find(Overlaid(Folded(c, p, ip, copies), ip), q) == Find(WithoutAll(Overlaid(p, ip), c.tombs), q)
  {
    var f := Folded(c, p, ip, copies);
    PublishedAt(p.files, c.tombs, copies, q);
    OverlaidAt(f, ip, q);
    OverlaidAt(p, ip, q);
    if Covered(c.tombs, q) {
      var t :| t in c.tombs && t <= q;
      if InheritedExists(p, ip, t) {
        assert t in f.tombs;
      } else if Covered(p.hides, t) {
        var h :| h in p.hides && h <= t;
        assert h <= q;
      } else {
        assert t == q || t < q;
      }
    } else {
      assert forall t :: t <= q ==> (t in f.tombs <==> t in p.tombs);
    }
  }

  lemma ParentLooksLike(c: Layer, p: Layer, ip: Tree, copies: Tree)
    requires PrefixClosed(ip) && Plain(copies)
    ensures LooksLike(copies, {}, WithoutAll(Overlaid(p, ip), c.tombs), Overlaid(Folded(c, p, ip, copies), ip))
  {
    var w := Overlaid(Folded(c, p, ip, copies), ip);
    forall q
      ensures q in copies ==> Find(w, q) == Some(copies[q])
      ensures AboveSome(copies.Keys, q) ==> Find(w, q) == Some(Dir)
      ensures Unrelated(copies, q) ==> Find(w, q) == Find(WithoutAll(Overlaid(p, ip), c.tombs), q)
    {
      PublishedAt(p.files, c.tombs, copies, q);
      OverlaidAt(Folded(c, p, ip, copies), ip, q);
      if Unrelated(copies, q) {
        FoldedAt(c, p, ip, copies, q);
      }
    }
  }

  lemma FoldedTombs(c: Layer, p: Layer, ip: Tree, copies: Tree, q: Path)
    requires !Covered(copies.Keys, q) && !Covered(c.tombs, q)
    ensures Covered(Folded(c, p, ip, copies).tombs, q) <==> Covered(p.tombs, q)
  {
    var f := Folded(c, p, ip, copies);
    assert forall t :: t <= q ==> (t in f.tombs <==> t in p.tombs);
  }

  /** Pruning is stable exactly when none of the emptied directories, all of them the
      parent's own, stood over a file that the parent inherits. */
  lemma PrunedStableIff(c: Layer, p: Layer, ip: Tree, copies: Tree)
    requires LayerOk(c) && LayerOk(p) && SourcesOf(c, copies) && RoomForCopies(p.files, c.tombs, copies)
    ensures RemovedStable(Folded(c, p, ip, copies), MergedFiles(c, p, copies), ip) <==>
      forall d :: Emptied(c, p, copies, d) ==> !Masked(p, ip, d)
  {
    hide Hollow, Published, MergedTombs, WellFormed;
    var f := Folded(c, p, ip, copies);
    MergedShrinks(c, p, copies);
    ChildShape(c, copies);
    forall d
      ensures d in f.files && d !in MergedFiles(c, p, copies) <==> Emptied(c, p, copies, d)
      ensures Emptied(c, p, copies, d) ==> (Masked(f, ip, d) <==> Masked(p, ip, d))
    {
      EmptiedIff(c, p, copies, d);
      if Emptied(c, p, copies, d) {
        PrunedWasParents(p.files, c.tombs, copies, MergedFiles(c, p, copies), d);
        FoldedTombs(c, p, ip, copies, d);
      }
    }
  }

  lemma EmptiedIff(c: Layer, p: Layer, copies: Tree, d: Path)
    ensures Emptied(c, p, copies, d) <==> d in Published(p.files, c.tombs, copies) && d !in MergedFiles(c, p, copies)
    ensures Emptied(c, p, copies, d) ==> Find(Published(p.files, c.tombs, copies), d).Some?
  {
  }

  lemma PrunedWasParents(dest: Tree, tombs: set<Path>, copies: Tree, files: Tree, d: Path)
    requires Plain(copies) && Shrinks(Published(dest, tombs, copies), files)
    requires Find(Published(dest, tombs, copies), d).Some? && d !in files
    ensures Survives(dest, tombs, copies, d) && dest[d].Dir?
  {
    var e := Find(Published(dest, tombs, copies), d);
    PublishedAt(dest, tombs, copies, d);
    assert e == Some(Dir);
    if x :| x in copies && d <= x {
      CopySurvives(dest, tombs, copies, files, x);
      StaysAbove(files, x, d);
    }
  }

  lemma StaysAbove(files: Tree, x: Path, d: Path)
    requires WellFormed(files) && x in files && d <= x
    ensures d in files
  {
    assert d == x || d < x;
  }

  lemma CopySurvives(dest: Tree, tombs: set<Path>, copies: Tree, files: Tree, x: Path)
    requires Plain(copies) && Shrinks(Published(dest, tombs, copies), files) && x in copies
    ensures x in files
  {
    PublishedAt(dest, tombs, copies, x);
    assert Find(Published(dest, tombs, copies), x) == Some(copies[x]);
  }

  ghost predicate NestedPair(c: Layer, p: Layer, ip: Tree, copies: Tree) {
    && LayerOk(c) && LayerOk(p) && PrefixClosed(ip)
    && SourcesOf(c, copies) && RoomForCopies(p.files, c.tombs, copies)
  }

  /** A committed directory without files, or a hide rule, that kept a file of the parent
      from showing in the child. */
  ghost predicate Exposes(c: Layer, copies: Tree, kept: Tree) {
    || (exists d :: d in FilelessDirs(c, copies) && Masks(kept, d))
    || (exists x :: Concealed(copies, kept, c.hides, x))
  }

  lemma FoldedShowsSameFiles(c: Layer, p: Layer, ip: Tree, copies: Tree)
    requires NestedPair(c, p, ip, copies)
    ensures Files(Overlaid(WithSources(c, copies), Overlaid(p, ip))) == Files(Overlaid(Folded(c, p, ip, copies), ip)) <==>
      !Exposes(c, copies, WithoutAll(Overlaid(p, ip), c.tombs))
  {
    hide Files, LooksLike, Concealed, Overlaid, Folded, FilelessDirs, WithSources;
    var v := Overlaid(p, ip);
    var kept := WithoutAll(v, c.tombs);
    var shown := Overlaid(WithSources(c, copies), v);
    ChildShape(c, copies);
    OverlaidPrefixClosed(p, ip);
    WithoutAllPrefixClosed(v, c.tombs);
    ChildLooksLike(c, copies, v);
    ParentLooksLike(c, p, ip, copies);
    MergeShowsSameFiles(copies, FilelessDirs(c, copies), kept, c.hides, shown, Overlaid(Folded(c, p, ip, copies), ip));
  }

  /** A nested commit preserves meaning: afterwards the parent shows exactly the files the
      child showed, unless the child had a directory without files, or a hide rule, where
      the parent shows a file, or the merge empties a directory of the parent that stood
      over an inherited file. */
  lemma NestedCommitPreservesView(c: Layer, p: Layer, ip: Tree, copies: Tree, p': Layer)
    requires NestedPair(c, p, ip, copies)
    requires NestedCommitted(c, p, ip, copies, p')
    ensures Files(Overlaid(WithSources(c, copies), Overlaid(p, ip))) == Files(Overlaid(p', ip)) <==>
      !Exposes(c, copies, WithoutAll(Overlaid(p, ip), c.tombs)) &&
      forall d :: Emptied(c, p, copies, d) ==> !Masked(p, ip, d)
  {
    hide Files, Exposes, Emptied, RemovedStable, Overlaid, Published, MergedFiles, WithSources, NestedPair, Shrinks, WellFormed;
    var f := Folded(c, p, ip, copies);
    PairParts(c, p, ip, copies);
    FoldedShowsSameFiles(c, p, ip, copies);
    PrunedStableIff(c, p, ip, copies);
    MergedShrinks(c, p, copies);
    ShrinkKeepsFilesIff(f, p'.files, ip);
    OverlaidDepends(p', f.(files := p'.files), ip);
    if !RemovedStable(f, p'.files, ip) {
      var e := EmptiedFileAppears(c, p, ip, copies, p');
    }
  }

  lemma PairParts(c: Layer, p: Layer, ip: Tree, copies: Tree)
    requires NestedPair(c, p, ip, copies)
    ensures LayerOk(c) && LayerOk(p) && PrefixClosed(ip) && SourcesOf(c, copies) && RoomForCopies(p.files, c.tombs, copies)
  {
  }

  /** A file uncovered by pruning was not shown by the child: the shortest such path. */
  lemma {:induction false} EmptiedFileAppears(c: Layer, p: Layer, ip: Tree, copies: Tree, p': Layer) returns (e: Path)
    requires NestedPair(c, p, ip, copies) && NestedCommitted(c, p, ip, copies, p')
    requires exists d :: Emptied(c, p, copies, d) && Masked(p, ip, d)
    ensures e in Files(Overlaid(p', ip)) && e !in Files(Overlaid(WithSources(c, copies), Overlaid(p, ip)))
  {
    hide Files, Emptied, Overlaid, Published, MergedFiles, WithSources, Shrinks;
    var d :| Emptied(c, p, copies, d) && Masked(p, ip, d);
    e := Shortest(c, p, ip, copies, d);
    UncoveredShows(c, p, ip, copies, p', e);
    ChildHasNoFile(c, p, ip, copies, e);
  }

  lemma {:induction false} Shortest(c: Layer, p: Layer, ip: Tree, copies: Tree, d: Path) returns (e: Path)
    requires Emptied(c, p, copies, d) && Masked(p, ip, d)
    ensures Emptied(c, p, copies, e) && Masked(p, ip, e)
    ensures forall a :: a < e && Emptied(c, p, copies, a) ==> !Masked(p, ip, a)
    decreases |d|
  {
    if a :| a < d && Emptied(c, p, copies, a) && Masked(p, ip, a) {
      e := Shortest(c, p, ip, copies, a);
    } else {
      e := d;
    }
  }

  lemma UncoveredShows(c: Layer, p: Layer, ip: Tree, copies: Tree, p': Layer, e: Path)
    requires NestedPair(c, p, ip, copies) && NestedCommitted(c, p, ip, copies, p')
    requires Emptied(c, p, copies, e) && Masked(p, ip, e)
    requires forall a :: a < e && Emptied(c, p, copies, a) ==> !Masked(p, ip, a)
    ensures e in Files(Overlaid(p', ip))
  {
    hide Hollow, Published, MergedTombs;
    var w := Overlaid(p', ip);
    MergedShrinks(c, p, copies);
    EmptiedIff(c, p, copies, e);
    NotDeletedOver(c, p, ip, copies, e);
    OverlaidAt(p', ip, e);
    assert Find(w, e) == Some(ip[e]);
    forall q | q < e
      ensures Find(w, q) == Some(Dir)
    {
      OverlaidAt(p', ip, q);
      EmptiedIff(c, p, copies, q);
      assert q in Published(p.files, c.tombs, copies);
      assert forall t :: t in p'.tombs + p'.hides && t <= q ==> t <= e;
      assert q in ip;
    }
    ReachableIf(w, e);
  }

  lemma NotDeletedOver(c: Layer, p: Layer, ip: Tree, copies: Tree, e: Path)
    requires NestedPair(c, p, ip, copies) && Emptied(c, p, copies, e) && Masked(p, ip, e)
    ensures !Covered(Folded(c, p, ip, copies).tombs, e)
  {
    hide Hollow, Published;
    ChildShape(c, copies);
    MergedShrinks(c, p, copies);
    EmptiedIff(c, p, copies, e);
    PrunedWasParents(p.files, c.tombs, copies, MergedFiles(c, p, copies), e);
    FoldedTombs(c, p, ip, copies, e);
  }

  lemma ChildHasNoFile(c: Layer, p: Layer, ip: Tree, copies: Tree, e: Path)
    requires NestedPair(c, p, ip, copies) && Emptied(c, p, copies, e)
    ensures e !in Files(Overlaid(WithSources(c, copies), Overlaid(p, ip)))
  {
    hide Published;
    var v := Overlaid(p, ip);
    ChildShape(c, copies);
    MergedShrinks(c, p, copies);
    EmptiedIff(c, p, copies, e);
    PrunedWasParents(p.files, c.tombs, copies, MergedFiles(c, p, copies), e);
    NoCopyBelowEmptied(c, p, copies, e);
    ChildShows(c, copies, v, e);
    OverlaidAt(p, ip, e);
    assert Find(v, e) == Some(Dir);
  }

  lemma NoCopyBelowEmptied(c: Layer, p: Layer, copies: Tree, e: Path)
    requires SourcesOf(c, copies) && Emptied(c, p, copies, e)
    ensures !AboveSome(copies.Keys, e)
  {
    forall x | x in copies
      ensures !(e < x)
    {
      PublishedAt(p.files, c.tombs, copies, x);
      assert Find(Published(p.files, c.tombs, copies), x) == Some(copies[x]);
    }
  }

  /** A branch under main is committed into the base tree; main loses the deltas at
      and below every committed path and every tombstone of the child, and keeps its
      own tombstones. */
  ghost predicate BaseCommitted(c: Layer, m: Layer, base: Tree, copies: Tree, m': Layer, base': Tree) {
    base' == Published(base, c.tombs, copies) && m' == ClearedMain(c, m, copies)
  }

  ghost function ClearedMain(c: Layer, m: Layer, copies: Tree): Layer {
    m.(files := WithoutAll(m.files, copies.Keys + c.tombs), commitCount := m.commitCount + 1)
  }

  /** Nothing that main keeps to itself hides a committed file. */
  ghost predicate MainClear(m: Layer, tombs: set<Path>, copies: Tree) {
    && (forall x :: x in copies ==> !Covered(m.tombs, x))
    && (forall q :: q in m.files && AboveSome(copies.Keys, q) && !Covered(tombs, q) ==> m.files[q].Dir?)
  }

  lemma BaseAt(c: Layer, m: Layer, base: Tree, copies: Tree, m': Layer, base': Tree, q: Path)
    requires Plain(copies) && m.hides == {} && BaseCommitted(c, m, base, copies, m', base')
    ensures q in copies ==> Find(Overlaid(m', base'), q) == if Covered(m.tombs, q) then None else Some(copies[q])
    ensures AboveSome(copies.Keys, q) && q in m.files && !Covered(c.tombs, q) ==>
      Find(Overlaid(m', base'), q) == Some(m.files[q])
    ensures AboveSome(copies.Keys, q) && !(q in m.files && !Covered(c.tombs, q)) && !Covered(m.tombs, q) ==>
      Find(Overlaid(m', base'), q) == Some(Dir)
    ensures Unrelated(copies, q) ==> Find(Overlaid(m', base'), q) == Find(WithoutAll(Overlaid(m, base), c.tombs), q)
  {
    PublishedAt(base, c.tombs, copies, q);
    OverlaidAt(m', base', q);
    OverlaidAt(m, base, q);
    assert Covered(copies.Keys + c.tombs, q) <==> Covered(copies.Keys, q) || Covered(c.tombs, q);
    if AboveSome(copies.Keys, q) {
      var x :| x in copies && q < x;
      assert forall y :: y in copies && y <= q ==> y < x;
    }
  }

  /** A base commit preserves meaning exactly when main's own tombstones and deltas
      leave the committed files alone and no file-less directory or hide rule of the child
      kept a file of main from showing. */
  lemma BaseCommitPreservesView(c: Layer, m: Layer, base: Tree, copies: Tree, m': Layer, base': Tree)
    requires LayerOk(c) && LayerOk(m) && PrefixClosed(base) && m.hides == {}
    requires SourcesOf(c, copies)
    requires BaseCommitted(c, m, base, copies, m', base')
    ensures Files(Overlaid(WithSources(c, copies), Overlaid(m, base))) == Files(Overlaid(m', base')) <==>
      MainClear(m, c.tombs, copies) && !Exposes(c, copies, WithoutAll(Overlaid(m, base), c.tombs))
  {
    hide LooksLike, Concealed, Files, FilelessDirs, Overlaid, BaseCommitted;
    var v := Overlaid(m, base);
    var kept := WithoutAll(v, c.tombs);
    var shown := Overlaid(WithSources(c, copies), v);
    var w := Overlaid(m', base');
    ChildShape(c, copies);
    OverlaidPrefixClosed(m, base);
    WithoutAllPrefixClosed(v, c.tombs);
    ChildLooksLike(c, copies, v);
    if MainClear(m, c.tombs, copies) {
      MainLooksLike(c, m, base, copies, m', base');
      MergeShowsSameFiles(copies, FilelessDirs(c, copies), kept, c.hides, shown, w);
    } else {
      var x := MainHidesCopy(c, m, base, copies, m', base');
      CopiesShown(copies, FilelessDirs(c, copies), WithoutAll(kept, c.hides), shown, x);
    }
  }

  lemma CopiesShown(copies: Tree, dirs: set<Path>, kept: Tree, shown: Tree, x: Path)
    requires Plain(copies) && LooksLike(copies, dirs, kept, shown) && x in copies
    ensures x in Files(shown)
  {
    CopiesAreFiles(copies, shown, x);
  }

  lemma MainLooksLike(c: Layer, m: Layer, base: Tree, copies: Tree, m': Layer, base': Tree)
    requires Plain(copies) && m.hides == {} && BaseCommitted(c, m, base, copies, m', base')
    requires MainClear(m, c.tombs, copies)
    ensures LooksLike(copies, {}, WithoutAll(Overlaid(m, base), c.tombs), Overlaid(m', base'))
  {
    var w := Overlaid(m', base');
    forall q
      ensures q in copies ==> Find(w, q) == Some(copies[q])
      ensures AboveSome(copies.Keys, q) ==> Find(w, q) == Some(Dir)
      ensures Unrelated(copies, q) ==> Find(w, q) == Find(WithoutAll(Overlaid(m, base), c.tombs), q)
    {
      BaseAt(c, m, base, copies, m', base', q);
      if AboveSome(copies.Keys, q) {
        var x :| x in copies && q < x;
        assert forall t :: t in m.tombs && t <= q ==> t <= x;
      }
    }
  }

  /** When main is in the way, some committed file does not show. */
  lemma MainHidesCopy(c: Layer, m: Layer, base: Tree, copies: Tree, m': Layer, base': Tree) returns (x: Path)
    requires Plain(copies) && m.hides == {} && BaseCommitted(c, m, base, copies, m', base')
    requires !MainClear(m, c.tombs, copies)
    ensures x in copies && x !in Files(Overlaid(m', base'))
  {
    var w := Overlaid(m', base');
    if y :| y in copies && Covered(m.tombs, y) {
      x := y;
      BaseAt(c, m, base, copies, m', base', x);
    } else {
      var q :| q in m.files && AboveSome(copies.Keys, q) && !Covered(c.tombs, q) && !m.files[q].Dir?;
      BaseAt(c, m, base, copies, m', base', q);
      x :| x in copies && q < x;
      assert Find(w, q) == Some(m.files[q]);
    }
  }
}
