/** Renaming a file or a directory. */
module Rename {
  import opened FileTree
  import opened Disk
  import opened Layers
  import opened Edits
  import opened EditLaws
  import opened EditRuns
  import opened EditInvariants
  import opened OpenLaws

  /** The destination's delta goes if the destination is visible after the copy-up. */
  ghost function ClearedForRename(b: Layer, inherited: Tree, dst: Path): Tree {
    if dst in Overlaid(b, inherited) then RemoveUnder(b.files, dst) else b.files
  }

  ghost function RenamedTombs(b: Layer, inherited: Tree, tombs: set<Path>, src: Path, dst: Path): set<Path> {
    (if InheritedAt(b, inherited, src).Some? then tombs + {src} else tombs - {src}) - {dst}
  }

  // Bring the source, and then the destination, into the deltas.
  ghost function OpenSource(b: Layer, used: int, max: Option<nat>, inherited: Tree, src: Path): Done<()>
    requires src != []
  {
    EnsureEdit(b, used, max, InheritedAt(b, inherited, src), src)
  }

  ghost function OpenBoth(b: Layer, used: int, max: Option<nat>, inherited: Tree, src: Path, dst: Path): Done<()>
    requires src != [] && dst != []
  {
    var one := OpenSource(b, used, max, inherited, src);
    if one.result.Failure? then one
    else EnsureEdit(one.layer, one.used, max, InheritedAt(b, inherited, dst), dst)
  }

  /** The destination's delta goes, the source's moves there, the source is hidden if it
      is inherited and the destination shown. */
  ghost function FinishRename(b: Layer, two: Done<()>, inherited: Tree, src: Path, dst: Path): Done<()>
    requires src != [] && dst != []
  {
    var cleared := ClearedForRename(two.layer, inherited, dst);
    if !CanRename(cleared, src, dst) then Done(two.layer.(files := cleared), two.used, Failure(Io))
    else
      Done(two.layer.(files := Moved(RemoveUnder(cleared, dst), src, dst),
                      tombs := RenamedTombs(b, inherited, two.layer.tombs, src, dst)),
           two.used, Success(()))
  }

  /** rename: copy the source and the destination up, then move. */
  ghost function RenameEdit(b: Layer, used: int, max: Option<nat>, inherited: Tree, src: Path, dst: Path, noReplace: bool): Done<()>
    requires src != [] && dst != []
  {
    if b.frozen then Done(b, used, Failure(Frozen))
    else if src !in Overlaid(b, inherited) then Done(b, used, Failure(NoEntry))
    else if noReplace && dst in Overlaid(b, inherited) then Done(b, used, Failure(Exists))
    else
      var two := OpenBoth(b, used, max, inherited, src, dst);
      if two.result.Failure? then Done(two.layer, two.used, Failure(Io))
      else FinishRename(b, two, inherited, src, dst)
  }

  /** After opening for write the path is in the deltas with the entry it showed, if it
      showed a file, and the view is the same. */
  lemma EnsureShows(b: Layer, used: int, max: Option<nat>, inherited: Tree, p: Path)
    requires LayerOk(b) && p != [] && PrefixClosed(inherited)
    requires EnsureEdit(b, used, max, InheritedAt(b, inherited, p), p).result.Success?
    requires forall q :: q < p ==> Find(Overlaid(b, inherited), q) == Some(Dir)
    requires Find(b.files, p) != Some(Dir)
    ensures var b' := EnsureEdit(b, used, max, InheritedAt(b, inherited, p), p).layer;
      && LayerOk(b') && !b'.frozen && b'.hides == b.hides
      && Find(b'.files, Parent(p)) == Some(Dir)
      && Find(b'.files, p) == (if p in b.files then Find(b.files, p) else FileOf(InheritedAt(b, inherited, p)))
      && (forall t :: t != p ==> (t in b'.tombs <==> t in b.tombs))
      && forall q :: !(p <= q) ==> Find(Overlaid(b', inherited), q) == Find(Overlaid(b, inherited), q)
  {
    var inh := InheritedAt(b, inherited, p);
    var b' := EnsureEdit(b, used, max, inh, p).layer;
    EnsureIsPut(b, used, max, inh, p);
    PutEditIsLocal(b, b', p);
    LocalKeepsOk(b, b', p);
    WithParentsAt(b.files, p, p);
    WithParentsAt(b.files, p, Parent(p));
    forall q | !(p <= q)
      ensures Find(Overlaid(b', inherited), q) == Find(Overlaid(b, inherited), q)
    {
      PutKeepsViewElsewhere(b, b', inherited, p, q);
    }
  }

  lemma PutKeepsViewElsewhere(b: Layer, b': Layer, inherited: Tree, p: Path, q: Path)
    requires p != [] && PutEdit(b, b', p) && !(p <= q)
    requires forall r :: r < p ==> Find(Overlaid(b, inherited), r) == Some(Dir)
    ensures Find(Overlaid(b', inherited), q) == Find(Overlaid(b, inherited), q)
  {
    OverlaidAt(b, inherited, q);
    OverlaidAt(b', inherited, q);
    assert forall t :: t <= q ==> (t in b.tombs <==> t in b'.tombs);
    if b'.files != b.files {
      assert Find(b'.files, q) == PutAt(b.files, p, FileAt(b'.files, p), q);
    }
  }

  /** Moving a file over another: it is at the new place and nowhere else. */
  lemma MovedFileAt(files: Tree, src: Path, dst: Path, q: Path)
    requires WellFormed(files) && src in files && !files[src].Dir? && src != dst && !(src < dst) && !(dst < src)
    ensures Find(Moved(RemoveUnder(files, dst), src, dst), q) ==
      if q == dst then Some(files[src]) else if q == src || dst < q then None else Find(files, q)
  {
    var cut := RemoveUnder(files, dst);
    MovedAt(cut, src, dst, q);
    assert src <= q ==> q == src || src < q;
    assert dst <= q ==> q == dst || dst < q;
    assert dst <= src ==> dst == src || dst < src;
    if q == dst {
      assert src + q[|dst|..] == src;
    } else if dst <= q {
      assert src < src + q[|dst|..];
    }
  }

  /** `b'` shows what `b` shows except at and below `ps`, and has its other tombstones. */
  ghost predicate SameElsewhere(b: Layer, b': Layer, inherited: Tree, ps: set<Path>) {
    && b'.hides == b.hides && LayerOk(b')
    && (forall t :: t !in ps ==> (t in b'.tombs <==> t in b.tombs))
    && (forall q :: !Covered(ps, q) ==> Find(Overlaid(b', inherited), q) == Find(Overlaid(b, inherited), q))
  }

  /** The state in which rename is asked to move a file. */
  ghost predicate CanAskRename(b: Layer, inherited: Tree, src: Path, dst: Path) {
    && LayerOk(b) && PrefixClosed(inherited) && src != [] && dst != []
    && src != dst && !(src < dst) && !(dst < src)
    && (forall q :: q < src || q < dst ==> Find(Overlaid(b, inherited), q) == Some(Dir))
    && src in Overlaid(b, inherited) && !Overlaid(b, inherited)[src].Dir?
    && Find(b.files, dst) != Some(Dir)
  }

  lemma SourceOpened(b: Layer, used: int, max: Option<nat>, inherited: Tree, src: Path, dst: Path)
    requires CanAskRename(b, inherited, src, dst) && OpenSource(b, used, max, inherited, src).result.Success?
    ensures var one := OpenSource(b, used, max, inherited, src).layer;
      && SameElsewhere(b, one, inherited, {src})
      && Find(one.files, src) == Some(Overlaid(b, inherited)[src])
      && Find(one.files, dst) != Some(Dir)
      && (forall q :: q < dst ==> Find(Overlaid(one, inherited), q) == Some(Dir))
  {
    var one := OpenSource(b, used, max, inherited, src).layer;
    OverlaidAt(b, inherited, src);
    EnsureShows(b, used, max, inherited, src);
    EnsureIsPut(b, used, max, InheritedAt(b, inherited, src), src);
    assert one.files != b.files ==> Find(one.files, dst) == PutAt(b.files, src, FileAt(one.files, src), dst);
    forall q | q < dst
      ensures Find(Overlaid(one, inherited), q) == Some(Dir)
    {
      assert src <= q ==> src < dst;
    }
  }

  lemma DestinationOpened(one: Layer, used: int, max: Option<nat>, inherited: Tree, src: Path, dst: Path)
    requires LayerOk(one) && PrefixClosed(inherited) && dst != [] && src != dst
    requires EnsureEdit(one, used, max, InheritedAt(one, inherited, dst), dst).result.Success?
    requires Find(one.files, dst) != Some(Dir) && src in one.files && !one.files[src].Dir?
    requires forall q :: q < dst ==> Find(Overlaid(one, inherited), q) == Some(Dir)
    ensures var two := EnsureEdit(one, used, max, InheritedAt(one, inherited, dst), dst).layer;
      SameElsewhere(one, two, inherited, {dst}) && Find(two.files, src) == Some(one.files[src])
  {
    EnsureShows(one, used, max, inherited, dst);
    SourceStays(one, used, max, InheritedAt(one, inherited, dst), src, dst);
  }

  lemma ElsewhereComposes(a: Layer, b: Layer, c: Layer, inherited: Tree, p: Path, q: Path)
    requires SameElsewhere(a, b, inherited, {p}) && SameElsewhere(b, c, inherited, {q})
    ensures SameElsewhere(a, c, inherited, {p, q})
  {
    forall r | !Covered({p, q}, r)
      ensures Find(Overlaid(c, inherited), r) == Find(Overlaid(a, inherited), r)
    {
      assert !Covered({p}, r) && !Covered({q}, r);
    }
  }

  lemma BothOpened(b: Layer, used: int, max: Option<nat>, inherited: Tree, src: Path, dst: Path)
    requires CanAskRename(b, inherited, src, dst)
    requires OpenBoth(b, used, max, inherited, src, dst).result.Success?
    ensures var two := OpenBoth(b, used, max, inherited, src, dst).layer;
      SameElsewhere(b, two, inherited, {src, dst}) && Find(two.files, src) == Some(Overlaid(b, inherited)[src])
  {
    var one := OpenSource(b, used, max, inherited, src);
    SourceOpened(b, used, max, inherited, src, dst);
    assert InheritedAt(b, inherited, dst) == InheritedAt(one.layer, inherited, dst);
    DestinationOpened(one.layer, one.used, max, inherited, src, dst);
    ElsewhereComposes(b, one.layer, OpenBoth(b, used, max, inherited, src, dst).layer, inherited, src, dst);
  }

  /** The layer after a successful rename of a file, told path by path. */
  lemma RenamedFiles(b: Layer, used: int, max: Option<nat>, inherited: Tree, src: Path, dst: Path, noReplace: bool)
    requires CanAskRename(b, inherited, src, dst)
    requires RenameEdit(b, used, max, inherited, src, dst, noReplace).result.Success?
    ensures var b' := RenameEdit(b, used, max, inherited, src, dst, noReplace).layer;
      && b'.hides == b.hides && b'.tombs == RenamedTombs(b, inherited, b.tombs, src, dst)
      && Find(b'.files, dst) == Some(Overlaid(b, inherited)[src]) && src !in b'.files
      && forall q :: !Covered({src, dst}, q) ==> Find(Overlaid(b', inherited), q) == Find(Overlaid(b, inherited), q)
  {
    hide OpenBoth, Moved, RemoveUnder, ClearedForRename, CanRename, Overlaid, WellFormed;
    var two := OpenBoth(b, used, max, inherited, src, dst).layer;
    BothOpened(b, used, max, inherited, src, dst);
    RenameMoves(b, two, inherited, src, dst);
    assert RenamedTombs(b, inherited, two.tombs, src, dst) == RenamedTombs(b, inherited, b.tombs, src, dst);
  }

  lemma SourceStays(b: Layer, used: int, max: Option<nat>, inh: Option<Entry>, src: Path, dst: Path)
    requires LayerOk(b) && src != dst && dst != [] && src in b.files && !b.files[src].Dir?
    ensures Find(EnsureEdit(b, used, max, inh, dst).layer.files, src) == Some(b.files[src])
  {
    EnsureIsPut(b, used, max, inh, dst);
    var files' := EnsureEdit(b, used, max, inh, dst).layer.files;
    assert files' != b.files ==> Find(files', src) == PutAt(b.files, dst, FileAt(files', dst), src);
  }

  lemma RenameMoves(b: Layer, two: Layer, inherited: Tree, src: Path, dst: Path)
    requires LayerOk(two) && src != dst && !(src < dst) && !(dst < src) && src != [] && dst != []
    requires two.hides == b.hides && src in two.files && !two.files[src].Dir?
    ensures var files' := Moved(RemoveUnder(ClearedForRename(two, inherited, dst), dst), src, dst);
      var b' := two.(files := files', tombs := RenamedTombs(b, inherited, two.tombs, src, dst));
      && Find(files', dst) == Some(two.files[src]) && src !in files'
      && forall q :: !Covered({src, dst}, q) ==> Find(Overlaid(b', inherited), q) == Find(Overlaid(two, inherited), q)
  {
    hide Moved, Overlaid, WellFormed;
    var cleared := ClearedForRename(two, inherited, dst);
    var files' := Moved(RemoveUnder(cleared, dst), src, dst);
    var b' := two.(files := files', tombs := RenamedTombs(b, inherited, two.tombs, src, dst));
    RemoveUnderWellFormed(two.files, dst);
    assert !(dst <= src) by { assert dst <= src ==> dst == src || dst < src; }
    MovedFileAt(cleared, src, dst, dst);
    MovedFileAt(cleared, src, dst, src);
    forall q | !Covered({src, dst}, q)
      ensures Find(Overlaid(b', inherited), q) == Find(Overlaid(two, inherited), q)
    {
      assert !(src <= q) && !(dst <= q);
      MovedFileAt(cleared, src, dst, q);
      OverlaidAt(b', inherited, q);
      OverlaidAt(two, inherited, q);
      assert forall t :: t <= q ==> (t in b'.tombs <==> t in two.tombs);
    }
  }

  // ----- when renaming a file succeeds -----

  /** The copy of the source fits the quota, and then the copy of the destination over the
      count that the first one leaves. */
  ghost predicate CopiesFit(b: Layer, used: int, max: Option<nat>, inherited: Tree, src: Path, dst: Path) {
    CopyFits(b, used, max, inherited, src) && CopyFits(b, used + CopyCharge(b, inherited, src), max, inherited, dst)
  }

  /** How renaming a file that the branch shows ends, told by the branch before the call:
      only a frozen branch, a destination that must not be replaced and the quota of the two
      copies stand in its way, wherever the two sides come from. */
  lemma FileRenameEnds(b: Layer, used: int, max: Option<nat>, inherited: Tree, src: Path, dst: Path, noReplace: bool)
    requires CanAskRename(b, inherited, src, dst)
    ensures RenameEdit(b, used, max, inherited, src, dst, noReplace).result ==
      if b.frozen then Failure(Frozen)
      else if noReplace && dst in Overlaid(b, inherited) then Failure(Exists)
      else if !CopiesFit(b, used, max, inherited, src, dst) then Failure(Io)
      else Success(())
    ensures var d := RenameEdit(b, used, max, inherited, src, dst, noReplace);
      d.result.Success? ==> d.used == used + CopyCharge(b, inherited, src) + CopyCharge(b, inherited, dst)
  {
    hide RenamedTombs, Moved, Overlaid, QuotaAllows, OpenBoth, WellFormed;
    var two := OpenBoth(b, used, max, inherited, src, dst);
    if !b.frozen {
      SidesOpenIff(b, used, max, inherited, src, dst);
    }
    if !b.frozen && two.result.Success? {
      BothOpened(b, used, max, inherited, src, dst);
      ParentOpened(b, used, max, inherited, src, dst);
      OpenedCanMove(two.layer, inherited, src, dst);
      assert dst <= src ==> dst == src || dst < src;
      assert src <= dst ==> dst == src || src < dst;
    }
  }

  lemma SidesOpenIff(b: Layer, used: int, max: Option<nat>, inherited: Tree, src: Path, dst: Path)
    requires CanAskRename(b, inherited, src, dst) && !b.frozen
    ensures OpenBoth(b, used, max, inherited, src, dst).result.Success? <==> CopiesFit(b, used, max, inherited, src, dst)
    ensures var two := OpenBoth(b, used, max, inherited, src, dst);
      two.result.Success? ==> two.used == used + CopyCharge(b, inherited, src) + CopyCharge(b, inherited, dst)
  {
    hide EnsureEdit, QuotaAllows, Overlaid, WellFormed;
    var one := OpenSource(b, used, max, inherited, src);
    OpenEnds(b, used, max, inherited, src);
    if one.result.Success? {
      SourceOpened(b, used, max, inherited, src, dst);
      OpenEnds(one.layer, one.used, max, inherited, dst);
      SourceLeavesDestination(b, used, max, inherited, src, dst);
    }
  }

  lemma SourceLeavesDestination(b: Layer, used: int, max: Option<nat>, inherited: Tree, src: Path, dst: Path)
    requires CanAskRename(b, inherited, src, dst) && OpenSource(b, used, max, inherited, src).result.Success?
    ensures var one := OpenSource(b, used, max, inherited, src).layer;
      (dst in one.files <==> dst in b.files) && InheritedAt(one, inherited, dst) == InheritedAt(b, inherited, dst)
  {
    EnsureIsPut(b, used, max, InheritedAt(b, inherited, src), src);
    var one := OpenSource(b, used, max, inherited, src).layer;
    assert one.files != b.files ==> Find(one.files, dst) == PutAt(b.files, src, FileAt(one.files, src), dst);
  }

  lemma ParentOpened(b: Layer, used: int, max: Option<nat>, inherited: Tree, src: Path, dst: Path)
    requires CanAskRename(b, inherited, src, dst) && OpenBoth(b, used, max, inherited, src, dst).result.Success?
    ensures Find(OpenBoth(b, used, max, inherited, src, dst).layer.files, Parent(dst)) == Some(Dir)
  {
    var one := OpenSource(b, used, max, inherited, src);
    SourceOpened(b, used, max, inherited, src, dst);
    EnsureShows(one.layer, one.used, max, inherited, dst);
  }

  /** A rename of a file that fails changes no file that the branch shows. */
  lemma FailedFileRenameKeepsFiles(b: Layer, used: int, max: Option<nat>, inherited: Tree, src: Path, dst: Path, noReplace: bool)
    requires CanAskRename(b, inherited, src, dst)
    requires RenameEdit(b, used, max, inherited, src, dst, noReplace).result.Failure?
    ensures Files(Overlaid(RenameEdit(b, used, max, inherited, src, dst, noReplace).layer, inherited)) == Files(Overlaid(b, inherited))
  {
    hide RenamedTombs, Moved, Overlaid, QuotaAllows, WellFormed, Files, EnsureEdit, BringsBack;
    FileRenameEnds(b, used, max, inherited, src, dst, noReplace);
    if !b.frozen && !CopiesFit(b, used, max, inherited, src, dst) {
      SidesOpenIff(b, used, max, inherited, src, dst);
      OpenEnds(b, used, max, inherited, src);
      var one := OpenSource(b, used, max, inherited, src);
      var two := OpenBoth(b, used, max, inherited, src, dst);
      if one.result.Success? {
        SourceOpened(b, used, max, inherited, src, dst);
        SourceLeavesDestination(b, used, max, inherited, src, dst);
        OpenEnds(one.layer, one.used, max, inherited, dst);
        OpenKeepsFilesIff(b, used, max, inherited, src);
        ShownIsNotBroughtBack(b, inherited, src);
      }
    }
  }

  lemma ShownIsNotBroughtBack(b: Layer, inherited: Tree, p: Path)
    requires p in Overlaid(b, inherited) && !Overlaid(b, inherited)[p].Dir?
    ensures !BringsBack(b, inherited, p)
  {
    OverlaidAt(b, inherited, p);
    forall x
      ensures !Reveals(b, inherited, p, x)
    {
      assert p <= p && (p in b.tombs ==> Covered(b.tombs, p));
      assert p in b.files ==> !DirWithout(b, inherited, p);
    }
  }

  /** Rename of a file is an exact update of the view: the destination has the
      source's entry, the source is gone, every other file stays, wherever either side
      came from. */
  lemma RenameIsExact(b: Layer, used: int, max: Option<nat>, inherited: Tree, src: Path, dst: Path, noReplace: bool)
    requires CanAskRename(b, inherited, src, dst)
    requires RenameEdit(b, used, max, inherited, src, dst, noReplace).result.Success?
    ensures var b' := RenameEdit(b, used, max, inherited, src, dst, noReplace).layer;
      var v := Overlaid(b, inherited);
      Files(Overlaid(b', inherited)) == WithoutAll(Files(v), {src, dst})[dst := v[src]]
  {
    var b' := RenameEdit(b, used, max, inherited, src, dst, noReplace).layer;
    var v, w := Overlaid(b, inherited), Overlaid(b', inherited);
    RenamedFiles(b, used, max, inherited, src, dst, noReplace);
    OverlaidAt(b', inherited, dst);
    SourceGone(b, b', inherited, src, dst);
    forall x
      ensures Find(Files(w), x) == Find(WithoutAll(Files(v), {src, dst})[dst := v[src]], x)
    {
      RenamedFile(v, w, src, dst, x);
    }
    SameTree(Files(w), WithoutAll(Files(v), {src, dst})[dst := v[src]]);
  }

  lemma SourceGone(b: Layer, b': Layer, inherited: Tree, src: Path, dst: Path)
    requires src !in b'.files && src != dst && b'.hides == b.hides
    requires b'.tombs == RenamedTombs(b, inherited, b.tombs, src, dst)
    ensures src !in Overlaid(b', inherited)
  {
    OverlaidAt(b', inherited, src);
    assert InheritedAt(b, inherited, src).Some? ==> src in b'.tombs && Covered(b'.tombs, src);
  }

  lemma RenamedFile(v: Tree, w: Tree, src: Path, dst: Path, x: Path)
    requires src != dst && !(src < dst) && !(dst < src) && src in v && !v[src].Dir?
    requires forall q :: q < src || q < dst ==> Find(v, q) == Some(Dir)
    requires Find(w, dst) == Some(v[src]) && src !in w
    requires forall q :: !Covered({src, dst}, q) ==> Find(w, q) == Find(v, q)
    ensures Find(Files(w), x) == if x == dst then Some(v[src]) else if Covered({src, dst}, x) then None else Find(Files(v), x)
  {
    assert Covered({src, dst}, x) <==> src <= x || dst <= x;
    if x != dst && (src <= x || dst <= x) {
      BelowMoved(w, src, dst, x);
    } else {
      forall q | q < x
        ensures Find(w, q) == Some(Dir) <==> Find(v, q) == Some(Dir)
      {
        assert !(src <= q) && !(dst <= q);
        assert Find(w, q) == Find(v, q);
      }
      ReachableAlike(v, w, x);
      if x == dst {
        forall q | q < x
          ensures q in w && w[q].Dir?
        {
          assert Find(v, q) == Some(Dir);
        }
      } else {
        assert Find(w, x) == Find(v, x);
      }
    }
  }

  lemma BelowMoved(w: Tree, src: Path, dst: Path, x: Path)
    requires Find(w, dst).Some? && !w[dst].Dir? && src !in w && x != dst && (src <= x || dst <= x)
    ensures x !in Files(w)
  {
    assert src <= x ==> src == x || src < x;
    assert dst <= x ==> dst < x;
  }

  lemma EnsureKeepsOk(b: Layer, used: int, max: Option<nat>, inh: Option<Entry>, p: Path)
    requires LayerOk(b) && p != []
    ensures LayerOk(EnsureEdit(b, used, max, inh, p).layer)
  {
    EnsureIsPut(b, used, max, inh, p);
    PutEditIsLocal(b, EnsureEdit(b, used, max, inh, p).layer, p);
    LocalKeepsOk(b, EnsureEdit(b, used, max, inh, p).layer, p);
  }

  lemma RenameKeepsOk(b: Layer, used: int, max: Option<nat>, inherited: Tree, src: Path, dst: Path, noReplace: bool)
    requires LayerOk(b) && src != [] && dst != []
    ensures LayerOk(RenameEdit(b, used, max, inherited, src, dst, noReplace).layer)
  {
    hide EnsureEdit, Moved;
    var one := OpenSource(b, used, max, inherited, src);
    EnsureKeepsOk(b, used, max, InheritedAt(b, inherited, src), src);
    EnsureKeepsOk(one.layer, one.used, max, InheritedAt(b, inherited, dst), dst);
    var two := OpenBoth(b, used, max, inherited, src, dst).layer;
    var cleared := ClearedForRename(two, inherited, dst);
    RemoveUnderWellFormed(two.files, dst);
    if CanRename(cleared, src, dst) {
      SourceNotBelow(two, inherited, src, dst);
      RenamedWellFormed(cleared, src, dst);
    }
  }

  // ----- tombstones under rename -----

  lemma OpenKeepsOthers(b: Layer, used: int, max: Option<nat>, inherited: Tree, p: Path)
    requires LayerOk(b) && p != [] && TombsMinimal(b, inherited)
    ensures var b' := EnsureEdit(b, used, max, InheritedAt(b, inherited, p), p).layer;
      && LayerOk(b') && TombsMinimal(b', inherited) && b'.hides == b.hides
      && b.tombs - {p} <= b'.tombs <= b.tombs
      && forall q :: q != p ==> (IsFile(b'.files, q) <==> IsFile(b.files, q))
  {
    var b' := EnsureEdit(b, used, max, InheritedAt(b, inherited, p), p).layer;
    EnsureIsPut(b, used, max, InheritedAt(b, inherited, p), p);
    PutKeepsTombs(b, b', inherited, p);
    PutEditIsLocal(b, b', p);
    LocalKeepsOk(b, b', p);
    forall q | q != p
      ensures IsFile(b'.files, q) <==> IsFile(b.files, q)
    {
      assert b'.files != b.files ==> Find(b'.files, q) == PutAt(b.files, p, FileAt(b'.files, p), q);
    }
  }

  lemma BothOpenedKeepOthers(b: Layer, used: int, max: Option<nat>, inherited: Tree, src: Path, dst: Path)
    requires LayerOk(b) && src != [] && dst != [] && TombsMinimal(b, inherited)
    ensures var two := OpenBoth(b, used, max, inherited, src, dst).layer;
      && LayerOk(two) && TombsMinimal(two, inherited) && two.hides == b.hides
      && b.tombs - {src, dst} <= two.tombs <= b.tombs
      && forall q :: q != src && q != dst ==> (IsFile(two.files, q) <==> IsFile(b.files, q))
  {
    var one := OpenSource(b, used, max, inherited, src);
    OpenKeepsOthers(b, used, max, inherited, src);
    if one.result.Success? {
      assert InheritedAt(b, inherited, dst) == InheritedAt(one.layer, inherited, dst);
      OpenKeepsOthers(one.layer, one.used, max, inherited, dst);
    }
  }

  /** Moving the source, file or directory, leaves a tombstone on a delta file exactly
      when it brings a file under one of the destination's tombstones. */
  lemma MoveKeepsTombsIff(b: Layer, two: Layer, inherited: Tree, src: Path, dst: Path)
    requires LayerOk(two) && TombsMinimal(two, inherited) && src != [] && dst != [] && two.hides == b.hides
    requires CanRename(ClearedForRename(two, inherited, dst), src, dst)
    ensures var files' := Moved(RemoveUnder(ClearedForRename(two, inherited, dst), dst), src, dst);
      TombsMinimal(two.(files := files', tombs := RenamedTombs(b, inherited, two.tombs, src, dst)), inherited) <==>
        forall t :: t in two.tombs && dst < t ==> !IsFile(two.files, src + t[|dst|..])
  {
    var cut := RemoveUnder(ClearedForRename(two, inherited, dst), dst);
    var b' := two.(files := Moved(cut, src, dst), tombs := RenamedTombs(b, inherited, two.tombs, src, dst));
    SourceNotBelow(two, inherited, src, dst);
    forall t | t in b'.tombs
      ensures IsFile(b'.files, t) <==> t in two.tombs && dst < t && IsFile(two.files, src + t[|dst|..])
      ensures InheritedAt(b', inherited, t).Some?
    {
      MovedFileAtTomb(two, inherited, src, dst, t);
    }
    assert forall t :: t in two.tombs && dst < t ==> t in b'.tombs;
  }

  lemma SourceNotBelow(two: Layer, inherited: Tree, src: Path, dst: Path)
    requires LayerOk(two) && dst != [] && CanRename(ClearedForRename(two, inherited, dst), src, dst)
    ensures !(dst <= src) && src in two.files
  {
    assert dst <= src ==> dst == src || dst < src;
    assert dst in two.files ==> dst in Overlaid(two, inherited);
  }

  lemma MovedFileAtTomb(two: Layer, inherited: Tree, src: Path, dst: Path, t: Path)
    requires LayerOk(two) && TombsMinimal(two, inherited) && !(dst <= src) && !(src <= dst)
    requires t == src || (t in two.tombs && t != dst)
    ensures IsFile(Moved(RemoveUnder(ClearedForRename(two, inherited, dst), dst), src, dst), t) <==>
      t in two.tombs && dst < t && IsFile(two.files, src + t[|dst|..])
  {
    var cut := RemoveUnder(ClearedForRename(two, inherited, dst), dst);
    MovedAt(cut, src, dst, t);
    if dst <= t {
      assert dst < t;
      var r := src + t[|dst|..];
      if dst <= r {
        PrefixesComparable(dst, src, r);
      }
      assert Find(cut, r) == Find(two.files, r);
    } else if t != src {
      assert IsFile(cut, t) ==> IsFile(two.files, t);
    }
  }

  /** A rename of a delta succeeds: the branch is not frozen, the destination may be
      replaced, neither path is at or below the other, and the destination is a delta or can
      be copied up. */
  ghost predicate MovesDelta(b: Layer, used: int, max: Option<nat>, inherited: Tree, src: Path, dst: Path, noReplace: bool)
    requires dst != []
  {
    && !b.frozen && src in b.files && !(noReplace && dst in Overlaid(b, inherited))
    && !(src <= dst) && !(dst <= src)
    && (dst in b.files || CanOpen(b.files, used, max, InheritedAt(b, inherited, dst), dst))
  }

  ghost predicate CanOpen(files: Tree, used: int, max: Option<nat>, inh: Option<Entry>, p: Path)
    requires p != []
  {
    ParentsOk(files, p) && (inh.Some? && !inh.value.Dir? ==> QuotaAllows(max, used, SizeOf(inh.value)))
  }

  lemma DeltaMovesIff(b: Layer, used: int, max: Option<nat>, inherited: Tree, src: Path, dst: Path, noReplace: bool)
    requires LayerOk(b) && src != [] && dst != [] && src in b.files
    ensures RenameEdit(b, used, max, inherited, src, dst, noReplace).result.Success? <==>
      MovesDelta(b, used, max, inherited, src, dst, noReplace)
  {
    hide RenamedTombs, Moved, QuotaAllows, FirstTouch;
    var one := OpenSource(b, used, max, inherited, src);
    assert !b.frozen ==> one.layer == b.(tombs := b.tombs - {src}) && one.result.Success? && one.used == used;
    var two := OpenBoth(b, used, max, inherited, src, dst);
    if !b.frozen && two.result.Success? {
      OpenedDelta(one.layer, used, max, InheritedAt(b, inherited, dst), src, dst);
      OpenedCanMove(two.layer, inherited, src, dst);
    }
  }

  /** With the destination open for writing, the source is there and so is the parent of
      the destination. */
  lemma OpenedDelta(b: Layer, used: int, max: Option<nat>, inh: Option<Entry>, src: Path, dst: Path)
    requires LayerOk(b) && dst != [] && src in b.files && EnsureEdit(b, used, max, inh, dst).result.Success?
    ensures var b' := EnsureEdit(b, used, max, inh, dst).layer;
      LayerOk(b') && src in b'.files && Find(b'.files, Parent(dst)) == Some(Dir)
  {
    EnsureKeepsOk(b, used, max, inh, dst);
    WithParentsAt(b.files, dst, src);
    WithParentsAt(b.files, dst, Parent(dst));
    assert Parent(dst) < dst;
  }

  lemma OpenedCanMove(two: Layer, inherited: Tree, src: Path, dst: Path)
    requires LayerOk(two) && dst != [] && src in two.files && Find(two.files, Parent(dst)) == Some(Dir)
    ensures CanRename(ClearedForRename(two, inherited, dst), src, dst) <==> !(src <= dst) && !(dst <= src)
  {
    assert dst in two.files ==> dst in Overlaid(two, inherited);
    assert dst <= src ==> dst == src || dst < src;
    assert !(dst <= Parent(dst));
  }

  // ----- what moving a delta shows -----

  /** The deltas with the destination open for writing. */
  lemma BothOpenAt(b: Layer, used: int, max: Option<nat>, inherited: Tree, src: Path, dst: Path, noReplace: bool, q: Path)
    requires LayerOk(b) && src != [] && dst != [] && MovesDelta(b, used, max, inherited, src, dst, noReplace)
    ensures var two := OpenBoth(b, used, max, inherited, src, dst);
      && two.result.Success? && two.layer.tombs == b.tombs - {src} - {dst} && two.layer.hides == b.hides
      && (q != dst ==> Find(two.layer.files, q) == if q in b.files then Some(b.files[q]) else if q < dst then Some(Dir) else None)
  {
    hide QuotaAllows, FirstTouch;
    WithParentsAt(b.files, dst, q);
    if dst in b.files {
      assert q < dst ==> q in b.files;
    }
  }

  lemma MovedDeltaAt(b: Layer, used: int, max: Option<nat>, inherited: Tree, src: Path, dst: Path, noReplace: bool, q: Path)
    requires LayerOk(b) && src != [] && dst != [] && MovesDelta(b, used, max, inherited, src, dst, noReplace)
    ensures var b' := RenameEdit(b, used, max, inherited, src, dst, noReplace).layer;
      && b'.hides == b.hides && b'.tombs == RenamedTombs(b, inherited, b.tombs, src, dst)
      && Find(b'.files, q) ==
         if dst <= q then Find(b.files, src + q[|dst|..]) else if src <= q then None
         else if q in b.files then Some(b.files[q]) else if q < dst then Some(Dir) else None
  {
    hide OpenBoth, Moved, Overlaid, MovesDelta, CanRename, WellFormed;
    var two := OpenBoth(b, used, max, inherited, src, dst).layer;
    MovesApart(b, used, max, inherited, src, dst, noReplace);
    DeltaMovesIff(b, used, max, inherited, src, dst, noReplace);
    BothOpenAt(b, used, max, inherited, src, dst, noReplace, q);
    var cut := RemoveUnder(ClearedForRename(two, inherited, dst), dst);
    MovedAt(cut, src, dst, q);
    if dst <= q {
      var r := src + q[|dst|..];
      BothOpenAt(b, used, max, inherited, src, dst, noReplace, r);
      assert src <= r;
      if dst <= r {
        PrefixesComparable(dst, src, r);
      }
      assert !(r < dst);
    }
  }

  lemma MovesApart(b: Layer, used: int, max: Option<nat>, inherited: Tree, src: Path, dst: Path, noReplace: bool)
    requires dst != [] && MovesDelta(b, used, max, inherited, src, dst, noReplace)
    ensures !(src <= dst) && !(dst <= src) && src in b.files && !b.frozen
    ensures noReplace ==> dst !in Overlaid(b, inherited)
  {
  }

  /** What is shown at and below the destination: the moved deltas, and between them what the
      branch inherits there, less its other deletions. */
  ghost function ShownMoved(b: Layer, inherited: Tree, src: Path, dst: Path, q: Path): Option<Entry>
    requires dst <= q
  {
    var r := src + q[|dst|..];
    if r in b.files then Some(b.files[r])
    else if Covered(b.tombs - {dst}, q) || Covered(b.hides, q) then None
    else Find(inherited, q)
  }

  /** Renaming a delta, file or directory, moves exactly the deltas at and below the source.
      Inherited entries do not move with a directory: at the source nothing is shown any more,
      at the destination its own inherited entries show between the moved ones, and elsewhere
      nothing changes. */
  lemma MovedDeltaShows(b: Layer, used: int, max: Option<nat>, inherited: Tree, src: Path, dst: Path, noReplace: bool, q: Path)
    requires LayerOk(b) && src != [] && dst != [] && PrefixClosed(inherited) && AboveVisible(b, inherited, dst)
    requires MovesDelta(b, used, max, inherited, src, dst, noReplace)
    ensures var b' := RenameEdit(b, used, max, inherited, src, dst, noReplace).layer;
      Find(Overlaid(b', inherited), q) ==
        if dst <= q then ShownMoved(b, inherited, src, dst, q) else if src <= q then None
        else Find(Overlaid(b, inherited), q)
  {
    hide RenameEdit, Overlaid, MovesDelta, WellFormed;
    var b' := RenameEdit(b, used, max, inherited, src, dst, noReplace).layer;
    MovesApart(b, used, max, inherited, src, dst, noReplace);
    MovedDeltaAt(b, used, max, inherited, src, dst, noReplace, q);
    OverlaidAt(b', inherited, q);
    OverlaidAt(b, inherited, q);
    if dst <= q {
      if src <= q {
        PrefixesComparable(src, dst, q);
      }
      assert Covered(b'.tombs, q) <==> Covered(b.tombs - {dst}, q) by {
        assert forall t :: t <= q ==> (t in b'.tombs <==> t in b.tombs - {dst});
      }
    } else if src <= q {
      NothingLeft(b, b', inherited, src, dst, q);
    } else {
      assert forall t :: t <= q ==> (t in b'.tombs <==> t in b.tombs);
    }
  }

  lemma NothingLeft(b: Layer, b': Layer, inherited: Tree, src: Path, dst: Path, q: Path)
    requires PrefixClosed(inherited) && b'.hides == b.hides && b'.tombs == RenamedTombs(b, inherited, b.tombs, src, dst)
    requires src <= q && src != dst
    ensures Covered(b'.tombs, q) || Covered(b'.hides, q) || q !in inherited
  {
    if InheritedAt(b, inherited, src).Some? {
      assert src in b'.tombs;
    } else if Covered(b.hides, src) {
      var h :| h in b.hides && h <= src;
      assert h <= q;
    } else {
      assert src == q || src < q;
    }
  }

  /** A directory that is only inherited cannot be renamed: opening it copies nothing. */
  lemma DirMovesIff(b: Layer, used: int, max: Option<nat>, inherited: Tree, src: Path, dst: Path, noReplace: bool)
    requires LayerOk(b) && src != [] && dst != [] && Find(Overlaid(b, inherited), src) == Some(Dir)
    ensures RenameEdit(b, used, max, inherited, src, dst, noReplace).result.Success? <==>
      MovesDelta(b, used, max, inherited, src, dst, noReplace)
  {
    hide RenameEdit, Overlaid, MovesDelta;
    if src in b.files {
      DeltaMovesIff(b, used, max, inherited, src, dst, noReplace);
    } else {
      OverlaidAt(b, inherited, src);
      InheritedDirStays(b, used, max, inherited, src, dst, noReplace);
      if MovesDelta(b, used, max, inherited, src, dst, noReplace) {
        MovesApart(b, used, max, inherited, src, dst, noReplace);
      }
    }
  }

  lemma InheritedDirStays(b: Layer, used: int, max: Option<nat>, inherited: Tree, src: Path, dst: Path, noReplace: bool)
    requires LayerOk(b) && src != [] && dst != [] && src !in b.files && InheritedAt(b, inherited, src) == Some(Dir)
    ensures RenameEdit(b, used, max, inherited, src, dst, noReplace).result.Failure?
  {
    hide QuotaAllows, FirstTouch, RenamedTombs, Moved, Overlaid;
    var one := OpenSource(b, used, max, inherited, src);
    WithParentsAt(b.files, src, src);
    WithParentsAt(one.layer.files, dst, src);
  }

  /** The rename brings a file of a moved directory under a tombstone. */
  ghost predicate BuriesFile(b: Layer, used: int, max: Option<nat>, inherited: Tree, src: Path, dst: Path, noReplace: bool)
    requires dst != []
  {
    && MovesDelta(b, used, max, inherited, src, dst, noReplace)
    && exists t :: t in b.tombs && dst < t && IsFile(b.files, src + t[|dst|..])
  }

  /** After every rename, successful or not, each tombstone still names something
      inherited and no delta file, unless the rename moves a delta directory one of whose
      files lands on a tombstone below the destination. */
  lemma RenameKeepsTombsMinimalIff(b: Layer, used: int, max: Option<nat>, inherited: Tree, src: Path, dst: Path, noReplace: bool)
    requires LayerOk(b) && TombsMinimal(b, inherited) && src != [] && dst != []
    ensures TombsMinimal(RenameEdit(b, used, max, inherited, src, dst, noReplace).layer, inherited) <==>
      !BuriesFile(b, used, max, inherited, src, dst, noReplace)
  {
    hide RenameEdit, TombsMinimal, MovesDelta;
    var d := RenameEdit(b, used, max, inherited, src, dst, noReplace);
    if t :| t in b.tombs && dst < t && IsFile(b.files, src + t[|dst|..]) {
      SourceHolds(b, src, t[|dst|..]);
      DeltaMovesIff(b, used, max, inherited, src, dst, noReplace);
    }
    if d.result.Success? {
      RenamedTombsMinimalIff(b, used, max, inherited, src, dst, noReplace);
    } else {
      FailedRenameKeepsTombs(b, used, max, inherited, src, dst, noReplace);
    }
  }

  lemma SourceHolds(b: Layer, src: Path, s: Path)
    requires LayerOk(b) && src + s in b.files
    ensures src in b.files
  {
    assert src == src + s || src < src + s;
  }

  lemma FailedRenameKeepsTombs(b: Layer, used: int, max: Option<nat>, inherited: Tree, src: Path, dst: Path, noReplace: bool)
    requires LayerOk(b) && TombsMinimal(b, inherited) && src != [] && dst != []
    requires RenameEdit(b, used, max, inherited, src, dst, noReplace).result.Failure?
    ensures TombsMinimal(RenameEdit(b, used, max, inherited, src, dst, noReplace).layer, inherited)
  {
    OpenKeepsOthers(b, used, max, inherited, src);
    BothOpenedKeepOthers(b, used, max, inherited, src, dst);
  }

  lemma RenamedTombsMinimalIff(b: Layer, used: int, max: Option<nat>, inherited: Tree, src: Path, dst: Path, noReplace: bool)
    requires LayerOk(b) && TombsMinimal(b, inherited) && src != [] && dst != []
    requires RenameEdit(b, used, max, inherited, src, dst, noReplace).result.Success?
    ensures TombsMinimal(RenameEdit(b, used, max, inherited, src, dst, noReplace).layer, inherited) <==>
      forall t :: t in b.tombs && dst < t ==> !IsFile(b.files, src + t[|dst|..])
  {
    var two := OpenBoth(b, used, max, inherited, src, dst).layer;
    BothOpenedKeepOthers(b, used, max, inherited, src, dst);
    SourceNotBelow(two, inherited, src, dst);
    MoveKeepsTombsIff(b, two, inherited, src, dst);
    forall t | dst < t
      ensures t in b.tombs && IsFile(b.files, src + t[|dst|..]) <==> t in two.tombs && IsFile(two.files, src + t[|dst|..])
    {
      LandsElsewhere(src, dst, t);
    }
  }

  lemma LandsElsewhere(src: Path, dst: Path, t: Path)
    requires dst < t && !(src <= dst)
    ensures src + t[|dst|..] != src && src + t[|dst|..] != dst && (t == src ==> dst <= src)
  {
    assert src < src + t[|dst|..];
  }
}
