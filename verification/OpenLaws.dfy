/** Opening a path for writing and removing an empty directory, as seen in the view. */
module OpenLaws {
  import opened FileTree
  import opened Layers
  import opened Edits
  import opened EditLaws
  import opened EditRuns

  // ----- when opening succeeds -----

  ghost function FileOf(e: Option<Entry>): Option<Entry> {
    if e == Some(Dir) then None else e
  }

  ghost predicate AboveVisible(b: Layer, inherited: Tree, p: Path) {
    forall q :: q < p ==> Find(Overlaid(b, inherited), q) == Some(Dir)
  }

  /** What opening a path is charged: an inherited file or symlink is copied up. */
  ghost function CopyCharge(b: Layer, inherited: Tree, p: Path): nat {
    if p in b.files then 0 else
      match InheritedAt(b, inherited, p)
      case Some(File(data)) => |data|
      case Some(Symlink(target)) => |target|
      case _ => 0
  }

  /** The copy fits the quota; a path in the deltas is not copied. */
  ghost predicate CopyFits(b: Layer, used: int, max: Option<nat>, inherited: Tree, p: Path) {
    p !in b.files && FileOf(InheritedAt(b, inherited, p)).Some? ==> QuotaAllows(max, used, CopyCharge(b, inherited, p))
  }

  /** How opening a path under visible directories ends: only a frozen branch and the quota of
      the copy stand in its way, and if it fails the branch shows what it showed. */
  lemma OpenEnds(b: Layer, used: int, max: Option<nat>, inherited: Tree, p: Path)
    requires p != [] && AboveVisible(b, inherited, p)
    ensures var d := EnsureEdit(b, used, max, InheritedAt(b, inherited, p), p);
      && d.result == (
        if b.frozen then Failure(Frozen) else if !CopyFits(b, used, max, inherited, p) then Failure(NoSpace) else Success(()))
      && (d.result.Success? ==> d.used == used + CopyCharge(b, inherited, p))
      && (d.result.Failure? ==> d.used == used && d.layer.tombs == b.tombs && Overlaid(d.layer, inherited) == Overlaid(b, inherited))
      && d.layer.hides == b.hides && d.layer.frozen == b.frozen
  {
    hide QuotaAllows, FirstTouch, WithParents, Overlaid;
    forall q | q in b.files && q < p
      ensures b.files[q].Dir?
    {
      OverlaidAt(b, inherited, q);
    }
    var d := EnsureEdit(b, used, max, InheritedAt(b, inherited, p), p);
    if d.result.Failure? {
      OverlaidDepends(b, d.layer, inherited);
    }
  }

  // ----- opening for write -----

  /** Below its tombstone `p` the branch inherits the file `x`, under directories and hidden
      or deleted by nothing else. */
  ghost predicate Reveals(b: Layer, inherited: Tree, p: Path, x: Path) {
    && p in b.tombs && p < x && x !in b.files
    && x in inherited && !inherited[x].Dir? && !Covered(b.tombs - {p}, x) && !Covered(b.hides, x)
    && forall q :: p <= q && q < x ==> DirWithout(b, inherited, q)
  }

  /** Without the tombstone at or above it the branch shows a directory at `q`. */
  ghost predicate DirWithout(b: Layer, inherited: Tree, q: Path) {
    if q in b.files then b.files[q].Dir? else Find(inherited, q) == Some(Dir)
  }

  /** Opening brings the deleted file or symlink at `p` back, or a file below the deleted
      directory. */
  ghost predicate BringsBack(b: Layer, inherited: Tree, p: Path) {
    || (p !in b.files && Covered(b.tombs, p) && InheritedAt(b, inherited, p).Some? && !InheritedAt(b, inherited, p).value.Dir?)
    || exists x :: Reveals(b, inherited, p, x)
  }

  /** Opening a path for writing, be it a file, a directory or missing, shows the same files,
      except that it brings back what was deleted there: an inherited file or symlink, or all
      the inherited files below a directory. */
  lemma OpenKeepsFilesIff(b: Layer, used: int, max: Option<nat>, inherited: Tree, p: Path)
    requires LayerOk(b) && p != [] && PrefixClosed(inherited) && AboveVisible(b, inherited, p)
    requires EnsureEdit(b, used, max, InheritedAt(b, inherited, p), p).result.Success?
    ensures var b' := EnsureEdit(b, used, max, InheritedAt(b, inherited, p), p).layer;
      Files(Overlaid(b', inherited)) == Files(Overlaid(b, inherited)) <==> !BringsBack(b, inherited, p)
  {
    hide Files, FirstTouch, QuotaAllows, Reveals, Overlaid;
    var inh := InheritedAt(b, inherited, p);
    var b' := EnsureEdit(b, used, max, inh, p).layer;
    if p !in b.files && inh.Some? && !inh.value.Dir? {
      CopyBringsBackIff(b, used, max, inherited, p);
      NothingBelowInheritedFile(b, inherited, p);
    } else {
      OpenIsOpened(b, used, max, inherited, p);
      RevealsIff(b, b', inherited, p);
    }
  }

  lemma OpenIsOpened(b: Layer, used: int, max: Option<nat>, inherited: Tree, p: Path)
    requires LayerOk(b) && p != []
    requires p in b.files || InheritedAt(b, inherited, p).None? || InheritedAt(b, inherited, p).value.Dir?
    requires EnsureEdit(b, used, max, InheritedAt(b, inherited, p), p).result.Success?
    ensures Opened(b, EnsureEdit(b, used, max, InheritedAt(b, inherited, p), p).layer, p)
  {
    var b' := EnsureEdit(b, used, max, InheritedAt(b, inherited, p), p).layer;
    forall q
      ensures Find(b'.files, q) ==
        if q in b.files then Some(b.files[q]) else if p !in b.files && q < p then Some(Dir) else None
    {
      WithParentsAt(b.files, p, q);
    }
  }

  lemma NothingBelowInheritedFile(b: Layer, inherited: Tree, p: Path)
    requires p !in b.files && InheritedAt(b, inherited, p).Some? && !InheritedAt(b, inherited, p).value.Dir?
    ensures forall x :: !Reveals(b, inherited, p, x)
  {
    forall x
      ensures !Reveals(b, inherited, p, x)
    {
      assert p <= p;
      assert !DirWithout(b, inherited, p);
    }
  }

  lemma CopyBringsBackIff(b: Layer, used: int, max: Option<nat>, inherited: Tree, p: Path)
    requires LayerOk(b) && p != [] && AboveVisible(b, inherited, p) && p !in b.files
    requires InheritedAt(b, inherited, p).Some? && !InheritedAt(b, inherited, p).value.Dir?
    requires EnsureEdit(b, used, max, InheritedAt(b, inherited, p), p).result.Success?
    ensures var b' := EnsureEdit(b, used, max, InheritedAt(b, inherited, p), p).layer;
      Files(Overlaid(b', inherited)) == Files(Overlaid(b, inherited)) <==> !Covered(b.tombs, p)
  {
    var inh := InheritedAt(b, inherited, p);
    CopiedUp(b, used, max, inh, p);
    PlacedFiles(b, EnsureEdit(b, used, max, inh, p).layer, inherited, p, inh.value);
    OverlaidAt(b, inherited, p);
    if Covered(b.tombs, p) {
      assert p !in Files(Overlaid(b, inherited));
    } else {
      ReplacesOnlyItself(Overlaid(b, inherited), p, inh.value);
      PlaceHolds(b, inherited, p, inh.value);
    }
  }

  // ----- opening without copying -----

  /** Nothing is copied: perhaps parents are made, and the tombstone goes. */
  ghost predicate Opened(b: Layer, b': Layer, p: Path) {
    && b'.tombs == b.tombs - {p} && b'.hides == b.hides
    && forall q :: Find(b'.files, q) == if q in b.files then Some(b.files[q]) else if p !in b.files && q < p then Some(Dir) else None
  }

  ghost function ShownWithout(b: Layer, inherited: Tree, p: Path, q: Path): Option<Entry> {
    if q in b.files then Some(b.files[q])
    else if Covered(b.tombs - {p}, q) || Covered(b.hides, q) then None
    else Find(inherited, q)
  }

  /** The view after opening is the view before, and below the path more. */
  lemma OpenedShows(b: Layer, b': Layer, inherited: Tree, p: Path, q: Path)
    requires LayerOk(b) && Opened(b, b', p) && AboveVisible(b, inherited, p)
    ensures Find(Overlaid(b', inherited), q) == Find(Overlaid(b, inherited), q) ||
      (Find(Overlaid(b, inherited), q) == None && p in b.tombs && p <= q && q !in b.files)
    ensures p <= q ==> Find(Overlaid(b', inherited), q) == ShownWithout(b, inherited, p, q)
  {
    OverlaidAt(b, inherited, q);
    OverlaidAt(b', inherited, q);
    assert Find(b'.files, q) == if q in b.files then Some(b.files[q]) else if p !in b.files && q < p then Some(Dir) else None;
    if !(p <= q) {
      assert forall t :: t in b.tombs && t <= q ==> t in b'.tombs;
    } else {
      assert p !in b.tombs ==> b'.tombs == b.tombs;
    }
  }

  lemma OpenedKeeps(b: Layer, b': Layer, inherited: Tree, p: Path, x: Path)
    requires LayerOk(b) && Opened(b, b', p) && AboveVisible(b, inherited, p)
    requires x in Files(Overlaid(b, inherited))
    ensures x in Files(Overlaid(b', inherited)) && Overlaid(b', inherited)[x] == Overlaid(b, inherited)[x]
  {
    var v, w := Overlaid(b, inherited), Overlaid(b', inherited);
    OpenedShows(b, b', inherited, p, x);
    assert Find(v, x) == Some(v[x]);
    forall q | q < x
      ensures Find(w, q) == Some(Dir)
    {
      OpenedShows(b, b', inherited, p, q);
      assert Find(v, q) == Some(Dir);
    }
    ReachableIf(w, x);
  }

  /** What is new is revealed. */
  lemma NewIsRevealed(b: Layer, b': Layer, inherited: Tree, p: Path, x: Path)
    requires LayerOk(b) && PrefixClosed(inherited) && Opened(b, b', p) && AboveVisible(b, inherited, p)
    requires p in b.files || InheritedAt(b, inherited, p).None? || InheritedAt(b, inherited, p).value.Dir?
    requires x in Files(Overlaid(b', inherited)) && x !in Files(Overlaid(b, inherited))
    ensures Reveals(b, inherited, p, x)
  {
    var v, w := Overlaid(b, inherited), Overlaid(b', inherited);
    OpenedShows(b, b', inherited, p, x);
    NotShownBefore(b, b', inherited, p, x);
    assert x in inherited && Find(w, x) == Some(inherited[x]);
    forall q | p <= q && q < x
      ensures DirWithout(b, inherited, q)
    {
      OpenedShows(b, b', inherited, p, q);
      assert Find(w, q) == Some(Dir);
    }
    assert p != x;
  }

  lemma NotShownBefore(b: Layer, b': Layer, inherited: Tree, p: Path, x: Path)
    requires LayerOk(b) && PrefixClosed(inherited) && Opened(b, b', p) && AboveVisible(b, inherited, p)
    requires x in Files(Overlaid(b', inherited)) && x !in Files(Overlaid(b, inherited))
    ensures Find(Overlaid(b, inherited), x) == None
  {
    var v, w := Overlaid(b, inherited), Overlaid(b', inherited);
    OpenedShows(b, b', inherited, p, x);
    OverlaidPrefixClosed(b, inherited);
    if x in v {
      assert Find(w, x) == Find(v, x);
      forall q | q < x
        ensures Find(v, q) == Some(Dir)
      {
        OpenedShows(b, b', inherited, p, q);
        assert q in v && Find(w, q) == Some(Dir);
      }
      ReachableIf(v, x);
    }
  }

  /** What is revealed is new. */
  lemma RevealedIsNew(b: Layer, b': Layer, inherited: Tree, p: Path, x: Path)
    requires LayerOk(b) && Opened(b, b', p) && AboveVisible(b, inherited, p) && Reveals(b, inherited, p, x)
    ensures x in Files(Overlaid(b', inherited)) && x !in Files(Overlaid(b, inherited))
  {
    var v, w := Overlaid(b, inherited), Overlaid(b', inherited);
    OpenedShows(b, b', inherited, p, x);
    OverlaidAt(b, inherited, x);
    assert p <= x && Covered(b.tombs, x);
    assert Find(w, x) == Some(inherited[x]);
    forall q | q < x
      ensures Find(w, q) == Some(Dir)
    {
      OpenedShows(b, b', inherited, p, q);
      if p <= q {
        assert DirWithout(b, inherited, q);
        assert forall t :: t in b.tombs + b.hides && t <= q ==> t <= x;
      } else {
        PrefixesComparable(p, q, x);
        assert q < p;
      }
    }
    ReachableIf(w, x);
  }

  lemma RevealsIff(b: Layer, b': Layer, inherited: Tree, p: Path)
    requires LayerOk(b) && PrefixClosed(inherited) && Opened(b, b', p) && AboveVisible(b, inherited, p)
    requires p in b.files || InheritedAt(b, inherited, p).None? || InheritedAt(b, inherited, p).value.Dir?
    ensures Files(Overlaid(b', inherited)) == Files(Overlaid(b, inherited)) <==> forall x :: !Reveals(b, inherited, p, x)
  {
    hide Overlaid, Reveals, Opened;
    if x :| Reveals(b, inherited, p, x) {
      RevealedIsNew(b, b', inherited, p, x);
    } else {
      forall x | x in Files(Overlaid(b, inherited))
        ensures x in Files(Overlaid(b', inherited)) && Overlaid(b, inherited)[x] == Overlaid(b', inherited)[x]
      {
        OpenedKeeps(b, b', inherited, p, x);
      }
      forall x | x in Files(Overlaid(b', inherited))
        ensures x in Files(Overlaid(b, inherited)) && Overlaid(b, inherited)[x] == Overlaid(b', inherited)[x]
      {
        if x !in Files(Overlaid(b, inherited)) {
          NewIsRevealed(b, b', inherited, p, x);
        } else {
          OpenedKeeps(b, b', inherited, p, x);
        }
      }
      SameFiles(Overlaid(b', inherited), Overlaid(b, inherited));
    }
  }

  /** A reachable place that shows an entry has it among its files. */
  lemma PlaceHolds(b: Layer, inherited: Tree, p: Path, e: Entry)
    requires AboveVisible(b, inherited, p) && Find(Overlaid(b, inherited), p) == Some(e) && !e.Dir?
    ensures Files(Overlaid(b, inherited))[p := e] == Files(Overlaid(b, inherited))
  {
    ReachableIf(Overlaid(b, inherited), p);
  }

  lemma CopiedUp(b: Layer, used: int, max: Option<nat>, inh: Option<Entry>, p: Path)
    requires LayerOk(b) && p != [] && p !in b.files && inh.Some? && !inh.value.Dir?
    requires EnsureEdit(b, used, max, inh, p).result.Success?
    ensures PlacedIn(b, EnsureEdit(b, used, max, inh, p).layer, p, inh.value)
  {
    var b' := EnsureEdit(b, used, max, inh, p).layer;
    forall q
      ensures Find(b'.files, q) ==
        if q == p then inh else if p < q then None else if q < p then Some(Dir) else Find(b.files, q)
    {
      WithParentsAt(b.files, p, q);
    }
  }

  // ----- rmdir -----

  /** How rmdir ends: the path must show a directory with nothing shown below it, and a call
      that fails changes nothing. */
  lemma RmdirEnds(b: Layer, used: int, inherited: Tree, p: Path)
    requires LayerOk(b) && p != [] && PrefixClosed(inherited)
    ensures var d, v := RmdirEdit(b, used, inherited, p), Overlaid(b, inherited);
      && d.result == (
        if b.frozen then Failure(Frozen)
        else if p !in v then Failure(NoEntry)
        else if !v[p].Dir? then Failure(NotADirectory)
        else if exists q :: q in v && p < q then Failure(NotEmpty)
        else Success(()))
      && (d.result.Failure? ==> d.layer == b && d.used == used)
  {
    var v := Overlaid(b, inherited);
    OverlaidPrefixClosed(b, inherited);
    if q :| q in v && p < q {
      ChildOnTheWay(v, p, q);
    } else {
      ChildrenAreBelow(v, p);
    }
  }

  lemma ChildrenAreBelow(v: Tree, p: Path)
    requires forall q :: q in v ==> !(p < q)
    ensures Children(v, p) == {}
  {
    assert forall q :: q in v && q != [] && Parent(q) == p ==> p < q;
  }

  /** A successful rmdir removes a directory that showed nothing below it, and changes no
      file exactly when it does not empty a delta directory that stood over an inherited
      file. */
  lemma RmdirKeepsFilesIff(b: Layer, used: int, inherited: Tree, p: Path)
    requires LayerOk(b) && p != [] && PrefixClosed(inherited)
    requires RmdirEdit(b, used, inherited, p).result.Success?
    ensures var b' := RmdirEdit(b, used, inherited, p).layer;
      && p !in Overlaid(b', inherited)
      && (Files(Overlaid(b', inherited)) == Files(Overlaid(b, inherited)) <==> !Uncovers(b, inherited, p))
  {
    DeleteIsExact(b, used, inherited, p);
    OverlaidPrefixClosed(b, inherited);
    EmptyDirHoldsNoFile(Overlaid(b, inherited), p);
  }

  lemma EmptyDirHoldsNoFile(v: Tree, p: Path)
    requires PrefixClosed(v) && p in v && v[p].Dir? && Children(v, p) == {}
    ensures WithoutAll(Files(v), {p}) == Files(v)
  {
    forall x | x in Files(v)
      ensures !(p <= x)
    {
      assert p <= x ==> p == x || p < x;
      NoWayDown(v, p, x);
    }
  }

  lemma NoWayDown(v: Tree, p: Path, x: Path)
    requires PrefixClosed(v) && Children(v, p) == {} && x in v
    ensures !(p < x)
  {
    if p < x {
      ChildOnTheWay(v, p, x);
      assert false;
    }
  }

  lemma ChildOnTheWay(v: Tree, p: Path, x: Path)
    requires PrefixClosed(v) && p < x && x in v
    ensures x[|p|] in Children(v, p)
  {
    var c := x[..|p| + 1];
    assert c == x || c < x;
    assert c in v && Parent(c) == p;
  }
}
