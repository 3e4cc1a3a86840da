/** The staged merge: deletions are renamed aside, copies are written beside their
    destination, and a publish phase renames them into place. */
module Staging {
  import opened FileTree
  import opened Disk

  const TMP := ".branchfs-tmp."
  const TRASH := ".branchfs-trash."

  // A path other than the root.
  type EntryPath = p: Path | p != [] witness [""]

  predicate IsSide(name: string) {
    TMP <= name || TRASH <= name
  }

  /** No component of the path is the name of a side file. */
  predicate Clean(p: Path) {
    forall i :: 0 <= i < |p| ==> !IsSide(p[i])
  }

  /** The side file of `p` with the given tag: a sibling of `p`. */
  function Side(tag: string, p: Path): Path
    requires p != []
  {
    Parent(p) + [tag + p[|p| - 1]]
  }

  function Tmp(p: EntryPath): Path {
    Side(TMP, p)
  }

  function Trash(p: EntryPath): Path {
    Side(TRASH, p)
  }

  /** A user's path other than the root. */
  ghost predicate Named(p: Path) {
    p != [] && Clean(p)
  }

  lemma SideShape(tag: string, p: Path)
    requires p != [] && (tag == TMP || tag == TRASH)
    ensures !Clean(Side(tag, p)) && |Side(tag, p)| == |p| && Parent(Side(tag, p)) == Parent(p)
    ensures forall q :: Clean(q) ==> !(Side(tag, p) <= q)
  {
    var side := Side(tag, p);
    assert IsSide(side[|p| - 1]);
    forall q | Clean(q)
      ensures !(side <= q)
    {
      assert |p| <= |q| ==> !IsSide(q[|p| - 1]);
    }
  }

  /** A user's path at or above a side file is above the path the file belongs to. */
  lemma AboveSide(p: Path, tag: string, q: Path)
    requires Clean(p) && q != [] && (tag == TMP || tag == TRASH)
    requires p <= Side(tag, q)
    ensures p < q
  {
    SideShape(tag, q);
    assert p != Side(tag, q);
    assert p == Side(tag, q)[..|p|];
    assert p <= Parent(q);
  }

  lemma SideComponent(tag: string, q: Path, n: nat)
    requires n < |q|
    ensures Side(tag, q)[n] == if n < |q| - 1 then q[n] else tag + q[n]
  {
  }

  lemma SidesMeet(tag: string, p: Path, tag': string, q: Path)
    requires Named(p) && Named(q) && tag in {TMP, TRASH} && tag' in {TMP, TRASH}
    requires Side(tag, p) <= Side(tag', q)
    ensures tag == tag' && p == q
  {
    var n := |p| - 1;
    SideComponent(tag', q, n);
    assert Side(tag, p)[n] == tag + p[n];
    assert Side(tag', q)[n] == tag + p[n];
    assert IsSide(tag + p[n]);
    assert n == |q| - 1;
    TagsDiffer(p[n], q[n]);
    TagsDiffer(q[n], p[n]);
    assert tag == tag';
    assert p[n] == (tag + p[n])[|tag|..] == (tag + q[n])[|tag|..] == q[n];
    assert Parent(p) == Side(tag, p)[..n] == Side(tag, q)[..n] == Parent(q);
    assert p == Parent(p) + [p[n]] == Parent(q) + [q[n]] == q;
  }

  lemma TagsDiffer(m: string, n: string)
    ensures TMP + m != TRASH + n
  {
    assert TMP[11] == 'm' && TRASH[11] == 'r';
    assert (TMP + m)[11] == 'm' && (TRASH + n)[11] == 'r';
  }

  /** A merge in progress: the tree it works on, the destinations of the copies
      staged so far and the paths moved aside so far. */
  datatype Merge = Merge(disk: Tree, copies: seq<EntryPath>, deletes: seq<EntryPath>)

  ghost function SetAside(disk: Tree, target: EntryPath): Tree {
    Moved(RemoveUnder(disk, Trash(target)), target, Trash(target))
  }

  ghost function StageDelete(m: Merge, target: EntryPath): Merge {
    if target in m.disk then Merge(SetAside(m.disk, target), m.copies, m.deletes + [target]) else m
  }

  ghost function StageDeletes(m: Merge, targets: seq<EntryPath>): Merge {
    if targets == [] then m else StageDelete(StageDeletes(m, targets[..|targets| - 1]), targets[|targets| - 1])
  }

  /** The destination is a directory that has to make way for a file. */
  ghost function ClearDestination(m: Merge, dest: EntryPath): Merge {
    if Find(m.disk, dest) == Some(Dir) then StageDelete(m, dest) else m
  }

  predicate CanCopy(disk: Tree, dest: EntryPath) {
    ParentsOk(disk, dest) && Find(disk, Tmp(dest)) != Some(Dir)
  }

  ghost function WithTmp(disk: Tree, dest: EntryPath, e: Entry): Tree {
    WithParents(disk, dest)[Tmp(dest) := e]
  }

  /** None when creating the parent directories or the side file fails. */
  ghost function StageCopy(m: Merge, dest: EntryPath, e: Entry): Option<Merge> {
    var m1 := ClearDestination(m, dest);
    if CanCopy(m1.disk, dest) then Some(Merge(WithTmp(m1.disk, dest, e), m1.copies + [dest], m1.deletes)) else None
  }

  ghost function StageCopies(m: Merge, dests: seq<EntryPath>, sources: Tree): Option<Merge>
    requires forall i :: 0 <= i < |dests| ==> dests[i] in sources
  {
    if dests == [] then Some(m) else
      var before := StageCopies(m, dests[..|dests| - 1], sources);
      if before.None? then None else StageCopy(before.value, dests[|dests| - 1], sources[dests[|dests| - 1]])
  }

  ghost function PublishOne(disk: Tree, dest: EntryPath): Tree {
    Moved(RemoveUnder(disk, dest), Tmp(dest), dest)
  }

  // ----- what a user of the destination sees while the merge is staged -----

  /** The user's part of the tree once `tombs` have been set aside and `dests` staged. */
  ghost function StagedAt(start: Tree, tombs: set<Path>, dests: set<Path>, q: Path): Option<Entry> {
    if AboveSome(dests, q) then Some(Dir)
    else if q in start && !Covered(tombs, q) && (Covered(dests, q) ==> q in dests && !start[q].Dir?) then Some(start[q])
    else None
  }

  ghost predicate ShowsStaged(disk: Tree, start: Tree, tombs: set<Path>, dests: set<Path>) {
    forall q :: Clean(q) ==> Find(disk, q) == StagedAt(start, tombs, dests, q)
  }

  /** Every side file is a staged copy or lies in something set aside. */
  ghost predicate SideFilesKnown(disk: Tree, dests: set<Path>, deletes: seq<Path>) {
    forall q :: q in disk && !Clean(q) ==>
      (exists x: EntryPath :: x in dests && q == Tmp(x)) || (exists a :: a in deletes && Trash(a) <= q)
  }

  ghost predicate NoTmpDirs(disk: Tree) {
    forall x :: Named(x) ==> Find(disk, Tmp(x)) != Some(Dir)
  }

  lemma SetAsideAt(disk: Tree, a: Path, q: Path)
    requires Named(a) && WellFormed(disk) && a in disk
    ensures Find(SetAside(disk, a), q) ==
      if Trash(a) <= q then Find(disk, a + q[|a|..]) else if a <= q then None else Find(disk, q)
  {
    SideShape(TRASH, a);
    MovedAt(RemoveUnder(disk, Trash(a)), a, Trash(a), q);
    if Trash(a) <= q {
      var r := a + q[|a|..];
      assert r[..|a|] == a;
      assert !(Trash(a) <= r);
    }
  }

  lemma SetAsideWellFormed(disk: Tree, a: Path)
    requires Named(a) && WellFormed(disk) && a in disk
    ensures WellFormed(SetAside(disk, a))
  {
    SideShape(TRASH, a);
    RemoveUnderWellFormed(disk, Trash(a));
    assert Parent(a) < a;
    assert Clean(Parent(a));
    MovedWellFormed(RemoveUnder(disk, Trash(a)), a, Trash(a));
  }

  /** Setting `a` aside: a user's path goes if it is at or below `a`, a staged copy
      if its destination is. */
  lemma SetAsideShows(disk: Tree, a: EntryPath, q: Path)
    requires Named(a) && WellFormed(disk) && a in disk
    ensures Clean(q) ==> Find(SetAside(disk, a), q) == if a <= q then None else Find(disk, q)
    ensures Named(q) ==> Find(SetAside(disk, a), Tmp(q)) == if a < q then None else Find(disk, Tmp(q))
  {
    SideShape(TRASH, a);
    SetAsideAt(disk, a, q);
    if Named(q) {
      SetAsideAt(disk, a, Tmp(q));
      if Trash(a) <= Tmp(q) {
        SidesMeet(TRASH, a, TMP, q);
      }
      if a <= Tmp(q) {
        AboveSide(a, TMP, q);
      }
      assert a < q ==> a <= Parent(q) <= Tmp(q);
    }
  }

  ghost predicate TmpsReady(disk: Tree, dests: seq<EntryPath>, sources: Tree) {
    forall x: EntryPath :: x in dests ==> Named(x) && Find(disk, Tmp(x)) == Find(sources, x)
  }

  /** The user's tree at the start of a merge. */
  ghost predicate UserTree(start: Tree) {
    WellFormed(start) && forall q :: q in start ==> Clean(q)
  }

  /** `x` is neither a staged destination nor above or below one. */
  ghost predicate Apart(dests: set<Path>, x: Path) {
    !Covered(dests, x) && !AboveSome(dests, x)
  }

  /** No file that the merge keeps is in the way of the parents of `x`. */
  ghost predicate RoomAbove(start: Tree, tombs: set<Path>, x: Path) {
    forall q :: q in start && q < x && !Covered(tombs, q) ==> start[q].Dir?
  }

  ghost function SetOf(ps: seq<EntryPath>): set<Path> {
    set p | p in ps
  }

  lemma SetOfMore(ps: seq<EntryPath>, p: EntryPath)
    ensures SetOf(ps + [p]) == SetOf(ps) + {p}
  {
  }

  ghost predicate Staged(m: Merge, start: Tree, tombs: set<Path>, sources: Tree) {
    && UserTree(start)
    && WellFormed(m.disk) && NoTmpDirs(m.disk)
    && ShowsStaged(m.disk, start, tombs, SetOf(m.copies))
    && TmpsReady(m.disk, m.copies, sources)
    && (forall x :: x in m.copies ==> RoomAbove(start, tombs, x))
    && forall a :: a in m.deletes ==> Named(a) && a in start
  }

  lemma SetAsideNoTmpDirs(disk: Tree, a: EntryPath)
    requires Named(a) && WellFormed(disk) && a in disk && NoTmpDirs(disk)
    ensures NoTmpDirs(SetAside(disk, a))
  {
    forall x | Named(x)
      ensures Find(SetAside(disk, a), Tmp(x)) != Some(Dir)
    {
      SetAsideShows(disk, a, x);
    }
  }

  lemma DeleteStep(m: Merge, start: Tree, tombs: set<Path>, sources: Tree, a: EntryPath)
    requires Staged(m, start, tombs, sources) && m.copies == [] && Named(a)
    ensures Staged(StageDelete(m, a), start, tombs + {a}, sources)
    ensures a in m.disk <==> a in start && !Covered(tombs, a)
  {
    hide SetAside, NoTmpDirs, UserTree, WellFormed, RoomAbove;
    var m' := StageDelete(m, a);
    assert Find(m.disk, a) == StagedAt(start, tombs, {}, a);
    assert SetOf(m.copies) == {} && SetOf(m'.copies) == {};
    forall q | Clean(q)
      ensures Find(m'.disk, q) == StagedAt(start, tombs + {a}, {}, q)
    {
      assert Find(m.disk, q) == StagedAt(start, tombs, {}, q);
      assert Covered(tombs + {a}, q) <==> Covered(tombs, q) || a <= q;
      if a in m.disk {
        SetAsideShows(m.disk, a, q);
      } else if a < q {
        NothingBelowFile(m.disk, a, q);
      }
      assert a <= q ==> a == q || a < q;
    }
    if a in m.disk {
      SetAsideWellFormed(m.disk, a);
      SetAsideNoTmpDirs(m.disk, a);
    }
  }

  ghost function ClearedAt(m: Merge, start: Tree, tombs: set<Path>, x: Path, q: Path): Option<Entry> {
    if x <= q && Find(m.disk, x) == Some(Dir) then None else StagedAt(start, tombs, SetOf(m.copies), q)
  }

  /** With the destination cleared, the user sees the staged tree less whatever a
      directory at `x` held. */
  lemma ClearStep(m: Merge, start: Tree, tombs: set<Path>, sources: Tree, x: EntryPath)
    requires Staged(m, start, tombs, sources) && Named(x) && Apart(SetOf(m.copies), x)
    ensures var m1 := ClearDestination(m, x);
      && WellFormed(m1.disk) && NoTmpDirs(m1.disk) && TmpsReady(m1.disk, m.copies, sources) && m1.copies == m.copies
      && (forall q :: Clean(q) ==> Find(m1.disk, q) == ClearedAt(m, start, tombs, x, q))
      && (forall a :: a in m1.deletes ==> Named(a) && a in start)
  {
    hide WellFormed, UserTree, SetAside, RoomAbove, StagedAt, NoTmpDirs;
    var m1 := ClearDestination(m, x);
    assert Find(m.disk, x) == StagedAt(start, tombs, SetOf(m.copies), x);
    if Find(m.disk, x) == Some(Dir) {
      AtClearedDir(start, tombs, SetOf(m.copies), x);
      SetAsideWellFormed(m.disk, x);
      SetAsideNoTmpDirs(m.disk, x);
      forall y: EntryPath | y in m.copies
        ensures Find(m1.disk, Tmp(y)) == Find(sources, y)
      {
        SetAsideShows(m.disk, x, y);
        assert y in SetOf(m.copies);
      }
      forall q | Clean(q)
        ensures Find(m1.disk, q) == if x <= q then None else StagedAt(start, tombs, SetOf(m.copies), q)
      {
        SetAsideShows(m.disk, x, q);
        assert Find(m.disk, q) == StagedAt(start, tombs, SetOf(m.copies), q);
      }
    }
  }

  lemma WithTmpAt(disk: Tree, x: EntryPath, e: Entry, q: Path)
    requires Named(x)
    ensures Find(WithTmp(disk, x, e), q) ==
      if q == Tmp(x) then Some(e) else if q in disk then Some(disk[q]) else if q < x then Some(Dir) else None
  {
    WithParentsAt(disk, x, q);
    assert q < x <==> q <= Parent(x);
  }

  lemma WithTmpKeepsForm(disk: Tree, x: EntryPath, e: Entry)
    requires Named(x) && WellFormed(disk) && NoTmpDirs(disk) && CanCopy(disk, x) && !e.Dir?
    ensures WellFormed(WithTmp(disk, x, e)) && NoTmpDirs(WithTmp(disk, x, e))
  {
    var u := WithTmp(disk, x, e);
    SideShape(TMP, x);
    WithParentsWellFormed(disk, x);
    WithParentsAt(disk, x, []);
    forall p, q | p in u && q < p
      ensures Find(u, q) == Some(Dir)
    {
      WithParentsAt(disk, x, p);
      WithParentsAt(disk, x, q);
      assert p == Tmp(x) ==> q <= Parent(x);
    }
    WellFormedIf(u);
    forall y | Named(y)
      ensures Find(u, Tmp(y)) != Some(Dir)
    {
      WithTmpAt(disk, x, e, Tmp(y));
      SideShape(TMP, y);
      assert forall q :: q < x ==> Clean(q);
    }
  }

  /** Above `x` the user sees what the start had and the merge keeps, or directories. */
  lemma AboveAt(m: Merge, start: Tree, tombs: set<Path>, sources: Tree, x: EntryPath, q: Path)
    requires Staged(m, start, tombs, sources) && Named(x) && Apart(SetOf(m.copies), x) && q < x
    ensures Find(ClearDestination(m, x).disk, q) == StagedAt(start, tombs, SetOf(m.copies), q)
    ensures q in start && !Covered(tombs, q) ==> Find(ClearDestination(m, x).disk, q) == Some(start[q])
    ensures !(q in start && !Covered(tombs, q)) ==> Find(ClearDestination(m, x).disk, q) in {None, Some(Dir)}
  {
    ClearStep(m, start, tombs, sources, x);
    assert Clean(q) && !(x <= q);
    assert Find(ClearDestination(m, x).disk, q) == ClearedAt(m, start, tombs, x, q);
    assert forall y :: y in SetOf(m.copies) && y <= q ==> y <= x;
    if AboveSome(SetOf(m.copies), q) {
      var y :| y in SetOf(m.copies) && q < y;
      assert RoomAbove(start, tombs, y);
    }
  }

  /** The parents of `x` can be made exactly when no kept file is in their way. */
  lemma RoomStep(m: Merge, start: Tree, tombs: set<Path>, sources: Tree, x: EntryPath)
    requires Staged(m, start, tombs, sources) && Named(x) && Apart(SetOf(m.copies), x)
    ensures CanCopy(ClearDestination(m, x).disk, x) <==> RoomAbove(start, tombs, x)
  {
    var disk := ClearDestination(m, x).disk;
    ClearStep(m, start, tombs, sources, x);
    forall q | q < x
      ensures q in disk && !disk[q].Dir? <==> q in start && !Covered(tombs, q) && !start[q].Dir?
    {
      AboveAt(m, start, tombs, sources, x, q);
    }
    assert forall q :: q in disk ==> (q <= Parent(x) <==> q < x);
  }

  /** What staging `x` changes for the user: directories above it, nothing below it. */
  lemma CopyShows(m: Merge, start: Tree, tombs: set<Path>, sources: Tree, x: EntryPath, e: Entry, q: Path)
    requires Staged(m, start, tombs, sources) && Named(x) && Apart(SetOf(m.copies), x) && Clean(q)
    requires RoomAbove(start, tombs, x)
    ensures Find(WithTmp(ClearDestination(m, x).disk, x, e), q) == StagedAt(start, tombs, SetOf(m.copies) + {x}, q)
  {
    hide Staged, WithTmp, ClearDestination, NoTmpDirs, UserTree, WellFormed;
    var disk := ClearDestination(m, x).disk;
    ClearStep(m, start, tombs, sources, x);
    SideShape(TMP, x);
    WithTmpAt(disk, x, e, q);
    assert Find(disk, q) == ClearedAt(m, start, tombs, x, q);
    assert AboveSome(SetOf(m.copies) + {x}, q) <==> AboveSome(SetOf(m.copies), q) || q < x;
    assert Covered(SetOf(m.copies) + {x}, q) <==> Covered(SetOf(m.copies), q) || x <= q;
    if q < x {
      AboveAt(m, start, tombs, sources, x, q);
    } else if x <= q {
      BelowStaged(m, start, tombs, sources, x, q);
    }
  }

  lemma BelowStaged(m: Merge, start: Tree, tombs: set<Path>, sources: Tree, x: EntryPath, q: Path)
    requires Staged(m, start, tombs, sources) && Named(x) && Apart(SetOf(m.copies), x) && Clean(q) && x <= q
    ensures !AboveSome(SetOf(m.copies), q)
    ensures ClearedAt(m, start, tombs, x, q) ==
      if q == x && q in start && !Covered(tombs, q) && !start[q].Dir? then Some(start[q]) else None
  {
    assert forall y :: y in SetOf(m.copies) && q < y ==> x < y;
    assert Find(m.disk, x) == StagedAt(start, tombs, SetOf(m.copies), x);
    if x < q && Find(m.disk, x) != Some(Dir) {
      NothingBelowFile(m.disk, x, q);
      assert Find(m.disk, q) == StagedAt(start, tombs, SetOf(m.copies), q);
    } else if Find(m.disk, x) != Some(Dir) {
      assert q == x;
      assert !Covered(SetOf(m.copies), x);
    } else {
      AtClearedDir(start, tombs, SetOf(m.copies), x);
    }
  }

  lemma AtClearedDir(start: Tree, tombs: set<Path>, dests: set<Path>, x: Path)
    requires Apart(dests, x) && StagedAt(start, tombs, dests, x) == Some(Dir)
    ensures x in start && start[x].Dir?
  {
  }

  lemma NothingBelowFile(disk: Tree, x: Path, q: Path)
    requires WellFormed(disk) && x < q && Find(disk, x) != Some(Dir)
    ensures q !in disk
  {
  }

  lemma CopyStep(m: Merge, start: Tree, tombs: set<Path>, sources: Tree, x: EntryPath)
    requires Staged(m, start, tombs, sources) && Named(x) && Apart(SetOf(m.copies), x)
    requires x in sources && !sources[x].Dir?
    ensures StageCopy(m, x, sources[x]).Some? <==> RoomAbove(start, tombs, x)
    ensures StageCopy(m, x, sources[x]).Some? ==> Staged(StageCopy(m, x, sources[x]).value, start, tombs, sources)
  {
    hide WithTmp, ClearDestination, UserTree, WellFormed, NoTmpDirs, StagedAt, RoomAbove, CanCopy;
    RoomStep(m, start, tombs, sources, x);
    if RoomAbove(start, tombs, x) {
      var m1 := ClearDestination(m, x);
      var m2 := StageCopy(m, x, sources[x]).value;
      ClearStep(m, start, tombs, sources, x);
      WithTmpKeepsForm(m1.disk, x, sources[x]);
      assert SetOf(m2.copies) == SetOf(m.copies) + {x};
      forall q | Clean(q)
        ensures Find(m2.disk, q) == StagedAt(start, tombs, SetOf(m2.copies), q)
      {
        CopyShows(m, start, tombs, sources, x, sources[x], q);
      }
      forall y: EntryPath | y in m2.copies
        ensures Named(y) && Find(m2.disk, Tmp(y)) == Find(sources, y)
      {
        WithTmpAt(m1.disk, x, sources[x], Tmp(y));
        if y != x && Tmp(y) == Tmp(x) {
          SidesMeet(TMP, x, TMP, y);
        }
      }
    }
  }

  ghost predicate Paths(ps: seq<EntryPath>) {
    forall i :: 0 <= i < |ps| ==> Named(ps[i])
  }

  /** Staging any list of deletions, in any order, leaves the user the start without
      the listed subtrees. */
  lemma {:induction false} DeletesStaged(disk: Tree, start: Tree, sources: Tree, targets: seq<EntryPath>)
    requires Staged(Merge(disk, [], []), start, {}, sources) && Paths(targets)
    ensures Staged(StageDeletes(Merge(disk, [], []), targets), start, SetOf(targets), sources)
    ensures StageDeletes(Merge(disk, [], []), targets).copies == []
  {
    hide Staged, SetAside;
    if targets == [] {
      assert SetOf(targets) == {};
    } else {
      var n := |targets| - 1;
      DeletesStaged(disk, start, sources, targets[..n]);
      DeleteStep(StageDeletes(Merge(disk, [], []), targets[..n]), start, SetOf(targets[..n]), sources, targets[n]);
      assert targets == targets[..n] + [targets[n]];
      assert SetOf(targets) == SetOf(targets[..n]) + {targets[n]};
    }
  }

  ghost predicate Distinct(ps: seq<EntryPath>) {
    forall i, j :: 0 <= i < j < |ps| ==> ps[i] != ps[j]
  }

  /** A list of copies: distinct user paths, none below another, each with a file. */
  ghost predicate CopyList(dests: seq<EntryPath>, sources: Tree) {
    && Paths(dests) && Distinct(dests) && Antichain(SetOf(dests))
    && forall i :: 0 <= i < |dests| ==> dests[i] in sources && !sources[dests[i]].Dir?
  }

  lemma CopyListPrefix(dests: seq<EntryPath>, sources: Tree)
    requires CopyList(dests, sources) && dests != []
    ensures CopyList(dests[..|dests| - 1], sources)
    ensures Apart(SetOf(dests[..|dests| - 1]), dests[|dests| - 1])
    ensures SetOf(dests) == SetOf(dests[..|dests| - 1]) + {dests[|dests| - 1]}
  {
    var n := |dests| - 1;
    assert dests == dests[..n] + [dests[n]];
    assert SetOf(dests[..n]) <= SetOf(dests);
    var x := dests[n];
    forall y | y in SetOf(dests[..n])
      ensures !(y <= x) && !(x < y)
    {
      assert y in SetOf(dests) && x in SetOf(dests);
      assert y <= x ==> y == x || y < x;
    }
  }

  ghost predicate RoomForAll(start: Tree, tombs: set<Path>, dests: seq<EntryPath>) {
    forall i :: 0 <= i < |dests| ==> RoomAbove(start, tombs, dests[i])
  }

  lemma RoomForMore(start: Tree, tombs: set<Path>, dests: seq<EntryPath>)
    requires dests != []
    ensures var n := |dests| - 1;
      RoomForAll(start, tombs, dests) <==> RoomForAll(start, tombs, dests[..n]) && RoomAbove(start, tombs, dests[n])
  {
    hide RoomAbove;
  }

  lemma CopyAppends(m: Merge, x: EntryPath, e: Entry)
    ensures StageCopy(m, x, e).Some? ==> StageCopy(m, x, e).value.copies == m.copies + [x]
  {
  }

  lemma LastIsNamed(dests: seq<EntryPath>, sources: Tree)
    requires CopyList(dests, sources) && dests != []
    ensures var x := dests[|dests| - 1]; Named(x) && x in sources && !sources[x].Dir?
  {
  }

  /** Staging the copies succeeds exactly when no kept file is in the way of one. */
  lemma {:induction false} CopiesStaged(m: Merge, start: Tree, tombs: set<Path>, sources: Tree, dests: seq<EntryPath>)
    requires Staged(m, start, tombs, sources) && m.copies == [] && CopyList(dests, sources)
    ensures StageCopies(m, dests, sources).Some? <==> RoomForAll(start, tombs, dests)
    ensures StageCopies(m, dests, sources).Some? ==>
      Staged(StageCopies(m, dests, sources).value, start, tombs, sources) &&
      StageCopies(m, dests, sources).value.copies == dests
  {
    hide Staged, RoomAbove, StageCopy, RoomForAll, Named, Apart;
    if dests == [] {
      assert RoomForAll(start, tombs, dests) by { NoRoomNeeded(start, tombs); }
    } else {
      var n := |dests| - 1;
      CopyListPrefix(dests, sources);
      CopiesStaged(m, start, tombs, sources, dests[..n]);
      RoomForMore(start, tombs, dests);
      LastIsNamed(dests, sources);
      var before := StageCopies(m, dests[..n], sources);
      if before.Some? {
        CopyStep(before.value, start, tombs, sources, dests[n]);
        CopyAppends(before.value, dests[n], sources[dests[n]]);
        assert dests == dests[..n] + [dests[n]];
      }
    }
  }

  lemma NoRoomNeeded(start: Tree, tombs: set<Path>)
    ensures RoomForAll(start, tombs, [])
  {
  }

  // ----- the whole staging phase -----

  ghost function StageMerge(start: Tree, targets: seq<EntryPath>, dests: seq<EntryPath>, sources: Tree): Option<Merge>
    requires CopyList(dests, sources)
  {
    StageCopies(StageDeletes(Merge(start, [], []), targets), dests, sources)
  }
}
