/** The edits of one branch: what each call does to its deltas, tombstones, touch
    records and to the quota's byte count. `inh` is the entry the branch inherits at
    the edited path, hidden paths left out. */
module Edits {
  import opened FileTree
  import opened Layers
  import opened Sums

  const MAX_TEXT_MERGE_BYTES := 1024 * 1024
  const U64_LIMIT := 0x1_0000_0000_0000_0000

  datatype Error =
    | NotFound | AlreadyExists | ParentNotFound | CannotOperateOnMain | NotALeaf
    | Frozen | InvalidOffset | FileTooLarge | NoSpace | NoEntry | NotADirectory | NotEmpty | Exists | Io | Panicked

  datatype Result<+T> = Success(value: T) | Failure(error: Error)

  function SizeOf(e: Entry): nat {
    match e
    case Dir => 0
    case File(data) => |data|
    case Symlink(target) => |target|
  }

  /** The bytes of a delta tree that the quota counts. */
  ghost function Size(t: Tree): nat {
    Sum(map p | p in t :: SizeOf(t[p]))
  }

  function Under(t: Tree, top: Path): Tree {
    map p | p in t && top <= p :: t[p]
  }

  function IdentityOf(e: Option<Entry>): Identity {
    match e
    case None => Identity(Missing, 0)
    case Some(Dir) => Identity(Directory, 0)
    case Some(File(data)) => Identity(Regular, |data|)
    case Some(Symlink(_)) => Identity(Link, 0)
  }

  /** The content kept for a later three-way merge: short files without NUL bytes. */
  function BoundedText(e: Option<Entry>): Option<seq<byte>> {
    if e.Some? && e.value.File? && |e.value.data| <= MAX_TEXT_MERGE_BYTES && 0 !in e.value.data
    then Some(e.value.data) else None
  }

  function FirstTouch(touches: map<Path, Touch>, p: Path, inh: Option<Entry>, capture: bool): map<Path, Touch> {
    if p in touches then touches
    else touches[p := Touch(p, IdentityOf(inh), if capture then BoundedText(inh) else None)]
  }

  function RecordOf(touches: map<Path, Touch>, p: Path): Option<Touch> {
    if p in touches then Some(touches[p]) else None
  }

  // ----- removing deltas -----

  /** rmdir succeeds: an empty directory. */
  predicate CanRmdir(files: Tree, d: Path) {
    d in files && files[d].Dir? && forall q | q in files :: !(d < q)
  }

  /** An empty delta directory that the branch did not touch as such. */
  predicate CanPrune(files: Tree, touches: map<Path, Touch>, d: Path) {
    d != [] && d !in touches && CanRmdir(files, d)
  }

  /** Remove `d` and then its ancestors as long as they are empty and untouched. */
  function Pruned(files: Tree, touches: map<Path, Touch>, d: Path): Tree
    decreases |d|
  {
    if CanPrune(files, touches, d) then Pruned(files - {d}, touches, Parent(d)) else files
  }

  function WithoutDelta(files: Tree, touches: map<Path, Touch>, p: Path): Tree
    requires p != []
  {
    if p in files then Pruned(RemoveUnder(files, p), touches, Parent(p)) else files
  }

  lemma RmdirShrinks(files: Tree, d: Path)
    requires WellFormed(files) && d != [] && CanRmdir(files, d)
    ensures Shrinks(files, files - {d})
  {
  }

  lemma ShrinksTransitive(a: Tree, b: Tree, c: Tree)
    requires Shrinks(a, b) && Shrinks(b, c)
    ensures Shrinks(a, c)
  {
  }

  lemma {:induction false} PrunedShrinks(files: Tree, touches: map<Path, Touch>, d: Path)
    requires WellFormed(files)
    ensures Shrinks(files, Pruned(files, touches, d))
    decreases |d|
  {
    if CanPrune(files, touches, d) {
      RmdirShrinks(files, d);
      PrunedShrinks(files - {d}, touches, Parent(d));
      ShrinksTransitive(files, files - {d}, Pruned(files - {d}, touches, Parent(d)));
    }
  }

  /** Pruning touches nothing but `d` and what is above it. */
  lemma {:induction false} PrunedOnlyAbove(files: Tree, touches: map<Path, Touch>, d: Path, q: Path)
    requires !(q <= d)
    ensures Find(Pruned(files, touches, d), q) == Find(files, q)
    decreases |d|
  {
    if CanPrune(files, touches, d) {
      PrunedOnlyAbove(files - {d}, touches, Parent(d), q);
    }
  }

  /** `d` lies on the way from the root to `start`, there is nothing below it but the rest
      of the way, and no directory from `d` to `start` is touched. */
  ghost predicate OnlyWay(files: Tree, touches: map<Path, Touch>, start: Path, d: Path) {
    && d != [] && d <= start && d in files && start in files
    && (forall q :: q in files && d < q ==> q <= start)
    && (forall e :: e in files && d <= e && e <= start ==> files[e].Dir? && e !in touches)
  }

  /** Exactly such directories are pruned. */
  lemma {:induction false} PrunedIff(files: Tree, touches: map<Path, Touch>, start: Path, d: Path)
    requires WellFormed(files)
    ensures d in files && d !in Pruned(files, touches, start) <==> OnlyWay(files, touches, start, d)
    decreases |start|
  {
    if CanPrune(files, touches, start) {
      RmdirShrinks(files, start);
      PrunedShrinks(files - {start}, touches, Parent(start));
      PrunedIff(files - {start}, touches, Parent(start), d);
      OneStepUp(files, touches, start, d);
    } else if OnlyWay(files, touches, start, d) {
      assert CanRmdir(files, start);
    }
  }

  lemma OneStepUp(files: Tree, touches: map<Path, Touch>, start: Path, d: Path)
    requires WellFormed(files) && CanPrune(files, touches, start)
    ensures OnlyWay(files, touches, start, d) <==> d == start || OnlyWay(files - {start}, touches, Parent(start), d)
  {
    assert Parent(start) < start;
    UpToParent(start, d);
    forall q | q in files
      ensures q <= start <==> q == start || q <= Parent(start)
      ensures start <= q && q <= start ==> q == start
    {
      UpToParent(start, q);
    }
    if d != start && OnlyWay(files, touches, start, d) {
      assert OnlyWay(files - {start}, touches, Parent(start), d);
    }
    if OnlyWay(files - {start}, touches, Parent(start), d) {
      assert forall q :: q in files && q != start ==> q in files - {start};
      assert OnlyWay(files, touches, start, d);
    }
    assert OnlyWay(files, touches, start, start);
  }

  lemma UpToParent(p: Path, q: Path)
    requires p != []
    ensures q <= p <==> q == p || q <= Parent(p)
    ensures q < p <==> q <= Parent(p)
  {
  }

  /** Pruning goes on until nothing at its start, or anywhere else where there was
      nothing to prune before, can be pruned. */
  lemma {:induction false} PrunedCompletely(files: Tree, touches: map<Path, Touch>, d: Path, e: Path)
    requires WellFormed(files) && (e == d || !CanPrune(files, touches, e))
    ensures !CanPrune(Pruned(files, touches, d), touches, e)
    decreases |d|
  {
    if CanPrune(files, touches, d) {
      RmdirShrinks(files, d);
      if e != d && e != Parent(d) {
        StillNotPrunable(files, touches, d, e);
      }
      PrunedCompletely(files - {d}, touches, Parent(d), e);
    }
  }

  /** Only its parent can become empty when `d` goes. */
  lemma StillNotPrunable(files: Tree, touches: map<Path, Touch>, d: Path, e: Path)
    requires WellFormed(files) && CanPrune(files, touches, d) && e != d && e != Parent(d)
    requires !CanPrune(files, touches, e)
    ensures !CanPrune(files - {d}, touches, e)
  {
    if e < d {
      assert e <= Parent(d);
      assert e < Parent(d) && Parent(d) < d;
      assert Parent(d) in files - {d};
    } else {
      assert forall q :: q in files && e < q ==> q in files - {d};
    }
  }

  // ----- pruning above several deletions -----

  /** At and below `d` there are only untouched directories, each above something in
      `gone`. */
  ghost predicate Hollow(files: Tree, touches: map<Path, Touch>, gone: set<Path>, d: Path) {
    && d in files && d != []
    && forall q :: q in files && d <= q ==> files[q].Dir? && q !in touches && AboveSome(gone, q)
  }

  ghost function WithoutHollow(files: Tree, touches: map<Path, Touch>, gone: set<Path>): Tree {
    map q | q in files && !Hollow(files, touches, gone, q) :: files[q]
  }

  lemma WithoutHollowShrinks(files: Tree, touches: map<Path, Touch>, gone: set<Path>)
    requires WellFormed(files)
    ensures Shrinks(files, WithoutHollow(files, touches, gone))
  {
    var left := WithoutHollow(files, touches, gone);
    forall p, q | p in left && q < p
      ensures Find(left, q) == Some(Dir)
    {
      if Hollow(files, touches, gone, q) {
        assert forall r :: r in files && p <= r ==> q <= r;
        assert Hollow(files, touches, gone, p);
      }
    }
    WellFormedIf(left);
  }

  // ----- quota arithmetic -----

  lemma SizeOfParts(t: Tree, top: Path)
    ensures Size(t) == Size(RemoveUnder(t, top)) + Size(Under(t, top))
  {
    hide Sum, SizeOf;
    var m := map p | p in t :: SizeOf(t[p]);
    var below := set p | p in t && top <= p;
    SumSplit(m, below);
    assert m - below == map p | p in RemoveUnder(t, top) :: SizeOf(RemoveUnder(t, top)[p]);
    assert Restricted(m, below) == map p | p in Under(t, top) :: SizeOf(Under(t, top)[p]);
  }

  lemma SizeUpdate(t: Tree, p: Path, e: Entry)
    ensures Size(t[p := e]) == Size(t) - (if p in t then SizeOf(t[p]) else 0) + SizeOf(e)
  {
    var m := map q | q in t :: SizeOf(t[q]);
    var u := t[p := e];
    assert (map q | q in u :: SizeOf(u[q])) == m[p := SizeOf(e)];
    SumUpdate(m, p, SizeOf(e));
    if p in t {
      SumWithout(m, p);
    } else {
      assert m - {p} == m;
    }
  }

  /** Directories weigh nothing. */
  lemma SizeOfLeaves(t: Tree, u: Tree)
    requires Leaves(t) == Leaves(u)
    ensures Size(t) == Size(u)
  {
    SizeIsLeaves(t);
    SizeIsLeaves(u);
  }

  lemma SizeIsLeaves(t: Tree)
    ensures Size(t) == Size(Leaves(t))
  {
    var m := map p | p in t :: SizeOf(t[p]);
    var dirs := set p | p in t && t[p].Dir?;
    SumSplit(m, dirs);
    SumZero(Restricted(m, dirs));
    assert m - dirs == map p | p in Leaves(t) :: SizeOf(Leaves(t)[p]);
  }

  lemma ShrinksSameSize(t: Tree, u: Tree)
    requires Shrinks(t, u)
    ensures Size(t) == Size(u) && Leaves(t) == Leaves(u)
  {
    assert Leaves(t) == Leaves(u);
    SizeOfLeaves(t, u);
  }

  /** Whether `additional` more bytes fit; a negative count reads as a huge one. */
  predicate QuotaAllows(max: Option<nat>, used: int, additional: nat) {
    max.Some? ==> (if used < 0 then used + U64_LIMIT else used) + additional <= max.value
  }

  // ----- the edits -----

  datatype Done<+T> = Done(layer: Layer, used: int, result: Result<T>)

  /** Delete: the deltas at and below the path go, and a tombstone hides what is
      inherited there, if anything is. */
  ghost function DeleteEdit(b: Layer, used: int, inh: Option<Entry>, p: Path): Done<()>
    requires p != []
  {
    if b.frozen then Done(b, used, Failure(Frozen)) else
      var touches := FirstTouch(b.touches, p, inh, false);
      Done(b.(touches := touches,
              files := WithoutDelta(b.files, touches, p),
              tombs := if inh.Some? then b.tombs + {p} else b.tombs - {p}),
           used - Size(Under(b.files, p)), Success(()))
  }

  function NotUnder(s: set<Path>, p: Path): set<Path> {
    set t | t in s && !(p <= t)
  }

  /** The string test on paths: the root has nothing in it but itself. */
  predicate InPath(q: Path, p: Path) {
    if p == [] then q == [] else p <= q
  }

  function WithoutUnder(touches: map<Path, Touch>, p: Path): map<Path, Touch> {
    map q | q in touches && !InPath(q, p) :: touches[q]
  }

  /** Revert: the deltas, tombstones and touch records at and below the path go. */
  ghost function RevertEdit(b: Layer, used: int, p: Path): Done<()>
    requires p != []
  {
    if b.frozen then Done(b, used, Failure(Frozen)) else
      Done(b.(files := WithoutDelta(b.files, b.touches, p),
              tombs := NotUnder(b.tombs, p),
              touches := WithoutUnder(b.touches, p)),
           used - Size(Under(b.files, p)), Success(()))
  }

  /** Bring the path into the deltas for writing: an inherited file or symlink is
      copied up, a tombstone at the path goes. */
  ghost function EnsureEdit(b: Layer, used: int, max: Option<nat>, inh: Option<Entry>, p: Path): Done<()>
    requires p != []
  {
    if b.frozen then Done(b, used, Failure(Frozen))
    else if p in b.files then
      Done(b.(tombs := b.tombs - {p}), used, Success(()))
    else
      var b1 := b.(touches := FirstTouch(b.touches, p, inh, true));
      if inh.Some? && !inh.value.Dir? then
        if !QuotaAllows(max, used, SizeOf(inh.value)) then Done(b1, used, Failure(NoSpace))
        else if !ParentsOk(b.files, p) then Done(b1, used, Failure(Io))
        else
          Done(b1.(files := WithParents(b.files, p)[p := inh.value], tombs := b.tombs - {p}),
               used + SizeOf(inh.value), Success(()))
      else if !ParentsOk(b.files, p) then Done(b1.(tombs := b.tombs - {p}), used, Failure(Io))
      else Done(b1.(files := WithParents(b.files, p), tombs := b.tombs - {p}), used, Success(()))
  }

  /** pwrite: the data over the old content, a gap filled with zeros; an empty write
      leaves the content alone. */
  function Overwrite(content: seq<byte>, offset: nat, data: seq<byte>): seq<byte> {
    if data == [] then content
    else seq(Max(|content|, offset + |data|), i requires 0 <= i =>
           if offset <= i < offset + |data| then data[i - offset]
           else if i < |content| then content[i] else 0)
  }

  function Max(a: nat, b: nat): nat {
    if a < b then b else a
  }

  /** Write to a path that is not a symlink, here or inherited. The first write to an
      inherited file writes a private copy and renames it into the deltas. */
  ghost function WriteEdit(b: Layer, used: int, max: Option<nat>, inh: Option<Entry>, p: Path, offset: int, data: seq<byte>): Done<nat>
    requires p != []
  {
    if offset < 0 then Done(b, used, Failure(InvalidOffset))
    else if offset + |data| >= U64_LIMIT then Done(b, used, Failure(FileTooLarge))
    else if b.frozen then Done(b, used, Failure(Frozen))
    else if p in b.files then WriteInPlace(b.(tombs := b.tombs - {p}), used, max, p, offset, data)
    else
      var b1 := b.(touches := FirstTouch(b.touches, p, inh, true));
      if inh.Some? && inh.value.File? then
        var content := Overwrite(inh.value.data, offset, data);
        if !QuotaAllows(max, used, Max(|inh.value.data|, offset + |data|)) then Done(b1, used, Failure(NoSpace))
        else if !ParentsOk(b.files, p) then Done(b1, used, Failure(Io))
        else
          Done(b1.(files := WithParents(b.files, p)[p := File(content)], tombs := b.tombs - {p}),
               used + |content|, Success(|data|))
      else if !ParentsOk(b.files, p) then Done(b1, used, Failure(Io))
      else
        WriteInPlace(b1.(files := WithParents(b.files, p), tombs := b.tombs - {p}), used, max, p, offset, data)
  }

  /** Write to a delta, or create it; a directory cannot be opened for writing. */
  ghost function WriteInPlace(b: Layer, used: int, max: Option<nat>, p: Path, offset: nat, data: seq<byte>): Done<nat> {
    if p in b.files && !b.files[p].File? then Done(b, used, Failure(Io)) else
      var before := if p in b.files then b.files[p].data else [];
      var content := Overwrite(before, offset, data);
      if offset + |data| > |before| && !QuotaAllows(max, used, offset + |data| - |before|) then Done(b, used, Failure(NoSpace))
      else Done(b.(files := b.files[p := File(content)]), used + |content| - |before|, Success(|data|))
  }
}
