/** The steps of a first write to a path, and writes one after the other. */
module CopyUp {
  import opened FileTree
  import opened Layers
  import opened Edits
  import opened EditLaws
  import opened EditRuns
  import opened OpenLaws

  // ----- every step of the first write -----

  /** Making the parent directories of `p`, top-down. */
  ghost function ParentSteps(b: Layer, p: Path): seq<Layer> {
    seq(|p|, k requires 0 <= k < |p| => b.(files := WithParents(b.files, p[..k + 1])))
  }

  /** The states of the branch on disk during a successful first write: the touch is
      recorded, parents are made, then either the private copy, already overwritten, is
      renamed into the deltas and the tombstone goes, or the tombstone goes and an empty
      file is created and written. */
  ghost function WriteSteps(b: Layer, inh: Option<Entry>, p: Path, offset: nat, data: seq<byte>): seq<Layer> {
    var touched := b.(touches := FirstTouch(b.touches, p, inh, true));
    var ready := touched.(files := WithParents(b.files, p));
    [b, touched] + ParentSteps(touched, p) + FileSteps(ready, inh, p, Overwrite(WriteBase(b, inh, p), offset, data))
  }

  ghost function FileSteps(ready: Layer, inh: Option<Entry>, p: Path, content: seq<byte>): seq<Layer> {
    var placed := ready.(files := ready.files[p := File(content)]);
    var shown := ready.(tombs := ready.tombs - {p});
    if inh.Some? && inh.value.File? then [placed, placed.(tombs := ready.tombs - {p})]
    else [shown, shown.(files := ready.files[p := File([])]), shown.(files := ready.files[p := File(content)])]
  }

  lemma WriteStepsEnd(b: Layer, used: int, max: Option<nat>, inh: Option<Entry>, p: Path, offset: nat, data: seq<byte>)
    requires p != [] && p !in b.files && (inh.Some? ==> !inh.value.Symlink?)
    requires WriteEdit(b, used, max, inh, p, offset, data).result.Success?
    ensures var steps := WriteSteps(b, inh, p, offset, data);
      steps[|steps| - 1] == WriteEdit(b, used, max, inh, p, offset, data).layer
  {
    WithParentsAt(b.files, p, p);
  }

  /** No file of the path yet, and directories where the view has them. */
  ghost predicate Early(b: Layer, s: Layer, p: Path) {
    && s.hides == b.hides && b.tombs - {p} <= s.tombs <= b.tombs
    && forall q :: Find(s.files, q) == Find(b.files, q) || (q < p && q !in b.files && Find(s.files, q) == Some(Dir))
  }

  /** The path's file is placed, with some content. */
  ghost predicate Late(b: Layer, s: Layer, p: Path, content: seq<byte>) {
    PlacedIn(b, s, p, File(content))
  }

  lemma StepsAreEarlyOrLate(b: Layer, inh: Option<Entry>, p: Path, offset: nat, data: seq<byte>, i: nat)
    requires LayerOk(b) && p != [] && p !in b.files && ParentsOk(b.files, p)
    requires i < |WriteSteps(b, inh, p, offset, data)|
    ensures var s := WriteSteps(b, inh, p, offset, data)[i];
      || Early(b, s, p) || Late(b, s, p, Overwrite(WriteBase(b, inh, p), offset, data))
      || (!(inh.Some? && inh.value.File?) && Late(b, s, p, []))
  {
    hide Late, FirstTouch, Overwrite, WellFormed, ParentsOk;
    var s := WriteSteps(b, inh, p, offset, data)[i];
    if i >= |p| + 2 {
      var ready := b.(touches := FirstTouch(b.touches, p, inh, true), files := WithParents(b.files, p));
      FileStepIsEarlyOrLate(b, ready, inh, p, Overwrite(WriteBase(b, inh, p), offset, data), i - |p| - 2);
    } else if i >= 2 {
      EarlyParents(b, s, p, i - 1);
    }
  }

  lemma FileStepIsEarlyOrLate(b: Layer, ready: Layer, inh: Option<Entry>, p: Path, content: seq<byte>, j: nat)
    requires LayerOk(b) && p != [] && p !in b.files && ParentsOk(b.files, p)
    requires ready.files == WithParents(b.files, p) && ready.hides == b.hides && ready.tombs == b.tombs
    requires j < |FileSteps(ready, inh, p, content)|
    ensures var s := FileSteps(ready, inh, p, content)[j];
      Early(b, s, p) || Late(b, s, p, content) || (!(inh.Some? && inh.value.File?) && Late(b, s, p, []))
  {
    var s := FileSteps(ready, inh, p, content)[j];
    assert p[..|p|] == p;
    if s.files == ready.files {
      EarlyParents(b, s, p, |p|);
    } else if s.files == ready.files[p := File(content)] {
      LateFile(b, s, p, content);
    } else {
      LateFile(b, s, p, []);
    }
  }

  lemma LateFile(b: Layer, s: Layer, p: Path, content: seq<byte>)
    requires LayerOk(b) && p != [] && p !in b.files && ParentsOk(b.files, p)
    requires s.files == WithParents(b.files, p)[p := File(content)] && s.hides == b.hides && b.tombs - {p} <= s.tombs <= b.tombs
    ensures Late(b, s, p, content)
  {
    forall q
      ensures Find(s.files, q) ==
        if q == p then Some(File(content)) else if p < q then None else if q < p then Some(Dir) else Find(b.files, q)
    {
      WithParentsAt(b.files, p, q);
    }
  }

  lemma EarlyParents(b: Layer, s: Layer, p: Path, k: nat)
    requires k <= |p| && s.files == WithParents(b.files, p[..k]) && s.hides == b.hides && b.tombs - {p} <= s.tombs <= b.tombs
    ensures Early(b, s, p)
  {
    forall q
      ensures Find(s.files, q) == Find(b.files, q) || (q < p && q !in b.files && Find(s.files, q) == Some(Dir))
    {
      WithParentsAt(b.files, p[..k], q);
    }
  }

  // ----- what the steps show -----

  /** Until the file is there the view is the one before, except that dropping a tombstone
      may show more below it. */
  lemma EarlyWithTombShowsNothing(b: Layer, s: Layer, inherited: Tree, p: Path)
    requires Early(b, s, p) && s.tombs == b.tombs && AboveVisible(b, inherited, p)
    ensures Overlaid(s, inherited) == Overlaid(b, inherited)
  {
    forall q
      ensures Find(Overlaid(s, inherited), q) == Find(Overlaid(b, inherited), q)
    {
      OverlaidAt(b, inherited, q);
      OverlaidAt(s, inherited, q);
      if Find(s.files, q) != Find(b.files, q) {
        assert q < p;
      }
    }
    SameTree(Overlaid(s, inherited), Overlaid(b, inherited));
  }

  /** A step shows the old files, or these with the new content or, where no file is
      inherited, with an empty file at the path. */
  ghost predicate Atomic(b: Layer, s: Layer, inherited: Tree, p: Path, offset: nat, data: seq<byte>) {
    var v, w, inh := Overlaid(b, inherited), Overlaid(s, inherited), InheritedAt(b, inherited, p);
    || Files(w) == Files(v)
    || Files(w) == Files(v)[p := File(Overwrite(WriteBase(b, inh, p), offset, data))]
    || (!(inh.Some? && inh.value.File?) && Files(w) == Files(v)[p := File([])])
  }

  /** A path that can be written: its directories are there, it is a file or missing, and no
      symlink would be followed. */
  ghost predicate Writable(b: Layer, inherited: Tree, p: Path) {
    && LayerOk(b) && p != [] && PrefixClosed(inherited) && AboveVisible(b, inherited, p)
    && (p in Overlaid(b, inherited) ==> Overlaid(b, inherited)[p].File?)
    && (p !in b.files && InheritedAt(b, inherited, p).Some? ==> !InheritedAt(b, inherited, p).value.Symlink?)
  }

  /** During a first write to a file or a missing path, deleted or not, every intermediate
      state shows all other files as before, and at the path the whole old or the whole new
      content: exactly when dropping the tombstone of a deleted directory, before the file
      is created in its place, does not show a file below it. */
  lemma FirstWriteIsAtomicIff(b: Layer, inherited: Tree, p: Path, offset: nat, data: seq<byte>)
    requires Writable(b, inherited, p) && p !in b.files && ParentsOk(b.files, p)
    ensures var steps := WriteSteps(b, InheritedAt(b, inherited, p), p, offset, data);
      (forall i :: 0 <= i < |steps| ==> Atomic(b, steps[i], inherited, p, offset, data)) <==>
        forall x :: !Reveals(b, inherited, p, x)
  {
    hide Files, Overlaid, Reveals, Atomic, Early, Late;
    var inh := InheritedAt(b, inherited, p);
    var steps := WriteSteps(b, inh, p, offset, data);
    if forall x :: !Reveals(b, inherited, p, x) {
      forall i | 0 <= i < |steps|
        ensures Atomic(b, steps[i], inherited, p, offset, data)
      {
        StepIsAtomic(b, inherited, p, offset, data, i);
      }
    } else {
      var x :| Reveals(b, inherited, p, x);
      var i := ShownStep(b, inherited, p, offset, data, x);
    }
  }

  lemma StepIsAtomic(b: Layer, inherited: Tree, p: Path, offset: nat, data: seq<byte>, i: nat)
    requires Writable(b, inherited, p) && p !in b.files && ParentsOk(b.files, p)
    requires i < |WriteSteps(b, InheritedAt(b, inherited, p), p, offset, data)|
    requires forall x :: !Reveals(b, inherited, p, x)
    ensures Atomic(b, WriteSteps(b, InheritedAt(b, inherited, p), p, offset, data)[i], inherited, p, offset, data)
  {
    hide Files, Overlaid, Reveals, Early, Late;
    var inh := InheritedAt(b, inherited, p);
    var s := WriteSteps(b, inh, p, offset, data)[i];
    var content := Overwrite(WriteBase(b, inh, p), offset, data);
    StepsAreEarlyOrLate(b, inh, p, offset, data, i);
    if Late(b, s, p, content) {
      LateShows(b, s, inherited, p, content);
    } else if Early(b, s, p) {
      EarlyIsOpened(b, s, inh, p, offset, data, i);
      if s.tombs == b.tombs {
        EarlyWithTombShowsNothing(b, s, inherited, p);
      } else {
        RevealsIff(b, s, inherited, p);
      }
    } else {
      LateShows(b, s, inherited, p, []);
    }
  }

  lemma LateShows(b: Layer, s: Layer, inherited: Tree, p: Path, content: seq<byte>)
    requires Writable(b, inherited, p) && Late(b, s, p, content)
    ensures Files(Overlaid(s, inherited)) == Files(Overlaid(b, inherited))[p := File(content)]
  {
    PlacedFiles(b, s, inherited, p, File(content));
    ReplacesOnlyItself(Overlaid(b, inherited), p, File(content));
  }

  /** The step that drops the tombstone without a file is the one after the parents, and is
      taken only where no file is inherited. */
  lemma EarlyIsOpened(b: Layer, s: Layer, inh: Option<Entry>, p: Path, offset: nat, data: seq<byte>, i: nat)
    requires LayerOk(b) && p != [] && p !in b.files && ParentsOk(b.files, p)
    requires i < |WriteSteps(b, inh, p, offset, data)| && s == WriteSteps(b, inh, p, offset, data)[i] && Early(b, s, p)
    ensures s.tombs == b.tombs || (Opened(b, s, p) && !(inh.Some? && inh.value.File?))
  {
    WithParentsAt(b.files, p, p);
    if i >= |p| + 2 {
      assert Find(s.files, p) == Find(b.files, p) == None;
      forall q
        ensures Find(WithParents(b.files, p), q) == if q in b.files then Some(b.files[q]) else if q < p then Some(Dir) else None
      {
        WithParentsAt(b.files, p, q);
      }
    }
  }

  lemma ShownStep(b: Layer, inherited: Tree, p: Path, offset: nat, data: seq<byte>, x: Path) returns (i: nat)
    requires Writable(b, inherited, p) && p !in b.files && ParentsOk(b.files, p) && Reveals(b, inherited, p, x)
    ensures var steps := WriteSteps(b, InheritedAt(b, inherited, p), p, offset, data);
      i < |steps| && !Atomic(b, steps[i], inherited, p, offset, data)
  {
    var inh := InheritedAt(b, inherited, p);
    var steps := WriteSteps(b, inh, p, offset, data);
    i := |p| + 2;
    DirIsInherited(b, inherited, p, x);
    var s := steps[i];
    assert Opened(b, s, p) by {
      forall q
        ensures Find(s.files, q) == if q in b.files then Some(b.files[q]) else if q < p then Some(Dir) else None
      {
        WithParentsAt(b.files, p, q);
      }
    }
    RevealedIsNew(b, s, inherited, p, x);
    assert x != p;
  }

  lemma DirIsInherited(b: Layer, inherited: Tree, p: Path, x: Path)
    requires LayerOk(b) && p !in b.files && Reveals(b, inherited, p, x)
    ensures InheritedAt(b, inherited, p) == Some(Dir)
  {
    assert p <= p && DirWithout(b, inherited, p);
    assert forall h :: h in b.hides && h <= p ==> h <= x;
  }

  // ----- one write after the other -----

  ghost function Written(d: Done<nat>, max: Option<nat>, inherited: Tree, p: Path, offset: nat, data: seq<byte>): Done<nat>
    requires p != []
  {
    WriteEdit(d.layer, d.used, max, InheritedAt(d.layer, inherited, p), p, offset, data)
  }

  /** The bytes that the next write of the path starts from. */
  ghost function Base(d: Done<nat>, inherited: Tree, p: Path): seq<byte> {
    WriteBase(d.layer, InheritedAt(d.layer, inherited, p), p)
  }

  /** The next write starts from what this one has written. */
  lemma WritableAgain(d: Done<nat>, max: Option<nat>, inherited: Tree, p: Path, offset: nat, data: seq<byte>)
    requires Writable(d.layer, inherited, p) && Written(d, max, inherited, p, offset, data).result.Success?
    ensures var d' := Written(d, max, inherited, p, offset, data);
      && Writable(d'.layer, inherited, p) && Base(d', inherited, p) == Overwrite(Base(d, inherited, p), offset, data)
      && p in d'.layer.files && !d'.layer.frozen && d'.layer.files[p].File?
  {
    hide Overwrite, WriteEdit;
    var b, inh := d.layer, InheritedAt(d.layer, inherited, p);
    var b' := Written(d, max, inherited, p, offset, data).layer;
    WritePlaces(b, d.used, max, inh, p, offset, data);
    WriteIsPut(b, d.used, max, inh, p, offset, data);
    NotFrozenAfter(d, max, inherited, p, offset, data);
    PlacedWritable(b, b', inherited, p, Overwrite(WriteBase(b, inh, p), offset, data));
  }

  lemma NotFrozenAfter(d: Done<nat>, max: Option<nat>, inherited: Tree, p: Path, offset: nat, data: seq<byte>)
    requires p != [] && Written(d, max, inherited, p, offset, data).result.Success?
    ensures !Written(d, max, inherited, p, offset, data).layer.frozen
  {
  }

  lemma PlacedWritable(b: Layer, b': Layer, inherited: Tree, p: Path, content: seq<byte>)
    requires Writable(b, inherited, p) && PlacedIn(b, b', p, File(content))
    requires b'.tombs <= b.tombs && b'.hides == b.hides && b'.inherited == b.inherited
    ensures Writable(b', inherited, p) && p in b'.files && b'.files[p] == File(content)
  {
    PlacedWellFormed(b.files, b'.files, p, File(content));
    forall q | q <= p
      ensures Find(Overlaid(b', inherited), q) == if q == p then Some(File(content)) else Some(Dir)
    {
      assert q == p || q < p;
      PlacedShows(b, b', inherited, p, File(content), q);
    }
    assert Find(Overlaid(b', inherited), p) == Some(File(content));
    assert Find(b'.files, p) == Some(File(content));
  }

  // ----- when a write succeeds -----

  /** Growing from `before` to `after` bytes stays within the quota. */
  predicate Fits(max: Option<nat>, used: int, before: nat, after: nat) {
    after <= before || QuotaAllows(max, used, after - before)
  }

  /** What a write is charged for: the first write of an inherited file for all of it. */
  ghost function Charged(d: Done<nat>, inherited: Tree, p: Path): nat {
    if p in d.layer.files then |Base(d, inherited, p)| else 0
  }

  ghost predicate CopiesFirst(b: Layer, inherited: Tree, p: Path) {
    var inh := InheritedAt(b, inherited, p);
    p !in b.files && inh.Some? && inh.value.File?
  }

  /** The write stays within the quota: the first write of an inherited file is asked for even
      if it copies nothing, any other only when the file grows. */
  ghost predicate WriteFits(d: Done<nat>, max: Option<nat>, inherited: Tree, p: Path, end: nat) {
    var after := Max(|Base(d, inherited, p)|, end);
    if CopiesFirst(d.layer, inherited, p) then QuotaAllows(max, d.used, after)
    else Fits(max, d.used, Charged(d, inherited, p), after)
  }

  /** How a write to a writable path ends: only an offset out of range, a frozen branch and the
      quota stand in its way, and what it counts is what the file has grown, all of it at the
      first write. */
  lemma WriteEnds(d: Done<nat>, max: Option<nat>, inherited: Tree, p: Path, offset: int, data: seq<byte>)
    requires Writable(d.layer, inherited, p)
    ensures var d' := WriteEdit(d.layer, d.used, max, InheritedAt(d.layer, inherited, p), p, offset, data);
      && d'.result == (
        if offset < 0 then Failure(InvalidOffset)
        else if offset + |data| >= 0x1_0000_0000_0000_0000 then Failure(FileTooLarge)
        else if d.layer.frozen then Failure(Frozen)
        else if !WriteFits(d, max, inherited, p, offset + |data|) then Failure(NoSpace)
        else Success(|data|))
      && (d'.result.Failure? && d'.result.error != NoSpace ==> d'.layer == d.layer)
      && (d'.result.Failure? ==> d'.used == d.used)
      && (d'.result.Success? ==> d'.used - d.used == |Overwrite(Base(d, inherited, p), offset, data)| - Charged(d, inherited, p))
  {
    hide FirstTouch, QuotaAllows, Overwrite, Writable, Overlaid, WellFormed, WithParents;
    ParentsOfWritable(d.layer, inherited, p);
    WithParentsAt(d.layer.files, p, p);
  }

  /** For a write of data: nothing but the quota makes it fail. */
  lemma WrittenIff(d: Done<nat>, max: Option<nat>, inherited: Tree, p: Path, offset: nat, data: seq<byte>)
    requires Writable(d.layer, inherited, p) && data != [] && offset + |data| < U64_LIMIT && !d.layer.frozen
    ensures var d' := Written(d, max, inherited, p, offset, data);
      var after := Max(|Base(d, inherited, p)|, offset + |data|);
      && (d'.result.Success? <==> Fits(max, d.used, Charged(d, inherited, p), after))
      && (d'.result.Success? ==> d'.used == d.used + after - Charged(d, inherited, p))
  {
    hide QuotaAllows, WriteEdit, Overwrite, Writable, Overlaid, InheritedAt;
    WriteEnds(d, max, inherited, p, offset, data);
    OverwriteLength(Base(d, inherited, p), offset, data);
  }

  /** A write that does not fit the quota changes no file, exactly when dropping the tombstone
      of a deleted directory at its path does not show a file below it. */
  lemma FailedWriteKeepsFilesIff(d: Done<nat>, max: Option<nat>, inherited: Tree, p: Path, offset: nat, data: seq<byte>)
    requires Writable(d.layer, inherited, p)
    requires Written(d, max, inherited, p, offset, data).result == Failure(NoSpace)
    ensures Files(Overlaid(Written(d, max, inherited, p, offset, data).layer, inherited)) == Files(Overlaid(d.layer, inherited)) <==>
      forall x :: !Reveals(d.layer, inherited, p, x)
  {
    hide FirstTouch, QuotaAllows, Overwrite, Files, Reveals, Overlaid, WellFormed;
    var b, inh := d.layer, InheritedAt(d.layer, inherited, p);
    var b' := Written(d, max, inherited, p, offset, data).layer;
    ParentsOfWritable(b, inherited, p);
    if CopiesFirst(b, inherited, p) {
      OverlaidDepends(b, b', inherited);
      NothingBelowInheritedFile(b, inherited, p);
    } else {
      forall q
        ensures Find(b'.files, q) == if q in b.files then Some(b.files[q]) else if p !in b.files && q < p then Some(Dir) else None
      {
        WithParentsAt(b.files, p, q);
      }
      RevealsIff(b, b', inherited, p);
    }
  }

  lemma ParentsOfWritable(b: Layer, inherited: Tree, p: Path)
    requires Writable(b, inherited, p)
    ensures ParentsOk(b.files, p) && (p in b.files ==> b.files[p].File?)
    ensures LayerOk(b) && p != [] && PrefixClosed(inherited) && AboveVisible(b, inherited, p)
    ensures p !in b.files && InheritedAt(b, inherited, p).Some? ==> !InheritedAt(b, inherited, p).value.Symlink?
    ensures CopiesFirst(b, inherited, p) || p in b.files || InheritedAt(b, inherited, p).None? || InheritedAt(b, inherited, p).value.Dir?
  {
    ParentsAreDirs(b, inherited, p);
    OverlaidAt(b, inherited, p);
  }

  lemma ParentsAreDirs(b: Layer, inherited: Tree, p: Path)
    requires AboveVisible(b, inherited, p) && p != []
    ensures ParentsOk(b.files, p)
  {
    forall q | q in b.files && q < p
      ensures b.files[q].Dir?
    {
      OverlaidAt(b, inherited, q);
    }
  }

  lemma SuccessMeans(d: Done<nat>, max: Option<nat>, inherited: Tree, p: Path, offset: nat, data: seq<byte>)
    requires p != [] && Written(d, max, inherited, p, offset, data).result.Success?
    ensures offset + |data| < U64_LIMIT && !d.layer.frozen
  {
  }

  /** Two writes to disjoint, non-empty ranges of one path show the same files whichever
      the path lock lets in first, and if both succeed in one order they do in the other. */
  lemma DisjointWritesCommute(d: Done<nat>, max: Option<nat>, inherited: Tree, p: Path,
                              o1: nat, d1: seq<byte>, o2: nat, d2: seq<byte>)
    requires Writable(d.layer, inherited, p) && d.used >= 0
    requires d1 != [] && d2 != [] && (o1 + |d1| <= o2 || o2 + |d2| <= o1)
    requires Written(d, max, inherited, p, o1, d1).result.Success?
    requires Written(Written(d, max, inherited, p, o1, d1), max, inherited, p, o2, d2).result.Success?
    ensures Written(d, max, inherited, p, o2, d2).result.Success?
    ensures Written(Written(d, max, inherited, p, o2, d2), max, inherited, p, o1, d1).result.Success?
    ensures Files(Overlaid(Written(Written(d, max, inherited, p, o1, d1), max, inherited, p, o2, d2).layer, inherited)) ==
            Files(Overlaid(Written(Written(d, max, inherited, p, o2, d2), max, inherited, p, o1, d1).layer, inherited))
  {
    hide Written, Base, Writable, Overwrite, Files;
    OtherOrderSucceeds(d, max, inherited, p, o1, d1, o2, d2);
    TwoWrites(d, max, inherited, p, o1, d1, o2, d2);
    TwoWrites(d, max, inherited, p, o2, d2, o1, d1);
    OverwritesCommute(Base(d, inherited, p), o1, d1, o2, d2);
  }

  lemma OtherOrderSucceeds(d: Done<nat>, max: Option<nat>, inherited: Tree, p: Path,
                           o1: nat, d1: seq<byte>, o2: nat, d2: seq<byte>)
    requires Writable(d.layer, inherited, p) && d.used >= 0 && d1 != [] && d2 != []
    requires Written(d, max, inherited, p, o1, d1).result.Success?
    requires Written(Written(d, max, inherited, p, o1, d1), max, inherited, p, o2, d2).result.Success?
    ensures Written(d, max, inherited, p, o2, d2).result.Success?
    ensures Written(Written(d, max, inherited, p, o2, d2), max, inherited, p, o1, d1).result.Success?
  {
    hide Written, Base, Writable;
    WritableIsNamed(d.layer, inherited, p);
    var one := Written(d, max, inherited, p, o1, d1);
    SuccessMeans(d, max, inherited, p, o1, d1);
    SuccessMeans(one, max, inherited, p, o2, d2);
    WritableAgain(d, max, inherited, p, o1, d1);
    WrittenIff(d, max, inherited, p, o1, d1);
    WrittenIff(one, max, inherited, p, o2, d2);
    OverwriteLength(Base(d, inherited, p), o1, d1);
    OverwriteLength(Base(d, inherited, p), o2, d2);
    WrittenIff(d, max, inherited, p, o2, d2);
    var two := Written(d, max, inherited, p, o2, d2);
    assert two.result.Success?;
    WritableAgain(d, max, inherited, p, o2, d2);
    WrittenIff(two, max, inherited, p, o1, d1);
  }

  lemma WritableIsNamed(b: Layer, inherited: Tree, p: Path)
    requires Writable(b, inherited, p)
    ensures p != []
  {
  }

  lemma TwoWrites(d: Done<nat>, max: Option<nat>, inherited: Tree, p: Path, o1: nat, d1: seq<byte>, o2: nat, d2: seq<byte>)
    requires Writable(d.layer, inherited, p)
    requires Written(d, max, inherited, p, o1, d1).result.Success?
    requires Written(Written(d, max, inherited, p, o1, d1), max, inherited, p, o2, d2).result.Success?
    ensures Files(Overlaid(Written(Written(d, max, inherited, p, o1, d1), max, inherited, p, o2, d2).layer, inherited)) ==
            Files(Overlaid(d.layer, inherited))[p := File(Overwrite(Overwrite(Base(d, inherited, p), o1, d1), o2, d2))]
  {
    hide Files, Overlaid, WriteEdit, Overwrite;
    var one := Written(d, max, inherited, p, o1, d1);
    WritableAgain(d, max, inherited, p, o1, d1);
    WriteShows(d.layer, d.used, max, inherited, p, o1, d1);
    WriteShows(one.layer, one.used, max, inherited, p, o2, d2);
  }
}
