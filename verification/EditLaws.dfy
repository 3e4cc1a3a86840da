/** What the edits of a branch mean for the view it shows. */
module EditLaws {
  import opened FileTree
  import opened Layers
  import opened Edits

  // ----- placing one file -----

  /** `files'` is `files` with `e` at `p`, directories above it and nothing below. */
  ghost predicate Placed(files: Tree, files': Tree, p: Path, e: Entry) {
    forall q :: Find(files', q) ==
      if q == p then Some(e) else if p < q then None else if q < p then Some(Dir) else Find(files, q)
  }

  lemma PlacedWellFormed(files: Tree, files': Tree, p: Path, e: Entry)
    requires WellFormed(files) && p != [] && Placed(files, files', p, e)
    ensures WellFormed(files')
  {
    assert Find(files', []) == Some(Dir);
    forall r, q | r in files' && q < r
      ensures Find(files', q) == Some(Dir)
    {
      assert Find(files', r).Some?;
      assert Find(files', q) == if q == p then Some(e) else if p < q then None else if q < p then Some(Dir) else Find(files, q);
    }
    WellFormedIf(files');
  }

  /** The branch with `e` placed at `p`: only tombstones at or below `p` may differ. */
  ghost predicate PlacedIn(b: Layer, b': Layer, p: Path, e: Entry) {
    && Placed(b.files, b'.files, p, e) && b'.hides == b.hides
    && forall t :: !(p <= t) ==> (t in b.tombs <==> t in b'.tombs)
  }

  lemma PlacedShows(b: Layer, b': Layer, inherited: Tree, p: Path, e: Entry, q: Path)
    requires PlacedIn(b, b', p, e) && !(p < q)
    ensures Find(Overlaid(b', inherited), q) ==
      if q == p then Some(e) else if q < p then Some(Dir) else Find(Overlaid(b, inherited), q)
  {
    OverlaidAt(b, inherited, q);
    OverlaidAt(b', inherited, q);
    assert Find(b'.files, q) ==
      if q == p then Some(e) else if p < q then None else if q < p then Some(Dir) else Find(b.files, q);
    if !(p <= q) {
      assert forall t :: t <= q ==> (t in b.tombs <==> t in b'.tombs);
    }
  }

  /** A file placed under directories of the view replaces what was at and below its
      path and leaves every other file alone. */
  lemma PlacedFiles(b: Layer, b': Layer, inherited: Tree, p: Path, e: Entry)
    requires PlacedIn(b, b', p, e) && !e.Dir?
    requires forall q :: q < p ==> Find(Overlaid(b, inherited), q) == Some(Dir)
    ensures Files(Overlaid(b', inherited)) == WithoutAll(Files(Overlaid(b, inherited)), {p})[p := e]
  {
    var v, w := Overlaid(b, inherited), Overlaid(b', inherited);
    forall x
      ensures Find(Files(w), x) == if x == p then Some(e) else if p <= x then None else Find(Files(v), x)
    {
      PlacedFile(b, b', inherited, p, e, x);
    }
    forall x
      ensures Find(WithoutAll(Files(v), {p})[p := e], x) ==
        if x == p then Some(e) else if p <= x then None else Find(Files(v), x)
    {
    }
    SameTree(Files(w), WithoutAll(Files(v), {p})[p := e]);
  }

  lemma PlacedFile(b: Layer, b': Layer, inherited: Tree, p: Path, e: Entry, x: Path)
    requires PlacedIn(b, b', p, e) && !e.Dir?
    requires forall q :: q < p ==> Find(Overlaid(b, inherited), q) == Some(Dir)
    ensures Find(Files(Overlaid(b', inherited)), x) ==
      if x == p then Some(e) else if p <= x then None else Find(Files(Overlaid(b, inherited)), x)
  {
    var v, w := Overlaid(b, inherited), Overlaid(b', inherited);
    PlacedShows(b, b', inherited, p, e, p);
    if p < x {
      assert p in w && !w[p].Dir?;
    } else {
      PlacedShows(b, b', inherited, p, e, x);
      forall q | q < x
        ensures Find(w, q) == Some(Dir) <==> Find(v, q) == Some(Dir)
      {
        assert !(p <= q);
        PlacedShows(b, b', inherited, p, e, q);
      }
      ReachableAlike(v, w, x);
      if x == p {
        forall q | q < x
          ensures q in w && w[q].Dir?
        {
          assert Find(v, q) == Some(Dir);
        }
      } else if !(p <= x) {
        assert Find(w, x) == Find(v, x) || x < p;
        assert Reachable(w, x) <==> Reachable(v, x);
      }
    }
  }

  lemma ReachableAlike(v: Tree, w: Tree, x: Path)
    requires forall q :: q < x ==> (Find(w, q) == Some(Dir) <==> Find(v, q) == Some(Dir))
    ensures (forall q :: q < x ==> q in w && w[q].Dir?) <==> (forall q :: q < x ==> q in v && v[q].Dir?)
  {
    if forall q :: q < x ==> q in w && w[q].Dir? {
      forall q | q < x
        ensures q in v && v[q].Dir?
      {
        assert Find(w, q) == Some(Dir);
      }
    }
    if forall q :: q < x ==> q in v && v[q].Dir? {
      forall q | q < x
        ensures q in w && w[q].Dir?
      {
        assert Find(v, q) == Some(Dir);
      }
    }
  }

  // ----- delete -----

  /** The inherited entry that an edit looks at: hidden paths do not count. */
  function InheritedAt(b: Layer, inherited: Tree, p: Path): Option<Entry> {
    if Covered(b.hides, p) then None else Find(inherited, p)
  }

  lemma WithoutDeltaShrinks(files: Tree, touches: map<Path, Touch>, p: Path)
    requires WellFormed(files) && p != []
    ensures Shrinks(RemoveUnder(files, p), WithoutDelta(files, touches, p))
  {
    if p in files {
      PrunedShrinks(RemoveUnder(files, p), touches, Parent(p));
    } else {
      assert forall q :: q in files && p <= q ==> p == q || p < q;
      assert RemoveUnder(files, p) == files;
    }
  }

  /** Below a deleted path nothing resolves, elsewhere the view is as before; this is
      before empty delta parents are pruned. */
  lemma DeletedAt(b: Layer, inherited: Tree, p: Path, q: Path)
    requires PrefixClosed(inherited) && p != []
    ensures var b' := b.(files := RemoveUnder(b.files, p),
                         tombs := if InheritedAt(b, inherited, p).Some? then b.tombs + {p} else b.tombs - {p});
      Find(Overlaid(b', inherited), q) == if p <= q then None else Find(Overlaid(b, inherited), q)
  {
    var b' := b.(files := RemoveUnder(b.files, p),
                 tombs := if InheritedAt(b, inherited, p).Some? then b.tombs + {p} else b.tombs - {p});
    OverlaidAt(b, inherited, q);
    OverlaidAt(b', inherited, q);
    if p <= q {
      if Covered(b.hides, p) {
        var h :| h in b.hides && h <= p;
        assert h <= q;
      }
      assert p == q || p < q;
    } else {
      assert forall t :: t <= q ==> (t in b.tombs <==> t in b'.tombs);
    }
  }

  /** Removing the delta at `p` empties the untouched delta directory `d`. */
  ghost predicate Empties(b: Layer, p: Path, d: Path) {
    && d != [] && d < p && p in b.files
    && (forall q :: q in b.files && d < q ==> q < p || p <= q)
    && (forall e :: d <= e && e < p ==> e !in b.touches)
  }

  /** ... which stood over an inherited file. */
  ghost predicate Uncovers(b: Layer, inherited: Tree, p: Path) {
    exists d :: Empties(b, p, d) && Masked(b, inherited, d)
  }

  lemma EmptiesIff(b: Layer, touches: map<Path, Touch>, p: Path, d: Path)
    requires WellFormed(b.files) && p != [] && touches.Keys - {p} == b.touches.Keys - {p}
    ensures d in RemoveUnder(b.files, p) && d !in WithoutDelta(b.files, touches, p) <==> Empties(b, p, d)
  {
    var cut := RemoveUnder(b.files, p);
    if p in b.files {
      RemoveUnderWellFormed(b.files, p);
      PrunedIff(cut, touches, Parent(p), d);
      assert Parent(p) < p && Parent(p) in b.files;
      UpToParent(p, d);
      forall q
        ensures q < p ==> q in cut && q <= Parent(p) && cut[q].Dir? && (q in touches <==> q in b.touches)
        ensures q in cut && q <= Parent(p) ==> q < p
      {
        UpToParent(p, q);
        assert q < p ==> (q in touches.Keys - {p} <==> q in b.touches.Keys - {p});
      }
      if Empties(b, p, d) {
        assert OnlyWay(cut, touches, Parent(p), d);
      }
      if OnlyWay(cut, touches, Parent(p), d) {
        assert forall q :: q in b.files && !(p <= q) ==> q in cut;
        assert Empties(b, p, d);
      }
    } else {
      WithoutDeltaShrinks(b.files, touches, p);
    }
  }

  /** What is pruned is stable exactly when nothing is uncovered. */
  lemma PrunedStableIff(b: Layer, inherited: Tree, b': Layer, p: Path)
    requires WellFormed(b.files) && p != [] && b'.touches.Keys - {p} == b.touches.Keys - {p} && b'.hides == b.hides
    requires b'.files == WithoutDelta(b.files, b'.touches, p)
    requires forall t :: t != p ==> (t in b'.tombs <==> t in b.tombs)
    ensures RemovedStable(b'.(files := RemoveUnder(b.files, p)), b'.files, inherited) <==> !Uncovers(b, inherited, p)
  {
    hide RemoveUnder, WithoutDelta, WellFormed, Empties;
    var cut := b'.(files := RemoveUnder(b.files, p));
    forall d
      ensures d in cut.files && d !in b'.files <==> Empties(b, p, d)
      ensures Empties(b, p, d) ==> (Covered(b'.tombs, d) <==> Covered(b.tombs, d))
    {
      EmptiesIff(b, b'.touches, p, d);
      if Empties(b, p, d) {
        EmptiedIsAbove(b, p, d);
        assert forall t :: t <= d ==> (t in b'.tombs <==> t in b.tombs);
      }
    }
  }

  lemma EmptiedIsAbove(b: Layer, p: Path, d: Path)
    requires Empties(b, p, d)
    ensures d < p
  {
  }

  /** Delete in a writable branch succeeds, leaves a tombstone exactly where something is
      inherited, makes the whole subtree unresolvable and leaves every other file alone, the
      latter exactly when it does not empty a delta directory that stood over an inherited
      file. */
  lemma DeleteIsExact(b: Layer, used: int, inherited: Tree, p: Path)
    requires LayerOk(b) && PrefixClosed(inherited) && p != [] && !b.frozen
    ensures DeleteEdit(b, used, InheritedAt(b, inherited, p), p).result == Success(())
    ensures var b' := DeleteEdit(b, used, InheritedAt(b, inherited, p), p).layer;
      && (forall t :: t in b'.tombs <==> if t == p then InheritedAt(b, inherited, p).Some? else t in b.tombs)
      && (forall q :: p <= q ==> q !in Overlaid(b', inherited))
      && (Files(Overlaid(b', inherited)) == WithoutAll(Files(Overlaid(b, inherited)), {p}) <==> !Uncovers(b, inherited, p))
  {
    hide Uncovers, RemovedStable, WithoutDelta, WellFormed, Files, Reachable, Covered, Shrinks, WithoutAll, Overlaid;
    var inh := InheritedAt(b, inherited, p);
    var b' := DeleteEdit(b, used, inh, p).layer;
    var cut := b.(files := RemoveUnder(b.files, p), tombs := b'.tombs);
    var v, w := Overlaid(b, inherited), Overlaid(cut, inherited);
    WithoutDeltaShrinks(b.files, b'.touches, p);
    forall q
      ensures Find(w, q) == if p <= q then None else Find(v, q)
    {
      DeletedAt(b, inherited, p, q);
    }
    CutFiles(v, w, p);
    RemoveUnderWellFormed(b.files, p);
    ShrinkKeepsFilesIff(cut, b'.files, inherited);
    PrunedStableIff(b, inherited, b', p);
    SameStability(cut, b'.(files := RemoveUnder(b.files, p)), b'.files, inherited);
    OverlaidDepends(cut.(files := b'.files), b', inherited);
    forall q | p <= q
      ensures q !in Overlaid(b', inherited)
    {
      OverlaidAt(b', inherited, q);
      OverlaidAt(cut, inherited, q);
      ShrunkAway(RemoveUnder(b.files, p), b'.files, q);
      assert Find(w, q) == None;
    }
  }

  lemma SameStability(b: Layer, c: Layer, files: Tree, inherited: Tree)
    requires b.files == c.files && b.tombs == c.tombs && b.hides == c.hides
    ensures RemovedStable(b, files, inherited) <==> RemovedStable(c, files, inherited)
  {
  }

  lemma ShrunkAway(before: Tree, after: Tree, q: Path)
    requires Shrinks(before, after) && q !in before
    ensures q !in after
  {
  }

  /** Cutting a subtree out of a view cuts its files out. */
  lemma CutFiles(v: Tree, w: Tree, p: Path)
    requires forall q :: Find(w, q) == if p <= q then None else Find(v, q)
    ensures Files(w) == WithoutAll(Files(v), {p})
  {
    forall x
      ensures Find(Files(w), x) == Find(WithoutAll(Files(v), {p}), x)
    {
      assert Find(w, x) == if p <= x then None else Find(v, x);
      if !(p <= x) {
        forall q | q < x
          ensures Find(w, q) == Find(v, q)
        {
          assert !(p <= q);
        }
        ReachableAlike(v, w, x);
      }
    }
    SameTree(Files(w), WithoutAll(Files(v), {p}));
  }

  // ----- revert -----

  /** What the branch inherits at `q`, with nothing deleted at and below `p`. */
  ghost function InheritedUnder(b: Layer, inherited: Tree, p: Path, q: Path): Option<Entry> {
    if Covered(NotUnder(b.tombs, p), q) || Covered(b.hides, q) then None else Find(inherited, q)
  }

  /** Revert shows at and below the path what the branch inherits there, unless something
      above is deleted or hidden, and changes no file elsewhere, exactly when it does not
      empty a delta directory that stood over an inherited file. */
  lemma RevertIsExact(b: Layer, used: int, inherited: Tree, p: Path)
    requires LayerOk(b) && PrefixClosed(inherited) && p != [] && !b.frozen
    ensures RevertEdit(b, used, p).result == Success(())
    ensures var b' := RevertEdit(b, used, p).layer;
      && (forall q :: p <= q ==> Find(Overlaid(b', inherited), q) == InheritedUnder(b, inherited, p, q))
      && (WithoutAll(Files(Overlaid(b', inherited)), {p}) == WithoutAll(Files(Overlaid(b, inherited)), {p}) <==>
          !Uncovers(b, inherited, p))
  {
    hide Uncovers, Files, WithoutDelta, WellFormed, Reachable;
    var b' := RevertEdit(b, used, p).layer;
    var del := DeleteEdit(b, used, InheritedAt(b, inherited, p), p).layer;
    DeleteIsExact(b, used, inherited, p);
    SameDeltasLeft(b, del, b', p);
    forall q
      ensures !(p <= q) ==> Find(Overlaid(b', inherited), q) == Find(Overlaid(del, inherited), q)
    {
      OverlaidAt(b', inherited, q);
      OverlaidAt(del, inherited, q);
      if !(p <= q) {
        SameCoverAbove(b'.tombs, del.tombs, p, q);
      }
    }
    FilesOutside(Overlaid(b', inherited), Overlaid(del, inherited), p);
    NothingUnderPath(Overlaid(del, inherited), p);
    forall q | p <= q
      ensures Find(Overlaid(b', inherited), q) == InheritedUnder(b, inherited, p, q)
    {
      OverlaidAt(b', inherited, q);
      NoDeltaUnder(b, b', p, q);
    }
  }

  lemma SameCoverAbove(s: set<Path>, t: set<Path>, p: Path, q: Path)
    requires !(p <= q) && forall r :: !(p <= r) ==> (r in s <==> r in t)
    ensures Covered(s, q) <==> Covered(t, q)
  {
    assert forall r :: r <= q ==> !(p <= r) && (r in s <==> r in t);
  }

  /** Delete and revert leave the same deltas. */
  lemma SameDeltasLeft(b: Layer, del: Layer, rev: Layer, p: Path)
    requires WellFormed(b.files) && p != []
    requires del.files == WithoutDelta(b.files, del.touches, p) && del.touches.Keys - {p} == b.touches.Keys - {p}
    requires rev.files == WithoutDelta(b.files, b.touches, p)
    ensures del.files == rev.files
  {
    hide WithoutDelta, Empties;
    WithoutDeltaShrinks(b.files, del.touches, p);
    WithoutDeltaShrinks(b.files, b.touches, p);
    forall q
      ensures Find(del.files, q) == Find(rev.files, q)
    {
      EmptiesIff(b, del.touches, p, q);
      EmptiesIff(b, b.touches, p, q);
    }
    SameTree(del.files, rev.files);
  }

  lemma NoDeltaUnder(b: Layer, b': Layer, p: Path, q: Path)
    requires WellFormed(b.files) && p != [] && p <= q && b'.files == WithoutDelta(b.files, b.touches, p)
    ensures q !in b'.files
  {
    WithoutDeltaShrinks(b.files, b.touches, p);
  }

  /** Views that agree outside `p` have the same files there. */
  lemma FilesOutside(v: Tree, w: Tree, p: Path)
    requires forall q :: !(p <= q) ==> Find(v, q) == Find(w, q)
    ensures WithoutAll(Files(v), {p}) == WithoutAll(Files(w), {p})
  {
    forall x
      ensures Find(WithoutAll(Files(v), {p}), x) == Find(WithoutAll(Files(w), {p}), x)
    {
      if !(p <= x) {
        forall q | q < x
          ensures Find(v, q) == Find(w, q)
        {
          assert !(p <= q);
        }
        ReachableAlike(v, w, x);
        assert Find(v, x) == Find(w, x);
        assert Reachable(v, x) <==> Reachable(w, x);
      } else {
        assert Covered({p}, x);
      }
    }
    SameTree(WithoutAll(Files(v), {p}), WithoutAll(Files(w), {p}));
  }

  lemma NothingUnderPath(v: Tree, p: Path)
    requires forall q :: p <= q ==> q !in v
    ensures WithoutAll(Files(v), {p}) == Files(v)
  {
  }

  // ----- write -----

  /** The bytes a reader of `v` finds at `p`: those of a file, none for a missing one. */
  ghost function Content(v: Tree, p: Path): seq<byte> {
    if p in v && v[p].File? then v[p].data else []
  }

  /** The bytes that a write starts from. */
  ghost function WriteBase(b: Layer, inh: Option<Entry>, p: Path): seq<byte> {
    if p in b.files then Content(b.files, p) else if inh.Some? && inh.value.File? then inh.value.data else []
  }

  /** A successful write places the overwritten content at the path. */
  lemma WritePlaces(b: Layer, used: int, max: Option<nat>, inh: Option<Entry>, p: Path, offset: int, data: seq<byte>)
    requires LayerOk(b) && p != [] && (p !in b.files && inh.Some? ==> !inh.value.Symlink?)
    requires WriteEdit(b, used, max, inh, p, offset, data).result.Success?
    ensures offset >= 0
    ensures PlacedIn(b, WriteEdit(b, used, max, inh, p, offset, data).layer, p,
                     File(Overwrite(WriteBase(b, inh, p), offset, data)))
  {
    hide FirstTouch, QuotaAllows, Overwrite, WithParents;
    var b' := WriteEdit(b, used, max, inh, p, offset, data).layer;
    var e := File(Overwrite(WriteBase(b, inh, p), offset, data));
    forall q
      ensures Find(b'.files, q) == if q == p then Some(e) else if p < q then None else if q < p then Some(Dir) else Find(b.files, q)
    {
      WithParentsAt(b.files, p, q);
    }
  }

  /** A successful write puts the overwritten content at the path and changes no other
      file, whether the path was a delta, inherited, deleted or missing. */
  lemma WriteShows(b: Layer, used: int, max: Option<nat>, inherited: Tree, p: Path, offset: int, data: seq<byte>)
    requires LayerOk(b) && p != []
    requires forall q :: q < p ==> Find(Overlaid(b, inherited), q) == Some(Dir)
    requires p in Overlaid(b, inherited) ==> Overlaid(b, inherited)[p].File?
    requires p !in b.files && InheritedAt(b, inherited, p).Some? ==> !InheritedAt(b, inherited, p).value.Symlink?
    requires WriteEdit(b, used, max, InheritedAt(b, inherited, p), p, offset, data).result.Success?
    ensures offset >= 0
    ensures var inh := InheritedAt(b, inherited, p);
      var b' := WriteEdit(b, used, max, inh, p, offset, data).layer;
      Files(Overlaid(b', inherited)) == Files(Overlaid(b, inherited))[p := File(Overwrite(WriteBase(b, inh, p), offset, data))]
  {
    hide Files, Overlaid, WriteEdit, Overwrite;
    var inh := InheritedAt(b, inherited, p);
    WritePlaces(b, used, max, inh, p, offset, data);
    var e := File(Overwrite(WriteBase(b, inh, p), offset, data));
    PlacedFiles(b, WriteEdit(b, used, max, inh, p, offset, data).layer, inherited, p, e);
    ReplacesOnlyItself(Overlaid(b, inherited), p, e);
  }

  /** The write starts from what the branch shows: the path is not a deleted inherited file,
      or nothing of that file shows through. */
  ghost predicate StartsFromView(b: Layer, inh: Option<Entry>, p: Path, offset: nat, data: seq<byte>) {
    p in b.files || !Covered(b.tombs, p) || inh.None? || !inh.value.File? || Forgotten(inh.value.data, offset, data)
  }

  /** Write is an exact update of the view, the content a reader saw overwritten at the
      offset and nothing else, exactly when it starts from what the branch shows: the first
      write copies the inherited file even where the branch has deleted it. */
  lemma WriteIsExactIff(b: Layer, used: int, max: Option<nat>, inherited: Tree, p: Path, offset: int, data: seq<byte>)
    requires LayerOk(b) && p != []
    requires forall q :: q < p ==> Find(Overlaid(b, inherited), q) == Some(Dir)
    requires p in Overlaid(b, inherited) ==> Overlaid(b, inherited)[p].File?
    requires p !in b.files && InheritedAt(b, inherited, p).Some? ==> !InheritedAt(b, inherited, p).value.Symlink?
    requires WriteEdit(b, used, max, InheritedAt(b, inherited, p), p, offset, data).result.Success?
    ensures offset >= 0
    ensures var inh := InheritedAt(b, inherited, p);
      var b' := WriteEdit(b, used, max, inh, p, offset, data).layer; var v := Overlaid(b, inherited);
      Files(Overlaid(b', inherited)) == Files(v)[p := File(Overwrite(Content(v, p), offset, data))] <==>
        StartsFromView(b, inh, p, offset, data)
  {
    hide Files, WriteEdit, Overwrite, Forgotten;
    var v, inh := Overlaid(b, inherited), InheritedAt(b, inherited, p);
    WriteShows(b, used, max, inherited, p, offset, data);
    BaseIsContentIff(b, inherited, p, offset, data);
    SameAtIff(Files(v), p, File(Overwrite(WriteBase(b, inh, p), offset, data)), File(Overwrite(Content(v, p), offset, data)));
  }

  lemma SameAtIff(t: Tree, p: Path, d: Entry, e: Entry)
    ensures t[p := d] == t[p := e] <==> d == e
  {
    assert t[p := d][p] == d && t[p := e][p] == e;
  }

  lemma BaseIsContentIff(b: Layer, inherited: Tree, p: Path, offset: nat, data: seq<byte>)
    requires p in Overlaid(b, inherited) ==> Overlaid(b, inherited)[p].File?
    requires p !in b.files && InheritedAt(b, inherited, p).Some? ==> !InheritedAt(b, inherited, p).value.Symlink?
    ensures var v, inh := Overlaid(b, inherited), InheritedAt(b, inherited, p);
      Overwrite(WriteBase(b, inh, p), offset, data) == Overwrite(Content(v, p), offset, data) <==>
        StartsFromView(b, inh, p, offset, data)
  {
    OverlaidAt(b, inherited, p);
    ForgottenIff(WriteBase(b, InheritedAt(b, inherited, p), p), offset, data);
  }

  lemma ReplacesOnlyItself(v: Tree, p: Path, e: Entry)
    requires p in v ==> !v[p].Dir?
    ensures WithoutAll(Files(v), {p})[p := e] == Files(v)[p := e]
  {
    forall x | x in Files(v) && p <= x
      ensures x == p
    {
      assert p < x || p == x;
    }
  }

  /** Old content that an overwrite of a missing file would not have shown differently. */
  ghost predicate Forgotten(content: seq<byte>, offset: nat, data: seq<byte>) {
    if data == [] then content == []
    else |content| <= offset + |data| && forall i :: 0 <= i < |content| && i < offset ==> content[i] == 0
  }

  lemma ForgottenIff(content: seq<byte>, offset: nat, data: seq<byte>)
    ensures Overwrite(content, offset, data) == Overwrite([], offset, data) <==> Forgotten(content, offset, data)
  {
    if data != [] {
      var a, b := Overwrite(content, offset, data), Overwrite([], offset, data);
      if a == b {
        assert |a| == |b|;
        forall i | 0 <= i < |content| && i < offset
          ensures content[i] == 0
        {
          assert a[i] == b[i];
        }
      }
    }
  }

  /** A write shows the overwritten visible content exactly when the path was not a
      deleted inherited file, or nothing of that file shows through: the first write
      copies the inherited file even where the branch has deleted it. */
  lemma WriteMatchesViewIff(b: Layer, used: int, max: Option<nat>, inherited: Tree, p: Path, offset: int, data: seq<byte>)
    requires LayerOk(b) && p != [] && (p in b.files ==> b.files[p].File?)
    requires InheritedAt(b, inherited, p).Some? ==> !InheritedAt(b, inherited, p).value.Symlink?
    requires WriteEdit(b, used, max, InheritedAt(b, inherited, p), p, offset, data).result.Success?
    ensures offset >= 0
    ensures var inh := InheritedAt(b, inherited, p);
      var b' := WriteEdit(b, used, max, inh, p, offset, data).layer;
      (Find(Overlaid(b', inherited), p) == Some(File(Overwrite(Content(Overlaid(b, inherited), p), offset, data)))) <==>
      (p in b.files || !Covered(b.tombs, p) || inh.None? || inh.value.Dir? || Forgotten(inh.value.data, offset, data))
  {
    var inh := InheritedAt(b, inherited, p);
    var b' := WriteEdit(b, used, max, inh, p, offset, data).layer;
    OverlaidAt(b, inherited, p);
    WritePlaces(b, used, max, inh, p, offset, data);
    PlacedShows(b, b', inherited, p, File(Overwrite(WriteBase(b, inh, p), offset, data)), p);
    ForgottenIff(WriteBase(b, inh, p), offset, data);
  }

  /** Overwriting disjoint ranges with something commutes. */
  lemma OverwritesCommute(content: seq<byte>, o1: nat, d1: seq<byte>, o2: nat, d2: seq<byte>)
    requires d1 != [] && d2 != [] && (o1 + |d1| <= o2 || o2 + |d2| <= o1)
    ensures Overwrite(Overwrite(content, o1, d1), o2, d2) == Overwrite(Overwrite(content, o2, d2), o1, d1)
  {
  }
}
