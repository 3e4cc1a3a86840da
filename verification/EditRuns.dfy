/** What every run of edits of one branch keeps. */
module EditRuns {
  import opened FileTree
  import opened Layers
  import opened Edits
  import opened EditLaws

  datatype Op =
    | Write(path: Path, offset: int, data: seq<byte>)
    | OpenForWrite(path: Path)
    | Delete(path: Path)
    | Rmdir(path: Path)
    | Revert(path: Path)

  ghost function Children(v: Tree, d: Path): set<string> {
    set q | q in v && q != [] && Parent(q) == d :: q[|q| - 1]
  }

  /** rmdir: a visible, empty directory is deleted. */
  ghost function RmdirEdit(b: Layer, used: int, inherited: Tree, p: Path): Done<()>
    requires p != []
  {
    if b.frozen then Done(b, used, Failure(Frozen)) else
      var v := Overlaid(b, inherited);
      if p !in v then Done(b, used, Failure(NoEntry))
      else if !v[p].Dir? then Done(b, used, Failure(NotADirectory))
      else if Children(v, p) != {} then Done(b, used, Failure(NotEmpty))
      else DeleteEdit(b, used, InheritedAt(b, inherited, p), p)
  }

  /** A branch and the byte count of the quota. */
  datatype State = State(b: Layer, used: int)

  ghost function Step(s: State, max: Option<nat>, inherited: Tree, op: Op): State
    requires op.path != []
  {
    var inh := InheritedAt(s.b, inherited, op.path);
    match op
    case Write(p, offset, data) => var d := WriteEdit(s.b, s.used, max, inh, p, offset, data); State(d.layer, d.used)
    case OpenForWrite(p) => var d := EnsureEdit(s.b, s.used, max, inh, p); State(d.layer, d.used)
    case Delete(p) => var d := DeleteEdit(s.b, s.used, inh, p); State(d.layer, d.used)
    case Rmdir(p) => var d := RmdirEdit(s.b, s.used, inherited, p); State(d.layer, d.used)
    case Revert(p) => var d := RevertEdit(s.b, s.used, p); State(d.layer, d.used)
  }

  ghost predicate OpsOk(ops: seq<Op>) {
    forall i :: 0 <= i < |ops| ==> ops[i].path != []
  }

  ghost function Run(s: State, max: Option<nat>, inherited: Tree, ops: seq<Op>): State
    requires OpsOk(ops)
  {
    if ops == [] then s else Step(Run(s, max, inherited, ops[..|ops| - 1]), max, inherited, ops[|ops| - 1])
  }

  // ----- every edit is local -----

  /** Only deltas at and below `p` change, and tombstones and touch records there;
      elsewhere directories may come and go, files may not. */
  ghost predicate LocalEdit(b: Layer, b': Layer, p: Path) {
    && WellFormed(b'.files)
    && (forall q :: !(p <= q) ==> Find(Leaves(b'.files), q) == Find(Leaves(b.files), q))
    && (forall t :: !(p <= t) ==> (t in b'.tombs <==> t in b.tombs))
    && (forall t :: !(p <= t) ==> (t in b'.touches <==> t in b.touches))
    && (forall t :: !(p <= t) && t in b.touches ==> b'.touches[t] == b.touches[t])
    && b'.(files := b.files, tombs := b.tombs, touches := b.touches) == b
  }

  lemma ShrinksLeaves(a: Tree, c: Tree)
    requires Shrinks(a, c)
    ensures Leaves(a) == Leaves(c)
  {
  }

  lemma DeleteIsLocal(b: Layer, used: int, inh: Option<Entry>, p: Path)
    requires LayerOk(b) && p != []
    ensures LocalEdit(b, DeleteEdit(b, used, inh, p).layer, p)
  {
    if !b.frozen {
      var b' := DeleteEdit(b, used, inh, p).layer;
      WithoutDeltaShrinks(b.files, b'.touches, p);
      ShrinksLeaves(RemoveUnder(b.files, p), b'.files);
    }
  }

  lemma RevertIsLocal(b: Layer, used: int, p: Path)
    requires LayerOk(b) && p != []
    ensures LocalEdit(b, RevertEdit(b, used, p).layer, p)
  {
    if !b.frozen {
      WithoutDeltaShrinks(b.files, b.touches, p);
      ShrinksLeaves(RemoveUnder(b.files, p), WithoutDelta(b.files, b.touches, p));
    }
  }

  /** Directories above `p`, and perhaps a file at `p`. */
  ghost predicate Put(files: Tree, files': Tree, p: Path, e: Option<Entry>) {
    forall q :: Find(files', q) == PutAt(files, p, e, q)
  }

  ghost function PutAt(files: Tree, p: Path, e: Option<Entry>, q: Path): Option<Entry> {
    if q == p && e.Some? then e else if q in files then Some(files[q]) else if q < p then Some(Dir) else None
  }

  lemma PutIsLocal(files: Tree, files': Tree, p: Path, e: Option<Entry>)
    requires WellFormed(files) && p != [] && ParentsOk(files, p) && Put(files, files', p, e)
    requires p in files && e.Some? ==> !files[p].Dir?
    ensures WellFormed(files')
    ensures forall q :: !(p <= q) ==> Find(Leaves(files'), q) == Find(Leaves(files), q)
  {
    assert Find(files', []) == PutAt(files, p, e, []);
    forall r, q | r in files' && q < r
      ensures Find(files', q) == Some(Dir)
    {
      assert Find(files', r) == PutAt(files, p, e, r);
      assert Find(files', q) == PutAt(files, p, e, q);
      assert r <= p && q < r ==> q < p;
    }
    WellFormedIf(files');
    forall q | !(p <= q)
      ensures Find(Leaves(files'), q) == Find(Leaves(files), q)
    {
      assert q != p;
      assert Find(files', q) == PutAt(files, p, e, q);
    }
  }

  lemma ParentsPut(files: Tree, p: Path, e: Entry)
    requires p != []
    ensures Put(files, WithParents(files, p), p, None)
    ensures Put(files, WithParents(files, p)[p := e], p, Some(e))
  {
    forall q
      ensures Find(WithParents(files, p), q) == PutAt(files, p, None, q)
    {
      WithParentsAt(files, p, q);
    }
    forall q
      ensures Find(WithParents(files, p)[p := e], q) == PutAt(files, p, Some(e), q)
    {
      WithParentsAt(files, p, q);
    }
  }

  ghost function FileAt(files: Tree, p: Path): Option<Entry> {
    if p in files && !files[p].Dir? then Some(files[p]) else None
  }

  ghost predicate FilesPut(files: Tree, files': Tree, p: Path)
    requires p != []
  {
    ParentsOk(files, p) && Find(files, p) != Some(Dir) && Put(files, files', p, FileAt(files', p))
  }

  ghost predicate TouchedOnly(touches: map<Path, Touch>, touches': map<Path, Touch>, p: Path) {
    forall t :: t != p ==> (t in touches' <==> t in touches) && (t in touches ==> touches'[t] == touches[t])
  }

  /** An edit that leaves the deltas alone, or puts a file at `p` under parents that it
      may create and clears the tombstone there. */
  ghost predicate PutEdit(b: Layer, b': Layer, p: Path)
    requires p != []
  {
    && (b'.files == b.files || (p !in b'.tombs && FilesPut(b.files, b'.files, p)))
    && b.tombs - {p} <= b'.tombs <= b.tombs
    && TouchedOnly(b.touches, b'.touches, p)
    && b'.(files := b.files, tombs := b.tombs, touches := b.touches) == b
  }

  lemma PutEditIsLocal(b: Layer, b': Layer, p: Path)
    requires LayerOk(b) && p != [] && PutEdit(b, b', p)
    ensures LocalEdit(b, b', p)
  {
    if b'.files != b.files {
      PutIsLocal(b.files, b'.files, p, FileAt(b'.files, p));
    }
  }

  lemma FirstTouchOnly(touches: map<Path, Touch>, p: Path, inh: Option<Entry>, capture: bool)
    ensures TouchedOnly(touches, FirstTouch(touches, p, inh, capture), p)
  {
  }

  lemma ParentsArePut(files: Tree, p: Path, e: Entry)
    requires p != [] && p !in files && ParentsOk(files, p) && !e.Dir?
    ensures FilesPut(files, WithParents(files, p), p)
    ensures FilesPut(files, WithParents(files, p)[p := e], p)
  {
    WithParentsAt(files, p, p);
    ParentsPut(files, p, e);
    assert FileAt(WithParents(files, p), p) == None;
  }

  lemma EnsureIsPut(b: Layer, used: int, max: Option<nat>, inh: Option<Entry>, p: Path)
    requires p != []
    ensures PutEdit(b, EnsureEdit(b, used, max, inh, p).layer, p)
  {
    FirstTouchOnly(b.touches, p, inh, true);
    if p !in b.files && ParentsOk(b.files, p) {
      ParentsArePut(b.files, p, if inh.Some? && !inh.value.Dir? then inh.value else File([]));
    }
  }

  lemma OverwrittenIsPut(files: Tree, p: Path, e: Entry)
    requires WellFormed(files) && p != [] && p in files && !files[p].Dir? && !e.Dir?
    ensures FilesPut(files, files[p := e], p)
  {
    forall q
      ensures Find(files[p := e], q) == PutAt(files, p, Some(e), q)
    {
      assert q < p ==> q in files;
    }
  }

  /** In place, a write either fails and changes no delta or sets the file. */
  lemma WriteInPlaceSets(b: Layer, used: int, max: Option<nat>, p: Path, offset: nat, data: seq<byte>)
    returns (content: seq<byte>)
    ensures var b' := WriteInPlace(b, used, max, p, offset, data).layer;
      && b'.(files := b.files) == b
      && (b'.files == b.files || ((p in b.files ==> b.files[p].File?) && b'.files == b.files[p := File(content)]))
  {
    content := Overwrite(if p in b.files && b.files[p].File? then b.files[p].data else [], offset, data);
  }

  lemma WriteIsPut(b: Layer, used: int, max: Option<nat>, inh: Option<Entry>, p: Path, offset: int, data: seq<byte>)
    requires WellFormed(b.files) && p != []
    ensures PutEdit(b, WriteEdit(b, used, max, inh, p, offset, data).layer, p)
  {
    FirstTouchOnly(b.touches, p, inh, true);
    if offset < 0 || offset + |data| >= U64_LIMIT || b.frozen {
    } else if p in b.files {
      var content := WriteInPlaceSets(b.(tombs := b.tombs - {p}), used, max, p, offset, data);
      if b.files[p].File? {
        OverwrittenIsPut(b.files, p, File(content));
      }
    } else if !ParentsOk(b.files, p) {
    } else if inh.Some? && inh.value.File? {
      ParentsArePut(b.files, p, File(Overwrite(inh.value.data, offset, data)));
    } else {
      var b1 := b.(touches := FirstTouch(b.touches, p, inh, true), files := WithParents(b.files, p), tombs := b.tombs - {p});
      var content := WriteInPlaceSets(b1, used, max, p, offset, data);
      ParentsArePut(b.files, p, File(content));
    }
  }

  lemma LocalCompose(a: Layer, b: Layer, c: Layer, p: Path)
    requires LocalEdit(a, b, p) && LocalEdit(b, c, p)
    ensures LocalEdit(a, c, p)
  {
  }

  lemma NoEditIsLocal(b: Layer, p: Path)
    requires LayerOk(b)
    ensures LocalEdit(b, b, p)
  {
  }

  lemma StepIsLocal(s: State, max: Option<nat>, inherited: Tree, op: Op)
    requires LayerOk(s.b) && op.path != []
    ensures LocalEdit(s.b, Step(s, max, inherited, op).b, op.path)
  {
    hide WriteEdit, EnsureEdit, DeleteEdit, RevertEdit, LocalEdit, PutEdit, Overlaid, InheritedAt;
    var inh := InheritedAt(s.b, inherited, op.path);
    NoEditIsLocal(s.b, op.path);
    match op
    case Write(p, offset, data) =>
      WriteIsPut(s.b, s.used, max, inh, p, offset, data);
      PutEditIsLocal(s.b, Step(s, max, inherited, op).b, p);
    case OpenForWrite(p) =>
      EnsureIsPut(s.b, s.used, max, inh, p);
      PutEditIsLocal(s.b, Step(s, max, inherited, op).b, p);
    case Delete(p) => DeleteIsLocal(s.b, s.used, inh, p);
    case Rmdir(p) => DeleteIsLocal(s.b, s.used, inh, p);
    case Revert(p) => RevertIsLocal(s.b, s.used, p);
  }

  lemma LocalKeepsOk(b: Layer, b': Layer, p: Path)
    requires LayerOk(b) && p != [] && LocalEdit(b, b', p)
    ensures LayerOk(b')
  {
    assert b'.hides == b.hides && b'.inherited == b.inherited;
  }

  lemma {:induction false} RunKeepsOk(s: State, max: Option<nat>, inherited: Tree, ops: seq<Op>)
    requires LayerOk(s.b) && OpsOk(ops)
    ensures LayerOk(Run(s, max, inherited, ops).b)
  {
    if ops != [] {
      var n := |ops| - 1;
      RunKeepsOk(s, max, inherited, ops[..n]);
      StepIsLocal(Run(s, max, inherited, ops[..n]), max, inherited, ops[n]);
      LocalKeepsOk(Run(s, max, inherited, ops[..n]).b, Run(s, max, inherited, ops).b, ops[n].path);
    }
  }

  // ----- revert undoes a run -----

  ghost predicate Untouched(b: Layer, p: Path) {
    && (forall q :: p <= q ==> q !in b.files)
    && (forall t :: p <= t ==> t !in b.tombs && t !in b.touches)
  }

  lemma LocalWidens(b: Layer, b': Layer, p: Path, q: Path)
    requires LocalEdit(b, b', q) && p <= q
    ensures LocalEdit(b, b', p)
  {
  }

  lemma {:induction false} RunIsLocal(s: State, max: Option<nat>, inherited: Tree, ops: seq<Op>, p: Path)
    requires LayerOk(s.b) && OpsOk(ops) && forall i :: 0 <= i < |ops| ==> p <= ops[i].path
    ensures LocalEdit(s.b, Run(s, max, inherited, ops).b, p)
  {
    if ops != [] {
      var n := |ops| - 1;
      var before := Run(s, max, inherited, ops[..n]);
      RunIsLocal(s, max, inherited, ops[..n], p);
      RunKeepsOk(s, max, inherited, ops[..n]);
      StepIsLocal(before, max, inherited, ops[n]);
      LocalWidens(before.b, Run(s, max, inherited, ops).b, p, ops[n].path);
      LocalCompose(s.b, before.b, Run(s, max, inherited, ops).b, p);
    }
  }

  /** After any run of edits at and below a path at which the branch had no delta,
      tombstone or touch record, reverting the path restores the branch's delta files,
      tombstones and touch records, and below the path the view is the old one. */
  lemma RevertUndoesRun(s: State, max: Option<nat>, inherited: Tree, ops: seq<Op>, p: Path)
    requires LayerOk(s.b) && OpsOk(ops) && p != [] && forall i :: 0 <= i < |ops| ==> p <= ops[i].path
    requires Untouched(s.b, p) && !s.b.frozen
    ensures var b' := Step(Run(s, max, inherited, ops), max, inherited, Revert(p)).b;
      && Leaves(b'.files) == Leaves(s.b.files) && b'.tombs == s.b.tombs && b'.touches == s.b.touches
      && forall q :: p <= q ==> Find(Overlaid(b', inherited), q) == Find(Overlaid(s.b, inherited), q)
  {
    hide Run, RevertEdit, Overlaid, LocalEdit, Untouched, Leaves;
    var r := Run(s, max, inherited, ops);
    RunIsLocal(s, max, inherited, ops, p);
    RunKeepsOk(s, max, inherited, ops);
    RevertIsLocal(r.b, r.used, p);
    LocalCompose(s.b, r.b, RevertEdit(r.b, r.used, p).layer, p);
    RunKeepsFrozen(s, max, inherited, ops, p);
    RevertClears(r.b, r.used, p);
    UntouchedAgain(s.b, RevertEdit(r.b, r.used, p).layer, inherited, p);
  }

  lemma RunKeepsFrozen(s: State, max: Option<nat>, inherited: Tree, ops: seq<Op>, p: Path)
    requires OpsOk(ops) && LocalEdit(s.b, Run(s, max, inherited, ops).b, p)
    ensures Run(s, max, inherited, ops).b.frozen == s.b.frozen
  {
    hide Run;
  }

  /** An edit that leaves no trace at and below its path has no effect but on empty
      directories above it. */
  lemma UntouchedAgain(b: Layer, b': Layer, inherited: Tree, p: Path)
    requires LocalEdit(b, b', p) && Untouched(b, p) && Untouched(b', p)
    ensures Leaves(b'.files) == Leaves(b.files) && b'.tombs == b.tombs && b'.touches == b.touches
    ensures forall q :: p <= q ==> Find(Overlaid(b', inherited), q) == Find(Overlaid(b, inherited), q)
  {
    hide Overlaid;
    forall q
      ensures Find(Leaves(b'.files), q) == Find(Leaves(b.files), q)
    {
    }
    SameTree(Leaves(b'.files), Leaves(b.files));
    assert b'.tombs == b.tombs;
    assert b'.touches == b.touches;
    forall q | p <= q
      ensures Find(Overlaid(b', inherited), q) == Find(Overlaid(b, inherited), q)
    {
      OverlaidAt(b', inherited, q);
      OverlaidAt(b, inherited, q);
    }
  }

  lemma RevertClears(b: Layer, used: int, p: Path)
    requires LayerOk(b) && p != [] && !b.frozen
    ensures Untouched(RevertEdit(b, used, p).layer, p)
  {
    WithoutDeltaShrinks(b.files, b.touches, p);
  }

  // ----- the quota -----

  ghost function Slack(s: State): int {
    s.used - Size(s.b.files)
  }

  lemma DeletedSize(files: Tree, touches: map<Path, Touch>, p: Path)
    requires WellFormed(files) && p != []
    ensures Size(WithoutDelta(files, touches, p)) == Size(files) - Size(Under(files, p))
  {
    WithoutDeltaShrinks(files, touches, p);
    ShrinksSameSize(RemoveUnder(files, p), WithoutDelta(files, touches, p));
    SizeOfParts(files, p);
  }

  lemma ParentsWeighNothing(files: Tree, p: Path)
    ensures Size(WithParents(files, p)) == Size(files)
  {
    forall q
      ensures Find(Leaves(WithParents(files, p)), q) == Find(Leaves(files), q)
    {
      WithParentsAt(files, p, q);
    }
    SameTree(Leaves(WithParents(files, p)), Leaves(files));
    SizeOfLeaves(WithParents(files, p), files);
  }

  lemma OverwriteLength(content: seq<byte>, offset: nat, data: seq<byte>)
    ensures |Overwrite(content, offset, data)| == if data == [] then |content| else Max(|content|, offset + |data|)
  {
  }

  lemma WriteInPlaceConserves(b: Layer, used: int, max: Option<nat>, p: Path, offset: nat, data: seq<byte>)
    ensures var d := WriteInPlace(b, used, max, p, offset, data);
      && d.used - Size(d.layer.files) == used - Size(b.files)
      && (max.Some? && used <= max.value ==> d.used <= max.value)
  {
    var before := if p in b.files && b.files[p].File? then b.files[p].data else [];
    SizeUpdate(b.files, p, File(Overwrite(before, offset, data)));
    OverwriteLength(before, offset, data);
  }

  lemma WriteConserves(b: Layer, used: int, max: Option<nat>, inh: Option<Entry>, p: Path, offset: int, data: seq<byte>)
    requires p != []
    ensures var d := WriteEdit(b, used, max, inh, p, offset, data);
      && d.used - Size(d.layer.files) == used - Size(b.files)
      && (max.Some? && used <= max.value ==> d.used <= max.value)
  {
    hide Size, FirstTouch, Overwrite;
    if offset >= 0 && p in b.files {
      WriteInPlaceConserves(b.(tombs := b.tombs - {p}), used, max, p, offset, data);
    } else if offset >= 0 {
      var b2 := b.(touches := FirstTouch(b.touches, p, inh, true), files := WithParents(b.files, p), tombs := b.tombs - {p});
      ParentsWeighNothing(b.files, p);
      if inh.Some? && inh.value.File? {
        var content := Overwrite(inh.value.data, offset, data);
        WithParentsAt(b.files, p, p);
        SizeUpdate(WithParents(b.files, p), p, File(content));
        OverwriteLength(inh.value.data, offset, data);
      } else {
        WriteInPlaceConserves(b2, used, max, p, offset, data);
      }
    }
  }

  lemma EnsureConserves(b: Layer, used: int, max: Option<nat>, inh: Option<Entry>, p: Path)
    requires p != []
    ensures var d := EnsureEdit(b, used, max, inh, p);
      && d.used - Size(d.layer.files) == used - Size(b.files)
      && (max.Some? && used <= max.value ==> d.used <= max.value)
  {
    hide Size, WithParents, ParentsOk, FirstTouch;
    ParentsWeighNothing(b.files, p);
    if p !in b.files && inh.Some? {
      WithParentsAt(b.files, p, p);
      SizeUpdate(WithParents(b.files, p), p, inh.value);
    }
  }

  lemma StepConserves(s: State, max: Option<nat>, inherited: Tree, op: Op)
    requires LayerOk(s.b) && op.path != []
    ensures Slack(Step(s, max, inherited, op)) == Slack(s)
    ensures max.Some? && s.used <= max.value ==> Step(s, max, inherited, op).used <= max.value
  {
    hide WriteEdit, EnsureEdit, Size, WithoutDelta, Under, Overlaid, FirstTouch, InheritedAt;
    var inh := InheritedAt(s.b, inherited, op.path);
    match op
    case Write(p, offset, data) => WriteConserves(s.b, s.used, max, inh, p, offset, data);
    case OpenForWrite(p) => EnsureConserves(s.b, s.used, max, inh, p);
    case Delete(p) => DeletedSize(s.b.files, FirstTouch(s.b.touches, p, inh, false), p);
    case Rmdir(p) => DeletedSize(s.b.files, FirstTouch(s.b.touches, p, inh, false), p);
    case Revert(p) => DeletedSize(s.b.files, s.b.touches, p);
  }

  /** Along every run of edits the byte count moves with the size of the deltas, and
      never passes the quota once it respects it. */
  lemma {:induction false} RunConservesQuota(s: State, max: Option<nat>, inherited: Tree, ops: seq<Op>)
    requires LayerOk(s.b) && OpsOk(ops)
    ensures Slack(Run(s, max, inherited, ops)) == Slack(s)
    ensures max.Some? && s.used <= max.value ==> Run(s, max, inherited, ops).used <= max.value
  {
    if ops != [] {
      var n := |ops| - 1;
      RunConservesQuota(s, max, inherited, ops[..n]);
      RunKeepsOk(s, max, inherited, ops[..n]);
      StepConserves(Run(s, max, inherited, ops[..n]), max, inherited, ops[n]);
    }
  }
}
