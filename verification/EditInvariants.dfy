/** Invariants of a branch over its inherited view. */
module EditInvariants {
  import opened FileTree
  import opened Layers
  import opened Edits
  import opened EditLaws
  import opened EditRuns
  import opened Commit

  /** Every tombstone hides something inherited, and none names a delta file. */
  ghost predicate TombsMinimal(b: Layer, inherited: Tree) {
    forall t :: t in b.tombs ==> InheritedAt(b, inherited, t).Some? && (t in b.files ==> b.files[t].Dir?)
  }

  /** An edit of `p` that adds no tombstone but perhaps `p`, and no delta file but
      perhaps `p`, not both. */
  lemma EditKeepsTombsMinimal(b: Layer, b': Layer, inherited: Tree, p: Path)
    requires TombsMinimal(b, inherited) && b'.hides == b.hides
    requires b'.tombs <= b.tombs + {p} && (p in b'.tombs && p !in b.tombs ==> InheritedAt(b, inherited, p).Some?)
    requires forall q :: q in Leaves(b'.files) ==> q in Leaves(b.files) || q == p
    requires p in b'.tombs ==> p !in Leaves(b'.files)
    ensures TombsMinimal(b', inherited)
  {
    forall t | t in b'.tombs
      ensures InheritedAt(b', inherited, t).Some? && (t in b'.files ==> b'.files[t].Dir?)
    {
      assert t in b'.files && !b'.files[t].Dir? ==> t in Leaves(b'.files);
    }
  }

  lemma DeleteKeepsTombs(b: Layer, used: int, inherited: Tree, p: Path)
    requires LayerOk(b) && p != [] && TombsMinimal(b, inherited)
    ensures TombsMinimal(DeleteEdit(b, used, InheritedAt(b, inherited, p), p).layer, inherited)
  {
    if !b.frozen {
      var b' := DeleteEdit(b, used, InheritedAt(b, inherited, p), p).layer;
      WithoutDeltaShrinks(b.files, b'.touches, p);
      EditKeepsTombsMinimal(b, b', inherited, p);
    }
  }

  lemma PutLeaves(files: Tree, files': Tree, p: Path, e: Option<Entry>)
    requires Put(files, files', p, e)
    ensures forall q :: q in Leaves(files') ==> q in Leaves(files) || q == p
  {
    forall q | q in Leaves(files')
      ensures q in Leaves(files) || q == p
    {
      assert Find(files', q) == PutAt(files, p, e, q);
    }
  }

  lemma PutKeepsTombs(b: Layer, b': Layer, inherited: Tree, p: Path)
    requires p != [] && TombsMinimal(b, inherited) && PutEdit(b, b', p)
    ensures TombsMinimal(b', inherited)
  {
    if b'.files != b.files {
      PutLeaves(b.files, b'.files, p, FileAt(b'.files, p));
    }
    EditKeepsTombsMinimal(b, b', inherited, p);
  }

  lemma RevertKeepsTombs(b: Layer, used: int, inherited: Tree, p: Path)
    requires LayerOk(b) && p != [] && TombsMinimal(b, inherited)
    ensures TombsMinimal(RevertEdit(b, used, p).layer, inherited)
  {
    if !b.frozen {
      WithoutDeltaShrinks(b.files, b.touches, p);
      EditKeepsTombsMinimal(b, RevertEdit(b, used, p).layer, inherited, p);
    }
  }

  lemma StepKeepsTombsMinimal(s: State, max: Option<nat>, inherited: Tree, op: Op)
    requires LayerOk(s.b) && op.path != [] && TombsMinimal(s.b, inherited)
    ensures TombsMinimal(Step(s, max, inherited, op).b, inherited)
  {
    hide TombsMinimal, WriteEdit, EnsureEdit, DeleteEdit, RevertEdit, PutEdit, Overlaid, InheritedAt;
    var inh := InheritedAt(s.b, inherited, op.path);
    match op
    case Write(p, offset, data) =>
      WriteIsPut(s.b, s.used, max, inh, p, offset, data);
      PutKeepsTombs(s.b, Step(s, max, inherited, op).b, inherited, p);
    case OpenForWrite(p) =>
      EnsureIsPut(s.b, s.used, max, inh, p);
      PutKeepsTombs(s.b, Step(s, max, inherited, op).b, inherited, p);
    case Delete(p) => DeleteKeepsTombs(s.b, s.used, inherited, p);
    case Rmdir(p) => DeleteKeepsTombs(s.b, s.used, inherited, p);
    case Revert(p) => RevertKeepsTombs(s.b, s.used, inherited, p);
  }

  /** After a nested commit a committed path has no tombstone in the parent, a path that the
      child deletes has one exactly where the parent inherits something, whether it had one
      before or not, and any other path has one exactly if it had. */
  lemma NestedCommitTombsAt(c: Layer, p: Layer, ip: Tree, copies: Tree, p': Layer, t: Path)
    requires NestedCommitted(c, p, ip, copies, p')
    ensures t in p'.tombs <==>
      if t in copies then false else if t in c.tombs then InheritedAt(p, ip, t).Some? else t in p.tombs
  {
    hide MergedFiles, Published;
  }

  /** A nested commit into the branch keeps the tombstones minimal and apart from the delta
      files. */
  lemma NestedCommitKeepsTombsMinimal(c: Layer, p: Layer, ip: Tree, copies: Tree, p': Layer)
    requires LayerOk(c) && LayerOk(p) && TombsMinimal(p, ip) && SourcesOf(c, copies)
    requires NestedCommitted(c, p, ip, copies, p')
    ensures TombsMinimal(p', ip)
  {
    hide Published, WellFormed;
    forall t | t in p'.tombs
      ensures InheritedAt(p', ip, t).Some? && (t in p'.files ==> p'.files[t].Dir?)
    {
      PublishedAt(p.files, c.tombs, copies, t);
      if t in p'.files {
        assert Find(Published(p.files, c.tombs, copies), t) == Some(p'.files[t]);
        assert t in c.tombs ==> Covered(c.tombs, t);
      }
    }
  }

  // ----- kinds stay stable -----

  /** The directories above `p` are directories of the view, and `p` is not itself a
      delta directory. */
  ghost predicate PlaceVisible(b: Layer, inherited: Tree, p: Path) {
    && (forall q :: q < p ==> Find(Overlaid(b, inherited), q) == Some(Dir))
    && Find(b.files, p) != Some(Dir)
  }

  lemma PutKeepsKindStable(b: Layer, b': Layer, inherited: Tree, p: Path)
    requires p != [] && LayerOk(b) && KindStable(b, inherited) && PlaceVisible(b, inherited, p) && PutEdit(b, b', p)
    ensures KindStable(b', inherited)
  {
    forall d | d in b'.files && b'.files[d].Dir? && d in inherited && !Covered(b'.tombs, d) && !Covered(b'.hides, d)
      ensures inherited[d].Dir?
    {
      assert (d in b.files && b.files[d].Dir?) || d < p by {
        if b'.files != b.files {
          assert Find(b'.files, d) == PutAt(b.files, p, FileAt(b'.files, p), d);
        }
      }
      KindStays(b, b', inherited, p, d);
    }
  }

  lemma KindStays(b: Layer, b': Layer, inherited: Tree, p: Path, d: Path)
    requires LayerOk(b) && KindStable(b, inherited) && PlaceVisible(b, inherited, p)
    requires b'.hides == b.hides && b.tombs - {p} <= b'.tombs
    requires (d in b.files && b.files[d].Dir?) || d < p
    requires d in inherited && !Covered(b'.tombs, d) && !Covered(b'.hides, d)
    ensures inherited[d].Dir?
  {
    assert !(p <= d) by {
      assert p <= d ==> p == d || p < d;
    }
    assert forall t :: t in b.tombs && t <= d ==> t in b'.tombs;
    OverlaidAt(b, inherited, d);
    assert d < p ==> Find(Overlaid(b, inherited), d) == Some(Dir);
  }

  lemma CutKeepsKindStable(b: Layer, b': Layer, inherited: Tree, p: Path)
    requires LayerOk(b) && PrefixClosed(inherited) && KindStable(b, inherited) && b'.hides == b.hides
    requires forall q :: q in b'.files ==> q in b.files && b'.files[q] == b.files[q] && !(p <= q)
    requires forall t :: !(p <= t) && t in b.tombs ==> t in b'.tombs
    ensures KindStable(b', inherited)
  {
    forall d | d in b'.files && b'.files[d].Dir? && d in inherited && !Covered(b'.tombs, d) && !Covered(b'.hides, d)
      ensures inherited[d].Dir?
    {
      assert forall t :: t in b.tombs && t <= d ==> !(p <= t);
    }
  }

  /** Writes and opens are asked to name places whose directories are visible, as the
      kernel does before it calls. */
  ghost predicate StepsVisibly(s: State, inherited: Tree, op: Op) {
    op.Write? || op.OpenForWrite? ==> PlaceVisible(s.b, inherited, op.path)
  }

  ghost predicate RunsVisibly(s: State, max: Option<nat>, inherited: Tree, ops: seq<Op>)
    requires OpsOk(ops)
  {
    forall i :: 0 <= i < |ops| ==> StepsVisibly(Run(s, max, inherited, ops[..i]), inherited, ops[i])
  }

  /** Runs of edits never put a delta directory over a visible inherited file. */
  lemma {:induction false} RunKeepsKindStable(s: State, max: Option<nat>, inherited: Tree, ops: seq<Op>)
    requires LayerOk(s.b) && OpsOk(ops) && PrefixClosed(inherited) && KindStable(s.b, inherited)
    requires RunsVisibly(s, max, inherited, ops)
    ensures KindStable(Run(s, max, inherited, ops).b, inherited)
  {
    hide KindStable, StepsVisibly, Step, LayerOk, PrefixClosed;
    if ops != [] {
      var n := |ops| - 1;
      RunsVisiblyBefore(s, max, inherited, ops);
      RunKeepsKindStable(s, max, inherited, ops[..n]);
      RunKeepsOk(s, max, inherited, ops[..n]);
      StepKeepsKindStable(Run(s, max, inherited, ops[..n]), max, inherited, ops[n]);
    }
  }

  lemma RunsVisiblyBefore(s: State, max: Option<nat>, inherited: Tree, ops: seq<Op>)
    requires OpsOk(ops) && ops != [] && RunsVisibly(s, max, inherited, ops)
    ensures var n := |ops| - 1;
      RunsVisibly(s, max, inherited, ops[..n]) && StepsVisibly(Run(s, max, inherited, ops[..n]), inherited, ops[n])
  {
    hide StepsVisibly, Run;
    var n := |ops| - 1;
    forall i | 0 <= i < n
      ensures ops[..n][..i] == ops[..i] && ops[..n][i] == ops[i]
    {
    }
  }

  lemma StepKeepsKindStable(r: State, max: Option<nat>, inherited: Tree, op: Op)
    requires LayerOk(r.b) && op.path != [] && PrefixClosed(inherited) && KindStable(r.b, inherited)
    requires StepsVisibly(r, inherited, op)
    ensures KindStable(Step(r, max, inherited, op).b, inherited)
  {
    hide KindStable, WriteEdit, EnsureEdit, PutEdit, WithoutDelta, WellFormed, FirstTouch;
    var b' := Step(r, max, inherited, op).b;
    var inh := InheritedAt(r.b, inherited, op.path);
    match op
    case Write(p, offset, data) =>
      WriteIsPut(r.b, r.used, max, inh, p, offset, data);
      PutKeepsKindStable(r.b, b', inherited, p);
    case OpenForWrite(p) =>
      EnsureIsPut(r.b, r.used, max, inh, p);
      PutKeepsKindStable(r.b, b', inherited, p);
    case Delete(p) =>
      WithoutDeltaShrinks(r.b.files, b'.touches, p);
      if !r.b.frozen { CutKeepsKindStable(r.b, b', inherited, p); }
    case Rmdir(p) =>
      WithoutDeltaShrinks(r.b.files, b'.touches, p);
      if b' != r.b { CutKeepsKindStable(r.b, b', inherited, p); }
    case Revert(p) =>
      WithoutDeltaShrinks(r.b.files, r.b.touches, p);
      if !r.b.frozen { CutKeepsKindStable(r.b, b', inherited, p); }
  }
}
