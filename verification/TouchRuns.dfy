/** First-touch records over whole runs, and what they mean for a commit. */
module TouchRuns {
  import opened FileTree
  import opened Layers
  import opened Edits
  import opened EditLaws
  import opened EditRuns
  import opened Rename
  import opened TextMerge
  import opened Commit
  import opened Store
  import opened CommitRun
  import opened CommitContent
  import opened Runs
  import opened RunLaws

  // ----- one call -----

  /** The call gets to record a first touch of its path: it is not refused and, if it writes
      or opens, finds no delta there. */
  ghost predicate Touches(s: State, inherited: Tree, op: Op)
    requires op.path != []
  {
    && !s.b.frozen
    && match op
       case Write(p, offset, data) => 0 <= offset && offset + |data| < U64_LIMIT && p !in s.b.files
       case OpenForWrite(p) => p !in s.b.files
       case Delete(p) => true
       case Rmdir(p) => RmdirEdit(s.b, s.used, inherited, p).result.Success?
       case Revert(p) => false
  }

  /** What is known of `x` afterwards: a record stays whatever is called, but for a revert over
      the path; the first call that touches the path records what the branch inherits there,
      with the text if it is going to be changed, and no other path gets a record. */
  ghost function RecordAfter(s: State, inherited: Tree, op: Op, x: Path): Option<Touch>
    requires op.path != []
  {
    var inh := InheritedAt(s.b, inherited, x);
    if op.Revert? && !s.b.frozen && InPath(x, op.path) then None
    else if x in s.b.touches then Some(s.b.touches[x])
    else if x == op.path && Touches(s, inherited, op) then
      Some(Touch(x, IdentityOf(inh), if op.Write? || op.OpenForWrite? then BoundedText(inh) else None))
    else None
  }

  ghost function RecordAt(b: Layer, x: Path): Option<Touch> {
    RecordOf(b.touches, x)
  }

  lemma RecordIs(s: State, max: Option<nat>, inherited: Tree, op: Op, x: Path)
    requires op.path != []
    ensures RecordAt(Step(s, max, inherited, op).b, x) == RecordAfter(s, inherited, op, x)
  {
    hide WriteEdit, EnsureEdit, WithoutDelta, Overlaid, Children, IdentityOf, BoundedText, InheritedAt;
    var inh := InheritedAt(s.b, inherited, op.path);
    match op
    case Write(p, offset, data) => WriteRecords(s.b, s.used, max, inh, p, offset, data, x);
    case OpenForWrite(p) => OpenRecords(s.b, s.used, max, inh, p, x);
    case _ =>
  }

  lemma WriteRecords(b: Layer, used: int, max: Option<nat>, inh: Option<Entry>, p: Path, offset: int, data: seq<byte>, x: Path)
    requires p != []
    ensures RecordAt(WriteEdit(b, used, max, inh, p, offset, data).layer, x) ==
      if !b.frozen && 0 <= offset && offset + |data| < U64_LIMIT && p !in b.files then RecordOf(FirstTouch(b.touches, p, inh, true), x)
      else RecordAt(b, x)
  {
    hide QuotaAllows, Overwrite, WithParents, ParentsOk, FirstTouch;
  }

  lemma OpenRecords(b: Layer, used: int, max: Option<nat>, inh: Option<Entry>, p: Path, x: Path)
    requires p != []
    ensures RecordAt(EnsureEdit(b, used, max, inh, p).layer, x) ==
      if !b.frozen && p !in b.files then RecordOf(FirstTouch(b.touches, p, inh, true), x) else RecordAt(b, x)
  {
    hide QuotaAllows, WithParents, ParentsOk, FirstTouch;
  }

  lemma RenameKeepsRecord(b: Layer, used: int, max: Option<nat>, inherited: Tree, src: Path, dst: Path, noReplace: bool, x: Path)
    requires src != [] && dst != [] && x in b.touches
    ensures RecordAt(RenameEdit(b, used, max, inherited, src, dst, noReplace).layer, x) == Some(b.touches[x])
  {
    hide Overlaid, RenamedTombs, EnsureEdit, ClearedForRename, InheritedAt;
    var one := OpenSource(b, used, max, inherited, src);
    EnsureKeepsRecord(b, used, max, InheritedAt(b, inherited, src), src, x);
    EnsureKeepsRecord(one.layer, one.used, max, InheritedAt(b, inherited, dst), dst, x);
  }

  lemma EnsureKeepsRecord(b: Layer, used: int, max: Option<nat>, inh: Option<Entry>, p: Path, x: Path)
    requires p != [] && x in b.touches
    ensures RecordAt(EnsureEdit(b, used, max, inh, p).layer, x) == Some(b.touches[x])
  {
    OpenRecords(b, used, max, inh, p, x);
  }

  // ----- runs -----

  /** The call forgets the record of `x` in the branch. */
  ghost predicate Forgets(a: Action, name: string, x: Path) {
    a.Edit? && a.name == name && a.op.Revert? && InPath(x, a.op.path)
  }

  lemma CallKeepsRecord(s: Store, max: Option<nat>, a: Action, s': Store, name: string, x: Path)
    requires Forest(s.branches) && ActionOk(a) && Next(s, max, a, s') && !Forgets(a, name, x)
    requires name in s.branches && name in s'.branches && x in s.branches[name].touches
    ensures RecordAt(s'.branches[name], x) == Some(s.branches[name].touches[x])
  {
    hide Step, RenameEdit, Forest, InheritedView, MergedFiles, MergedTombs;
    match a
    case Edit(other, op) =>
      if other == name {
        RecordIs(State(s.branches[name], s.used), max, InheritedView(s, name), op, x);
      }
    case RenameFile(other, src, dst, noReplace) =>
      if other == name {
        RenameKeepsRecord(s.branches[name], s.used, max, InheritedView(s, name), src, dst, noReplace, x);
      }
    case CommitBranch(other) =>
      if s' != s && !CommitFailed(s, s.branches[other].parent.value, s') {
        var copies :| CommitDone(s, other, copies, s');
      }
    case _ =>
  }

  /** Over any run in which the branch lives and no revert covers the path, the first record of
      a path stays: edits, renames and commits into the branch do not change it. */
  lemma {:induction false} FirstTouchStays(states: seq<Store>, max: Option<nat>, actions: seq<Action>, name: string, x: Path)
    requires IsRun(states, max, actions) && Forest(states[0].branches) && Lives(states, name)
    requires x in states[0].branches[name].touches
    requires forall i :: 0 <= i < |actions| ==> !Forgets(actions[i], name, x)
    ensures name in states[|actions|].branches
    ensures RecordAt(states[|actions|].branches[name], x) == Some(states[0].branches[name].touches[x])
  {
    hide Forest, Forgets, Next, ActionOk;
    if actions != [] {
      var n := |actions| - 1;
      assert states[..n + 1][n] == states[n] && states[..n + 1][0] == states[0];
      RunKeepsForest(states[..n + 1], max, actions[..n]);
      FirstTouchStays(states[..n + 1], max, actions[..n], name, x);
      assert ActionOk(actions[n]) && Steps(states[n], max, actions[n], states[n + 1]);
      assert name in states[n + 1].branches;
      CallKeepsRecord(states[n], max, actions[n], states[n + 1], name, x);
    }
  }

  // ----- a text edited on both sides -----

  /** The branch first touches a text by writing to it, and goes on; meanwhile commits change
      what it inherits. When it is committed the published file is the three-way merge of the
      text it first saw, the text it inherits by then and its own text, and its own text where
      they do not merge. */
  lemma EditedTextIsMerged(states: seq<Store>, max: Option<nat>, actions: seq<Action>, name: string, x: Path,
                           offset: nat, data: seq<byte>, newer: set<Path>, base: Text, current: Text, session: Text)
    requires IsRun(states, max, actions) && Forest(states[0].branches) && Lives(states, name)
    requires actions != [] && x != [] && offset + |data| < U64_LIMIT && actions[0] == Action.Edit(name, Write(x, offset, data))
    requires var b := states[0].branches[name];
      && !b.frozen && x !in b.files && x !in b.touches
      && IsText(InheritedAt(b, InheritedView(states[0], name), x), base)
    requires forall i :: 0 <= i < |actions| ==> !Forgets(actions[i], name, x)
    requires var last := states[|actions|];
      && Forest(last.branches) && name in last.branches && Committable(last, name, newer) && ParentChanged(last, name)
      && IsText(InheritedAt(last.branches[name], InheritedView(last, name), x), current)
      && IsText(Find(last.branches[name].files, x), session)
    requires |current| != |base| || x in newer
    ensures var last := states[|actions|];
      var sources := ChosenSources(last, name, newer);
      && x in sources
      && sources[x] == match ThreeWayMerge(base, current, session)
                       case Merged(text) => File(text)
                       case _ => File(session)
  {
    hide Forest, Forgets, ActionOk, InheritedView, ThreeWayMerge, Step, CommitPanics, CommitSources;
    var last := states[|actions|];
    var b, c := states[0].branches[name], last.branches[name];
    assert ActionOk(actions[0]) && Steps(states[0], max, actions[0], states[1]);
    RecordIs(State(b, states[0].used), max, InheritedView(states[0], name), Write(x, offset, data), x);
    BoundedTextIff(InheritedAt(b, InheritedView(states[0], name), x), base);
    RunFrom(states, max, actions);
    NextKeepsForest(states[0], max, actions[0], states[1]);
    FirstTouchStays(states[1..], max, actions[1..], name, x);
    assert states[1..][|actions| - 1] == last;
    assert Sides(c, InheritedView(last, name), x, base, current, session);
    assert !Unmoved(c, InheritedView(last, name), newer, x);
    OnlySides(c, InheritedView(last, name), x, base, current, session);
    PublishedContent(c, ParentChanged(last, name), InheritedView(last, name), newer, x);
  }

  lemma OnlySides(c: Layer, inherited: Tree, x: Path, base: Text, current: Text, session: Text)
    requires Sides(c, inherited, x, base, current, session)
    ensures forall b, u, s :: Sides(c, inherited, x, b, u, s) ==> b == base && u == current && s == session
  {
  }

  lemma RunFrom(states: seq<Store>, max: Option<nat>, actions: seq<Action>)
    requires IsRun(states, max, actions) && actions != []
    ensures IsRun(states[1..], max, actions[1..])
  {
    forall i | 0 <= i < |actions| - 1
      ensures ActionOk(actions[1..][i]) && Steps(states[1..][i], max, actions[1..][i], states[1..][i + 1])
    {
      assert ActionOk(actions[i + 1]) && Steps(states[i + 1], max, actions[i + 1], states[i + 2]);
    }
  }
}
