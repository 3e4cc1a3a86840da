/** Runs of everything that changes one branch: edits, renames and commits of its children
    into it, in any order. */
module BranchRuns {
  import opened FileTree
  import opened Layers
  import opened EditRuns
  import opened EditInvariants
  import opened Rename
  import opened Commit

  datatype Event =
    | Change(op: Op)
    | Move(src: Path, dst: Path, noReplace: bool)
    | MergeChild(child: Layer, copies: Tree)

  ghost predicate EventOk(e: Event) {
    match e
    case Change(op) => op.path != []
    case Move(src, dst, _) => src != [] && dst != []
    case MergeChild(child, copies) => LayerOk(child) && SourcesOf(child, copies)
  }

  ghost predicate EventsOk(events: seq<Event>) {
    forall i :: 0 <= i < |events| ==> EventOk(events[i])
  }

  /** The branch after a commit of the child into it; one that a kept file is in the way of
      is no step. */
  ghost function WithChild(b: Layer, inherited: Tree, child: Layer, copies: Tree): Layer {
    if RoomForCopies(b.files, child.tombs, copies) then MergedParent(child, b, inherited, copies) else b
  }

  ghost function After(s: State, max: Option<nat>, inherited: Tree, e: Event): State
    requires EventOk(e)
  {
    match e
    case Change(op) => Step(s, max, inherited, op)
    case Move(src, dst, noReplace) =>
      var d := RenameEdit(s.b, s.used, max, inherited, src, dst, noReplace); State(d.layer, d.used)
    case MergeChild(child, copies) => State(WithChild(s.b, inherited, child, copies), s.used)
  }

  ghost function AfterAll(s: State, max: Option<nat>, inherited: Tree, events: seq<Event>): State
    requires EventsOk(events)
  {
    if events == [] then s
    else After(AfterAll(s, max, inherited, events[..|events| - 1]), max, inherited, events[|events| - 1])
  }

  lemma MergeKeepsOk(b: Layer, inherited: Tree, child: Layer, copies: Tree)
    requires LayerOk(b) && LayerOk(child) && SourcesOf(child, copies)
    ensures LayerOk(WithChild(b, inherited, child, copies))
  {
    hide Published;
    if RoomForCopies(b.files, child.tombs, copies) {
      MergedShrinks(child, b, copies);
    }
  }

  lemma EventKeepsOk(s: State, max: Option<nat>, inherited: Tree, e: Event)
    requires LayerOk(s.b) && EventOk(e)
    ensures LayerOk(After(s, max, inherited, e).b)
  {
    hide Step, RenameEdit, WithChild, LayerOk;
    match e
    case Change(op) =>
      StepIsLocal(s, max, inherited, op);
      LocalKeepsOk(s.b, Step(s, max, inherited, op).b, op.path);
    case Move(src, dst, noReplace) => RenameKeepsOk(s.b, s.used, max, inherited, src, dst, noReplace);
    case MergeChild(child, copies) => MergeKeepsOk(s.b, inherited, child, copies);
  }

  lemma {:induction false} AllKeepOk(s: State, max: Option<nat>, inherited: Tree, events: seq<Event>)
    requires LayerOk(s.b) && EventsOk(events)
    ensures LayerOk(AfterAll(s, max, inherited, events).b)
  {
    hide LayerOk, EventOk;
    if events != [] {
      var n := |events| - 1;
      AllKeepOk(s, max, inherited, events[..n]);
      EventKeepsOk(AfterAll(s, max, inherited, events[..n]), max, inherited, events[n]);
    }
  }

  /** The event is a rename that brings a file of a moved directory under a tombstone. */
  ghost predicate Buries(s: State, max: Option<nat>, inherited: Tree, e: Event)
    requires EventOk(e)
  {
    e.Move? && BuriesFile(s.b, s.used, max, inherited, e.src, e.dst, e.noReplace)
  }

  lemma EventKeepsTombsMinimalIff(s: State, max: Option<nat>, inherited: Tree, e: Event)
    requires LayerOk(s.b) && EventOk(e) && TombsMinimal(s.b, inherited)
    ensures TombsMinimal(After(s, max, inherited, e).b, inherited) <==> !Buries(s, max, inherited, e)
  {
    hide Step, RenameEdit, TombsMinimal, BuriesFile;
    match e
    case Change(op) => StepKeepsTombsMinimal(s, max, inherited, op);
    case Move(src, dst, noReplace) => RenameKeepsTombsMinimalIff(s.b, s.used, max, inherited, src, dst, noReplace);
    case MergeChild(child, copies) =>
      if RoomForCopies(s.b.files, child.tombs, copies) {
        NestedCommitKeepsTombsMinimal(child, s.b, inherited, copies, WithChild(s.b, inherited, child, copies));
      }
  }

  /** Every state of the run has minimal tombstones. */
  ghost predicate AlwaysMinimal(s: State, max: Option<nat>, inherited: Tree, events: seq<Event>)
    requires EventsOk(events)
  {
    forall i :: 0 <= i <= |events| ==> TombsMinimal(AfterAll(s, max, inherited, events[..i]).b, inherited)
  }

  ghost predicate NeverBuries(s: State, max: Option<nat>, inherited: Tree, events: seq<Event>)
    requires EventsOk(events)
  {
    forall i :: 0 <= i < |events| ==> !Buries(AfterAll(s, max, inherited, events[..i]), max, inherited, events[i])
  }

  lemma AlwaysMinimalSplit(s: State, max: Option<nat>, inherited: Tree, events: seq<Event>)
    requires EventsOk(events) && events != []
    ensures var n := |events| - 1;
      && (AlwaysMinimal(s, max, inherited, events) <==>
          AlwaysMinimal(s, max, inherited, events[..n]) && TombsMinimal(AfterAll(s, max, inherited, events).b, inherited))
      && (AlwaysMinimal(s, max, inherited, events[..n]) ==> TombsMinimal(AfterAll(s, max, inherited, events[..n]).b, inherited))
  {
    hide TombsMinimal, AfterAll, EventOk;
    var n := |events| - 1;
    assert events[..n + 1] == events && events[..n][..n] == events[..n];
    forall i | 0 <= i <= n
      ensures events[..n][..i] == events[..i]
    {
    }
  }

  lemma NeverBuriesSplit(s: State, max: Option<nat>, inherited: Tree, events: seq<Event>)
    requires EventsOk(events) && events != []
    ensures var n := |events| - 1;
      NeverBuries(s, max, inherited, events) <==>
        NeverBuries(s, max, inherited, events[..n]) && !Buries(AfterAll(s, max, inherited, events[..n]), max, inherited, events[n])
  {
    hide Buries, AfterAll, EventOk;
    var n := |events| - 1;
    forall i | 0 <= i < n
      ensures events[..n][..i] == events[..i] && events[..n][i] == events[i]
    {
    }
  }

  /** Along any run of writes, opens, deletes, rmdirs, reverts, renames and nested commits
      over a fixed inherited view, every tombstone names something inherited and no delta
      file in all states, exactly when no rename on the way brings a file of a moved
      directory under a tombstone. */
  lemma {:induction false} MixedRunKeepsTombsMinimalIff(s: State, max: Option<nat>, inherited: Tree, events: seq<Event>)
    requires LayerOk(s.b) && EventsOk(events) && TombsMinimal(s.b, inherited)
    ensures AlwaysMinimal(s, max, inherited, events) <==> NeverBuries(s, max, inherited, events)
  {
    hide TombsMinimal, Buries, LayerOk, After, EventOk, AlwaysMinimal, NeverBuries;
    if events == [] {
      NothingHappens(s, max, inherited);
    } else {
      var n := |events| - 1;
      MixedRunKeepsTombsMinimalIff(s, max, inherited, events[..n]);
      AllKeepOk(s, max, inherited, events[..n]);
      AlwaysMinimalSplit(s, max, inherited, events);
      NeverBuriesSplit(s, max, inherited, events);
      if AlwaysMinimal(s, max, inherited, events[..n]) {
        EventKeepsTombsMinimalIff(AfterAll(s, max, inherited, events[..n]), max, inherited, events[n]);
      }
    }
  }

  lemma NothingHappens(s: State, max: Option<nat>, inherited: Tree)
    requires TombsMinimal(s.b, inherited)
    ensures AlwaysMinimal(s, max, inherited, []) && NeverBuries(s, max, inherited, [])
  {
    var none: seq<Event> := [];
    assert none[..0] == none;
  }
}
