/** Commits of several branches into one parent, one after the other: each brings its files,
    and none takes away those of another. */
module Siblings {
  import opened FileTree
  import opened Layers
  import opened MergeView
  import opened Edits
  import opened EditLaws
  import opened Commit
  import opened Store
  import opened CommitRun
  import opened CommitContent
  import opened RunLaws

  // ----- a file that the parent holds -----

  /** Nothing of main hides the path: no tombstone, no hide rule and no file above it. */
  ghost predicate ClearAt(m: Layer, gone: set<Path>, x: Path) {
    && !Covered(m.tombs, x) && !Covered(m.hides, x)
    && forall q :: q in m.files && q < x && !Covered(gone, q) ==> m.files[q].Dir?
  }

  /** The parent has the entry in its own deltas, or if it is main in the base tree. */
  ghost predicate HeldAt(s: Store, up: string, x: Path, e: Entry)
    requires up in s.branches
  {
    if up == MAIN then Find(s.base, x) == Some(e) && x !in s.branches[MAIN].files && ClearAt(s.branches[MAIN], {}, x)
    else Find(s.branches[up].files, x) == Some(e)
  }

  lemma HeldIsShown(s: Store, up: string, x: Path, e: Entry)
    requires StoreOk(s) && up in s.branches && HeldAt(s, up, x, e) && !e.Dir?
    ensures Find(Files(View(s, up)), x) == Some(e)
  {
    hide Forest, DepthIs;
    var v := View(s, up);
    if up == MAIN {
      MainView(s);
    }
    forall q | q <= x
      ensures Find(v, q) == if q == x then Some(e) else Some(Dir)
    {
      HeldPrefix(s, up, x, e, q);
    }
    assert Find(v, x) == Some(e);
    ReachableIf(v, x);
  }

  lemma HeldPrefix(s: Store, up: string, x: Path, e: Entry, q: Path)
    requires StoreOk(s) && up in s.branches && HeldAt(s, up, x, e) && q <= x
    ensures Find(View(s, up), q) == if q == x then Some(e) else Some(Dir)
  {
    hide Forest, DepthIs;
    assert q == x || q < x;
    if up == MAIN {
      MainView(s);
      OverlaidAt(s.branches[MAIN], s.base, q);
      assert forall t :: t in s.branches[MAIN].tombs + s.branches[MAIN].hides && t <= q ==> t <= x;
    } else {
      OverlaidAt(s.branches[up], InheritedView(s, up), q);
    }
  }

  /** What a commit publishes is held by the parent afterwards. */
  lemma CommitHolds(s: Store, name: string, up: string, copies: Tree, s': Store, x: Path)
    requires StoreOk(s) && Removable(s.branches, name) && s.branches[name].parent == Some(up) && up in s.branches
    requires CommitDone(s, name, copies, s') && x in copies
    requires up == MAIN ==> ClearAt(s.branches[MAIN], s.branches[name].tombs, x)
    ensures up in s'.branches && HeldAt(s', up, x, copies[x])
  {
    hide Forest, DepthIs, RoomForCopies, MergedTombs;
    var c, p := s.branches[name], s.branches[up];
    LeavesAreAntichain(c.files);
    if up == MAIN {
      PublishedAt(s.base, c.tombs, copies, x);
      ClearedAbove(p, s'.branches[MAIN], copies.Keys + c.tombs, c.tombs, x);
    } else {
      PublishedAt(p.files, c.tombs, copies, x);
    }
  }

  lemma ClearedAbove(m: Layer, m': Layer, removed: set<Path>, gone: set<Path>, x: Path)
    requires gone <= removed && ClearAt(m, gone, x) && x in removed
    requires m'.files == WithoutAll(m.files, removed) && m'.tombs == m.tombs && m'.hides == m.hides
    ensures ClearAt(m', {}, x) && x !in m'.files
  {
    assert forall q :: Covered(gone, q) ==> Covered(removed, q);
    assert Covered(removed, x);
  }

  /** A file that the parent holds is held after a commit whose files lie apart from it and
      whose tombstones are not at or above it. */
  lemma HeldStays(s: Store, name: string, up: string, copies: Tree, s': Store, x: Path, e: Entry)
    requires StoreOk(s) && Removable(s.branches, name) && s.branches[name].parent == Some(up) && up in s.branches
    requires CommitDone(s, name, copies, s') && HeldAt(s, up, x, e) && !e.Dir?
    requires Unrelated(copies, x) && !Covered(s.branches[name].tombs, x)
    ensures up in s'.branches && HeldAt(s', up, x, e)
  {
    hide Forest, DepthIs, RoomForCopies, MergedTombs;
    var c, p := s.branches[name], s.branches[up];
    PublishedAt(if up == MAIN then s.base else p.files, c.tombs, copies, x);
    if up == MAIN {
      assert !Covered(copies.Keys, x) && Survives(s.base, c.tombs, copies, x);
    }
  }

  // ----- what the others go on publishing -----

  /** Whatever the parent becomes by commits apart from `x`, the branch publishes its own
      file there: what it inherits has not moved, or no three texts can come together. */
  ghost predicate KeepsOwn(c: Layer, inherited: Tree, x: Path) {
    || Unmoved(c, inherited, {}, x)
    || InheritedAt(c, inherited, x) == None
    || !(x in c.touches && c.touches[x].identity.kind.Regular?)
  }

  lemma OwnIsPublished(c: Layer, changed: bool, inherited: Tree, newer: set<Path>, x: Path)
    requires !CommitPanics(c, changed, inherited, newer) && x in Leaves(c.files) && KeepsOwn(c, inherited, x) && x !in newer
    ensures Find(CommitSources(c, changed, inherited, newer), x) == Some(c.files[x])
  {
    PublishedContent(c, changed, inherited, newer, x);
  }

  /** At a path apart from its files a commit leaves of the parent's view what was there, or
      nothing, or what shows through an emptied directory. */
  lemma ElsewhereAfterCommit(s: Store, name: string, up: string, copies: Tree, s': Store, x: Path)
    requires StoreOk(s) && Removable(s.branches, name) && s.branches[name].parent == Some(up) && up in s.branches
    requires CommitDone(s, name, copies, s') && Unrelated(copies, x) && (up == MAIN ==> s.branches[MAIN].hides == {})
    ensures Forest(s'.branches) && up in s'.branches
    ensures Find(View(s', up), x) == Find(View(s, up), x) || Find(View(s', up), x) == None || Find(View(s, up), x) == Some(Dir)
  {
    hide DepthIs, RoomForCopies, MergedFiles, MergedTombs, Published;
    var c, p := s.branches[name], s.branches[up];
    CommitMergesUp(s, name, copies, s');
    CommitKeepsForest(s, name, copies, s');
    ParentIsLive(s.branches, name);
    LeavesAreAntichain(c.files);
    if up == MAIN {
      MainView(s);
      MainView(s');
      BaseAt(c, p, s.base, copies, s'.branches[MAIN], s'.base, x);
    } else {
      ParentInheritsTheSame(s, s', name, up);
      ViewPrefixClosed(s, up);
      ElsewhereInParent(c, p, InheritedView(s, up), copies, x);
    }
  }

  lemma ElsewhereInParent(c: Layer, p: Layer, ip: Tree, copies: Tree, x: Path)
    requires LayerOk(c) && LayerOk(p) && PrefixClosed(ip) && SourcesOf(c, copies) && Unrelated(copies, x)
    requires RoomForCopies(p.files, c.tombs, copies)
    ensures var w, v := Overlaid(MergedParent(c, p, ip, copies), ip), Overlaid(p, ip);
      Find(w, x) == Find(v, x) || Find(w, x) == None || Find(v, x) == Some(Dir)
  {
    hide WellFormed, MergedTombs, Hollow;
    var f, m := Folded(c, p, ip, copies), MergedParent(c, p, ip, copies);
    FoldedAt(c, p, ip, copies, x);
    PublishedAt(p.files, c.tombs, copies, x);
    MergedShrinks(c, p, copies);
    OverlaidAt(f, ip, x);
    OverlaidAt(m, ip, x);
    OverlaidAt(p, ip, x);
  }

  // ----- commits of several branches in turn -----

  /** The branches, all children of `up`, are committed one after the other. */
  ghost predicate InTurn(states: seq<Store>, names: seq<string>, newers: seq<set<Path>>, up: string) {
    && |states| == |names| + 1 && |newers| == |names| && StoreOk(states[0])
    && forall i :: 0 <= i < |names| ==>
         Forest(states[i].branches) && CommittedWith(states[i], names[i], newers[i], states[i + 1])
  }

  /** All of them are there from the start. */
  ghost predicate ChildrenOf(s: Store, names: seq<string>, up: string) {
    && (forall i :: 0 <= i < |names| ==> names[i] in s.branches && s.branches[names[i]].parent == Some(up))
    && forall i, j :: 0 <= i < j < |names| ==> names[i] != names[j]
  }

  /** The delta files of the two branches lie apart, and `d` deletes none of those of `c`. */
  ghost predicate Apart(c: Layer, d: Layer) {
    && (forall x, y :: x in Leaves(c.files) && y in Leaves(d.files) ==> !(x <= y) && !(y <= x))
    && forall x :: x in Leaves(c.files) ==> !Covered(d.tombs, x)
  }

  ghost predicate AllApart(s: Store, names: seq<string>)
    requires forall i :: 0 <= i < |names| ==> names[i] in s.branches
  {
    forall i, j :: 0 <= i < j < |names| ==> Apart(s.branches[names[i]], s.branches[names[j]])
  }

  /** If the parent is main, it hides none of the files that are going to be committed. */
  ghost predicate MainOpen(s: Store, names: seq<string>, up: string)
    requires MAIN in s.branches && forall i :: 0 <= i < |names| ==> names[i] in s.branches
  {
    up == MAIN ==>
      && s.branches[MAIN].hides == {}
      && forall i, x :: 0 <= i < |names| && x in Leaves(s.branches[names[i]].files) ==>
           ClearAt(s.branches[MAIN], s.branches[names[i]].tombs, x)
  }

  ghost predicate CanTakeTurns(s: Store, names: seq<string>, up: string) {
    && StoreOk(s) && up in s.branches && ChildrenOf(s, names, up) && AllApart(s, names) && MainOpen(s, names, up)
  }

  /** The first commit leaves the others as they are, ready for theirs. */
  lemma FirstInTurn(states: seq<Store>, names: seq<string>, newers: seq<set<Path>>, up: string)
    requires InTurn(states, names, newers, up) && names != [] && CanTakeTurns(states[0], names, up)
    ensures var s, s' := states[0], states[1];
      && Removable(s.branches, names[0]) && Committable(s, names[0], newers[0]) && s.branches[names[0]].parent == Some(up)
      && CommitDone(s, names[0], ChosenSources(s, names[0], newers[0]), s')
      && ChosenSources(s, names[0], newers[0]).Keys == Leaves(s.branches[names[0]].files).Keys
      && InTurn(states[1..], names[1..], newers[1..], up) && CanTakeTurns(s', names[1..], up)
      && forall j :: 1 <= j < |names| ==> s'.branches[names[j]] == s.branches[names[j]]
  {
    hide Apart, ClearAt, RoomForCopies, MergedFiles, MergedTombs, CommitSources, InheritedView, CommitPanics, WellFormed, LayerOk;
    var s, s' := states[0], states[1];
    assert CommittedWith(s, names[0], newers[0], s');
    var copies := ChosenSources(s, names[0], newers[0]);
    ParentIsLive(s.branches, names[0]);
    CommitKeepsOk(s, names[0], copies, s');
    forall j | 1 <= j < |names|
      ensures names[j] in s'.branches && s'.branches[names[j]] == s.branches[names[j]]
    {
      assert names[0] != names[j];
      ParentIsLive(s.branches, names[j]);
    }
    forall i | 0 <= i < |names| - 1
      ensures Forest(states[1..][i].branches) && CommittedWith(states[1..][i], names[1..][i], newers[1..][i], states[1..][i + 1])
    {
      assert CommittedWith(states[i + 1], names[i + 1], newers[i + 1], states[i + 2]);
    }
    forall i, j | 0 <= i < j < |names| - 1
      ensures names[1..][i] != names[1..][j] && Apart(s'.branches[names[1..][i]], s'.branches[names[1..][j]])
    {
      assert names[i + 1] != names[j + 1] && Apart(s.branches[names[i + 1]], s.branches[names[j + 1]]);
    }
    if up == MAIN {
      forall i, x | 0 <= i < |names| - 1 && x in Leaves(s'.branches[names[1..][i]].files)
        ensures ClearAt(s'.branches[MAIN], s'.branches[names[1..][i]].tombs, x)
      {
        assert ClearAt(s.branches[MAIN], s.branches[names[i + 1]].tombs, x);
        StillClear(s.branches[MAIN], s'.branches[MAIN], s.branches[names[i + 1]].tombs, x);
      }
    }
  }

  lemma StillClear(m: Layer, m': Layer, gone: set<Path>, x: Path)
    requires ClearAt(m, gone, x) && m'.tombs == m.tombs && m'.hides == m.hides
    requires forall q :: q in m'.files ==> q in m.files && m'.files[q] == m.files[q]
    ensures ClearAt(m', gone, x)
  {
  }

  /** A file that the parent holds outlasts all commits apart from it. */
  lemma {:induction false} HeldToTheEnd(states: seq<Store>, names: seq<string>, newers: seq<set<Path>>, up: string, x: Path, e: Entry)
    requires InTurn(states, names, newers, up) && CanTakeTurns(states[0], names, up) && HeldAt(states[0], up, x, e) && !e.Dir?
    requires forall j :: 0 <= j < |names| ==>
      Unrelated(Leaves(states[0].branches[names[j]].files), x) && !Covered(states[0].branches[names[j]].tombs, x)
    ensures StoreOk(states[|names|]) && up in states[|names|].branches && HeldAt(states[|names|], up, x, e)
    decreases |names|
  {
    hide StoreOk, HeldAt, ChildrenOf, AllApart, MainOpen, ChosenSources, CommittedWith, Unrelated, Covered, Forest;
    if names != [] {
      FirstInTurn(states, names, newers, up);
      var copies := ChosenSources(states[0], names[0], newers[0]);
      SameKeysUnrelated(copies, Leaves(states[0].branches[names[0]].files), x);
      HeldStays(states[0], names[0], up, copies, states[1], x, e);
      assert forall j :: 0 <= j < |names| - 1 ==> names[1..][j] == names[j + 1];
      HeldToTheEnd(states[1..], names[1..], newers[1..], up, x, e);
      assert states[1..][|names| - 1] == states[|names|];
    }
  }

  lemma SameKeysUnrelated(a: Tree, b: Tree, x: Path)
    requires a.Keys == b.Keys
    ensures Unrelated(a, x) <==> Unrelated(b, x)
  {
  }

  lemma ApartIsUnrelated(c: Layer, d: Layer, x: Path)
    requires Apart(c, d)
    ensures x in Leaves(c.files) ==> Unrelated(Leaves(d.files), x) && !Covered(d.tombs, x)
    ensures x in Leaves(d.files) ==> Unrelated(Leaves(c.files), x)
  {
  }

  /** The content that the i-th commit publishes at `x`. */
  ghost function PublishedAtTurn(states: seq<Store>, names: seq<string>, newers: seq<set<Path>>, up: string, i: nat, x: Path): Option<Entry>
    requires InTurn(states, names, newers, up) && i < |names|
  {
    assert CommittedWith(states[i], names[i], newers[i], states[i + 1]);
    Find(ChosenSources(states[i], names[i], newers[i]), x)
  }

  lemma TurnsFromSecond(states: seq<Store>, names: seq<string>, newers: seq<set<Path>>, up: string, i: nat, x: Path)
    requires 1 <= i < |names| && InTurn(states, names, newers, up) && InTurn(states[1..], names[1..], newers[1..], up)
    ensures PublishedAtTurn(states[1..], names[1..], newers[1..], up, i - 1, x) == PublishedAtTurn(states, names, newers, up, i, x)
  {
    hide ChosenSources;
    assert CommittedWith(states[i], names[i], newers[i], states[i + 1]);
    assert states[1..][i - 1] == states[i] && names[1..][i - 1] == names[i] && newers[1..][i - 1] == newers[i];
  }

  lemma FirstStays(states: seq<Store>, names: seq<string>, newers: seq<set<Path>>, up: string, x: Path)
    requires InTurn(states, names, newers, up) && CanTakeTurns(states[0], names, up)
    requires names != [] && x in Leaves(states[0].branches[names[0]].files)
    ensures var last := states[|names|];
      && StoreOk(last) && up in last.branches && PublishedAtTurn(states, names, newers, up, 0, x).Some?
      && Find(Files(View(last, up)), x) == PublishedAtTurn(states, names, newers, up, 0, x)
  {
    hide StoreOk, HeldAt, ChosenSources, Unrelated, Covered, Forest, Apart, Files, View, ClearAt, RoomForCopies;
    FirstInTurn(states, names, newers, up);
    assert states[1..][|names| - 1] == states[|names|];
    var s, s', copies := states[0], states[1], ChosenSources(states[0], names[0], newers[0]);
    CommitHolds(s, names[0], up, copies, s', x);
    forall j | 0 <= j < |names| - 1
      ensures Unrelated(Leaves(s'.branches[names[1..][j]].files), x) && !Covered(s'.branches[names[1..][j]].tombs, x)
    {
      assert Apart(s.branches[names[0]], s.branches[names[j + 1]]);
      ApartIsUnrelated(s.branches[names[0]], s.branches[names[j + 1]], x);
    }
    assert !copies[x].Dir?;
    HeldToTheEnd(states[1..], names[1..], newers[1..], up, x, copies[x]);
    HeldIsShown(states[|names|], up, x, copies[x]);
  }

  /** After any number of siblings with files apart have been committed in turn, the parent
      shows every file that any of them published, with that content. */
  lemma {:induction false} SiblingCommitsStay(states: seq<Store>, names: seq<string>, newers: seq<set<Path>>, up: string, i: nat, x: Path)
    requires InTurn(states, names, newers, up) && CanTakeTurns(states[0], names, up)
    requires i < |names| && x in Leaves(states[0].branches[names[i]].files)
    ensures var last := states[|names|];
      && StoreOk(last) && up in last.branches && PublishedAtTurn(states, names, newers, up, i, x).Some?
      && Find(Files(View(last, up)), x) == PublishedAtTurn(states, names, newers, up, i, x)
    decreases |names|
  {
    hide StoreOk, HeldAt, ChosenSources, Unrelated, Covered, Forest, Apart, Files, View;
    FirstInTurn(states, names, newers, up);
    assert states[1..][|names| - 1] == states[|names|];
    if i == 0 {
      FirstStays(states, names, newers, up, x);
    } else {
      SiblingCommitsStay(states[1..], names[1..], newers[1..], up, i - 1, x);
      TurnsFromSecond(states, names, newers, up, i, x);
    }
  }

  /** What the branch inherits at its files has not moved since it first touched them. */
  ghost predicate AllKeepOwn(s: Store, names: seq<string>, newers: seq<set<Path>>)
    requires Forest(s.branches) && |newers| == |names| && forall i :: 0 <= i < |names| ==> names[i] in s.branches
  {
    forall i, x :: 0 <= i < |names| && x in Leaves(s.branches[names[i]].files) ==>
      KeepsOwn(s.branches[names[i]], InheritedView(s, names[i]), x) && x !in newers[i]
  }

  lemma OthersKeepOwn(s: Store, name: string, up: string, copies: Tree, s': Store, other: string, x: Path)
    requires StoreOk(s) && Removable(s.branches, name) && s.branches[name].parent == Some(up) && up in s.branches
    requires CommitDone(s, name, copies, s') && Unrelated(copies, x) && (up == MAIN ==> s.branches[MAIN].hides == {})
    requires other in s.branches && other != name && s.branches[other].parent == Some(up)
    requires KeepsOwn(s.branches[other], InheritedView(s, other), x)
    ensures Forest(s'.branches) && other in s'.branches && s'.branches[other] == s.branches[other]
    ensures KeepsOwn(s'.branches[other], InheritedView(s', other), x)
  {
    hide CommitDone, View, Forest, DepthIs, Unrelated;
    ElsewhereAfterCommit(s, name, up, copies, s', x);
    CommitMergesUp(s, name, copies, s');
    ParentIsLive(s.branches, other);
    IdentityIff(Some(Dir), Some(Dir));
    ParentIsHigher(s'.branches, other);
  }

  lemma RestKeepOwn(states: seq<Store>, names: seq<string>, newers: seq<set<Path>>, up: string)
    requires InTurn(states, names, newers, up) && names != [] && CanTakeTurns(states[0], names, up)
    requires AllKeepOwn(states[0], names, newers)
    ensures Forest(states[1].branches) && CanTakeTurns(states[1], names[1..], up) && AllKeepOwn(states[1], names[1..], newers[1..])
  {
    hide KeepsOwn, InheritedView, ChosenSources, CommitDone, Apart, Unrelated, Forest, ClearAt;
    FirstInTurn(states, names, newers, up);
    var s, s', copies := states[0], states[1], ChosenSources(states[0], names[0], newers[0]);
    OkIsForest(s');
    forall i, x | 0 <= i < |names| - 1 && x in Leaves(s'.branches[names[1..][i]].files)
      ensures KeepsOwn(s'.branches[names[1..][i]], InheritedView(s', names[1..][i]), x) && x !in newers[1..][i]
    {
      assert names[1..][i] == names[i + 1] && names[0] != names[i + 1];
      assert Apart(s.branches[names[0]], s.branches[names[i + 1]]);
      ApartIsUnrelated(s.branches[names[0]], s.branches[names[i + 1]], x);
      SameKeysUnrelated(copies, Leaves(s.branches[names[0]].files), x);
      OthersKeepOwn(s, names[0], up, copies, s', names[i + 1], x);
    }
  }

  /** So siblings that edited different files, each over what the parent showed when it
      started, can be committed in turn, and the parent shows every branch's own files:
      a later commit, which finds the parent changed, loses none of its edits and none of the
      earlier ones. */
  lemma {:induction false} SiblingFilesStay(states: seq<Store>, names: seq<string>, newers: seq<set<Path>>, up: string, i: nat, x: Path)
    requires InTurn(states, names, newers, up) && CanTakeTurns(states[0], names, up) && AllKeepOwn(states[0], names, newers)
    requires i < |names| && x in Leaves(states[0].branches[names[i]].files)
    ensures var last := states[|names|];
      && Forest(last.branches) && up in last.branches
      && Find(Files(View(last, up)), x) == Some(states[0].branches[names[i]].files[x])
    decreases |names|
  {
    hide StoreOk, KeepsOwn, ChosenSources, Forest, Apart, Files, View, AllApart, MainOpen, ChildrenOf;
    SiblingCommitsStay(states, names, newers, up, i, x);
    OkIsForest(states[|names|]);
    OwnAtTurn(states, names, newers, up, i, x);
  }

  lemma {:induction false} OwnAtTurn(states: seq<Store>, names: seq<string>, newers: seq<set<Path>>, up: string, i: nat, x: Path)
    requires InTurn(states, names, newers, up) && CanTakeTurns(states[0], names, up) && AllKeepOwn(states[0], names, newers)
    requires i < |names| && x in Leaves(states[0].branches[names[i]].files)
    ensures PublishedAtTurn(states, names, newers, up, i, x) == Some(states[0].branches[names[i]].files[x])
    decreases |names|
  {
    hide StoreOk, KeepsOwn, CommitSources, Forest, Apart, View, InheritedView, AllApart, MainOpen, ChildrenOf, CommitPanics, CommitDone;
    FirstInTurn(states, names, newers, up);
    if i == 0 {
      var s := states[0];
      OwnIsPublished(s.branches[names[0]], ParentChanged(s, names[0]), InheritedView(s, names[0]), newers[0], x);
    } else {
      RestKeepOwn(states, names, newers, up);
      OwnAtTurn(states[1..], names[1..], newers[1..], up, i - 1, x);
      TurnsFromSecond(states, names, newers, up, i, x);
    }
  }
}
