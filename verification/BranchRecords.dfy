/** What a branch keeps in memory and in its files: tombstones and first-touch records. */
module BranchRecords {
  import opened FileTree
  import opened PathText
  import opened Layers
  import opened Edits
  import opened TombLog

  // ----- touch records -----

  // A line of the touch log; the JSON text of a record is abstracted.
  datatype TouchLine = Empty | Gone(path: Path) | Recorded(touch: Touch)

  datatype TouchFiles = TouchFiles(snapshot: map<Path, Touch>, log: seq<TouchLine>)

  function ReplayTouches(touches: map<Path, Touch>, lines: seq<TouchLine>): map<Path, Touch> {
    if lines == [] then touches else
      var before := ReplayTouches(touches, lines[..|lines| - 1]);
      match lines[|lines| - 1]
      case Empty => before
      case Gone(p) => WithoutUnder(before, p)
      case Recorded(t) => before[t.path := t]
  }

  function LoadTouches(f: TouchFiles): map<Path, Touch> {
    ReplayTouches(f.snapshot, f.log)
  }

  /** Records are filed under their own paths. */
  ghost predicate Keyed(touches: map<Path, Touch>) {
    forall p :: p in touches ==> touches[p].path == p
  }

  /** The line says something of the path: it records it, or forgets what is at and below a
      path that it lies in. */
  ghost predicate About(line: TouchLine, p: Path) {
    (line.Recorded? && line.touch.path == p) || (line.Gone? && InPath(p, line.path))
  }

  ghost predicate LastAbout(lines: seq<TouchLine>, p: Path, i: nat) {
    i < |lines| && About(lines[i], p) && forall j :: i < j < |lines| ==> !About(lines[j], p)
  }

  ghost predicate Silent(lines: seq<TouchLine>, p: Path) {
    forall i :: 0 <= i < |lines| ==> !About(lines[i], p)
  }

  lemma LastLine(m: map<Path, Touch>, lines: seq<TouchLine>, p: Path)
    requires lines != []
    ensures var n := |lines| - 1;
      RecordOf(ReplayTouches(m, lines), p) ==
        if !About(lines[n], p) then RecordOf(ReplayTouches(m, lines[..n]), p)
        else if lines[n].Recorded? then Some(lines[n].touch) else None
  {
  }

  /** A replayed touch log decides each path by its last line about it, ... */
  lemma {:induction false} LastTouchDecides(m: map<Path, Touch>, lines: seq<TouchLine>, p: Path, i: nat)
    requires LastAbout(lines, p, i)
    ensures RecordOf(ReplayTouches(m, lines), p) == if lines[i].Recorded? then Some(lines[i].touch) else None
  {
    hide About;
    var n := |lines| - 1;
    LastLine(m, lines, p);
    if i < n {
      assert !About(lines[n], p);
      assert forall j :: 0 <= j < n ==> lines[..n][j] == lines[j];
      LastTouchDecides(m, lines[..n], p, i);
    }
  }

  /** ... and what no line is about by the snapshot. */
  lemma {:induction false} SnapshotDecides(m: map<Path, Touch>, lines: seq<TouchLine>, p: Path)
    requires Silent(lines, p)
    ensures RecordOf(ReplayTouches(m, lines), p) == RecordOf(m, p)
  {
    hide About;
    if lines != [] {
      var n := |lines| - 1;
      LastLine(m, lines, p);
      assert !About(lines[n], p);
      assert forall j :: 0 <= j < n ==> lines[..n][j] == lines[j];
      SnapshotDecides(m, lines[..n], p);
    }
  }

  lemma {:induction false} ReplayTouchesConcat(m: map<Path, Touch>, a: seq<TouchLine>, b: seq<TouchLine>)
    ensures ReplayTouches(m, a + b) == ReplayTouches(ReplayTouches(m, a), b)
  {
    if b == [] {
      assert a + b == a;
    } else {
      var n := |b| - 1;
      assert (a + b)[..|a + b| - 1] == a + b[..n] && (a + b)[|a + b| - 1] == b[n];
      ReplayTouchesConcat(m, a, b[..n]);
    }
  }

  lemma ReplayTouchesMore(m: map<Path, Touch>, lines: seq<TouchLine>, line: TouchLine)
    ensures ReplayTouches(m, lines + [line]) ==
      if line.Empty? then ReplayTouches(m, lines)
      else if line.Gone? then WithoutUnder(ReplayTouches(m, lines), line.path)
      else ReplayTouches(m, lines)[line.touch.path := line.touch]
  {
    assert (lines + [line])[..|lines|] == lines;
  }

  function AllRecorded(records: seq<Touch>): seq<TouchLine> {
    seq(|records|, i requires 0 <= i < |records| => Recorded(records[i]))
  }

  /** `records` are the records of the snapshot, sorted by path. */
  ghost predicate ListsTouches(f: TouchFiles, records: seq<Touch>) {
    forall t :: t in records <==> t.path in f.snapshot && f.snapshot[t.path] == t
  }

  function TouchLogMigrated(f: TouchFiles, records: seq<Touch>): TouchFiles {
    if records == [] then f else f.(log := AllRecorded(records) + f.log)
  }

  function TouchesMigrated(f: TouchFiles, records: seq<Touch>): TouchFiles {
    if records == [] then f else TouchLogMigrated(f, records).(snapshot := map[])
  }

  function RecordKeys(records: seq<Touch>): set<Path> {
    set t | t in records :: t.path
  }

  ghost function Overwritten(m: map<Path, Touch>, all: map<Path, Touch>, keys: set<Path>): map<Path, Touch>
    requires keys <= all.Keys
  {
    map p | p in m.Keys + keys :: if p in keys then all[p] else m[p]
  }

  ghost predicate RecordsOf(all: map<Path, Touch>, records: seq<Touch>) {
    forall t :: t in records ==> t.path in all && all[t.path] == t
  }

  lemma MoreKeys(all: map<Path, Touch>, records: seq<Touch>)
    requires records != [] && RecordsOf(all, records)
    ensures RecordsOf(all, records[..|records| - 1])
    ensures RecordKeys(records) == RecordKeys(records[..|records| - 1]) + {records[|records| - 1].path}
  {
    var n := |records| - 1;
    assert records == records[..n] + [records[n]];
    assert forall t :: t in records <==> t in records[..n] || t == records[n];
  }

  /** Replaying the records of a map puts them, and nothing else, into any other. */
  lemma {:induction false} RecordsReplayed(m: map<Path, Touch>, all: map<Path, Touch>, records: seq<Touch>)
    requires RecordsOf(all, records)
    ensures RecordKeys(records) <= all.Keys
    ensures ReplayTouches(m, AllRecorded(records)) == Overwritten(m, all, RecordKeys(records))
  {
    if records == [] {
      assert AllRecorded(records) == [] && RecordKeys(records) == {};
    } else {
      var n := |records| - 1;
      MoreKeys(all, records);
      RecordsReplayed(m, all, records[..n]);
      assert AllRecorded(records) == AllRecorded(records[..n]) + [Recorded(records[n])];
      ReplayTouchesMore(m, AllRecorded(records[..n]), Recorded(records[n]));
    }
  }

  lemma RecordPaths(f: TouchFiles, records: seq<Touch>)
    requires Keyed(f.snapshot) && ListsTouches(f, records)
    ensures RecordKeys(records) == f.snapshot.Keys
  {
    forall p | p in f.snapshot
      ensures p in RecordKeys(records)
    {
      assert f.snapshot[p] in records;
    }
  }

  /** Migrating the touch records, and stopping before the snapshot is emptied, load the
      same records as before; so does migrating again. */
  lemma TouchMigrationKeeps(f: TouchFiles, records: seq<Touch>)
    requires Keyed(f.snapshot) && ListsTouches(f, records)
    ensures LoadTouches(TouchLogMigrated(f, records)) == LoadTouches(f)
    ensures LoadTouches(TouchesMigrated(f, records)) == LoadTouches(f)
    ensures LoadTouches(TouchesMigrated(TouchLogMigrated(f, records), records)) == LoadTouches(f)
  {
    var lines := AllRecorded(records);
    RecordPaths(f, records);
    RecordsReplayed(f.snapshot, f.snapshot, records);
    RecordsReplayed(map[], f.snapshot, records);
    assert ReplayTouches(f.snapshot, lines) == ReplayTouches(map[], lines) == f.snapshot;
    ReplayTouchesConcat(f.snapshot, lines, f.log);
    ReplayTouchesConcat(map[], lines, f.log);
    ReplayTouchesConcat(f.snapshot, lines, lines + f.log);
    ReplayTouchesConcat(map[], lines, lines + f.log);
  }

  // ----- tombstones as paths -----

  /** A path that can be kept in a line. */
  predicate Storable(p: Path) {
    ValidPath(p) && p != [] && p[|p| - 1][|p[|p| - 1]| - 1] != '\r'
  }

  lemma {:induction false} TextHasNoNewline(p: Path)
    requires ValidPath(p)
    ensures '\n' !in Text(p)
  {
    if p != [] {
      assert ValidName(p[0]);
      TextHasNoNewline(p[1..]);
    }
  }

  lemma StorableIsSafe(p: Path)
    requires Storable(p)
    ensures LineSafe(Render(p)) && StripCr(Render(p)) == Render(p)
  {
    TextEndsInName(p);
    TextHasNoNewline(p);
    assert TrimSpaceFront(Text(p)) == Text(p);
    BackKeepsFirst(Text(p));
  }

  ghost predicate AllStorable(ps: set<Path>) {
    forall p :: p in ps ==> Storable(p)
  }

  lemma RenderAllWith(ps: set<Path>, p: Path)
    requires AllStorable(ps) && Storable(p)
    ensures RenderAll(ps + {p}) == RenderAll(ps) + {Render(p)}
    ensures RenderAll(ps - {p}) == RenderAll(ps) - {Render(p)}
  {
    forall t | t in RenderAll(ps - {p})
      ensures t in RenderAll(ps) - {Render(p)}
    {
      var q :| q in ps - {p} && Render(q) == t;
      if t == Render(p) {
        RenderInjective(p, q);
      }
    }
    forall t | t in RenderAll(ps) - {Render(p)}
      ensures t in RenderAll(ps - {p})
    {
      var q :| q in ps && Render(q) == t;
      assert q in ps - {p};
    }
    assert RenderAll(ps - {p}) == RenderAll(ps) - {Render(p)};
    forall t | t in RenderAll(ps) + {Render(p)}
      ensures t in RenderAll(ps + {p})
    {
      if t in RenderAll(ps) {
        var q :| q in ps && Render(q) == t;
        assert q in ps + {p};
      } else {
        assert p in ps + {p};
      }
    }
  }

  // ----- at and below a path -----

  function TombsUnder(tombs: set<Path>, p: Path): set<Path> {
    set t | t in tombs && p <= t
  }

  function TextsUnder(tombs: set<string>, path: string): set<string> {
    set t | t in tombs && SameOrDescendant(t, path)
  }

  /** The lines of a set of paths at and below a path other than the root are those of the
      paths at and below it. */
  lemma TextsUnderPath(ps: set<Path>, p: Path)
    requires AllStorable(ps) && ValidPath(p) && p != []
    ensures TextsUnder(RenderAll(ps), Render(p)) == RenderAll(TombsUnder(ps, p))
  {
    forall q | q in ps
      ensures SameOrDescendant(Render(q), Render(p)) <==> p <= q
    {
      DescendantIsPrefix(q, p);
    }
    forall t | t in TextsUnder(RenderAll(ps), Render(p))
      ensures t in RenderAll(TombsUnder(ps, p))
    {
      var q :| q in ps && Render(q) == t;
      assert q in TombsUnder(ps, p);
    }
  }

  // ----- calls on the tombstones -----

  datatype TombCall = Adding(path: Path) | Removing(path: Path) | RemovingUnder(path: Path) | Replacing(paths: set<Path>)

  ghost predicate CallOk(call: TombCall) {
    match call
    case Adding(p) => Storable(p)
    case Removing(p) => Storable(p)
    case RemovingUnder(p) => ValidPath(p) && p != []
    case Replacing(ps) => AllStorable(ps)
  }

  /** The set of paths that the manager keeps. */
  function PathsAfter(ps: set<Path>, call: TombCall): set<Path> {
    match call
    case Adding(p) => ps + {p}
    case Removing(p) => ps - {p}
    case RemovingUnder(p) => ps - TombsUnder(ps, p)
    case Replacing(whole) => whole
  }

  /** One "-" line for each of the given lines. */
  function AllRemoved(f: TombFiles, order: seq<string>): TombFiles {
    if order == [] then f else Appended(AllRemoved(f, order[..|order| - 1]), '-', order[|order| - 1])
  }

  /** What a call does to the files. */
  ghost predicate Saved(f: TombFiles, call: TombCall, f': TombFiles) {
    match call
    case Adding(p) => f' == if Render(p) in LoadTombs(f) then f else Appended(f, '+', Render(p))
    case Removing(p) => f' == if Render(p) in LoadTombs(f) then Appended(f, '-', Render(p)) else f
    case RemovingUnder(p) => exists order :: AsSet(order) == TextsUnder(LoadTombs(f), Render(p)) && f' == AllRemoved(f, order)
    case Replacing(ps) => exists order :: AllLineSafe(order) && AsSet(order) == RenderAll(ps) && f' == Rewritten(order)
  }

  lemma {:induction false} AllRemovedLoads(f: TombFiles, order: seq<string>)
    requires Terminated(LogText(f.log)) && forall line :: line in order ==> LineSafe(line)
    ensures LoadTombs(AllRemoved(f, order)) == LoadTombs(f) - AsSet(order)
    ensures Terminated(LogText(AllRemoved(f, order).log))
  {
    hide LineSafe, Terminated, LoadTombs, Appended;
    if order == [] {
      assert AsSet(order) == {};
    } else {
      var n := |order| - 1;
      AllRemovedLoads(f, order[..n]);
      AppendedLoads(AllRemoved(f, order[..n]), '-', order[n]);
      AsSetMore(order);
    }
  }

  lemma AsSetMore(order: seq<string>)
    requires order != []
    ensures AsSet(order) == AsSet(order[..|order| - 1]) + {order[|order| - 1]}
  {
    assert order == order[..|order| - 1] + [order[|order| - 1]];
  }

  /** The files hold these paths, and end where a line can be appended. */
  ghost predicate Holds(f: TombFiles, ps: set<Path>) {
    AllStorable(ps) && LoadTombs(f) == RenderAll(ps) && Terminated(LogText(f.log))
  }

  lemma CallKeepsPaths(f: TombFiles, ps: set<Path>, call: TombCall, f': TombFiles)
    requires Holds(f, ps) && CallOk(call) && Saved(f, call, f')
    ensures Holds(f', PathsAfter(ps, call))
  {
    hide LoadTombs, Terminated, Storable, LineSafe, Appended, RenderAll, TextsUnder;
    match call
    case Adding(p) =>
      StorableIsSafe(p);
      RenderAllWith(ps, p);
      if Render(p) in LoadTombs(f) {
        assert RenderAll(ps) + {Render(p)} == RenderAll(ps);
      } else {
        AppendedLoads(f, '+', Render(p));
      }
    case Removing(p) =>
      StorableIsSafe(p);
      RenderAllWith(ps, p);
      if Render(p) in LoadTombs(f) {
        AppendedLoads(f, '-', Render(p));
      } else {
        assert RenderAll(ps) - {Render(p)} == RenderAll(ps);
      }
    case RemovingUnder(p) => RemovingKeepsPaths(f, ps, p, f');
    case Replacing(whole) =>
      var order :| AllLineSafe(order) && AsSet(order) == RenderAll(whole) && f' == Rewritten(order);
      RewrittenLoads(order);
      assert Terminated(LogText(f'.log)) by { NoLogEnds(); }
  }

  lemma NoLogEnds()
    ensures Terminated(LogText(None))
  {
  }

  lemma RemovingKeepsPaths(f: TombFiles, ps: set<Path>, p: Path, f': TombFiles)
    requires Holds(f, ps) && ValidPath(p) && p != [] && Saved(f, RemovingUnder(p), f')
    ensures Holds(f', PathsAfter(ps, RemovingUnder(p)))
  {
    hide LoadTombs, Terminated, Storable, LineSafe, Appended;
    var order :| AsSet(order) == TextsUnder(LoadTombs(f), Render(p)) && f' == AllRemoved(f, order);
    TextsUnderPath(ps, p);
    forall line | line in order
      ensures LineSafe(line)
    {
      assert line in AsSet(order);
      var q :| q in ps && Render(q) == line;
      StorableIsSafe(q);
    }
    AllRemovedLoads(f, order);
    RenderAllMinus(ps, TombsUnder(ps, p));
  }

  lemma RenderAllMinus(ps: set<Path>, gone: set<Path>)
    requires AllStorable(ps) && gone <= ps
    ensures RenderAll(ps - gone) == RenderAll(ps) - RenderAll(gone)
  {
    forall t | t in RenderAll(ps - gone)
      ensures t in RenderAll(ps) - RenderAll(gone)
    {
      var q :| q in ps - gone && Render(q) == t;
      if t in RenderAll(gone) {
        var r :| r in gone && Render(r) == t;
        RenderInjective(q, r);
      }
    }
  }

  /** Files and calls in turn. */
  ghost predicate IsTombRun(files: seq<TombFiles>, calls: seq<TombCall>) {
    && |files| == |calls| + 1
    && forall i :: 0 <= i < |calls| ==> CallOk(calls[i]) && Saved(files[i], calls[i], files[i + 1])
  }

  function PathsAfterAll(ps: set<Path>, calls: seq<TombCall>): set<Path> {
    if calls == [] then ps else PathsAfter(PathsAfterAll(ps, calls[..|calls| - 1]), calls[|calls| - 1])
  }

  /** After any run of tombstone calls on storable paths, with every order in which the lines
      are written, the files load as the lines of the set of paths that the manager keeps. */
  lemma {:induction false} TombRunKeepsPaths(files: seq<TombFiles>, calls: seq<TombCall>, ps: set<Path>)
    requires IsTombRun(files, calls) && Holds(files[0], ps)
    ensures Holds(files[|calls|], PathsAfterAll(ps, calls))
  {
    hide Holds, Saved, CallOk;
    if calls != [] {
      var n := |calls| - 1;
      TombRunKeepsPaths(files[..n + 1], calls[..n], ps);
      assert files[..n + 1][n] == files[n];
      CallKeepsPaths(files[n], PathsAfterAll(ps, calls[..n]), calls[n], files[n + 1]);
    }
  }

  // ----- the branch -----

  /** The part of a branch that outlives the process: whatever is called, loading the
      files gives what is in memory. */
  class Branch {
    var tombstones: set<string>
    var touches: map<Path, Touch>
    var tombFiles: TombFiles
    var touchFiles: TouchFiles

    ghost predicate Valid()
      reads this
    {
      LoadTombs(tombFiles) == tombstones && LoadTouches(touchFiles) == touches && Keyed(touches)
    }

    /** The log ends with its last newline, so that a line can be appended. */
    ghost predicate LogEnds()
      reads this
    {
      Terminated(LogText(tombFiles.log))
    }

    /** Load a branch: legacy snapshots are first moved into the logs. The tombstones are
        those that the files held before exactly when none of them changes by losing a
        carriage return; the touch records always are. */
    constructor (tombFiles: TombFiles, touchFiles: TouchFiles, order: seq<string>, records: seq<Touch>)
      requires Lists(tombFiles, order) && ListsTouches(touchFiles, records) && Keyed(touchFiles.snapshot)
      ensures Valid() && (Terminated(LogText(tombFiles.log)) ==> LogEnds())
      ensures this.tombFiles == Migrated(tombFiles, order)
      ensures tombstones == LoadTombs(tombFiles) <==> StripsAlike(tombFiles)
      ensures touches == LoadTouches(touchFiles)
    {
      this.tombFiles := Migrated(tombFiles, order);
      this.touchFiles := TouchesMigrated(touchFiles, records);
      this.tombstones := LoadTombs(Migrated(tombFiles, order));
      this.touches := LoadTouches(TouchesMigrated(touchFiles, records));
      new;
      hide LoadTombs, Migrated, StripsAlike, Terminated, Lists, ListsTouches;
      MigrationKeepsTombsIff(tombFiles, order);
      TouchMigrationKeeps(touchFiles, records);
      ReplayKeepsKeyed(touchFiles.snapshot, touchFiles.log);
      if Terminated(LogText(tombFiles.log)) {
        MigratedTerminated(tombFiles, order);
      }
    }

    method AppendTombstoneOp(op: char, path: string)
      requires LineSafe(path) && (op == '+' || op == '-') && LogEnds()
      modifies this`tombFiles
      ensures LogEnds() && tombFiles == Appended(old(tombFiles), op, path)
      ensures LoadTombs(tombFiles) ==
        if op == '+' then old(LoadTombs(tombFiles)) + {path} else old(LoadTombs(tombFiles)) - {path}
    {
      AppendedLoads(tombFiles, op, path);
      tombFiles := tombFiles.(log := Some(LogText(tombFiles.log) + [op, ' '] + path + "\n"));
    }

    method AddTombstone(path: Path)
      requires Valid() && LogEnds() && Storable(path)
      modifies this
      ensures Valid() && LogEnds() && Saved(old(tombFiles), Adding(path), tombFiles)
      ensures tombstones == old(tombstones) + {Render(path)} && touches == old(touches)
    {
      StorableIsSafe(path);
      if Render(path) !in tombstones {
        tombstones := tombstones + {Render(path)};
        AppendTombstoneOp('+', Render(path));
      }
    }

    method RemoveTombstone(path: Path)
      requires Valid() && LogEnds() && Storable(path)
      modifies this
      ensures Valid() && LogEnds() && Saved(old(tombFiles), Removing(path), tombFiles)
      ensures tombstones == old(tombstones) - {Render(path)} && touches == old(touches)
    {
      StorableIsSafe(path);
      if Render(path) in tombstones {
        tombstones := tombstones - {Render(path)};
        AppendTombstoneOp('-', Render(path));
      }
    }

    method RemoveTombstonesUnder(path: Path)
      requires Valid() && LogEnds() && forall t :: t in TextsUnder(tombstones, Render(path)) ==> LineSafe(t)
      modifies this
      ensures Valid() && LogEnds() && Saved(old(tombFiles), RemovingUnder(path), tombFiles)
      ensures tombstones == old(tombstones) - TextsUnder(old(tombstones), Render(path)) && touches == old(touches)
    {
      hide LineSafe, Terminated, LoadTombs, LoadTouches, Appended, Keyed;
      var removed := TextsUnder(tombstones, Render(path));
      ghost var before, files := tombstones, tombFiles;
      tombstones := tombstones - removed;
      var rest := removed;
      ghost var order: seq<string> := [];
      assert before == tombstones + rest;
      while rest != {}
        invariant rest <= removed && tombstones == before - removed
        invariant LogEnds() && LoadTombs(tombFiles) == tombstones + rest
        invariant AsSet(order) == removed - rest && tombFiles == AllRemoved(files, order)
        invariant touches == old(touches) && touchFiles == old(touchFiles)
        decreases rest
      {
        var t :| t in rest;
        OneLess(tombstones, rest, t);
        AppendTombstoneOp('-', t);
        assert (order + [t])[..|order|] == order;
        AsSetMore(order + [t]);
        order := order + [t];
        rest := rest - {t};
      }
      assert tombstones + rest == tombstones;
    }

    /** Replace the whole set: the snapshot is rewritten and the log removed. */
    method SetTombstones(newTombstones: set<string>)
      requires Valid() && forall t :: t in newTombstones ==> LineSafe(t)
      modifies this
      ensures Valid() && LogEnds() && tombstones == newTombstones && touches == old(touches)
      ensures forall ps :: RenderAll(ps) == newTombstones ==> Saved(old(tombFiles), Replacing(ps), tombFiles)
    {
      tombstones := newTombstones;
      var order := SnapshotOrder(newTombstones);
      RewrittenLoads(order);
      tombFiles := tombFiles.(snapshot := Some(Join(order)));
      tombFiles := tombFiles.(log := None);
      assert tombFiles == Rewritten(order);
    }

    /** The lines of the snapshot, in the order of the hash set. */
    static method SnapshotOrder(tombs: set<string>) returns (order: seq<string>)
      requires forall t :: t in tombs ==> LineSafe(t)
      ensures AllLineSafe(order) && AsSet(order) == tombs
    {
      order := [];
      var rest := tombs;
      while rest != {}
        invariant rest <= tombs && AllLineSafe(order) && AsSet(order) == tombs - rest
        decreases rest
      {
        var t :| t in rest;
        assert AsSet(order + [t]) == AsSet(order) + {t};
        order := order + [t];
        rest := rest - {t};
      }
    }

    /** Remember what a path was when the branch first touched it. */
    method RecordFirstTouch(path: Path, inherited: Option<Entry>, capture: bool)
      requires Valid()
      modifies this
      ensures Valid() && touches == FirstTouch(old(touches), path, inherited, capture) && tombstones == old(tombstones)
    {
      if path in touches {
        return;
      }
      var content := None;
      if capture {
        content := BoundedText(inherited);
      }
      var record := Touch(path, IdentityOf(inherited), content);
      ReplayTouchesMore(touchFiles.snapshot, touchFiles.log, Recorded(record));
      touches := touches[path := record];
      touchFiles := touchFiles.(log := touchFiles.log + [Recorded(record)]);
    }

    /** Forget the records at and below a path; nothing is logged when there is none. */
    method RemoveTouchRecordsUnder(path: Path)
      requires Valid()
      modifies this
      ensures Valid() && touches == WithoutUnder(old(touches), path) && tombstones == old(tombstones)
    {
      var removed := set p | p in touches && InPath(p, path);
      touches := touches - removed;
      if removed == {} {
        assert touches == old(touches) == WithoutUnder(old(touches), path);
        return;
      }
      ReplayTouchesMore(touchFiles.snapshot, touchFiles.log, Gone(path));
      touchFiles := touchFiles.(log := touchFiles.log + [Gone(path)]);
    }
  }

  lemma OneLess(tombs: set<string>, rest: set<string>, t: string)
    requires t !in tombs
    ensures tombs + rest - {t} == tombs + (rest - {t})
  {
  }

  lemma {:induction false} ReplayKeepsKeyed(m: map<Path, Touch>, lines: seq<TouchLine>)
    requires Keyed(m)
    ensures Keyed(ReplayTouches(m, lines))
  {
    if lines != [] {
      ReplayKeepsKeyed(m, lines[..|lines| - 1]);
    }
  }

  lemma {:induction false} JoinTerminated(lines: seq<string>)
    ensures Terminated(Join(lines))
  {
    if lines != [] {
      JoinTerminated(lines[1..]);
    }
  }

  lemma MigratedTerminated(f: TombFiles, order: seq<string>)
    requires Terminated(LogText(f.log))
    ensures Terminated(LogText(Migrated(f, order).log))
  {
    JoinTerminated(AddLines(order));
  }
}
