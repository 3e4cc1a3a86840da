/** The tombstone files of a branch: a snapshot of paths and an append-only log, one
    line each, replayed when the branch is loaded. */
module TombLog {
  import opened FileTree
  import opened PathText

  // ----- lines -----

  function NewlineAt(text: string): (n: nat)
    ensures n <= |text|
  {
    if text == "" || text[0] == '\n' then 0 else 1 + NewlineAt(text[1..])
  }

  function StripCr(line: string): string {
    if line != "" && line[|line| - 1] == '\r' then line[..|line| - 1] else line
  }

  /** Reading by lines: a line ends before "\n" or "\r\n", or where the text ends. */
  function Lines(text: string): seq<string>
    decreases |text|
  {
    var n := NewlineAt(text);
    if text == "" then [] else if n == |text| then [text] else [StripCr(text[..n])] + Lines(text[n + 1..])
  }

  function Join(lines: seq<string>): string {
    if lines == [] then "" else lines[0] + "\n" + Join(lines[1..])
  }

  function StripAll(lines: seq<string>): seq<string> {
    seq(|lines|, i requires 0 <= i < |lines| => StripCr(lines[i]))
  }

  ghost predicate NoNewlines(lines: seq<string>) {
    forall i :: 0 <= i < |lines| ==> '\n' !in lines[i]
  }

  lemma {:induction false} NewlineAfter(line: string, rest: string)
    requires '\n' !in line
    ensures NewlineAt(line + "\n" + rest) == |line|
  {
    var t := line + "\n" + rest;
    if line != "" {
      assert t[1..] == line[1..] + "\n" + rest && t[0] == line[0];
      NewlineAfter(line[1..], rest);
    } else {
      assert t[0] == '\n';
    }
  }

  lemma FirstLine(line: string, rest: string)
    requires '\n' !in line
    ensures Lines(line + "\n" + rest) == [StripCr(line)] + Lines(rest)
  {
    var t := line + "\n" + rest;
    NewlineAfter(line, rest);
    assert t[..|line|] == line && t[|line| + 1..] == rest;
  }

  /** Lines written and read back lose a carriage return at their end, nothing else. */
  lemma {:induction false} LinesOfJoin(lines: seq<string>, rest: string)
    requires NoNewlines(lines)
    ensures Lines(Join(lines) + rest) == StripAll(lines) + Lines(rest)
  {
    hide Lines, StripCr;
    if lines == [] {
      assert Join(lines) + rest == rest;
    } else {
      var tail := Join(lines[1..]) + rest;
      JoinFirst(lines, rest);
      FirstLine(lines[0], tail);
      LinesOfJoin(lines[1..], rest);
      StripFirst(lines);
    }
  }

  lemma JoinFirst(lines: seq<string>, rest: string)
    requires lines != []
    ensures Join(lines) + rest == lines[0] + "\n" + (Join(lines[1..]) + rest)
  {
  }

  lemma StripFirst(lines: seq<string>)
    requires lines != []
    ensures StripAll(lines) == [StripCr(lines[0])] + StripAll(lines[1..])
  {
  }

  /** A file that ends with its last newline. */
  predicate Terminated(text: string) {
    text == "" || text[|text| - 1] == '\n'
  }

  lemma {:induction false} LinesOfAppend(text: string, more: string)
    requires Terminated(text)
    ensures Lines(text + more) == Lines(text) + Lines(more)
    decreases |text|
  {
    hide StripCr, Terminated, NewlineAt;
    if text == "" {
      assert text + more == more;
    } else {
      var n := NewlineAt(text);
      SplitAtNewline(text);
      var line, rest := text[..n], text[n + 1..];
      assert line + "\n" + (rest + more) == text + more;
      FirstLine(line, rest);
      FirstLine(line, rest + more);
      LinesOfAppend(rest, more);
    }
  }

  lemma CutAt(text: string, n: nat)
    requires n < |text|
    ensures text == text[..n] + [text[n]] + text[n + 1..]
  {
  }

  lemma SplitAtNewline(text: string)
    requires text != "" && Terminated(text)
    ensures var n := NewlineAt(text);
      n < |text| && '\n' !in text[..n] && text == text[..n] + "\n" + text[n + 1..] && Terminated(text[n + 1..])
  {
    hide NewlineAt;
    assert text[|text| - 1] == '\n';
    NewlineInside(text);
    var n := NewlineAt(text);
    var rest := text[n + 1..];
    CutAt(text, n);
    assert rest != "" ==> rest[|rest| - 1] == text[|text| - 1];
  }

  lemma {:induction false} NewlineInside(text: string)
    requires text != "" && '\n' in text
    ensures NewlineAt(text) < |text| && text[NewlineAt(text)] == '\n' && '\n' !in text[..NewlineAt(text)]
  {
    if text[0] != '\n' {
      NewlineInside(text[1..]);
      assert text[..NewlineAt(text)] == [text[0]] + text[1..][..NewlineAt(text[1..])];
    }
  }

  // ----- the files -----

  datatype TombFiles = TombFiles(snapshot: Option<string>, log: Option<string>)

  predicate Blank(line: string) {
    TrimSpace(line) == ""
  }

  function LinesOf(file: Option<string>): seq<string> {
    if file.Some? then Lines(file.value) else []
  }

  function SnapshotSet(f: TombFiles): set<string> {
    set line | line in LinesOf(f.snapshot) && !Blank(line)
  }

  /** What a log line says: nothing, or that a path is or is no longer a tombstone. A
      bare path adds. */
  datatype Said = Nothing | Adds(path: string) | Removes(path: string)

  function Read(line: string): Said {
    if Blank(line) then Nothing
    else if "+ " <= line then Adds(line[2..])
    else if "- " <= line then Removes(line[2..])
    else Adds(line)
  }

  function Obey(s: set<string>, said: Said): set<string> {
    match said
    case Nothing => s
    case Adds(p) => s + {p}
    case Removes(p) => s - {p}
  }

  function Replay(s: set<string>, lines: seq<string>): set<string> {
    if lines == [] then s else Obey(Replay(s, lines[..|lines| - 1]), Read(lines[|lines| - 1]))
  }

  function LoadTombs(f: TombFiles): set<string> {
    Replay(SnapshotSet(f), LinesOf(f.log))
  }

  /** The last thing the lines say about a path. */
  function LastSaid(lines: seq<string>, p: string): Said {
    if lines == [] then Nothing else
      match Read(lines[|lines| - 1])
      case Nothing => LastSaid(lines[..|lines| - 1], p)
      case Adds(q) => if q == p then Adds(p) else LastSaid(lines[..|lines| - 1], p)
      case Removes(q) => if q == p then Removes(p) else LastSaid(lines[..|lines| - 1], p)
  }

  /** Whether a path is in the set, given what was said last and whether it was there. */
  predicate Decided(said: Said, before: bool) {
    match said
    case Nothing => before
    case Adds(_) => true
    case Removes(_) => false
  }

  /** A replayed log decides each path by its last line about it. */
  lemma {:induction false} ReplayedIn(s: set<string>, lines: seq<string>, p: string)
    ensures p in Replay(s, lines) <==> Decided(LastSaid(lines, p), p in s)
  {
    if lines != [] {
      ReplayedIn(s, lines[..|lines| - 1], p);
    }
  }

  // ----- what the files say, told by their text -----

  ghost predicate AllSpace(line: string) {
    forall i :: 0 <= i < |line| ==> IsSpace(line[i])
  }

  lemma {:induction false} FrontBlankIff(s: string)
    ensures TrimSpaceFront(s) == "" <==> AllSpace(s)
    ensures TrimSpaceFront(s) != "" ==> !IsSpace(TrimSpaceFront(s)[0])
  {
    if s != "" && IsSpace(s[0]) {
      FrontBlankIff(s[1..]);
      assert s == [s[0]] + s[1..];
    }
  }

  lemma BlankIff(line: string)
    ensures Blank(line) <==> AllSpace(line)
  {
    FrontBlankIff(line);
    if TrimSpaceFront(line) != "" {
      BackKeepsFirst(TrimSpaceFront(line));
    }
  }

  /** The line adds the path: after a plus sign and a space, or bare. */
  ghost predicate AddsPath(line: string, p: string) {
    line == "+ " + p || (line == p && !AllSpace(p) && !("+ " <= p) && !("- " <= p))
  }

  ghost predicate RemovesPath(line: string, p: string) {
    line == "- " + p
  }

  lemma ReadIs(line: string, p: string)
    ensures Read(line) == Adds(p) <==> AddsPath(line, p)
    ensures Read(line) == Removes(p) <==> RemovesPath(line, p)
  {
    BlankIff(line);
    if "+ " <= line || "- " <= line {
      OpIsNotBlank(line);
      assert line == line[..2] + line[2..];
    }
    assert ("+ " + p)[2..] == p && ("- " + p)[2..] == p;
  }

  ghost predicate AddedAt(lines: seq<string>, p: string, i: nat) {
    i < |lines| && AddsPath(lines[i], p) && forall j :: i < j < |lines| ==> !RemovesPath(lines[j], p)
  }

  /** Some line adds the path, and none behind it removes it. */
  ghost predicate AddedLast(lines: seq<string>, p: string) {
    exists i :: AddedAt(lines, p, i)
  }

  ghost predicate NeverRemoved(lines: seq<string>, p: string) {
    forall j :: 0 <= j < |lines| ==> !RemovesPath(lines[j], p)
  }

  lemma {:induction false} ReplayedIff(s: set<string>, lines: seq<string>, p: string)
    ensures p in Replay(s, lines) <==> AddedLast(lines, p) || (p in s && NeverRemoved(lines, p))
  {
    hide AddsPath, RemovesPath, Read;
    if lines != [] {
      var n := |lines| - 1;
      ReplayedIff(s, lines[..n], p);
      ReadIs(lines[n], p);
      assert AddedLast(lines, p) <==>
        AddsPath(lines[n], p) || (AddedLast(lines[..n], p) && !RemovesPath(lines[n], p)) by { AddedMore(lines, p); }
      assert NeverRemoved(lines, p) <==> NeverRemoved(lines[..n], p) && !RemovesPath(lines[n], p);
      assert !(AddsPath(lines[n], p) && RemovesPath(lines[n], p));
    }
  }

  lemma AddedMore(lines: seq<string>, p: string)
    requires lines != []
    ensures var n := |lines| - 1;
      AddedLast(lines, p) <==> AddsPath(lines[n], p) || (AddedLast(lines[..n], p) && !RemovesPath(lines[n], p))
  {
    hide AddedAt;
    var n := |lines| - 1;
    forall i: nat
      ensures i < n ==> (AddedAt(lines, p, i) <==> AddedAt(lines[..n], p, i) && !RemovesPath(lines[n], p))
      ensures AddedAt(lines, p, n) <==> AddsPath(lines[n], p)
      ensures AddedAt(lines, p, i) ==> i <= n
      ensures AddedAt(lines[..n], p, i) ==> i < n
    {
      AddedEarlier(lines, p, i);
    }
    if AddsPath(lines[n], p) {
      assert AddedAt(lines, p, n);
    }
    if AddedLast(lines[..n], p) && !RemovesPath(lines[n], p) {
      var i: nat :| AddedAt(lines[..n], p, i);
      assert AddedAt(lines, p, i);
    }
    if AddedLast(lines, p) && !AddsPath(lines[n], p) {
      var i: nat :| AddedAt(lines, p, i);
      assert AddedAt(lines[..n], p, i);
    }
  }

  lemma AddedEarlier(lines: seq<string>, p: string, i: nat)
    requires lines != []
    ensures var n := |lines| - 1;
      && (i < n ==> (AddedAt(lines, p, i) <==> AddedAt(lines[..n], p, i) && !RemovesPath(lines[n], p)))
      && (AddedAt(lines, p, n) <==> AddsPath(lines[n], p))
      && (AddedAt(lines, p, i) ==> i <= n) && (AddedAt(lines[..n], p, i) ==> i < n)
  {
    hide AddsPath, RemovesPath;
    assert forall j :: 0 <= j < |lines| - 1 ==> lines[..|lines| - 1][j] == lines[j];
  }

  /** The tombstones that the files hold: what some line of the log adds, with a plus sign or
      bare, and none behind it removes, and the lines of the snapshot that are not white space
      and that the log never removes. */
  lemma LoadedIff(f: TombFiles, p: string)
    ensures p in LoadTombs(f) <==>
      || AddedLast(LinesOf(f.log), p)
      || (p in LinesOf(f.snapshot) && !AllSpace(p) && NeverRemoved(LinesOf(f.log), p))
  {
    ReplayedIff(SnapshotSet(f), LinesOf(f.log), p);
    BlankIff(p);
  }

  lemma {:induction false} ReplayConcat(s: set<string>, a: seq<string>, b: seq<string>)
    ensures Replay(s, a + b) == Replay(Replay(s, a), b)
  {
    if b == [] {
      assert a + b == a;
    } else {
      var n := |b| - 1;
      assert (a + b)[..|a + b| - 1] == a + b[..n] && (a + b)[|a + b| - 1] == b[n];
      ReplayConcat(s, a, b[..n]);
    }
  }

  // ----- appending -----

  /** A path as it may stand in a line. */
  predicate LineSafe(path: string) {
    path != "" && '\n' !in path && path[|path| - 1] != '\r' && !Blank(path)
  }

  function LogText(log: Option<string>): string {
    if log.Some? then log.value else ""
  }

  function Appended(f: TombFiles, op: char, path: string): TombFiles {
    f.(log := Some(LogText(f.log) + [op, ' '] + path + "\n"))
  }

  lemma OpIsNotBlank(line: string)
    requires line != "" && (line[0] == '+' || line[0] == '-')
    ensures !Blank(line)
  {
    assert TrimSpaceFront(line) == line;
    BackKeepsFirst(line);
  }

  lemma {:induction false} BackKeepsFirst(s: string)
    requires s != "" && !IsSpace(s[0])
    ensures TrimSpaceBack(s) != ""
  {
    if IsSpace(s[|s| - 1]) {
      BackKeepsFirst(s[..|s| - 1]);
    }
  }

  function OpLine(op: char, path: string): string {
    [op, ' '] + path
  }

  lemma ReadOpLine(op: char, path: string)
    requires path != "" && (op == '+' || op == '-')
    ensures Read(StripCr(OpLine(op, path))) == if op == '+' then Adds(StripCr(path)) else Removes(StripCr(path))
  {
    var line := StripCr(OpLine(op, path));
    assert line == OpLine(op, StripCr(path));
    OpIsNotBlank(line);
    assert line[2..] == StripCr(path);
    assert "+ " <= line <==> op == '+';
    assert "- " <= line <==> op == '-';
  }

  lemma ReplayMore(s: set<string>, lines: seq<string>, line: string)
    ensures Replay(s, lines + [line]) == Obey(Replay(s, lines), Read(line))
  {
    assert (lines + [line])[..|lines|] == lines;
  }

  /** Appending a line to the log adds or removes exactly its path at the next load. */
  lemma AppendedLoads(f: TombFiles, op: char, path: string)
    requires LineSafe(path) && (op == '+' || op == '-') && Terminated(LogText(f.log))
    ensures LoadTombs(Appended(f, op, path)) == if op == '+' then LoadTombs(f) + {path} else LoadTombs(f) - {path}
    ensures Terminated(LogText(Appended(f, op, path).log))
  {
    hide Lines, OpLine, Read, Replay, Blank;
    AppendedLines(f, op, path);
    ReadOpLine(op, path);
    ReplayMore(SnapshotSet(f), LinesOf(f.log), StripCr(OpLine(op, path)));
  }

  lemma AppendedLines(f: TombFiles, op: char, path: string)
    requires '\n' !in path && (op == '+' || op == '-') && Terminated(LogText(f.log))
    ensures LinesOf(Appended(f, op, path).log) == LinesOf(f.log) + [StripCr(OpLine(op, path))]
  {
    var text, line := LogText(f.log), OpLine(op, path);
    assert Appended(f, op, path).log == Some(text + (line + "\n" + "")) by {
      assert text + [op, ' '] + path + "\n" == text + (line + "\n" + "");
    }
    LinesOfAppend(text, line + "\n" + "");
    FirstLine(line, "");
  }

  // ----- rewriting -----

  /** The files while the snapshot is being written, next to the old log: the first lines
      and part of the next one, ... */
  function SnapshotCut(f: TombFiles, lines: seq<string>, part: string): TombFiles {
    f.(snapshot := Some(Join(lines) + part))
  }

  /** ... and when the log is gone. */
  function Rewritten(order: seq<string>): TombFiles {
    TombFiles(Some(Join(order)), None)
  }

  ghost predicate AllLineSafe(lines: seq<string>) {
    forall i :: 0 <= i < |lines| ==> LineSafe(lines[i])
  }

  function AsSet(lines: seq<string>): set<string> {
    set line | line in lines
  }

  lemma JoinedLines(order: seq<string>)
    requires AllLineSafe(order)
    ensures Lines(Join(order)) == order
  {
    LinesOfJoin(order, "");
    assert Join(order) + "" == Join(order);
    assert StripAll(order) == order;
  }

  lemma RewrittenLoads(order: seq<string>)
    requires AllLineSafe(order)
    ensures LoadTombs(Rewritten(order)) == AsSet(order)
  {
    JoinedLines(order);
    assert forall line :: line in order ==> !Blank(line);
  }

  /** The snapshot has got as far as `k` lines and `part` of the next. */
  predicate CutOk(order: seq<string>, k: nat, part: string) {
    k <= |order| && (part == "" || (k < |order| && part <= order[k]))
  }

  /** The paths that a cut snapshot holds: a part of a line counts as a path. */
  function CutSet(lines: seq<string>, part: string): set<string> {
    AsSet(lines) + if Blank(part) then {} else {part}
  }

  lemma {:induction false} OneLine(part: string)
    requires '\n' !in part
    ensures NewlineAt(part) == |part| && Lines(part) == if part == "" then [] else [part]
  {
    if part != "" {
      OneLine(part[1..]);
    }
  }

  lemma CutLoads(f: TombFiles, order: seq<string>, k: nat, part: string)
    requires AllLineSafe(order) && CutOk(order, k, part)
    ensures SnapshotSet(SnapshotCut(f, order[..k], part)) == CutSet(order[..k], part)
  {
    hide Lines, Blank, NewlineAt;
    var lines := order[..k];
    assert '\n' !in part by {
      if part != "" {
        assert forall i :: 0 <= i < |part| ==> part[i] == order[k][i] && part[i] in order[k];
      }
    }
    OneLine(part);
    LinesOfJoin(lines, part);
    assert StripAll(lines) == lines;
    EmptyIsBlank();
    assert forall line :: line in lines ==> !Blank(line);
    assert forall line :: line in lines + Lines(part) <==> line in lines || (part != "" && line == part);
  }

  lemma EmptyIsBlank()
    ensures Blank("")
  {
  }

  /** A crash anywhere before the log is removed loads the new set exactly when the log's
      last word on every path, or else what is written of the snapshot, agrees with it. */
  lemma RewriteCrashSafeIff(f: TombFiles, order: seq<string>, k: nat, part: string)
    requires AllLineSafe(order) && CutOk(order, k, part)
    ensures LoadTombs(SnapshotCut(f, order[..k], part)) == AsSet(order) <==>
      forall p :: Decided(LastSaid(LinesOf(f.log), p), p in CutSet(order[..k], part)) <==> p in AsSet(order)
  {
    hide Lines, LastSaid, Blank, Read;
    var lines, loaded, cut := LinesOf(f.log), LoadTombs(SnapshotCut(f, order[..k], part)), CutSet(order[..k], part);
    CutLoads(f, order, k, part);
    forall p
      ensures p in loaded <==> Decided(LastSaid(lines, p), p in cut)
    {
      ReplayedIn(cut, lines, p);
    }
    if loaded != AsSet(order) {
      var p :| p in loaded <==> p !in AsSet(order);
    }
  }

  // ----- migrating a legacy snapshot -----

  function AddLines(order: seq<string>): seq<string> {
    seq(|order|, i requires 0 <= i < |order| => OpLine('+', order[i]))
  }

  /** `order` lists the snapshot's paths, sorted and without repeats. */
  ghost predicate Lists(f: TombFiles, order: seq<string>) {
    AsSet(order) == SnapshotSet(f)
  }

  /** The migration writes the snapshot's paths in front of the log ... */
  function LogMigrated(f: TombFiles, order: seq<string>): TombFiles {
    if order == [] then f else f.(log := Some(Join(AddLines(order)) + LogText(f.log)))
  }

  /** ... and then empties the snapshot. */
  function Migrated(f: TombFiles, order: seq<string>): TombFiles {
    if order == [] then f else LogMigrated(f, order).(snapshot := Some(""))
  }

  function LogLines(order: seq<string>): seq<string> {
    StripAll(AddLines(order))
  }

  lemma LogLinesMore(order: seq<string>)
    requires order != []
    ensures LogLines(order) == LogLines(order[..|order| - 1]) + [StripCr(OpLine('+', order[|order| - 1]))]
  {
  }

  lemma {:induction false} AddedLines(s: set<string>, order: seq<string>)
    requires "" !in order
    ensures Replay(s, LogLines(order)) == s + set p | p in order :: StripCr(p)
  {
    if order == [] {
      assert LogLines(order) == [] && (set p | p in order :: StripCr(p)) == {};
    } else {
      var n := |order| - 1;
      AddedLines(s, order[..n]);
      LogLinesMore(order);
      ReplayMore(s, LogLines(order[..n]), StripCr(OpLine('+', order[n])));
      ReadOpLine('+', order[n]);
      StrippedMore(order);
    }
  }

  lemma StrippedMore(order: seq<string>)
    requires order != []
    ensures (set p | p in order :: StripCr(p)) == (set p | p in order[..|order| - 1] :: StripCr(p)) + {StripCr(order[|order| - 1])}
  {
    var n := |order| - 1;
    assert order == order[..n] + [order[n]];
    assert forall p :: p in order <==> p in order[..n] || p == order[n];
  }

  lemma {:induction false} LinesHaveNoNewline(text: string)
    ensures NoNewlines(Lines(text))
    decreases |text|
  {
    if text != "" {
      var n := NewlineAt(text);
      if n == |text| {
        NoNewlineAtAll(text);
      } else {
        FirstLineHasNoNewline(text);
        assert '\n' !in StripCr(text[..n]);
        LinesHaveNoNewline(text[n + 1..]);
      }
    }
  }

  lemma {:induction false} NoNewlineAtAll(text: string)
    requires NewlineAt(text) == |text|
    ensures '\n' !in text
  {
    if text != "" {
      NoNewlineAtAll(text[1..]);
    }
  }

  lemma FirstLineHasNoNewline(text: string)
    requires NewlineAt(text) < |text|
    ensures '\n' !in text[..NewlineAt(text)]
    decreases |text|
  {
    if text[0] != '\n' {
      FirstLineHasNoNewline(text[1..]);
      assert text[..NewlineAt(text)] == [text[0]] + text[1..][..NewlineAt(text[1..])];
    }
  }

  lemma ListedLines(f: TombFiles, order: seq<string>)
    requires Lists(f, order)
    ensures NoNewlines(AddLines(order)) && "" !in order
  {
    if f.snapshot.Some? {
      LinesHaveNoNewline(f.snapshot.value);
    }
    forall i | 0 <= i < |order|
      ensures '\n' !in order[i] && !Blank(order[i])
    {
      assert order[i] in AsSet(order);
    }
    assert Blank("");
  }

  function Stripped(s: set<string>): set<string> {
    set p | p in s :: StripCr(p)
  }

  /** What the files load as at both points of the migration. */
  lemma MigratedLoads(f: TombFiles, order: seq<string>)
    requires Lists(f, order) && order != []
    ensures LoadTombs(LogMigrated(f, order)) == Replay(SnapshotSet(f) + Stripped(SnapshotSet(f)), LinesOf(f.log))
    ensures LoadTombs(Migrated(f, order)) == Replay(Stripped(SnapshotSet(f)), LinesOf(f.log))
  {
    var adds := AddLines(order);
    ListedLines(f, order);
    LinesOfJoin(adds, LogText(f.log));
    var all := StripAll(adds) + LinesOf(f.log);
    assert LinesOf(Migrated(f, order).log) == LinesOf(LogMigrated(f, order).log) == all;
    assert (set p | p in order :: StripCr(p)) == Stripped(SnapshotSet(f)) by {
      assert forall p :: p in order <==> p in AsSet(order);
    }
    AddedLines(SnapshotSet(f), order);
    AddedLines({}, order);
    ReplayConcat(SnapshotSet(f), StripAll(adds), LinesOf(f.log));
    ReplayConcat({}, StripAll(adds), LinesOf(f.log));
    assert SnapshotSet(Migrated(f, order)) == {};
    assert {} + Stripped(SnapshotSet(f)) == Stripped(SnapshotSet(f));
  }

  /** Stripping the snapshot's paths changes none that the log leaves open. */
  ghost predicate StripsAlike(f: TombFiles) {
    forall p :: LastSaid(LinesOf(f.log), p).Nothing? ==> (p in SnapshotSet(f) <==> p in Stripped(SnapshotSet(f)))
  }

  /** Migration, and a crash before the snapshot is emptied, load the same set as before
      exactly when no path that the log leaves open changes by losing a carriage return. */
  lemma MigrationKeepsTombsIff(f: TombFiles, order: seq<string>)
    requires Lists(f, order)
    ensures LoadTombs(Migrated(f, order)) == LoadTombs(f) <==> StripsAlike(f)
    ensures StripsAlike(f) ==> LoadTombs(LogMigrated(f, order)) == LoadTombs(f)
  {
    hide Lines, Read, SnapshotSet, LastSaid;
    var s, t, lines := SnapshotSet(f), Stripped(SnapshotSet(f)), LinesOf(f.log);
    if order == [] {
      assert s == AsSet(order) == {};
    } else {
      MigratedLoads(f, order);
      forall p
        ensures p in Replay(s, lines) <==> Decided(LastSaid(lines, p), p in s)
        ensures p in Replay(t, lines) <==> Decided(LastSaid(lines, p), p in t)
        ensures p in Replay(s + t, lines) <==> Decided(LastSaid(lines, p), p in s + t)
      {
        ReplayedIn(s, lines, p);
        ReplayedIn(t, lines, p);
        ReplayedIn(s + t, lines, p);
      }
      if forall p :: LastSaid(lines, p).Nothing? ==> (p in s <==> p in t) {
        assert Replay(s + t, lines) == Replay(s, lines);
        assert Replay(t, lines) == Replay(s, lines);
      } else {
        var p :| LastSaid(lines, p).Nothing? && !(p in s <==> p in t);
        assert p in Replay(s, lines) <==> p in s;
        assert p in Replay(t, lines) <==> p in t;
      }
    }
  }

  /** With no carriage return at the end of a path the same set is loaded before, at the
      crash point, after the migration, and after migrating again from the crash point. */
  lemma MigrationKeepsTombs(f: TombFiles, order: seq<string>, again: seq<string>)
    requires Lists(f, order) && Lists(LogMigrated(f, order), again)
    requires forall p :: p in SnapshotSet(f) ==> StripCr(p) == p
    ensures LoadTombs(LogMigrated(f, order)) == LoadTombs(f)
    ensures LoadTombs(Migrated(f, order)) == LoadTombs(f)
    ensures LoadTombs(Migrated(LogMigrated(f, order), again)) == LoadTombs(f)
  {
    StrippedSame(SnapshotSet(f));
    MigrationKeepsTombsIff(f, order);
    MigrationKeepsTombsIff(LogMigrated(f, order), again);
  }

  lemma StrippedSame(s: set<string>)
    requires forall p :: p in s ==> StripCr(p) == p
    ensures Stripped(s) == s
  {
    forall p | p in s
      ensures p in Stripped(s)
    {
      assert StripCr(p) == p;
    }
  }
}
