/** The line-based three-way merge of text files. */
module TextMerge {
  import opened FileTree

  type Text = seq<byte>
  const NEWLINE: byte := 10

  // ----- lines -----

  /** Index just after the first newline, or the length of the text. */
  function LineEnd(text: Text): (n: nat)
    ensures n <= |text| && (text != [] ==> n > 0)
  {
    if text == [] then 0 else if text[0] == NEWLINE then 1 else 1 + LineEnd(text[1..])
  }

  /** Split after every newline; a last line without one is kept. */
  function SplitLines(text: Text): seq<Text>
    decreases |text|
  {
    if text == [] then [] else [text[..LineEnd(text)]] + SplitLines(text[LineEnd(text)..])
  }

  function Concat(lines: seq<Text>): Text {
    if lines == [] then [] else lines[0] + Concat(lines[1..])
  }

  lemma {:induction false} ConcatSplit(text: Text)
    ensures Concat(SplitLines(text)) == text
    decreases |text|
  {
    if text != [] {
      ConcatSplit(text[LineEnd(text)..]);
    }
  }

  /** A line: not empty, with no line feed (byte 10) but perhaps its last byte. */
  ghost predicate IsLine(line: Text) {
    line != [] && forall i :: 0 <= i < |line| - 1 ==> line[i] != 10
  }

  ghost predicate EndsLine(line: Text) {
    line != [] && line[|line| - 1] == 10
  }

  /** Lines one after the other: only the last may lack its line feed. */
  ghost predicate AreLines(lines: seq<Text>) {
    && (forall k :: 0 <= k < |lines| ==> IsLine(lines[k]))
    && (forall k :: 0 <= k < |lines| - 1 ==> EndsLine(lines[k]))
  }

  lemma {:induction false} LineEndIs(text: Text)
    requires text != []
    ensures IsLine(text[..LineEnd(text)])
    ensures EndsLine(text[..LineEnd(text)]) || LineEnd(text) == |text|
  {
    if text[0] != NEWLINE && |text| > 1 {
      LineEndIs(text[1..]);
      var n := LineEnd(text[1..]);
      forall i | 0 <= i < n
        ensures text[..n + 1][i + 1] == text[1..][..n][i]
      {
      }
    }
  }

  lemma {:induction false} SplitAreLines(text: Text)
    ensures AreLines(SplitLines(text))
    decreases |text|
  {
    if text != [] {
      LineEndIs(text);
      SplitAreLines(text[LineEnd(text)..]);
    }
  }

  /** The first of several lines ends where the first line of the text ends. */
  lemma FirstOfLines(lines: seq<Text>)
    requires AreLines(lines) && lines != []
    ensures var text := Concat(lines); text != [] && LineEnd(text) == |lines[0]|
    ensures var text := Concat(lines); text[..LineEnd(text)] == lines[0] && text[LineEnd(text)..] == Concat(lines[1..])
    ensures AreLines(lines[1..])
  {
    LineEndAt(lines[0], Concat(lines[1..]));
  }

  lemma {:induction false} LineEndAt(line: Text, rest: Text)
    requires IsLine(line) && (EndsLine(line) || rest == [])
    ensures LineEnd(line + rest) == |line|
  {
    if |line| > 1 {
      assert (line + rest)[1..] == line[1..] + rest;
      LineEndAt(line[1..], rest);
    } else if line[0] != NEWLINE {
      assert (line + rest)[1..] == [];
    }
  }

  /** Splitting is the only way to read a text as lines. */
  lemma {:induction false} SplitIsUnique(lines: seq<Text>)
    requires AreLines(lines)
    ensures SplitLines(Concat(lines)) == lines
  {
    if lines != [] {
      FirstOfLines(lines);
      SplitIsUnique(lines[1..]);
    }
  }

  // ----- one edit; of lines only their equality matters -----

  /** Replace base[start..end] by `repl`. */
  datatype Edit<T> = Edit(start: nat, end: nat, repl: seq<T>)

  ghost predicate Fits<T>(e: Edit<T>, lines: seq<T>) {
    e.start <= e.end <= |lines|
  }

  ghost function Apply<T>(lines: seq<T>, e: Edit<T>): seq<T>
    requires Fits(e, lines)
  {
    lines[..e.start] + e.repl + lines[e.end..]
  }

  ghost predicate SameHead<T>(a: seq<T>, b: seq<T>, n: nat) {
    n <= |a| && n <= |b| && a[..n] == b[..n]
  }

  ghost predicate SameTail<T>(a: seq<T>, b: seq<T>, n: nat) {
    n <= |a| && n <= |b| && a[|a| - n..] == b[|b| - n..]
  }

  lemma SameTailStep<T>(a: seq<T>, b: seq<T>, n: nat)
    requires SameTail(a, b, n) && n < |a| && n < |b|
    ensures SameTail(a, b, n + 1) <==> a[|a| - 1 - n] == b[|b| - 1 - n]
  {
    assert a[|a| - (n + 1)..] == [a[|a| - 1 - n]] + a[|a| - n..];
    assert b[|b| - (n + 1)..] == [b[|b| - 1 - n]] + b[|b| - n..];
  }

  /** How many lines `a` and `b` share from the start, `n` at least. */
  function PrefixFrom<T(==)>(a: seq<T>, b: seq<T>, n: nat): (p: nat)
    requires n <= |a| && n <= |b|
    ensures n <= p <= |a| && p <= |b|
    ensures p < |a| && p < |b| ==> a[p] != b[p]
    decreases |a| - n
  {
    if n < |a| && n < |b| && a[n] == b[n] then PrefixFrom(a, b, n + 1) else n
  }

  function CommonPrefix<T(==)>(a: seq<T>, b: seq<T>): nat {
    PrefixFrom(a, b, 0)
  }

  /** How many lines they share at the end, of those after line `p`, `n` at least. */
  function SuffixFrom<T(==)>(a: seq<T>, b: seq<T>, p: nat, n: nat): (s: nat)
    requires p + n <= |a| && p + n <= |b|
    ensures n <= s && p + s <= |a| && p + s <= |b|
    ensures p + s < |a| && p + s < |b| ==> a[|a| - 1 - s] != b[|b| - 1 - s]
    decreases |a| - n
  {
    if p + n < |a| && p + n < |b| && a[|a| - 1 - n] == b[|b| - 1 - n] then SuffixFrom(a, b, p, n + 1) else n
  }

  lemma {:induction false} PrefixIsShared<T>(a: seq<T>, b: seq<T>, n: nat)
    requires SameHead(a, b, n)
    ensures SameHead(a, b, PrefixFrom(a, b, n))
    decreases |a| - n
  {
    if n < |a| && n < |b| && a[n] == b[n] {
      assert a[..n + 1] == a[..n] + [a[n]] && b[..n + 1] == b[..n] + [b[n]];
      PrefixIsShared(a, b, n + 1);
    }
  }

  lemma {:induction false} SuffixIsShared<T>(a: seq<T>, b: seq<T>, p: nat, n: nat)
    requires p + n <= |a| && p + n <= |b| && SameTail(a, b, n)
    ensures SameTail(a, b, SuffixFrom(a, b, p, n))
    decreases |a| - n
  {
    if p + n < |a| && p + n < |b| && a[|a| - 1 - n] == b[|b| - 1 - n] {
      SameTailStep(a, b, n);
      SuffixIsShared(a, b, p, n + 1);
    }
  }

  /** `changed` agrees with `base` in the first p and the last s lines. */
  ghost predicate Agree<T>(base: seq<T>, changed: seq<T>, p: nat, s: nat) {
    p + s <= |base| && p + s <= |changed| && SameHead(base, changed, p) && SameTail(base, changed, s)
  }

  lemma EditRebuilds<T>(base: seq<T>, changed: seq<T>, p: nat, s: nat, e: Edit<T>)
    requires Agree(base, changed, p, s) && e == Edit(p, |base| - s, changed[p..|changed| - s])
    ensures Fits(e, base) && Apply(base, e) == changed
  {
    assert changed == changed[..p] + changed[p..|changed| - s] + changed[|changed| - s..];
  }

  function ChangedEdit<T(==)>(base: seq<T>, changed: seq<T>): (e: Edit<T>)
    ensures Fits(e, base)
  {
    var p := CommonPrefix(base, changed);
    var s := SuffixFrom(base, changed, p, 0);
    Edit(p, |base| - s, changed[p..|changed| - s])
  }

  /** The edit turns the one file into the other. */
  lemma ChangedEditRebuilds<T>(base: seq<T>, changed: seq<T>)
    ensures Apply(base, ChangedEdit(base, changed)) == changed
  {
    var p := CommonPrefix(base, changed);
    var s := SuffixFrom(base, changed, p, 0);
    PrefixIsShared(base, changed, 0);
    SuffixIsShared(base, changed, p, 0);
    EditRebuilds(base, changed, p, s, ChangedEdit(base, changed));
  }

  /** The lines at which the two files start and stop to differ. */
  method ChangedRange<T(==)>(base: seq<T>, changed: seq<T>) returns (start: nat, end: nat, repl: seq<T>)
    ensures Edit(start, end, repl) == ChangedEdit(base, changed)
  {
    ghost var e := ChangedEdit(base, changed);
    ghost var p := CommonPrefix(base, changed);
    var prefix := 0;
    while prefix < |base| && prefix < |changed| && base[prefix] == changed[prefix]
      invariant prefix <= |base| && prefix <= |changed|
      invariant PrefixFrom(base, changed, prefix) == p
    {
      prefix := prefix + 1;
    }
    assert prefix == p;
    ghost var s := SuffixFrom(base, changed, p, 0);
    var suffix := 0;
    while suffix < |base| - prefix && suffix < |changed| - prefix
      && base[|base| - 1 - suffix] == changed[|changed| - 1 - suffix]
      invariant prefix + suffix <= |base| && prefix + suffix <= |changed|
      invariant SuffixFrom(base, changed, p, suffix) == s
    {
      suffix := suffix + 1;
    }
    assert suffix == s;
    var baseEnd := |base| - suffix;
    var changedEnd := |changed| - suffix;
    assert e == Edit(p, |base| - s, changed[p..|changed| - s]);
    start, end, repl := prefix, baseEnd, changed[prefix..changedEnd];
  }

  lemma PrefixIsLongest<T>(a: seq<T>, b: seq<T>, p: nat)
    requires SameHead(a, b, p)
    ensures p <= CommonPrefix(a, b)
  {
    if CommonPrefix(a, b) < p {
      HeadAt(a, b, p, CommonPrefix(a, b));
    }
  }

  lemma HeadAt<T>(a: seq<T>, b: seq<T>, p: nat, n: nat)
    requires n < p && SameHead(a, b, p)
    ensures a[n] == b[n]
  {
    assert a[..p][n] == b[..p][n];
  }

  /** No other way of keeping a head and a tail of the file keeps a longer head, replaces
      fewer lines or inserts fewer. */
  lemma ChangedEditIsSmallest<T>(base: seq<T>, changed: seq<T>, p: nat, s: nat)
    requires Agree(base, changed, p, s)
    ensures p <= ChangedEdit(base, changed).start
    ensures ChangedEdit(base, changed).end - ChangedEdit(base, changed).start <= |base| - p - s
    ensures |ChangedEdit(base, changed).repl| <= |changed| - p - s
  {
    var n := CommonPrefix(base, changed);
    var m := SuffixFrom(base, changed, n, 0);
    PrefixIsLongest(base, changed, p);
    if m < s {
      SuffixAt(base, changed, s, m);
    }
  }

  lemma SuffixAt<T>(a: seq<T>, b: seq<T>, s: nat, m: nat)
    requires m < s && SameTail(a, b, s)
    ensures a[|a| - 1 - m] == b[|b| - 1 - m]
  {
    assert a[|a| - s..][s - 1 - m] == b[|b| - s..][s - 1 - m];
  }

  // ----- two edits of one base -----

  // Panics stands for the slice whose start lies after its end: the process does not
  // get past it.
  datatype Outcome<+T> = Merged(result: T) | Overlapping | Panics

  function Between<T>(lines: seq<T>, from: nat, to: nat): Outcome<seq<T>>
    requires to <= |lines|
  {
    if from <= to then Merged(lines[from..to]) else Panics
  }

  function MergeEdits<T>(base: seq<T>, cur: Edit<T>, ses: Edit<T>): Outcome<seq<T>>
    requires Fits(cur, base) && Fits(ses, base)
  {
    if !(cur.end <= ses.start || ses.end <= cur.start) then Overlapping
    else if cur.start <= ses.start then
      match Between(base, cur.end, ses.start)
      case Merged(mid) => Merged(base[..cur.start] + cur.repl + mid + ses.repl + base[ses.end..])
      case _ => Panics
    else
      match Between(base, ses.end, cur.start)
      case Merged(mid) => Merged(base[..ses.start] + ses.repl + mid + cur.repl + base[cur.end..])
      case _ => Panics
  }

  /** The merge panics exactly on a tie: the session inserts right where the current
      file's edit starts, and that edit replaces lines. */
  lemma MergePanicsIff<T>(base: seq<T>, cur: Edit<T>, ses: Edit<T>)
    requires Fits(cur, base) && Fits(ses, base)
    ensures MergeEdits(base, cur, ses).Panics? <==> cur.start == ses.start == ses.end < cur.end
  {
  }

  /** `e` in the line numbers of a file to which `left`, an edit before it, has been
      applied. */
  ghost function Behind<T>(e: Edit<T>, left: Edit<T>): Edit<T>
    requires left.start <= left.end <= e.start <= e.end
  {
    var shift := left.start + |left.repl| - left.end;
    Edit(e.start + shift, e.end + shift, e.repl)
  }

  /** In `base` edited by `left`, the lines behind `left` are those of `base`. */
  lemma BehindEdit<T>(base: seq<T>, left: Edit<T>, n: nat)
    requires Fits(left, base) && left.end <= n <= |base|
    ensures var a := Apply(base, left); var m := n - left.end + left.start + |left.repl|;
      m <= |a| && a[..m] == base[..left.start] + left.repl + base[left.end..n] && a[m..] == base[n..]
  {
    var a := Apply(base, left);
    var m := n - left.end + left.start + |left.repl|;
    assert base[left.end..] == base[left.end..n] + base[n..];
    assert a == (base[..left.start] + left.repl + base[left.end..n]) + base[n..];
  }

  ghost function Both<T>(base: seq<T>, left: Edit<T>, right: Edit<T>): seq<T>
    requires Fits(left, base) && Fits(right, base) && left.end <= right.start
  {
    base[..left.start] + left.repl + base[left.end..right.start] + right.repl + base[right.end..]
  }

  /** Both orders of applying two edits, the left one at or before the right one. */
  lemma EditsCommute<T>(base: seq<T>, left: Edit<T>, right: Edit<T>)
    requires Fits(left, base) && Fits(right, base) && left.end <= right.start
    ensures Fits(Behind(right, left), Apply(base, left))
    ensures Apply(Apply(base, left), Behind(right, left)) == Both(base, left, right)
    ensures Fits(left, Apply(base, right)) && Apply(Apply(base, right), left) == Both(base, left, right)
  {
    BehindEdit(base, left, right.start);
    BehindEdit(base, left, right.end);
    var b := Apply(base, right);
    assert b[..left.start] == base[..left.start];
    assert b[left.end..] == base[left.end..right.start] + right.repl + base[right.end..];
  }

  /** The merge is the fourth corner of a square: it is the session's edit applied to
      the current file, and the current file's edit applied to the session, whichever
      comes later in the file at its shifted place. */
  lemma MergeIsSquare<T>(base: seq<T>, cur: Edit<T>, ses: Edit<T>)
    requires Fits(cur, base) && Fits(ses, base) && MergeEdits(base, cur, ses).Merged?
    ensures var m := MergeEdits(base, cur, ses).result;
      if cur.start <= ses.start then
        && cur.end <= ses.start
        && Fits(Behind(ses, cur), Apply(base, cur)) && m == Apply(Apply(base, cur), Behind(ses, cur))
        && Fits(cur, Apply(base, ses)) && m == Apply(Apply(base, ses), cur)
      else
        && ses.end <= cur.start
        && Fits(ses, Apply(base, cur)) && m == Apply(Apply(base, cur), ses)
        && Fits(Behind(cur, ses), Apply(base, ses)) && m == Apply(Apply(base, ses), Behind(cur, ses))
  {
    if cur.start <= ses.start {
      EditsCommute(base, cur, ses);
      assert MergeEdits(base, cur, ses).result == Both(base, cur, ses);
    } else {
      EditsCommute(base, ses, cur);
      assert MergeEdits(base, cur, ses).result == Both(base, ses, cur);
    }
  }

  /** Whichever file is called the session, the merge is the same exactly when the edits
      start on different lines, or both replace lines there (they overlap either way), or
      both only insert there and their insertions commute. */
  lemma MergeIsSymmetricIff<T>(base: seq<T>, cur: Edit<T>, ses: Edit<T>)
    requires Fits(cur, base) && Fits(ses, base)
    ensures MergeEdits(base, cur, ses) == MergeEdits(base, ses, cur) <==>
      || cur.start != ses.start
      || (cur.start < cur.end && ses.start < ses.end)
      || (cur.start == cur.end && ses.start == ses.end && cur.repl + ses.repl == ses.repl + cur.repl)
  {
    if cur.start == cur.end == ses.start == ses.end {
      InsertedTwice(base, cur, ses);
      InsertedTwice(base, ses, cur);
      InsertionsCancel(base[..cur.start], cur.repl + ses.repl, ses.repl + cur.repl, base[cur.start..]);
    }
  }

  lemma InsertedTwice<T>(base: seq<T>, cur: Edit<T>, ses: Edit<T>)
    requires Fits(cur, base) && cur.start == cur.end == ses.start == ses.end
    ensures MergeEdits(base, cur, ses) == Merged(base[..cur.start] + (cur.repl + ses.repl) + base[cur.start..])
  {
    var n := cur.start;
    assert base[n..n] == [];
    assert base[..n] + cur.repl + [] + ses.repl + base[n..] == base[..n] + (cur.repl + ses.repl) + base[n..];
  }

  lemma InsertionsCancel<T>(a: seq<T>, x: seq<T>, y: seq<T>, b: seq<T>)
    requires |x| == |y|
    ensures a + x + b == a + y + b <==> x == y
  {
    assert (a + x + b)[|a|..|a| + |x|] == x && (a + y + b)[|a|..|a| + |y|] == y;
  }

  // ----- whole files -----

  function GeneralMerge(base: Text, current: Text, session: Text): Outcome<Text> {
    var b := SplitLines(base);
    match MergeEdits(b, ChangedEdit(b, SplitLines(current)), ChangedEdit(b, SplitLines(session)))
    case Merged(lines) => Merged(Concat(lines))
    case Overlapping => Overlapping
    case Panics => Panics
  }

  function ThreeWayMerge(base: Text, current: Text, session: Text): Outcome<Text> {
    if current == session || base == current then Merged(session)
    else if base == session then Merged(current)
    else GeneralMerge(base, current, session)
  }

  method TryThreeWayTextMerge(base: Text, current: Text, session: Text) returns (r: Outcome<Text>)
    ensures r == ThreeWayMerge(base, current, session)
  {
    if current == session {
      return Merged(session);
    }
    if base == current {
      return Merged(session);
    }
    if base == session {
      return Merged(current);
    }
    var merged := MergeLines(SplitLines(base), SplitLines(current), SplitLines(session));
    match merged
    case Merged(lines) => r := Merged(Concat(lines));
    case Overlapping => r := Overlapping;
    case Panics => r := Panics;
  }

  method MergeLines<T(==)>(base: seq<T>, current: seq<T>, session: seq<T>) returns (r: Outcome<seq<T>>)
    ensures r == MergeEdits(base, ChangedEdit(base, current), ChangedEdit(base, session))
  {
    var curStart, curEnd, curRepl := ChangedRange(base, current);
    var sesStart, sesEnd, sesRepl := ChangedRange(base, session);
    if !(curEnd <= sesStart || sesEnd <= curStart) {
      return Overlapping;
    }
    var merged;
    if curStart <= sesStart {
      if sesStart < curEnd {
        return Panics;
      }
      merged := base[..curStart];
      merged := merged + curRepl;
      merged := merged + base[curEnd..sesStart];
      merged := merged + sesRepl;
      merged := merged + base[sesEnd..];
    } else {
      merged := base[..sesStart];
      merged := merged + sesRepl;
      merged := merged + base[sesEnd..curStart];
      merged := merged + curRepl;
      merged := merged + base[curEnd..];
    }
    return Merged(merged);
  }

  /** A file that did not change has the empty edit at its end. */
  lemma UnchangedEdit<T>(base: seq<T>)
    ensures ChangedEdit(base, base) == Edit(|base|, |base|, [])
  {
    PrefixIsLongest(base, base, |base|);
  }

  lemma MergeWithUnchanged<T>(base: seq<T>, e: Edit<T>)
    requires Fits(e, base)
    ensures MergeEdits(base, Edit(|base|, |base|, []), e) == Merged(Apply(base, e))
    ensures MergeEdits(base, e, Edit(|base|, |base|, [])) == Merged(Apply(base, e))
  {
    var nothing: Edit<T> := Edit(|base|, |base|, []);
    assert base[..|base|] == base && base[|base|..] == [];
    assert base[e.end..|base|] == base[e.end..];
    if e.start == |base| {
      assert Both(base, nothing, e) == Apply(base, e);
      assert Both(base, e, nothing) == Apply(base, e);
    } else {
      assert Both(base, e, nothing) == Apply(base, e);
    }
  }

  /** The two early returns for an unchanged side give what the line merge would. */
  lemma EarlyReturnsAgree(base: Text, other: Text)
    ensures GeneralMerge(base, base, other) == Merged(other)
    ensures GeneralMerge(base, other, base) == Merged(other)
  {
    var b, o := SplitLines(base), SplitLines(other);
    UnchangedEdit(b);
    ChangedEditRebuilds(b, o);
    MergeWithUnchanged(b, ChangedEdit(b, o));
    ConcatSplit(other);
  }

  /** So for two different texts the early returns change nothing. */
  lemma ThreeWayIsGeneral(base: Text, current: Text, session: Text)
    requires current != session
    ensures ThreeWayMerge(base, current, session) == GeneralMerge(base, current, session)
  {
    EarlyReturnsAgree(base, current);
    EarlyReturnsAgree(base, session);
  }

  /** Merging a text with itself gives it back, and so does merging a change with the base on
      the other side: an edit made alike on both sides is made once. */
  lemma ThreeWayOfOneEdit(base: Text, text: Text)
    ensures ThreeWayMerge(base, text, text) == Merged(text)
    ensures ThreeWayMerge(base, base, text) == Merged(text)
    ensures ThreeWayMerge(base, text, base) == Merged(text)
  {
  }

  /** Two files are the same exactly when their edits are. */
  lemma SameEditIff(base: Text, current: Text, session: Text)
    ensures var b := SplitLines(base);
      current == session <==> ChangedEdit(b, SplitLines(current)) == ChangedEdit(b, SplitLines(session))
  {
    ChangedEditRebuilds(SplitLines(base), SplitLines(current));
    ChangedEditRebuilds(SplitLines(base), SplitLines(session));
    ConcatSplit(current);
    ConcatSplit(session);
  }

  /** A merge loses neither side and makes no edit twice: an edit shared by both sides is the
      only one, and two different ones are the current lines under the session's edit and the
      session's lines under the current edit, the later of the two at the place to which the
      earlier one has shifted it. */
  lemma ThreeWayKeepsBothEdits(base: Text, current: Text, session: Text)
    requires ThreeWayMerge(base, current, session).Merged?
    ensures var merged := ThreeWayMerge(base, current, session).result;
      var b, c, s := SplitLines(base), SplitLines(current), SplitLines(session);
      var ec, es := ChangedEdit(b, c), ChangedEdit(b, s);
      if ec == es then merged == Concat(Apply(b, ec))
      else if ec.start <= es.start then
        && ec.end <= es.start && Fits(Behind(es, ec), c) && Fits(ec, s)
        && merged == Concat(Apply(c, Behind(es, ec))) == Concat(Apply(s, ec))
      else
        && es.end <= ec.start && Fits(es, c) && Fits(Behind(ec, es), s)
        && merged == Concat(Apply(c, es)) == Concat(Apply(s, Behind(ec, es)))
  {
    var b, c, s := SplitLines(base), SplitLines(current), SplitLines(session);
    SameEditIff(base, current, session);
    ChangedEditRebuilds(b, c);
    if current == session {
      ThreeWayOfOneEdit(base, session);
      ConcatSplit(session);
    } else {
      ThreeWayIsGeneral(base, current, session);
      ChangedEditRebuilds(b, s);
      MergeIsSquare(b, ChangedEdit(b, c), ChangedEdit(b, s));
    }
  }

  ghost predicate Tie<T>(cur: Edit<T>, ses: Edit<T>) {
    cur.start == ses.start == ses.end < cur.end
  }

  /** How merging three texts ends is told by the two edits alone: it succeeds when they are
      the same, or one lies at or before the other and they do not tie; two different edits
      that tie panic, and any others overlap. */
  lemma ThreeWayEndsIff(base: Text, current: Text, session: Text)
    ensures var b := SplitLines(base);
      var ec, es := ChangedEdit(b, SplitLines(current)), ChangedEdit(b, SplitLines(session));
      && (ThreeWayMerge(base, current, session).Merged? <==> ec == es || ((ec.end <= es.start || es.end <= ec.start) && !Tie(ec, es)))
      && (ThreeWayMerge(base, current, session).Panics? <==> ec != es && Tie(ec, es))
  {
    var b := SplitLines(base);
    var ec, es := ChangedEdit(b, SplitLines(current)), ChangedEdit(b, SplitLines(session));
    SameEditIff(base, current, session);
    MergePanicsIff(b, ec, es);
    if current == session {
      ThreeWayOfOneEdit(base, session);
    } else {
      ThreeWayIsGeneral(base, current, session);
    }
  }

  /** Such texts exist: one side changes the first line, the other puts a line before it. */
  lemma TieExample()
    ensures ThreeWayMerge([1, NEWLINE], [2, NEWLINE], [3, NEWLINE, 1, NEWLINE]).Panics?
  {
    var a, b, c: Text := [1, NEWLINE], [2, NEWLINE], [3, NEWLINE];
    var ca: Text := [3, NEWLINE, 1, NEWLINE];
    OneLine(1);
    OneLine(2);
    assert LineEnd(ca) == 2 by {
      assert ca[1..][0] == NEWLINE;
    }
    assert ca[..2] == c && ca[2..] == a;
    assert SplitLines(ca) == [c, a];
    assert a[0] != b[0] && a[0] != c[0];
    assert PrefixFrom([a], [b], 0) == 0 && PrefixFrom([a], [c, a], 0) == 0;
    assert SuffixFrom([a], [b], 0, 0) == 0 && SuffixFrom([a], [c, a], 0, 0) == 1;
    assert ca[0] == 3 && |ca| == 4;
  }

  lemma OneLine(x: byte)
    requires x != NEWLINE
    ensures SplitLines([x, NEWLINE]) == [[x, NEWLINE]]
  {
    var t: Text := [x, NEWLINE];
    assert t[1..] == [NEWLINE];
    assert LineEnd(t) == 2;
    assert t[..2] == t && t[2..] == [];
  }
}
