/** Paths as the text the store keeps: how component paths are written, and that the
    string tests of the store are the prefix tests of the model. */
module PathText {
  import opened FileTree

  /** A file name: not empty, no slash and no newline. */
  predicate ValidName(n: string) {
    n != "" && '/' !in n && '\n' !in n
  }

  predicate ValidPath(p: Path) {
    forall i :: 0 <= i < |p| ==> ValidName(p[i])
  }

  /** "/a/b" for ["a", "b"], and nothing for the root. */
  function Text(p: Path): string {
    if p == [] then "" else "/" + p[0] + Text(p[1..])
  }

  function Render(p: Path): string {
    if p == [] then "/" else Text(p)
  }

  // ----- same or descendant -----

  function TrimFront(s: string): string {
    if s != "" && s[0] == '/' then TrimFront(s[1..]) else s
  }

  function TrimBack(s: string): string {
    if s != "" && s[|s| - 1] == '/' then TrimBack(s[..|s| - 1]) else s
  }

  function TrimSlashes(s: string): string {
    TrimBack(TrimFront(s))
  }

  predicate SameOrDescendant(candidate: string, parent: string) {
    var c, p := TrimSlashes(candidate), TrimSlashes(parent);
    c == p || p + "/" <= c
  }

  lemma {:induction false} TextEndsInName(p: Path)
    requires ValidPath(p) && p != []
    ensures |Text(p)| >= 2 && Text(p)[0] == '/' && Text(p)[1] != '/' && Text(p)[|Text(p)| - 1] != '/'
    ensures Text(p)[|Text(p)| - 1] == p[|p| - 1][|p[|p| - 1]| - 1]
  {
    assert ValidName(p[0]);
    assert p[0][0] in p[0] && p[0][|p[0]| - 1] in p[0];
    if |p| == 1 {
      assert Text(p[1..]) == "";
    } else {
      assert forall i :: 0 <= i < |p[1..]| ==> p[1..][i] == p[i + 1];
      TextEndsInName(p[1..]);
    }
  }

  lemma TrimmedRender(p: Path)
    requires ValidPath(p)
    ensures p != [] ==> TrimSlashes(Render(p)) == Text(p)[1..]
    ensures p == [] ==> TrimSlashes(Render(p)) == ""
  {
    if p != [] {
      TextEndsInName(p);
      var t := Text(p);
      assert t[1..][0] == t[1] && t[1..][|t| - 2] == t[|t| - 1];
      assert TrimFront(t) == t[1..];
    } else {
      assert TrimFront("/") == "";
    }
  }

  /** Two slash-free names before a slash: one text is a prefix of the other only if the
      names are the same. */
  lemma NamesMeet(n: string, x: string, m: string, y: string)
    requires '/' !in n && '/' !in m && x != "" && x[0] == '/' && y != "" && y[0] == '/'
    ensures n + x <= m + y <==> n == m && x <= y
  {
    if n + x <= m + y {
      FirstSlashAfter(n, x);
      FirstSlashAfter(m, y);
      assert (n + x)[|n|] == '/';
      FirstSlashOfPrefix(n + x, m + y);
      assert n == (n + x)[..|n|] == (m + y)[..|n|] == m;
      assert x == (n + x)[|n|..] && y == (m + y)[|n|..];
    }
  }

  function FirstSlash(s: string): nat {
    if s == "" || s[0] == '/' then 0 else 1 + FirstSlash(s[1..])
  }

  lemma {:induction false} FirstSlashAfter(n: string, x: string)
    requires '/' !in n && x != "" && x[0] == '/'
    ensures FirstSlash(n + x) == |n|
  {
    if n != "" {
      assert (n + x)[1..] == n[1..] + x && (n + x)[0] == n[0];
      FirstSlashAfter(n[1..], x);
    } else {
      assert n + x == x;
    }
  }

  lemma {:induction false} FirstSlashOfPrefix(a: string, b: string)
    requires a <= b && '/' in a
    ensures FirstSlash(a) == FirstSlash(b)
  {
    if a[0] != '/' {
      FirstSlashOfPrefix(a[1..], b[1..]);
    }
  }

  lemma {:induction false} TextIsPrefix(p: Path, c: Path)
    requires ValidPath(p) && ValidPath(c)
    ensures Text(p) + "/" <= Text(c) + "/" <==> p <= c
  {
    if p == [] {
      if c != [] {
        TextEndsInName(c);
      }
    } else if c == [] {
      TextEndsInName(p);
    } else {
      var x, y := Text(p[1..]) + "/", Text(c[1..]) + "/";
      assert ValidName(p[0]) && ValidName(c[0]);
      TextSplit(p);
      TextSplit(c);
      SamePrefix('/', p[0] + x, c[0] + y);
      StartsWithSlash(p[1..]);
      StartsWithSlash(c[1..]);
      NamesMeet(p[0], x, c[0], y);
      TextIsPrefix(p[1..], c[1..]);
      FirstAndRest(p, c);
    }
  }

  lemma TextSplit(p: Path)
    requires p != []
    ensures Text(p) + "/" == ['/'] + (p[0] + (Text(p[1..]) + "/"))
  {
  }

  lemma FirstAndRest(p: Path, c: Path)
    requires p != [] && c != []
    ensures p <= c <==> p[0] == c[0] && p[1..] <= c[1..]
  {
    SamePrefix(p[0], p[1..], c[1..]);
    assert p == [p[0]] + p[1..] && c == [c[0]] + c[1..];
  }

  lemma SamePrefix<T>(a: T, x: seq<T>, y: seq<T>)
    ensures [a] + x <= [a] + y <==> x <= y
  {
    if [a] + x <= [a] + y {
      assert forall i :: 0 <= i < |x| ==> x[i] == ([a] + x)[i + 1] == ([a] + y)[i + 1] == y[i];
    }
  }

  lemma StartsWithSlash(p: Path)
    requires ValidPath(p)
    ensures (Text(p) + "/")[0] == '/'
  {
    if p != [] {
      TextEndsInName(p);
    }
  }

  /** The string test is the prefix test of the model, except that nothing but the root
      counts as being in the root. */
  lemma DescendantIsPrefix(c: Path, p: Path)
    requires ValidPath(c) && ValidPath(p)
    ensures SameOrDescendant(Render(c), Render(p)) <==> if p == [] then c == [] else p <= c
  {
    TrimmedRender(c);
    TrimmedRender(p);
    TextIsPrefix(p, c);
    if p == [] {
      if c != [] {
        TextEndsInName(c);
      }
    } else {
      TextEndsInName(p);
      if c != [] {
        TextEndsInName(c);
        var t, u := Text(p), Text(c);
        assert t + "/" == ['/'] + (t[1..] + "/") && u + "/" == ['/'] + (u[1..] + "/");
        SamePrefix('/', t[1..] + "/", u[1..] + "/");
        EqualOrBelow(u[1..], t[1..]);
      }
    }
  }

  lemma EqualOrBelow(u: string, t: string)
    ensures t + "/" <= u + "/" <==> u == t || t + "/" <= u
  {
    if t + "/" <= u + "/" {
      if |u| == |t| {
        assert u == (u + "/")[..|u|] == (t + "/")[..|u|] == t;
      } else {
        assert t + "/" == (u + "/")[..|t| + 1] == u[..|t| + 1];
      }
    }
  }

  /** Different paths have different texts. */
  lemma RenderInjective(p: Path, q: Path)
    requires ValidPath(p) && ValidPath(q) && Render(p) == Render(q)
    ensures p == q
  {
    if p == [] || q == [] {
      if p != [] {
        TextEndsInName(p);
      }
      if q != [] {
        TextEndsInName(q);
      }
    } else {
      TextIsPrefix(p, q);
      TextIsPrefix(q, p);
    }
  }

  // ----- deleted -----

  function SplitSlash(s: string): seq<string>
    decreases |s|
  {
    if '/' !in s then [s]
    else if s[0] == '/' then [""] + SplitSlash(s[1..])
    else
      var rest := SplitSlash(s[1..]);
      if rest == [] then [s] else [[s[0]] + rest[0]] + rest[1..]
  }

  /** The growing prefixes of a split path, up to the first empty part. */
  predicate AnyPrefixIn(tombs: set<string>, prefix: string, parts: seq<string>)
    decreases |parts|
  {
    parts != [] && parts[0] != "" &&
    (prefix + "/" + parts[0] in tombs || AnyPrefixIn(tombs, prefix + "/" + parts[0], parts[1..]))
  }

  predicate IsDeletedText(tombs: set<string>, path: string) {
    path in tombs || AnyPrefixIn(tombs, "", SplitSlash(TrimFront(path)))
  }

  function RenderAll(ps: set<Path>): set<string> {
    set p | p in ps :: Render(p)
  }

  lemma RenderedIn(ps: set<Path>, p: Path)
    requires ValidPath(p) && forall q :: q in ps ==> ValidPath(q)
    ensures Render(p) in RenderAll(ps) <==> p in ps
  {
    if Render(p) in RenderAll(ps) {
      var q :| q in ps && Render(q) == Render(p);
      RenderInjective(p, q);
    }
  }

  lemma {:induction false} SplitName(n: string, rest: string)
    requires '/' !in n
    ensures SplitSlash(n + "/" + rest) == [n] + SplitSlash(rest)
    decreases |n|
  {
    var s := n + "/" + rest;
    assert s[|n|] == '/';
    if n == "" {
      assert s[1..] == rest;
    } else {
      assert s[0] == n[0] && n[0] in n;
      assert s[1..] == n[1..] + "/" + rest;
      SplitName(n[1..], rest);
      assert [n[0]] + n[1..] == n;
    }
  }

  lemma SlashFirst(p: Path)
    requires ValidPath(p) && p != []
    ensures Text(p) == "/" + Text(p)[1..]
  {
    TextEndsInName(p);
  }

  lemma {:induction false} SplitText(p: Path)
    requires ValidPath(p) && p != []
    ensures SplitSlash(Text(p)[1..]) == p
  {
    hide ValidName, SplitSlash;
    var rest := Text(p[1..]);
    assert ValidName(p[0]);
    NameHasNoSlash(p[0]);
    assert Text(p)[1..] == p[0] + rest;
    if |p| == 1 {
      assert p == [p[0]] && Text(p)[1..] == p[0];
    } else {
      SlashFirst(p[1..]);
      assert p[0] + rest == p[0] + "/" + rest[1..];
      SplitName(p[0], rest[1..]);
      SplitText(p[1..]);
      assert p == [p[0]] + p[1..];
    }
  }

  lemma NameHasNoSlash(n: string)
    requires ValidName(n)
    ensures '/' !in n && SplitSlash(n) == [n]
  {
  }

  lemma TextAppend(p: Path, n: string)
    ensures Text(p + [n]) == Text(p) + "/" + n
  {
    if p == [] {
      assert (p + [n])[1..] == [];
    } else {
      assert (p + [n])[1..] == p[1..] + [n];
      TextAppend(p[1..], n);
    }
  }

  lemma {:induction false} PrefixesAreAncestors(tombs: set<Path>, p: Path, k: nat)
    requires ValidPath(p) && k <= |p| && forall t :: t in tombs ==> ValidPath(t)
    ensures AnyPrefixIn(RenderAll(tombs), Text(p[..k]), p[k..]) <==> exists j :: k < j <= |p| && p[..j] in tombs
    decreases |p| - k
  {
    if k < |p| {
      assert ValidName(p[k]);
      assert p[..k] + [p[k]] == p[..k + 1];
      assert p[k..][1..] == p[k + 1..];
      TextAppend(p[..k], p[k]);
      RenderedIn(tombs, p[..k + 1]);
      assert Render(p[..k + 1]) == Text(p[..k + 1]);
      PrefixesAreAncestors(tombs, p, k + 1);
    }
  }

  /** A path counts as deleted exactly when it or an ancestor has a tombstone. */
  lemma DeletedIsCovered(tombs: set<Path>, p: Path)
    requires ValidPath(p) && [] !in tombs && forall t :: t in tombs ==> ValidPath(t)
    ensures IsDeletedText(RenderAll(tombs), Render(p)) <==> Covered(tombs, p)
  {
    RenderedIn(tombs, p);
    if p == [] {
      assert TrimFront("/") == "";
    } else {
      TextEndsInName(p);
      assert TrimFront(Text(p)) == Text(p)[1..] by {
        assert Text(p)[1..][0] == Text(p)[1];
      }
      SplitText(p);
      PrefixesAreAncestors(tombs, p, 0);
      assert p[..0] == [] && p[0..] == p && p[..|p|] == p;
      assert Covered(tombs, p) <==> exists j :: 0 < j <= |p| && p[..j] in tombs by {
        if q :| q in tombs && q <= p {
          assert p[..|q|] == q;
        }
      }
    }
  }

  // ----- hidden -----

  /** White space as the standard library's trim understands it. */
  predicate IsSpace(c: char) {
    var n := c as int;
    9 <= n <= 13 || n == 32 || n == 0x85 || n == 0xA0 || n == 0x1680 || 0x2000 <= n <= 0x200A ||
    n == 0x2028 || n == 0x2029 || n == 0x202F || n == 0x205F || n == 0x3000
  }

  function TrimSpaceFront(s: string): string {
    if s != "" && IsSpace(s[0]) then TrimSpaceFront(s[1..]) else s
  }

  function TrimSpaceBack(s: string): string {
    if s != "" && IsSpace(s[|s| - 1]) then TrimSpaceBack(s[..|s| - 1]) else s
  }

  function TrimSpace(s: string): string {
    TrimSpaceBack(TrimSpaceFront(s))
  }

  function NormalizeHidePath(path: string): Option<string> {
    var trimmed := TrimBack(TrimFront(TrimSpace(path)));
    if trimmed == "" then None else Some("/" + trimmed)
  }

  predicate IsHiddenText(hides: set<string>, path: string) {
    match NormalizeHidePath(path)
    case None => false
    case Some(norm) => exists h :: h in hides && (norm == h || h + "/" <= norm)
  }

  /** The path under which the hide list is asked: without the white space at the end of
      the last name, and the parent when nothing is left of that name. */
  function Tidied(p: Path): Path
    requires p != []
  {
    var name := TrimSpaceBack(p[|p| - 1]);
    if name == "" then Parent(p) else Parent(p) + [name]
  }

  lemma {:induction false} SpaceBackOfName(a: string, n: string)
    ensures TrimSpaceBack(a + "/" + n) == a + "/" + TrimSpaceBack(n)
    decreases |n|
  {
    var s := a + "/" + n;
    if n == "" {
      assert s[|s| - 1] == '/' && s == a + "/";
    } else {
      assert s[|s| - 1] == n[|n| - 1];
      assert s[..|s| - 1] == a + "/" + n[..|n| - 1];
      if IsSpace(n[|n| - 1]) {
        SpaceBackOfName(a, n[..|n| - 1]);
      }
    }
  }

  lemma {:induction false} SpaceBackIsPrefix(n: string)
    ensures TrimSpaceBack(n) <= n
  {
    if n != "" && IsSpace(n[|n| - 1]) {
      SpaceBackIsPrefix(n[..|n| - 1]);
    }
  }

  lemma TidiedValid(p: Path)
    requires ValidPath(p) && p != []
    ensures ValidPath(Tidied(p))
  {
    var n := p[|p| - 1];
    SpaceBackIsPrefix(n);
    assert ValidName(n);
    assert TrimSpaceBack(n) != "" ==> ValidName(TrimSpaceBack(n));
  }

  lemma TrimmedWithSlash(p: Path)
    requires ValidPath(p)
    ensures TrimBack(TrimFront(Text(p) + "/")) == if p == [] then "" else Text(p)[1..]
  {
    var s := Text(p) + "/";
    if p == [] {
      assert s == "/" && TrimFront("/") == "";
    } else {
      TextEndsInName(p);
      var t := Text(p)[1..];
      assert s[1..] == t + "/" && s[1..][0] == Text(p)[1];
      assert TrimFront(s) == t + "/";
      assert (t + "/")[..|t|] == t && t[|t| - 1] == Text(p)[|Text(p)| - 1];
      assert TrimBack(t + "/") == TrimBack(t) == t;
    }
  }

  lemma SpaceTrimmedText(q: Path, n: string)
    requires ValidPath(q + [n])
    ensures TrimSpace(Text(q + [n])) == Text(q) + "/" + TrimSpaceBack(n)
  {
    hide TrimSpaceBack, ValidPath;
    var p := q + [n];
    TextEndsInName(p);
    assert TrimSpaceFront(Text(p)) == Text(p);
    TextAppend(q, n);
    SpaceBackOfName(Text(q), n);
  }

  lemma SlashesTrimmed(p: Path)
    requires ValidPath(p) && p != []
    ensures TrimBack(TrimFront(Text(p))) == Text(p)[1..] && Text(p)[1..] != "" && "/" + Text(p)[1..] == Text(p)
  {
    hide TrimBack, TrimFront;
    TrimmedRender(p);
    TextEndsInName(p);
    SlashFirst(p);
  }

  lemma NormalizedRender(p: Path)
    requires ValidPath(p) && p != []
    ensures NormalizeHidePath(Render(p)) == if Tidied(p) == [] then None else Some(Text(Tidied(p)))
  {
    hide TrimBack, TrimFront, TrimSpace, TrimSpaceBack, ValidPath, Text;
    var q, n := Parent(p), p[|p| - 1];
    assert p == q + [n];
    SpaceTrimmedText(q, n);
    TidiedValid(p);
    if TrimSpaceBack(n) == "" {
      assert ValidPath(q);
      TrimmedWithSlash(q);
      assert Text(q) + "/" + "" == Text(q) + "/";
      if q != [] {
        SlashesTrimmed(q);
      }
    } else {
      TextAppend(q, TrimSpaceBack(n));
      SlashesTrimmed(Tidied(p));
    }
  }

  /** The string test on a path is the prefix test on the tidied path. */
  lemma HiddenIsTidiedCovered(hides: set<Path>, p: Path)
    requires ValidPath(p) && p != [] && [] !in hides && forall h :: h in hides ==> ValidPath(h)
    ensures IsHiddenText(RenderAll(hides), Render(p)) <==> Covered(hides, Tidied(p))
  {
    var q := Tidied(p);
    NormalizedRender(p);
    TidiedValid(p);
    forall h | h in hides
      ensures q != [] ==> (Text(q) == Text(h) || Text(h) + "/" <= Text(q) <==> h <= q)
    {
      TextIsPrefix(h, q);
      EqualOrBelow(Text(q), Text(h));
    }
    if q != [] && IsHiddenText(RenderAll(hides), Render(p)) {
      var t :| t in RenderAll(hides) && (Text(q) == t || t + "/" <= Text(q));
      var h :| h in hides && Render(h) == t;
      assert h <= q;
    }
    if h :| h in hides && h <= q {
      assert Render(h) in RenderAll(hides);
    }
  }

  /** The root is never hidden. */
  lemma RootIsShown(hides: set<Path>)
    requires [] !in hides
    ensures !IsHiddenText(RenderAll(hides), Render([])) && !Covered(hides, [])
  {
    assert TrimSpaceFront("/") == "/" && TrimSpaceBack("/") == "/" && TrimFront("/") == "";
  }

  /** So the string test says whether the path or an ancestor is on the hide list exactly
      when the path is the root, an ancestor is on the list, or the path and the tidied path
      are on it alike. */
  lemma HiddenIsCoveredIff(hides: set<Path>, p: Path)
    requires ValidPath(p) && [] !in hides && forall h :: h in hides ==> ValidPath(h)
    ensures (IsHiddenText(RenderAll(hides), Render(p)) <==> Covered(hides, p)) <==>
      p == [] || Covered(hides, Parent(p)) || (p in hides <==> Tidied(p) in hides)
  {
    if p == [] {
      RootIsShown(hides);
      return;
    }
    HiddenIsTidiedCovered(hides, p);
    CoveredSplit(hides, p);
    if Tidied(p) != Parent(p) {
      CoveredSplit(hides, Tidied(p));
      assert Parent(Tidied(p)) == Parent(p);
    } else if Parent(p) != [] {
      CoveredSplit(hides, Parent(p));
    }
  }

  lemma CoveredSplit(s: set<Path>, p: Path)
    requires p != []
    ensures Covered(s, p) <==> p in s || Covered(s, Parent(p))
    ensures p in s ==> Covered(s, p)
  {
    if q :| q in s && q <= p {
      assert q == p || q <= Parent(p);
    }
    if q :| q in s && q <= Parent(p) {
      assert q <= p;
    }
  }

  /** With white space at its end a path is looked up under another name: beside a
      hidden "/s", "/s " is hidden too, and what lies in it is not. */
  lemma SpaceAtEndIsHidden()
    ensures IsHiddenText({"/s"}, Render(["s "])) && !Covered({["s"]}, ["s "])
    ensures !IsHiddenText({"/s"}, Render(["s ", "x"]))
  {
    assert Text(["s "]) == "/s ";
    assert TrimSpaceFront("/s ") == "/s ";
    assert "/s "[..2] == "/s";
    assert TrimSpaceBack("/s ") == "/s";
    assert TrimFront("/s") == "s" && TrimBack("s") == "s";
    assert ["s "][0] != "s";
    var q: Path := ["s ", "x"];
    assert q[1..] == ["x"] && Text(["x"]) == "/x";
    assert Render(q) == "/s /x";
    assert TrimSpaceFront("/s /x") == "/s /x" && TrimSpaceBack("/s /x") == "/s /x";
    assert TrimFront("/s /x") == "s /x" && TrimBack("s /x") == "s /x";
    assert "/" + "s /x" == "/s /x";
    assert TrimSpace("/s /x") == "/s /x";
    assert TrimBack(TrimFront("/s /x")) == "s /x";
    assert NormalizeHidePath("/s /x") == Some("/s /x");
    assert !("/s/" <= "/s /x") by {
      assert "/s /x"[2] == ' ' && "/s/"[2] == '/';
    }
    assert "/s" + "/" == "/s/";
  }
}
