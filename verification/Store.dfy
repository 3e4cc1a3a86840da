/** A base tree under a forest of branches: what each branch shows, how a path is
    looked up and how a directory is listed. */
module Store {
  import opened FileTree
  import opened Layers
  import opened Edits
  import opened EditRuns

  const MAIN := "main"

  type Branches = map<string, Layer>

  datatype Store = Store(base: Tree, branches: Branches, used: int, epoch: nat)

  // ----- the forest -----

  /** `name` is `n` parent links below main. */
  ghost predicate DepthIs(bs: Branches, name: string, n: nat)
    decreases n
  {
    name in bs &&
    match bs[name].parent
    case None => name == MAIN && n == 0
    case Some(up) => name != MAIN && n > 0 && DepthIs(bs, up, n - 1)
  }

  /** Every branch reaches main by parent links. */
  ghost predicate Forest(bs: Branches) {
    MAIN in bs && forall name :: name in bs ==> exists n :: DepthIs(bs, name, n)
  }

  lemma {:induction false} DepthIsUnique(bs: Branches, name: string, m: nat, n: nat)
    requires DepthIs(bs, name, m) && DepthIs(bs, name, n)
    ensures m == n
    decreases n
  {
    if bs[name].parent.Some? {
      DepthIsUnique(bs, bs[name].parent.value, m - 1, n - 1);
    }
  }

  ghost function Depth(bs: Branches, name: string): (n: nat)
    requires Forest(bs) && name in bs
    ensures DepthIs(bs, name, n)
  {
    var n :| DepthIs(bs, name, n);
    n
  }

  lemma ParentIsHigher(bs: Branches, name: string)
    requires Forest(bs) && name in bs && bs[name].parent.Some?
    ensures bs[name].parent.value in bs && Depth(bs, bs[name].parent.value) + 1 == Depth(bs, name)
  {
    var n, up := Depth(bs, name), bs[name].parent.value;
    assert DepthIs(bs, name, n);
    assert DepthIs(bs, up, n - 1);
    DepthIsUnique(bs, up, Depth(bs, up), n - 1);
  }

  // ----- the reference meaning -----

  ghost function InheritedView(s: Store, name: string): Tree
    requires Forest(s.branches) && name in s.branches
    decreases Depth(s.branches, name), 0
  {
    var b := s.branches[name];
    match b.parent
    case None => s.base
    case Some(up) =>
      ParentIsHigher(s.branches, name);
      if b.mode.Lazy? then View(s, up) else b.inherited
  }

  /** What a branch shows. */
  ghost function View(s: Store, name: string): Tree
    requires Forest(s.branches) && name in s.branches
    decreases Depth(s.branches, name), 1
  {
    Overlaid(s.branches[name], InheritedView(s, name))
  }

  // ----- lookup and listing, as they recurse up the parent chain -----

  function Resolve(s: Store, name: string, p: Path): Result<Option<Entry>>
    requires Forest(s.branches)
    decreases if name in s.branches then Depth(s.branches, name) else 0, 1
  {
    if name !in s.branches then Failure(NotFound) else
      var b := s.branches[name];
      if p in b.files then Success(Some(b.files[p]))
      else if Covered(b.tombs, p) then Success(None)
      else if Covered(b.hides, p) then Success(None)
      else InheritedResolve(s, name, p)
  }

  function InheritedResolve(s: Store, name: string, p: Path): Result<Option<Entry>>
    requires Forest(s.branches) && name in s.branches
    decreases Depth(s.branches, name), 0
  {
    var b := s.branches[name];
    match b.parent
    case None => Success(Find(s.base, p))
    case Some(up) =>
      ParentIsHigher(s.branches, name);
      if b.mode.Lazy? then Resolve(s, up, p) else Success(Find(b.inherited, p))
  }

  /** The names read from a directory; none when it cannot be opened. */
  function ReadDirNames(t: Tree, d: Path): set<string> {
    if d in t && t[d].Dir? then set q | q in t && q != [] && Parent(q) == d :: q[|q| - 1] else {}
  }

  function CollectDirNames(s: Store, name: string, d: Path): Result<set<string>>
    requires Forest(s.branches)
    decreases if name in s.branches then Depth(s.branches, name) else 0, 1
  {
    if name !in s.branches then Failure(NotFound) else
      var b := s.branches[name];
      match InheritedDirNames(s, name, d)
      case Failure(e) => Failure(e)
      case Success(names) =>
        Success(ReadDirNames(b.files, d) + set n | n in names && !Covered(b.hides, d + [n]) && !Covered(b.tombs, d + [n]))
  }

  function InheritedDirNames(s: Store, name: string, d: Path): Result<set<string>>
    requires Forest(s.branches) && name in s.branches
    decreases Depth(s.branches, name), 0
  {
    var b := s.branches[name];
    match b.parent
    case None => Success(ReadDirNames(s.base, d))
    case Some(up) =>
      ParentIsHigher(s.branches, name);
      if b.mode.Lazy? then CollectDirNames(s, up, d) else Success(ReadDirNames(b.inherited, d))
  }

  // ----- they agree -----

  /** Lookup of a live branch never misses a parent and finds what the view has. */
  lemma {:induction false} ResolveIsView(s: Store, name: string, p: Path)
    requires Forest(s.branches) && name in s.branches
    ensures Resolve(s, name, p) == Success(Find(View(s, name), p))
    ensures InheritedResolve(s, name, p) == Success(Find(InheritedView(s, name), p))
    decreases Depth(s.branches, name)
  {
    var b := s.branches[name];
    if b.parent.Some? {
      ParentIsHigher(s.branches, name);
      if b.mode.Lazy? {
        ResolveIsView(s, b.parent.value, p);
      }
    }
    OverlaidAt(b, InheritedView(s, name), p);
  }

  ghost predicate StoreOk(s: Store) {
    && Forest(s.branches) && WellFormed(s.base)
    && forall name :: name in s.branches ==> LayerOk(s.branches[name])
  }

  lemma NamesAreChildren(t: Tree, d: Path, n: string)
    requires WellFormed(t)
    ensures n in ReadDirNames(t, d) <==> d + [n] in t
  {
    hide WellFormed;
    var q := d + [n];
    assert Parent(q) == d && q[|q| - 1] == n;
    if q in t {
      ParentIsDir(t, q);
    }
    if n in ReadDirNames(t, d) {
      var r :| r in t && r != [] && Parent(r) == d && r[|r| - 1] == n;
      assert r == q;
    }
  }

  lemma ParentIsDir(t: Tree, q: Path)
    requires WellFormed(t) && q in t && q != []
    ensures Find(t, Parent(q)) == Some(Dir)
  {
    assert Parent(q) < q;
  }

  /** Listing agrees with lookup, at every depth and in both inheritance modes: a name
      is listed exactly when the child resolves. */
  lemma {:induction false} ListingAgreesWithLookup(s: Store, name: string, d: Path, n: string)
    requires StoreOk(s) && name in s.branches
    ensures CollectDirNames(s, name, d).Success? && InheritedDirNames(s, name, d).Success?
    ensures Resolve(s, name, d + [n]).Success? && InheritedResolve(s, name, d + [n]).Success?
    ensures n in CollectDirNames(s, name, d).value <==> Resolve(s, name, d + [n]).value.Some?
    ensures n in InheritedDirNames(s, name, d).value <==> InheritedResolve(s, name, d + [n]).value.Some?
    decreases Depth(s.branches, name)
  {
    var b := s.branches[name];
    NamesAreChildren(s.base, d, n);
    NamesAreChildren(b.inherited, d, n);
    NamesAreChildren(b.files, d, n);
    ResolveIsView(s, name, d + [n]);
    if b.parent.Some? {
      ParentIsHigher(s.branches, name);
      if b.mode.Lazy? {
        ListingAgreesWithLookup(s, b.parent.value, d, n);
      }
    }
  }

  /** Existence in a view is closed under ancestors. */
  lemma {:induction false} ViewPrefixClosed(s: Store, name: string)
    requires StoreOk(s) && name in s.branches
    ensures PrefixClosed(View(s, name)) && PrefixClosed(InheritedView(s, name))
    ensures Find(View(s, name), []) == Some(Dir)
    decreases Depth(s.branches, name)
  {
    var b := s.branches[name];
    if b.parent.Some? {
      ParentIsHigher(s.branches, name);
      if b.mode.Lazy? {
        ViewPrefixClosed(s, b.parent.value);
      }
    }
    OverlaidPrefixClosed(b, InheritedView(s, name));
  }

  /** Listing is reading the directory of the view. */
  lemma ListingIsChildren(s: Store, name: string, d: Path)
    requires StoreOk(s) && name in s.branches
    ensures CollectDirNames(s, name, d) == Success(Children(View(s, name), d))
  {
    ListingAgreesWithLookup(s, name, d, "");
    var names := CollectDirNames(s, name, d).value;
    forall n
      ensures n in names <==> n in Children(View(s, name), d)
    {
      ListingAgreesWithLookup(s, name, d, n);
      ResolveIsView(s, name, d + [n]);
      ChildrenAt(View(s, name), d, n);
    }
    assert names == Children(View(s, name), d);
  }

  lemma ChildrenAt(v: Tree, d: Path, n: string)
    ensures n in Children(v, d) <==> d + [n] in v
  {
    assert Parent(d + [n]) == d;
    if q :| q in v && q != [] && Parent(q) == d && q[|q| - 1] == n {
      assert q == d + [n];
    }
  }

  // ----- what a view depends on -----

  /** The layers a branch's view is made of: the branch and, along Lazy links, what is
      above it. */
  ghost function Footprint(bs: Branches, name: string): (layers: set<string>)
    requires Forest(bs) && name in bs
    ensures name in layers && layers <= bs.Keys
    decreases Depth(bs, name)
  {
    match bs[name].parent
    case None => {name}
    case Some(up) =>
      ParentIsHigher(bs, name);
      if bs[name].mode.Lazy? then {name} + Footprint(bs, up) else {name}
  }

  /** The layers differ at most in touch records, counters and write permission. */
  ghost predicate ShowAlike(b: Layer, b': Layer) {
    b'.(touches := b.touches, commitCount := b.commitCount, forkVersion := b.forkVersion, frozen := b.frozen) == b
  }

  /** Two stores in which the layers of a footprint show alike, and the base tree is the
      same if main is among them, show the branch alike. */
  lemma {:induction false} ViewDependsOnFootprint(s: Store, s': Store, name: string)
    requires Forest(s.branches) && Forest(s'.branches) && name in s.branches
    requires forall n :: n in Footprint(s.branches, name) ==> n in s'.branches && ShowAlike(s.branches[n], s'.branches[n])
    requires MAIN in Footprint(s.branches, name) ==> s'.base == s.base
    ensures View(s', name) == View(s, name) && InheritedView(s', name) == InheritedView(s, name)
    ensures Footprint(s'.branches, name) == Footprint(s.branches, name)
    decreases Depth(s.branches, name)
  {
    assert name in Footprint(s.branches, name);
    var b := s.branches[name];
    if b.parent.Some? {
      ParentIsHigher(s.branches, name);
      ParentIsHigher(s'.branches, name);
      if b.mode.Lazy? {
        ViewDependsOnFootprint(s, s', b.parent.value);
      }
    } else {
      assert DepthIs(s.branches, name, Depth(s.branches, name));
    }
  }

  // ----- directory entries -----

  /** The sorted candidates as directory entries: each name with the kind of what it
      resolves to. */
  ghost function Described(v: Tree, d: Path, names: seq<string>): seq<(Kind, string)> {
    seq(|names|, i requires 0 <= i < |names| => (IdentityOf(Find(v, d + [names[i]])).kind, names[i]))
  }

  function Candidates(s: Store, name: string, d: Path): set<string>
    requires Forest(s.branches)
  {
    match CollectDirNames(s, name, d) case Success(names) => names case Failure(_) => {}
  }

  function ResolveForBranch(s: Store, name: string, p: Path): Option<Entry>
    requires Forest(s.branches)
  {
    match Resolve(s, name, p) case Success(e) => e case Failure(_) => None
  }

  lemma DescribedMore(v: Tree, d: Path, names: seq<string>, i: nat)
    requires i < |names|
    ensures Described(v, d, names[..i + 1]) ==
            Described(v, d, names[..i]) + [(IdentityOf(Find(v, d + [names[i]])).kind, names[i])]
  {
    assert names[..i + 1] == names[..i] + [names[i]];
  }

  lemma DescribedNone(v: Tree, d: Path)
    ensures Described(v, d, []) == []
  {
  }

  /** A candidate resolves. */
  lemma CandidateResolves(s: Store, name: string, d: Path, n: string)
    requires StoreOk(s) && n in Candidates(s, name, d)
    ensures name in s.branches && d + [n] in View(s, name)
    ensures ResolveForBranch(s, name, d + [n]) == Find(View(s, name), d + [n])
  {
    assert name in s.branches;
    ListingIsChildren(s, name, d);
    ChildrenAt(View(s, name), d, n);
    ResolveIsView(s, name, d + [n]);
  }

  /** What a listing says of an entry. */
  ghost predicate ShownAs(kind: Kind, e: Option<Entry>) {
    match kind
    case Missing => false
    case Directory => e == Some(Dir)
    case Regular => e.Some? && e.value.File?
    case Link => e.Some? && e.value.Symlink?
  }

  ghost predicate ListsKinds(v: Tree, d: Path, names: seq<string>, entries: seq<(Kind, string)>) {
    |entries| == |names| && forall i :: 0 <= i < |names| ==>
      entries[i].1 == names[i] && ShownAs(entries[i].0, Find(v, d + [names[i]]))
  }

  lemma DescribedAs(v: Tree, d: Path, names: seq<string>)
    requires forall n :: n in names ==> d + [n] in v
    ensures ListsKinds(v, d, names, Described(v, d, names))
    ensures (DOTS + Described(v, d, names))[2..] == Described(v, d, names)
    ensures (DOTS + Described(v, d, names))[..2] == [(Directory, "."), (Directory, "..")]
  {
  }

  const DOTS: seq<(Kind, string)> := [(Directory, "."), (Directory, "..")]

  /** The order of strings: by their first different character, a prefix first. */
  predicate Before(a: string, b: string) {
    b != "" && (a == "" || a[0] < b[0] || (a[0] == b[0] && Before(a[1..], b[1..])))
  }

  lemma {:induction false} BeforeIsTotal(a: string, b: string)
    ensures a == b || Before(a, b) || Before(b, a)
    ensures !(Before(a, b) && Before(b, a))
    ensures Before(a, b) ==> a != b
  {
    if a != "" && b != "" {
      BeforeIsTotal(a[1..], b[1..]);
      assert a == [a[0]] + a[1..] && b == [b[0]] + b[1..];
    }
  }

  lemma {:induction false} BeforeIsTransitive(a: string, b: string, c: string)
    requires Before(a, b) && Before(b, c)
    ensures Before(a, c)
  {
    if a != "" && a[0] == b[0] == c[0] {
      BeforeIsTransitive(a[1..], b[1..], c[1..]);
    }
  }

  ghost predicate Ascending(names: seq<string>) {
    forall i, j :: 0 <= i < j < |names| ==> Before(names[i], names[j])
  }

  /** There is only one ascending list of a set of names, so paged listings agree. */
  lemma {:induction false} AscendingIsUnique(a: seq<string>, b: seq<string>)
    requires Ascending(a) && Ascending(b) && forall n :: n in a <==> n in b
    ensures a == b
  {
    if a == [] {
      if b != [] {
        HasNames(a, b);
      }
    } else {
      SameFirst(a, b);
      assert a == [a[0]] + a[1..] && b == [b[0]] + b[1..];
      forall n
        ensures n in a[1..] <==> n in b[1..]
      {
        RestOf(a, n);
        RestOf(b, n);
      }
      AscendingIsUnique(a[1..], b[1..]);
    }
  }

  lemma HasNames(a: seq<string>, b: seq<string>)
    requires b != [] && forall n :: n in a <==> n in b
    ensures a != []
  {
    assert b[0] in a;
  }

  lemma RestOf(a: seq<string>, n: string)
    requires Ascending(a) && a != []
    ensures n in a[1..] <==> n in a && n != a[0]
    ensures Ascending(a[1..])
  {
    BeforeIsTotal(a[0], a[0]);
    if n in a[1..] {
      var i :| 0 <= i < |a| - 1 && a[1..][i] == n;
      assert a[i + 1] == n && Before(a[0], a[i + 1]);
    }
  }

  lemma SameFirst(a: seq<string>, b: seq<string>)
    requires Ascending(a) && Ascending(b) && a != [] && forall n :: n in a <==> n in b
    ensures b != [] && a[0] == b[0]
  {
    assert a[0] in b && b[0] in a;
    var i :| 0 <= i < |b| && b[i] == a[0];
    var j :| 0 <= j < |a| && a[j] == b[0];
    BeforeIsTotal(a[0], b[0]);
  }

  method Smallest(names: set<string>) returns (least: string)
    requires names != {}
    ensures least in names && forall n :: n in names ==> n == least || Before(least, n)
  {
    least :| least in names;
    var rest := names - {least};
    while rest != {}
      invariant rest <= names && least in names
      invariant forall n :: n in names - rest ==> n == least || Before(least, n)
      decreases rest
    {
      var n :| n in rest;
      BeforeIsTotal(least, n);
      if Before(n, least) {
        forall m | m in names - rest && m != least
          ensures Before(n, m)
        {
          BeforeIsTransitive(n, least, m);
        }
        least := n;
      }
      rest := rest - {n};
    }
  }

  /** The names of a set in order. */
  method SortNames(names: set<string>) returns (sorted: seq<string>)
    ensures Ascending(sorted) && forall n :: n in sorted <==> n in names
  {
    sorted := [];
    var rest := names;
    while rest != {}
      invariant rest <= names && Ascending(sorted)
      invariant forall n :: n in sorted <==> n in names - rest
      invariant forall m, n :: m in sorted && n in rest ==> Before(m, n)
      decreases rest
    {
      var n := Smallest(rest);
      sorted := sorted + [n];
      rest := rest - {n};
    }
  }

  /** readdir: "." and "..", then the children of the directory in order, each with the kind
      of what it resolves to: looking the candidates up again drops none. */
  method CollectReaddirEntries(s: Store, name: string, d: Path) returns (entries: seq<(Kind, string)>, ghost sorted: seq<string>)
    requires StoreOk(s)
    ensures name !in s.branches ==> entries == DOTS
    ensures name in s.branches ==>
      Ascending(sorted) && (forall n :: n in sorted <==> n in Children(View(s, name), d)) &&
      entries == DOTS + Described(View(s, name), d, sorted)
    ensures entries[..2] == [(Directory, "."), (Directory, "..")]
    ensures name in s.branches ==> ListsKinds(View(s, name), d, sorted, entries[2..])
  {
    hide Forest, Described, WellFormed, Before;
    entries, sorted := DOTS, [];
    if name !in s.branches {
      return;
    }
    ghost var v := View(s, name);
    ListingIsChildren(s, name, d);
    var names := SortNames(Candidates(s, name, d));
    sorted := names;
    DescribedNone(v, d);
    assert names[..0] == [];
    var i := 0;
    while i < |names|
      invariant 0 <= i <= |names|
      invariant entries == DOTS + Described(v, d, names[..i])
    {
      CandidateResolves(s, name, d, names[i]);
      DescribedMore(v, d, names, i);
      var resolved := ResolveForBranch(s, name, d + [names[i]]);
      if resolved.Some? {
        entries := entries + [(IdentityOf(resolved).kind, names[i])];
      }
      i := i + 1;
    }
    assert names[..i] == names;
    forall n | n in names
      ensures d + [n] in v
    {
      CandidateResolves(s, name, d, n);
    }
    DescribedAs(v, d, names);
  }
}
