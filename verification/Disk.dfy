/** The file-system calls that a merge makes, on the tree under one root, with the
    errors they can return for the tree they meet. */
module Disk {
  import opened FileTree

  /** A strict ancestor of `p` exists and is not a directory (ENOTDIR). */
  predicate Blocked(t: Tree, p: Path) {
    exists q :: q in t && q < p && !t[q].Dir?
  }

  /** Move the subtree at `a` to the free path `b`. */
  function Moved(t: Tree, a: Path, b: Path): Tree {
    map q | q in t.Keys + Images(t, a, b) && (if b <= q then a + q[|b|..] in t else !(a <= q)) ::
      if b <= q then t[a + q[|b|..]] else t[q]
  }

  function Images(t: Tree, a: Path, b: Path): set<Path> {
    set r | r in t && a <= r :: b + r[|a|..]
  }

  lemma MovedAt(t: Tree, a: Path, b: Path, q: Path)
    ensures Find(Moved(t, a, b), q) ==
      if b <= q then Find(t, a + q[|b|..]) else if a <= q then None else Find(t, q)
  {
    if b <= q && a + q[|b|..] in t {
      var r := a + q[|b|..];
      assert b + r[|a|..] == q;
    }
  }

  /** rename(2): the parent of the target must be a directory; a directory may only
      replace an empty directory, anything else only a non-directory. */
  predicate CanRename(t: Tree, a: Path, b: Path)
    requires b != []
  {
    && a in t && !(a <= b)
    && Find(t, Parent(b)) == Some(Dir)
    && (b in t ==> t[a].Dir? == t[b].Dir?)
    && (b in t && t[b].Dir? ==> forall q :: q in t ==> !(b < q))
  }

  /** remove_entry: a missing path is no error, one below a non-directory is. */
  predicate CanRemove(t: Tree, p: Path) {
    p in t || !Blocked(t, p)
  }

  lemma MovedWellFormed(t: Tree, a: Path, b: Path)
    requires WellFormed(t) && a != [] && b != [] && a in t && !(a <= b) && !(b <= a)
    requires Find(t, Parent(b)) == Some(Dir) && !(a <= Parent(b))
    requires forall q :: q in t ==> !(b <= q)
    ensures WellFormed(Moved(t, a, b))
  {
    var u := Moved(t, a, b);
    MovedAt(t, a, b, []);
    assert Find(u, []) == Find(t, []);
    forall p, q | p in u && q < p
      ensures Find(u, q) == Some(Dir)
    {
      assert Find(u, p).Some?;
      MovedParent(t, a, b, p, q);
    }
    WellFormedIf(u);
  }

  lemma MovedParent(t: Tree, a: Path, b: Path, p: Path, q: Path)
    requires WellFormed(t) && b != [] && a in t
    requires Find(t, Parent(b)) == Some(Dir) && !(a <= Parent(b))
    requires forall r :: r in t ==> !(b <= r)
    requires Find(Moved(t, a, b), p).Some? && q < p
    ensures Find(Moved(t, a, b), q) == Some(Dir)
  {
    hide Moved;
    MovedAt(t, a, b, p);
    MovedAt(t, a, b, q);
    if b <= q {
      assert a + q[|b|..] < a + p[|b|..];
    } else if b <= p {
      PrefixesComparable(b, q, p);
      assert q <= Parent(b);
      assert q == Parent(b) || q < Parent(b);
    } else {
      assert q in t && t[q].Dir?;
      assert a <= q ==> a <= p;
    }
  }

  lemma WithParentsWellFormed(t: Tree, p: Path)
    requires WellFormed(t) && p != [] && ParentsOk(t, p)
    ensures WellFormed(WithParents(t, p))
  {
    var u := WithParents(t, p);
    WithParentsAt(t, p, []);
    forall r, q | r in u && q < r
      ensures Find(u, q) == Some(Dir)
    {
      assert Find(u, r).Some?;
      WithParentsAt(t, p, r);
      WithParentsAt(t, p, q);
    }
    WellFormedIf(u);
  }

  /** A rename that succeeds leaves a tree on disk. */
  lemma RenamedWellFormed(t: Tree, a: Path, b: Path)
    requires WellFormed(t) && a != [] && b != [] && CanRename(t, a, b) && !(b <= a)
    ensures WellFormed(Moved(RemoveUnder(t, b), a, b))
  {
    RemoveUnderWellFormed(t, b);
    assert Parent(b) < b;
    MovedWellFormed(RemoveUnder(t, b), a, b);
  }

  lemma RemoveMissing(t: Tree, p: Path)
    requires WellFormed(t) && p !in t
    ensures RemoveUnder(t, p) == t
  {
    forall q | q in t
      ensures !(p <= q)
    {
      assert p <= q ==> p == q || p < q;
    }
  }

  lemma WithoutAllWellFormed(t: Tree, tops: set<Path>)
    requires WellFormed(t) && [] !in tops
    ensures WellFormed(WithoutAll(t, tops))
  {
    assert !Covered(tops, []);
    forall p, q | p in WithoutAll(t, tops) && q < p
      ensures Find(WithoutAll(t, tops), q) == Some(Dir)
    {
      assert forall d :: d in tops && d <= q ==> d <= p;
    }
    WellFormedIf(WithoutAll(t, tops));
  }
}
