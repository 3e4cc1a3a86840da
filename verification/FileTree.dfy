/** File trees as the store keeps them on disk: finite maps from component paths
    to entries, closed under taking the parent directory. */
module FileTree {

  datatype Option<+T> = None | Some(value: T)

  newtype byte = x: int | 0 <= x < 256

  // "/a/b" is ["a", "b"]; the root of a tree is []. `q <= p` says that q is p or
  // an ancestor of p, `q < p` that it is a strict ancestor.
  type Path = seq<string>

  // A symlink is a leaf: nothing is resolved through it.
  datatype Entry = Dir | File(data: seq<byte>) | Symlink(target: seq<byte>)

  type Tree = map<Path, Entry>

  const EMPTY_TREE: Tree := map[[] := Dir]

  function Parent(p: Path): Path
    requires p != []
  {
    p[..|p| - 1]
  }

  function Find(t: Tree, p: Path): Option<Entry> {
    if p in t then Some(t[p]) else None
  }

  /** A directory tree on disk: the root is a directory, and so is every strict
      ancestor of an entry. */
  ghost predicate WellFormed(t: Tree) {
    && [] in t && t[[]].Dir?
    && forall p, q :: p in t && q < p ==> q in t && t[q].Dir?
  }

  lemma WellFormedIf(t: Tree)
    requires Find(t, []) == Some(Dir)
    requires forall p, q :: p in t && q < p ==> Find(t, q) == Some(Dir)
    ensures WellFormed(t)
  {
    forall p, q | p in t && q < p
      ensures q in t && t[q].Dir?
    {
      assert Find(t, q) == Some(Dir);
    }
  }

  /** Existence is closed under ancestors (their kind is left open: a view may
      show a file above a path that still resolves). */
  ghost predicate PrefixClosed(v: Tree) {
    forall p, q :: p in v && q < p ==> q in v
  }

  /** Some path of `s` is `p` or one of its ancestors. */
  predicate Covered(s: set<Path>, p: Path) {
    exists q :: q in s && q <= p
  }

  /** `p` is a strict ancestor of some path of `s`. */
  predicate AboveSome(s: set<Path>, p: Path) {
    exists q :: q in s && p < q
  }

  /** No path of `s` lies strictly below another. */
  ghost predicate Antichain(s: set<Path>) {
    forall p, q :: p in s && q in s ==> !(p < q)
  }

  function RemoveUnder(t: Tree, top: Path): Tree {
    map q | q in t && !(top <= q) :: t[q]
  }

  lemma RemoveUnderWellFormed(t: Tree, p: Path)
    requires WellFormed(t) && p != []
    ensures WellFormed(RemoveUnder(t, p))
  {
  }

  lemma SameTree(a: Tree, b: Tree)
    requires forall q :: Find(a, q) == Find(b, q)
    ensures a == b
  {
    forall q
      ensures q in a <==> q in b
      ensures q in a ==> a[q] == b[q]
    {
      assert Find(a, q) == Find(b, q);
    }
  }

  function WithoutAll(t: Tree, tops: set<Path>): Tree {
    map q | q in t && !Covered(tops, q) :: t[q]
  }

  lemma WithoutAllPrefixClosed(t: Tree, tops: set<Path>)
    requires PrefixClosed(t)
    ensures PrefixClosed(WithoutAll(t, tops))
  {
    forall p, q | p in WithoutAll(t, tops) && q < p
      ensures q in WithoutAll(t, tops)
    {
      assert forall d :: d in tops && d <= q ==> d <= p;
    }
  }

  /** A file or symlink of a tree. */
  predicate IsFile(t: Tree, p: Path) {
    p in t && !t[p].Dir?
  }

  /** The non-directory entries of a tree, wherever they are. */
  function Leaves(t: Tree): Tree {
    map p | p in t && !t[p].Dir? :: t[p]
  }

  /** `p` exists and every strict ancestor of it is a directory. */
  ghost predicate Reachable(v: Tree, p: Path) {
    p in v && forall q | q < p :: q in v && v[q].Dir?
  }

  lemma ReachableIf(v: Tree, p: Path)
    requires Find(v, p).Some? && forall q :: q < p ==> Find(v, q) == Some(Dir)
    ensures Reachable(v, p)
  {
    forall q | q < p
      ensures q in v && v[q].Dir?
    {
      assert Find(v, q) == Some(Dir);
    }
  }

  /** What a user of the view `v` can read: its reachable files and symlinks. */
  ghost function Files(v: Tree): Tree {
    map p | p in v && !v[p].Dir? && Reachable(v, p) :: v[p]
  }

  lemma LeavesAreAntichain(t: Tree)
    requires WellFormed(t)
    ensures Antichain(Leaves(t).Keys)
  {
  }

  /** Two views have the same files when each file of one is, under directories, a
      file of the other. */
  lemma SameFiles(a: Tree, b: Tree)
    requires forall p :: p in Files(a) ==> p in Files(b) && a[p] == b[p]
    requires forall p :: p in Files(b) ==> p in Files(a) && a[p] == b[p]
    ensures Files(a) == Files(b)
  {
  }

  lemma PrefixesComparable(q: Path, r: Path, p: Path)
    requires q <= p && r <= p
    ensures q <= r || r <= q
  {
    if |q| <= |r| {
      assert forall i :: 0 <= i < |q| ==> q[i] == p[i] == r[i];
    } else {
      assert forall i :: 0 <= i < |r| ==> r[i] == p[i] == q[i];
    }
  }

  /** What a merge of `deletes` and `copies` makes of the directory `dest`: the
      deleted subtrees are gone, every copy is in place of whatever was at or below
      its path, and the ancestors of a copy are directories. */
  ghost function Published(dest: Tree, deletes: set<Path>, copies: Tree): Tree {
    map q | q in dest.Keys + copies.Keys + Ancestors(copies.Keys) &&
            (q in copies || AboveSome(copies.Keys, q) || Survives(dest, deletes, copies, q)) ::
      if q in copies then copies[q]
      else if AboveSome(copies.Keys, q) then Dir
      else dest[q]
  }

  ghost predicate Survives(dest: Tree, deletes: set<Path>, copies: Tree, q: Path) {
    q in dest && !Covered(deletes, q) && !Covered(copies.Keys, q)
  }

  function Ancestors(s: set<Path>): set<Path> {
    set x, k | x in s && 0 <= k < |x| :: x[..k]
  }

  lemma AncestorsAreAbove(s: set<Path>, q: Path)
    ensures q in Ancestors(s) <==> AboveSome(s, q)
  {
    if AboveSome(s, q) {
      var x :| x in s && q < x;
      assert q == x[..|q|];
    }
  }

  /** create_dir_all of the parent of `p` finds no file in its way. */
  predicate ParentsOk(files: Tree, p: Path)
    requires p != []
  {
    forall q :: q in files && q < p ==> files[q].Dir?
  }

  function WithParents(files: Tree, p: Path): Tree {
    files + map q | q in Ancestors({p}) && q !in files :: Dir
  }

  lemma WithParentsAt(files: Tree, p: Path, q: Path)
    ensures Find(WithParents(files, p), q) == if q in files then Some(files[q]) else if q < p then Some(Dir) else None
  {
    AncestorsAreAbove({p}, q);
    assert AboveSome({p}, q) <==> q < p;
  }

  lemma PublishedAt(dest: Tree, deletes: set<Path>, copies: Tree, q: Path)
    ensures Find(Published(dest, deletes, copies), q) ==
      if q in copies then Some(copies[q])
      else if AboveSome(copies.Keys, q) then Some(Dir)
      else if Survives(dest, deletes, copies, q) then Some(dest[q])
      else None
  {
    AncestorsAreAbove(copies.Keys, q);
  }

  /** The merge does not have to create a directory where `dest` keeps a file. */
  ghost predicate RoomForCopies(dest: Tree, deletes: set<Path>, copies: Tree) {
    forall q :: q in dest && !Covered(deletes, q) && AboveSome(copies.Keys, q) ==> dest[q].Dir?
  }

  lemma PublishedWellFormed(dest: Tree, deletes: set<Path>, copies: Tree)
    requires WellFormed(dest) && [] !in deletes && [] !in copies
    requires Antichain(copies.Keys) && RoomForCopies(dest, deletes, copies)
    ensures WellFormed(Published(dest, deletes, copies))
  {
    PublishedRoot(dest, deletes, copies);
    forall p, q | p in Published(dest, deletes, copies) && q < p
      ensures Find(Published(dest, deletes, copies), q) == Some(Dir)
    {
      PublishedParent(dest, deletes, copies, p, q);
    }
    WellFormedIf(Published(dest, deletes, copies));
  }

  lemma PublishedRoot(dest: Tree, deletes: set<Path>, copies: Tree)
    requires Find(dest, []) == Some(Dir) && [] !in deletes && [] !in copies
    ensures Find(Published(dest, deletes, copies), []) == Some(Dir)
  {
    PublishedAt(dest, deletes, copies, []);
    assert !Covered(deletes, []) && !Covered(copies.Keys, []);
  }

  lemma PublishedParent(dest: Tree, deletes: set<Path>, copies: Tree, p: Path, q: Path)
    requires WellFormed(dest)
    requires Antichain(copies.Keys) && RoomForCopies(dest, deletes, copies)
    requires p in Published(dest, deletes, copies) && q < p
    ensures Find(Published(dest, deletes, copies), q) == Some(Dir)
  {
    assert Find(Published(dest, deletes, copies), p).Some?;
    PublishedAt(dest, deletes, copies, p);
    PublishedAt(dest, deletes, copies, q);
    if p in copies {
      assert AboveSome(copies.Keys, q);
      assert q !in copies;
    } else if AboveSome(copies.Keys, p) {
      var x :| x in copies.Keys && p < x;
      assert q < x;
      assert q !in copies;
    } else {
      SurvivesAbove(dest, deletes, copies, p, q);
    }
  }

  lemma SurvivesAbove(dest: Tree, deletes: set<Path>, copies: Tree, p: Path, q: Path)
    requires WellFormed(dest) && Survives(dest, deletes, copies, p) && q < p
    ensures Survives(dest, deletes, copies, q) && dest[q].Dir?
  {
    assert forall d :: d in deletes + copies.Keys && d <= q ==> d <= p;
  }
}
