/** Why a merge keeps what the child showed, told of bare views: `copies` are the
    published files, `dirs` the child's directories that hold none of them, `kept`
    what the destination showed outside the child's deletions. */
module MergeView {
  import opened FileTree

  /** `q` is neither a committed path nor above or below one. */
  ghost predicate Unrelated(copies: Tree, q: Path) {
    !Covered(copies.Keys, q) && !AboveSome(copies.Keys, q)
  }

  /** Both views show the copies, and directories above them. */
  ghost predicate ShowsCopies(copies: Tree, v: Tree) {
    && (forall q :: q in copies ==> Find(v, q) == Some(copies[q]))
    && (forall q :: AboveSome(copies.Keys, q) ==> Find(v, q) == Some(Dir))
  }

  ghost predicate LooksLike(copies: Tree, dirs: set<Path>, kept: Tree, v: Tree) {
    && ShowsCopies(copies, v)
    && (forall q :: Unrelated(copies, q) ==> Find(v, q) == if q in dirs then Some(Dir) else Find(kept, q))
  }

  /** The child's file-less directories, closed upwards until a directory that does
      hold a committed file. */
  ghost predicate DirsClosed(copies: Tree, dirs: set<Path>) {
    forall p, q :: p in dirs && q < p ==> q in dirs || AboveSome(copies.Keys, q)
  }

  ghost predicate Plain(copies: Tree) {
    Antichain(copies.Keys) && forall x :: x in copies ==> !copies[x].Dir?
  }

  /** `d` hides a file that the destination would show once the commit drops `d`. */
  ghost predicate Masks(kept: Tree, d: Path) {
    d in kept && !kept[d].Dir?
  }

  lemma NotBelowCopy(copies: Tree, v: Tree, x: Path)
    requires Plain(copies) && ShowsCopies(copies, v) && Reachable(v, x)
    ensures forall y :: y in copies ==> !(y < x)
  {
    forall y | y in copies
      ensures !(y < x)
    {
      assert Find(v, y) == Some(copies[y]);
    }
  }

  lemma CopiesAreFiles(copies: Tree, v: Tree, x: Path)
    requires Plain(copies) && ShowsCopies(copies, v) && x in copies
    ensures x in Files(v) && v[x] == copies[x]
  {
    assert Find(v, x) == Some(copies[x]);
    forall q | q < x
      ensures q in v && v[q].Dir?
    {
      assert AboveSome(copies.Keys, q);
      assert Find(v, q) == Some(Dir);
    }
  }

  lemma FileIsCopyOrUnrelated(copies: Tree, v: Tree, x: Path)
    requires Plain(copies) && ShowsCopies(copies, v) && x in Files(v)
    ensures x in copies || Unrelated(copies, x)
  {
    NotBelowCopy(copies, v, x);
    assert forall y :: y in copies && y <= x ==> y < x || y == x;
    assert AboveSome(copies.Keys, x) ==> Find(v, x) == Some(Dir);
  }

  /** An ancestor of a shown file is a directory above a copy, or unrelated. */
  lemma AboveIsDirOrUnrelated(copies: Tree, v: Tree, x: Path, q: Path)
    requires Plain(copies) && ShowsCopies(copies, v) && x in Files(v) && q < x
    ensures AboveSome(copies.Keys, q) || Unrelated(copies, q)
  {
    NotBelowCopy(copies, v, x);
    assert forall y :: y in copies && y <= q ==> y < x;
  }

  /** A file of `v` that is no directory's fault is a file of `w`, if no directory of the
      child stands over a file. */
  lemma ShownIsKept(copies: Tree, dirs: set<Path>, kept: Tree, hides: set<Path>, v: Tree, w: Tree, x: Path)
    requires Plain(copies) && PrefixClosed(kept)
    requires LooksLike(copies, dirs, WithoutAll(kept, hides), v) && LooksLike(copies, {}, kept, w)
    requires forall d :: d in dirs ==> !Masks(kept, d)
    requires x in Files(v)
    ensures x in Files(w) && v[x] == w[x]
  {
    FileIsCopyOrUnrelated(copies, v, x);
    assert Find(v, x) == Some(v[x]);
    if x in copies {
      assert Find(w, x) == Some(copies[x]);
    } else {
      assert x !in dirs;
      assert Find(w, x) == Find(kept, x) == Some(v[x]);
    }
    forall q | q < x
      ensures q in w && w[q].Dir?
    {
      AboveIsDirOrUnrelated(copies, v, x, q);
      assert Find(v, q) == Some(Dir);
      if AboveSome(copies.Keys, q) {
        assert Find(w, q) == Some(Dir);
      } else {
        assert x in kept && q in kept;
        assert Find(w, q) == Find(kept, q);
      }
    }
  }

  /** The parent would show a file that the child hides. */
  ghost predicate Concealed(copies: Tree, kept: Tree, hides: set<Path>, x: Path) {
    && Masks(kept, x) && Covered(hides, x) && Unrelated(copies, x)
    && forall q :: q < x ==> AboveSome(copies.Keys, q) || Find(kept, q) == Some(Dir)
  }

  /** A file of `w` is concealed or a file of `v`. */
  lemma KeptIsShown(copies: Tree, dirs: set<Path>, kept: Tree, hides: set<Path>, v: Tree, w: Tree, x: Path)
    requires Plain(copies) && PrefixClosed(kept)
    requires LooksLike(copies, dirs, WithoutAll(kept, hides), v) && LooksLike(copies, {}, kept, w)
    requires forall d :: d in dirs ==> !Masks(kept, d)
    requires x in Files(w)
    ensures !Concealed(copies, kept, hides, x) ==> x in Files(v) && v[x] == w[x]
    ensures Concealed(copies, kept, hides, x) ==> x !in Files(v)
  {
    FileIsCopyOrUnrelated(copies, w, x);
    assert Find(w, x) == Some(w[x]);
    if x in copies {
      assert Find(v, x) == Some(copies[x]);
      assert x <= x && Covered(copies.Keys, x);
    } else {
      assert Find(w, x) == Find(kept, x);
      assert Masks(kept, x) && x !in dirs;
      assert Find(v, x) == if Covered(hides, x) then None else Find(kept, x);
    }
    forall q | q < x
      ensures AboveSome(copies.Keys, q) || Find(kept, q) == Some(Dir)
      ensures x in copies || !Covered(hides, x) ==> q in v && v[q].Dir?
    {
      AboveIsDirOrUnrelated(copies, w, x, q);
      assert Find(w, q) == Some(Dir);
      if AboveSome(copies.Keys, q) {
        assert Find(v, q) == Some(Dir);
      } else {
        assert Find(w, q) == Find(kept, q);
        assert x !in copies;
        assert Covered(hides, q) ==> Covered(hides, x) by {
          assert forall h :: h in hides && h <= q ==> h <= x;
        }
        assert Find(v, q) == if q in dirs then Some(Dir) else if Covered(hides, q) then None else Find(kept, q);
      }
    }
  }

  lemma ConcealedIsShown(copies: Tree, kept: Tree, hides: set<Path>, w: Tree, x: Path)
    requires LooksLike(copies, {}, kept, w) && PrefixClosed(kept) && Concealed(copies, kept, hides, x) && Plain(copies)
    ensures x in Files(w)
  {
    assert Find(w, x) == Find(kept, x);
    forall q | q < x
      ensures Find(w, q) == Some(Dir)
    {
      if !AboveSome(copies.Keys, q) {
        assert !Covered(copies.Keys, q) by {
          assert forall y :: y in copies && y <= q ==> y <= x;
        }
        assert Find(w, q) == Find(kept, q);
      }
    }
    ReachableIf(w, x);
  }

  /** The shortest masking directory: everything above it is shown as a directory
      with or without `dirs`. */
  lemma {:induction false} MaskedFileAppears(copies: Tree, dirs: set<Path>, kept: Tree, shown: Tree, v: Tree, w: Tree, d: Path)
    returns (e: Path)
    requires Plain(copies) && PrefixClosed(kept) && DirsClosed(copies, dirs)
    requires forall q :: q in dirs ==> Unrelated(copies, q)
    requires LooksLike(copies, dirs, shown, v) && LooksLike(copies, {}, kept, w)
    requires d in dirs && Masks(kept, d)
    ensures e in Files(w) && e !in Files(v)
    decreases |d|
  {
    if a :| a in dirs && a < d && Masks(kept, a) {
      e := MaskedFileAppears(copies, dirs, kept, shown, v, w, a);
    } else {
      e := d;
      assert Find(v, d) == Some(Dir);
      assert Find(w, d) == Find(kept, d);
      forall q | q < d
        ensures q in w && w[q].Dir?
      {
        assert q in kept;
        if AboveSome(copies.Keys, q) {
          assert Find(w, q) == Some(Dir);
        } else {
          assert q in dirs;
          assert Find(w, q) == Find(kept, q);
        }
      }
    }
  }

  /** Showing the destination with the copies (`w`) shows the child's files (`v`),
      unless dropping a file-less directory or a hide rule of the child uncovers a file. */
  lemma MergeShowsSameFiles(copies: Tree, dirs: set<Path>, kept: Tree, hides: set<Path>, v: Tree, w: Tree)
    requires Plain(copies) && PrefixClosed(kept) && DirsClosed(copies, dirs)
    requires forall q :: q in dirs ==> Unrelated(copies, q)
    requires LooksLike(copies, dirs, WithoutAll(kept, hides), v) && LooksLike(copies, {}, kept, w)
    ensures Files(v) == Files(w) <==>
      (forall d :: d in dirs ==> !Masks(kept, d)) && (forall x :: !Concealed(copies, kept, hides, x))
  {
    hide LooksLike, Concealed, Plain, PrefixClosed, DirsClosed, Unrelated, WithoutAll, Reachable;
    if d :| d in dirs && Masks(kept, d) {
      var e := MaskedFileAppears(copies, dirs, kept, WithoutAll(kept, hides), v, w, d);
    } else if x :| Concealed(copies, kept, hides, x) {
      ConcealedIsShown(copies, kept, hides, w, x);
      KeptIsShown(copies, dirs, kept, hides, v, w, x);
    } else {
      forall x | x in Files(v)
        ensures x in Files(w) && v[x] == w[x]
      {
        ShownIsKept(copies, dirs, kept, hides, v, w, x);
      }
      forall x | x in Files(w)
        ensures x in Files(v) && v[x] == w[x]
      {
        KeptIsShown(copies, dirs, kept, hides, v, w, x);
      }
      SameFiles(v, w);
    }
  }

  /** Showing directories on top of a view shows the same files exactly when none of them
      stands over a file. */
  lemma DirsShowSameFiles(dirs: set<Path>, v: Tree, w: Tree)
    requires PrefixClosed(w) && forall p, q :: p in dirs && q < p ==> q in dirs
    requires forall q :: Find(v, q) == if q in dirs then Some(Dir) else Find(w, q)
    ensures Files(v) == Files(w) <==> forall d :: d in dirs ==> !Masks(w, d)
  {
    hide Files, Reachable;
    assert WithoutAll(w, {}) == w;
    MergeShowsSameFiles(map[], dirs, w, {}, v, w);
  }
}
