/** Dropping a staged merge before it is published: the copies' side files go and
    what was set aside is renamed back, in the order in which it was set aside. */
module Rollback {
  import opened FileTree
  import opened Disk
  import opened Staging

  ghost function DropTmps(disk: Tree, copies: seq<EntryPath>): Tree {
    WithoutAll(disk, Tmps(copies))
  }

  ghost function Tmps(copies: seq<EntryPath>): set<Path> {
    set x | x in copies :: Tmp(x)
  }

  /** A failing rename is ignored. */
  ghost function RestoreOne(disk: Tree, a: EntryPath): Tree {
    if CanRename(disk, Trash(a), a) then Moved(RemoveUnder(disk, a), Trash(a), a) else disk
  }

  ghost function RestoreAll(disk: Tree, deletes: seq<EntryPath>): Tree {
    if deletes == [] then disk
    else RestoreOne(RestoreAll(disk, deletes[..|deletes| - 1]), deletes[|deletes| - 1])
  }

  ghost function RollBack(m: Merge): Tree {
    RestoreAll(DropTmps(m.disk, m.copies), m.deletes)
  }

  // ----- where trash lies -----

  lemma TrashApart(a: EntryPath, b: EntryPath, q: Path)
    requires Named(a) && Named(b) && Trash(a) <= q && Trash(b) <= q
    ensures a == b
  {
    PrefixesComparable(Trash(a), Trash(b), q);
    if Trash(a) <= Trash(b) {
      SidesMeet(TRASH, a, TRASH, b);
    } else {
      SidesMeet(TRASH, b, TRASH, a);
    }
  }

  /** A user's path above something in a trash is above what the trash belongs to. */
  lemma AboveTrash(a: Path, b: EntryPath, q: Path)
    requires Clean(a) && Named(b) && a <= q && Trash(b) <= q
    ensures a < b
  {
    PrefixesComparable(a, Trash(b), q);
    SideShape(TRASH, b);
    AboveSide(a, TRASH, b);
  }

  lemma SplitAt(q: Path, a: Path)
    requires a <= q
    ensures a + q[|a|..] == q
  {
  }

  // ----- renaming back -----

  /** Nothing is set aside at or below something already set aside. */
  ghost predicate InnerFirst(deletes: seq<EntryPath>) {
    && (forall a :: a in deletes ==> Named(a))
    && forall i, j :: 0 <= i < j < |deletes| ==> !(deletes[i] <= deletes[j])
  }

  /** The entries whose rename back would succeed if it were the only one. */
  ghost function Back(disk: Tree, deletes: seq<EntryPath>): set<EntryPath> {
    set a | a in deletes && CanRename(disk, Trash(a), a)
  }

  /** `out` is `disk` with each entry of `back` moved from its trash to its place. */
  ghost predicate RestoredTo(disk: Tree, back: set<EntryPath>, out: Tree) {
    forall q :: RestoredAt(disk, back, out, q)
  }

  ghost predicate RestoredAt(disk: Tree, back: set<EntryPath>, out: Tree, q: Path) {
    && (forall a :: a in back && a <= q ==> Find(out, q) == Find(disk, Trash(a) + q[|a|..]))
    && ((forall a :: a in back ==> !(a <= q)) ==>
        Find(out, q) == if MovedAway(back, q) then None else Find(disk, q))
  }

  ghost predicate MovedAway(back: set<EntryPath>, q: Path) {
    exists a :: a in back && Trash(a) <= q
  }

  /** Two entries that can both be renamed back are not nested: the inner one's trash
      keeps the place of the outer one from being empty. */
  lemma BackApart(disk: Tree, a: EntryPath, b: EntryPath)
    requires WellFormed(disk) && Named(a) && Named(b)
    requires CanRename(disk, Trash(a), a) && CanRename(disk, Trash(b), b)
    ensures !(a < b)
  {
    if a < b {
      TrashBelow(disk, a, b);
      assert false;
    }
  }

  lemma TrashBelow(disk: Tree, a: EntryPath, b: EntryPath)
    requires WellFormed(disk) && Named(b) && Trash(b) in disk && a < b
    ensures a < Trash(b) && Find(disk, a) == Some(Dir) && exists q :: q in disk && a < q
  {
    SideShape(TRASH, b);
    assert a <= Parent(b) && Parent(b) < Trash(b);
  }

  /** The trash of an entry whose turn has not come is where it was. */
  lemma TrashStays(disk: Tree, back: set<EntryPath>, out: Tree, a: EntryPath, q: Path)
    requires RestoredTo(disk, back, out) && Named(a) && Trash(a) <= q
    requires forall b :: b in back ==> Named(b) && !(b <= a)
    ensures Find(out, q) == Find(disk, q) && forall b :: b in back ==> !(b <= q)
  {
    assert RestoredAt(disk, back, out, q);
    forall b | b in back
      ensures !(b <= q) && !(Trash(b) <= q)
    {
      if b <= q {
        AboveTrash(b, a, q);
      }
      if Trash(b) <= q {
        TrashApart(a, b, q);
      }
    }
  }

  /** The user's paths that are not in a restored entry stay. */
  lemma UserPathStays(disk: Tree, back: set<EntryPath>, out: Tree, q: Path)
    requires RestoredTo(disk, back, out) && Clean(q)
    requires forall b :: b in back ==> Named(b) && !(b <= q)
    ensures Find(out, q) == Find(disk, q)
  {
    assert RestoredAt(disk, back, out, q);
    forall b | b in back
      ensures !(Trash(b) <= q)
    {
      SideShape(TRASH, b);
    }
  }

  /** Restoring other entries neither empties nor fills the place of `a`. */
  lemma PlaceAsEmpty(disk: Tree, back: set<EntryPath>, out: Tree, a: EntryPath)
    requires WellFormed(disk) && RestoredTo(disk, back, out) && Named(a)
    requires forall b :: b in back ==> Named(b) && !(b <= a) && CanRename(disk, Trash(b), b)
    ensures (exists q :: q in disk && a < q) <==> (exists q :: q in out && a < q)
  {
    if q :| q in disk && a < q {
      assert RestoredAt(disk, back, out, q);
      if b :| b in back && (b <= q || Trash(b) <= q) {
        RestoredBelow(disk, back, out, a, b, q);
      } else {
        assert !MovedAway(back, q);
        assert Find(out, q).Some?;
      }
    }
    if q :| q in out && a < q {
      assert RestoredAt(disk, back, out, q);
      assert Find(out, q).Some?;
      if b :| b in back && b <= q {
        PrefixesComparable(a, b, q);
        assert a < b;
        TrashBelow(disk, a, b);
      }
    }
  }

  /** An entry restored below `a` is below `a`. */
  lemma RestoredBelow(disk: Tree, back: set<EntryPath>, out: Tree, a: EntryPath, b: EntryPath, q: Path)
    requires RestoredTo(disk, back, out) && Named(a) && a < q && (b <= q || Trash(b) <= q)
    requires b in back && Named(b) && !(b <= a) && Trash(b) in disk
    ensures a < b && b in out
  {
    if b <= q {
      PrefixesComparable(a, b, q);
    } else {
      AboveTrash(a, b, q);
    }
    assert RestoredAt(disk, back, out, b);
    assert Trash(b) + b[|b|..] == Trash(b);
    assert Find(out, b).Some?;
  }

  /** So at its turn an entry can be renamed back exactly when it could at the start. */
  lemma TurnIff(disk: Tree, back: set<EntryPath>, out: Tree, a: EntryPath)
    requires WellFormed(disk) && RestoredTo(disk, back, out) && Named(a)
    requires forall b :: b in back ==> Named(b) && !(b <= a) && CanRename(disk, Trash(b), b)
    ensures CanRename(out, Trash(a), a) <==> CanRename(disk, Trash(a), a)
  {
    TrashStays(disk, back, out, a, Trash(a));
    assert forall b :: b in back && b <= Parent(a) ==> b <= a;
    UserPathStays(disk, back, out, Parent(a));
    UserPathStays(disk, back, out, a);
    PlaceAsEmpty(disk, back, out, a);
    assert Find(out, Trash(a)) == Find(disk, Trash(a)) && Find(out, a) == Find(disk, a);
  }

  lemma RestoreMore(disk: Tree, back: set<EntryPath>, out: Tree, a: EntryPath, q: Path)
    requires WellFormed(disk) && RestoredTo(disk, back, out) && Named(a) && CanRename(disk, Trash(a), a)
    requires forall b :: b in back ==> Named(b) && !(b <= a) && CanRename(disk, Trash(b), b)
    ensures RestoredAt(disk, back + {a}, Moved(RemoveUnder(out, a), Trash(a), a), q)
  {
    hide WellFormed, CanRename, Moved, RemoveUnder, RestoredTo, RestoredAt;
    MovedBackAt(out, a, q);
    UnfoldRestored(disk, back, out, q);
    var out' := Moved(RemoveUnder(out, a), Trash(a), a);
    if a <= q {
      TrashNotBelow(a, q[|a|..]);
      TrashStays(disk, back, out, a, Trash(a) + q[|a|..]);
      NoneInside(disk, back, a, q);
      RestoredInside(disk, back, out', a, q);
    } else {
      if Trash(a) <= q {
        TrashStays(disk, back, out, a, q);
      }
      RestoredOutside(disk, back, out, out', a, q);
    }
  }

  lemma RestoredInside(disk: Tree, back: set<EntryPath>, out': Tree, a: EntryPath, q: Path)
    requires a <= q && (forall b :: b in back ==> !(b <= q)) && Find(out', q) == Find(disk, Trash(a) + q[|a|..])
    ensures RestoredAt(disk, back + {a}, out', q)
  {
    assert a in back + {a};
  }

  lemma RestoredOutside(disk: Tree, back: set<EntryPath>, out: Tree, out': Tree, a: EntryPath, q: Path)
    requires RestoredAt(disk, back, out, q) && !(a <= q)
    requires Find(out', q) == if Trash(a) <= q then None else Find(out, q)
    requires Trash(a) <= q ==> forall b :: b in back ==> !(b <= q)
    ensures RestoredAt(disk, back + {a}, out', q)
  {
    assert MovedAway(back + {a}, q) <==> MovedAway(back, q) || Trash(a) <= q by {
      assert a in back + {a};
    }
  }

  lemma MovedBackAt(out: Tree, a: EntryPath, q: Path)
    requires Named(a)
    ensures Find(Moved(RemoveUnder(out, a), Trash(a), a), q) ==
      if a <= q then Find(out, Trash(a) + q[|a|..]) else if Trash(a) <= q then None else Find(out, q)
  {
    hide Moved;
    MovedAt(RemoveUnder(out, a), Trash(a), a, q);
    if a <= q {
      TrashNotBelow(a, q[|a|..]);
    }
  }

  lemma UnfoldRestored(disk: Tree, back: set<EntryPath>, out: Tree, q: Path)
    requires RestoredTo(disk, back, out)
    ensures RestoredAt(disk, back, out, q)
  {
  }

  /** No other entry that can be renamed back lies above something in `a`. */
  lemma NoneInside(disk: Tree, back: set<EntryPath>, a: EntryPath, q: Path)
    requires WellFormed(disk) && Named(a) && CanRename(disk, Trash(a), a) && a <= q
    requires forall b :: b in back ==> Named(b) && !(b <= a) && CanRename(disk, Trash(b), b)
    ensures forall b :: b in back ==> !(b <= q)
  {
    forall b | b in back
      ensures !(b <= q)
    {
      BackApart(disk, a, b);
      if b <= q {
        PrefixesComparable(a, b, q);
      }
    }
  }

  lemma TrashNotBelow(a: EntryPath, s: Path)
    requires Named(a)
    ensures Trash(a) <= Trash(a) + s && !(a <= Trash(a) + s)
  {
    SideShape(TRASH, a);
    if a <= Trash(a) + s {
      AboveTrash(a, a, Trash(a) + s);
    }
  }

  lemma RestoreTurn(disk: Tree, back: set<EntryPath>, out: Tree, a: EntryPath)
    requires WellFormed(disk) && RestoredTo(disk, back, out) && Named(a)
    requires forall b :: b in back ==> Named(b) && !(b <= a) && CanRename(disk, Trash(b), b)
    ensures RestoredTo(disk, if CanRename(disk, Trash(a), a) then back + {a} else back, RestoreOne(out, a))
  {
    hide CanRename, WellFormed, RestoredAt, Moved, RemoveUnder;
    TurnIff(disk, back, out, a);
    if CanRename(disk, Trash(a), a) {
      forall q
        ensures RestoredAt(disk, back + {a}, RestoreOne(out, a), q)
      {
        RestoreMore(disk, back, out, a, q);
      }
    }
  }

  lemma BackMore(disk: Tree, deletes: seq<EntryPath>)
    requires InnerFirst(deletes) && deletes != []
    ensures var n := |deletes| - 1; var a := deletes[n]; var back := Back(disk, deletes[..n]);
      && InnerFirst(deletes[..n]) && Named(a)
      && Back(disk, deletes) == (if CanRename(disk, Trash(a), a) then back + {a} else back)
      && forall b :: b in back ==> Named(b) && !(b <= a) && CanRename(disk, Trash(b), b)
  {
    hide CanRename;
    var n := |deletes| - 1;
    assert deletes == deletes[..n] + [deletes[n]];
    forall b | b in deletes[..n]
      ensures b in deletes && !(b <= deletes[n])
    {
      var i :| 0 <= i < n && deletes[i] == b;
    }
  }

  /** Renaming back in order, ignoring errors, restores exactly the entries that could be
      renamed back on their own. */
  lemma {:induction false} RestoreAllRestores(disk: Tree, deletes: seq<EntryPath>)
    requires WellFormed(disk) && InnerFirst(deletes)
    ensures RestoredTo(disk, Back(disk, deletes), RestoreAll(disk, deletes))
  {
    hide WellFormed, InnerFirst, Back, RestoredTo, RestoreOne, CanRename;
    if deletes == [] {
      NothingBack(disk);
    } else {
      var n := |deletes| - 1;
      BackMore(disk, deletes);
      RestoreAllRestores(disk, deletes[..n]);
      RestoreTurn(disk, Back(disk, deletes[..n]), RestoreAll(disk, deletes[..n]), deletes[n]);
    }
  }

  lemma NothingBack(disk: Tree)
    ensures RestoredTo(disk, Back(disk, []), disk)
  {
    assert Back(disk, []) == {};
    forall q
      ensures RestoredAt(disk, {}, disk, q)
    {
    }
  }

  // ----- the state in which a merge can be dropped -----

  /** What the user sees: `made` are the copies whose parent directories exist. */
  ghost function AtDrop(start: Tree, deletes: seq<EntryPath>, made: set<Path>, q: Path): Option<Entry> {
    if AboveSome(made, q) then Some(Dir)
    else if q in start && !Covered(SetOf(deletes), q) then Some(start[q])
    else None
  }

  /** Something above `a` was set aside as well, and took the trash of `a` along. */
  ghost predicate Buried(deletes: seq<EntryPath>, a: Path) {
    exists b :: b in deletes && b < a
  }

  /** What the trash of `a` holds of the user's entry `a + s`: whatever had not been set
      aside before. */
  ghost function Held(start: Tree, deletes: seq<EntryPath>, a: Path, s: Path): Option<Entry> {
    if exists b :: b in deletes && a < b && b <= a + s then None else Find(start, a + s)
  }

  /** A side file in the trash of `a` is in the trash of an entry below `a`. */
  ghost predicate HeldAt(disk: Tree, start: Tree, deletes: seq<EntryPath>, a: EntryPath, s: Path) {
    if Clean(s) then Find(disk, Trash(a) + s) == Held(start, deletes, a, s)
    else Trash(a) + s in disk ==> exists b :: b in deletes && a < b && Trash(b) <= a + s
  }

  ghost predicate KeptOf(disk: Tree, start: Tree, deletes: seq<EntryPath>, a: EntryPath) {
    if Buried(deletes, a) then Trash(a) !in disk else forall s :: HeldAt(disk, start, deletes, a, s)
  }

  ghost predicate TrashKept(disk: Tree, start: Tree, deletes: seq<EntryPath>) {
    forall a :: a in deletes ==> KeptOf(disk, start, deletes, a)
  }

  /** `made` are the copies whose parent directories exist, `tmps` the destinations whose
      side file exists. */
  ghost predicate DropState(disk: Tree, start: Tree, deletes: seq<EntryPath>, made: set<Path>, tmps: set<Path>) {
    && UserTree(start) && WellFormed(disk) && InnerFirst(deletes) && tmps <= made
    && (forall a :: a in deletes ==> a in start)
    && MadeRoom(start, deletes, made)
    && ShowsDrop(disk, start, deletes, made)
    && TrashKept(disk, start, deletes)
    && OnlySideFiles(disk, deletes, tmps)
    && TmpsAreFiles(disk, tmps)
  }

  ghost predicate TmpsAreFiles(disk: Tree, tmps: set<Path>) {
    forall y: EntryPath :: y in tmps ==> Tmp(y) in disk && !disk[Tmp(y)].Dir?
  }

  ghost predicate MadeRoom(start: Tree, deletes: seq<EntryPath>, made: set<Path>) {
    forall y :: y in made ==> Named(y) && RoomAbove(start, SetOf(deletes), y)
  }

  ghost predicate ShowsDrop(disk: Tree, start: Tree, deletes: seq<EntryPath>, made: set<Path>) {
    forall q :: Clean(q) ==> Find(disk, q) == AtDrop(start, deletes, made, q)
  }

  ghost predicate OnlySideFiles(disk: Tree, deletes: seq<EntryPath>, tmps: set<Path>) {
    forall q :: q in disk && !Clean(q) ==> IsTmpOf(tmps, q) || InTrash(deletes, q)
  }

  ghost predicate IsTmpOf(tmps: set<Path>, q: Path) {
    exists y: EntryPath :: y in tmps && q == Tmp(y)
  }

  ghost predicate InTrash(deletes: seq<EntryPath>, q: Path) {
    exists a :: a in deletes && Trash(a) <= q
  }

  // ----- staging reaches such states -----

  lemma AsideStep(disk: Tree, start: Tree, deletes: seq<EntryPath>, made: set<Path>, tmps: set<Path>, a: EntryPath)
    requires DropState(disk, start, deletes, made, tmps)
    requires Named(a) && a in disk && a in start && Apart(made, a)
    ensures DropState(SetAside(disk, a), start, deletes + [a], made, tmps)
  {
    hide SetAside, WellFormed, UserTree, MadeRoom, ShowsDrop, KeptOf;
    var u := SetAside(disk, a);
    SetAsideWellFormed(disk, a);
    AsideShows(disk, start, deletes, made, a);
    AsideRoom(start, deletes, made, a);
    NotYetAside(disk, start, deletes, made, a);
    forall b | b in deletes + [a]
      ensures KeptOf(u, start, deletes + [a], b)
    {
      AsideKeeps(disk, start, deletes, made, tmps, a, b);
    }
    forall q | q in u && !Clean(q)
      ensures IsTmpOf(tmps, q) || InTrash(deletes + [a], q)
    {
      AsideSideFile(disk, deletes, tmps, a, q);
    }
    forall y: EntryPath | y in tmps
      ensures Tmp(y) in u && !u[Tmp(y)].Dir?
    {
      SetAsideShows(disk, a, y);
      assert Find(u, Tmp(y)) == Find(disk, Tmp(y));
    }
  }

  lemma NotYetAside(disk: Tree, start: Tree, deletes: seq<EntryPath>, made: set<Path>, a: EntryPath)
    requires ShowsDrop(disk, start, deletes, made) && Named(a) && a in disk && Apart(made, a) && InnerFirst(deletes)
    ensures InnerFirst(deletes + [a]) && forall b :: b in deletes ==> !(b <= a)
  {
    assert Find(disk, a) == AtDrop(start, deletes, made, a);
    forall b | b in deletes
      ensures !(b <= a)
    {
      assert b in SetOf(deletes);
    }
    InnerFirstMore(deletes, a);
  }

  lemma InnerFirstMore(deletes: seq<EntryPath>, a: EntryPath)
    requires InnerFirst(deletes) && Named(a) && forall b :: b in deletes ==> !(b <= a)
    ensures InnerFirst(deletes + [a])
  {
    var more := deletes + [a];
    forall i, j | 0 <= i < j < |more|
      ensures !(more[i] <= more[j])
    {
      assert more[i] == deletes[i] && deletes[i] in deletes;
      assert j < |deletes| ==> more[j] == deletes[j];
    }
  }

  lemma AsideShows(disk: Tree, start: Tree, deletes: seq<EntryPath>, made: set<Path>, a: EntryPath)
    requires WellFormed(disk) && ShowsDrop(disk, start, deletes, made) && Named(a) && a in disk && Apart(made, a)
    ensures ShowsDrop(SetAside(disk, a), start, deletes + [a], made)
  {
    forall q | Clean(q)
      ensures Find(SetAside(disk, a), q) == AtDrop(start, deletes + [a], made, q)
    {
      SetAsideShows(disk, a, q);
      assert Find(disk, q) == AtDrop(start, deletes, made, q);
      assert SetOf(deletes + [a]) == SetOf(deletes) + {a};
      assert Covered(SetOf(deletes) + {a}, q) <==> Covered(SetOf(deletes), q) || a <= q;
      assert forall y :: y in made && q < y && a <= q ==> a < y;
    }
  }

  lemma AsideRoom(start: Tree, deletes: seq<EntryPath>, made: set<Path>, a: EntryPath)
    requires MadeRoom(start, deletes, made)
    ensures MadeRoom(start, deletes + [a], made)
  {
    assert SetOf(deletes) <= SetOf(deletes + [a]);
    forall y | y in made
      ensures Named(y) && RoomAbove(start, SetOf(deletes + [a]), y)
    {
      assert RoomAbove(start, SetOf(deletes), y);
    }
  }

  lemma AsideSideFile(disk: Tree, deletes: seq<EntryPath>, tmps: set<Path>, a: EntryPath, q: Path)
    requires WellFormed(disk) && Named(a) && a in disk && OnlySideFiles(disk, deletes, tmps)
    requires q in SetAside(disk, a) && !Clean(q)
    ensures IsTmpOf(tmps, q) || InTrash(deletes + [a], q)
  {
    SetAsideAt(disk, a, q);
    assert Find(SetAside(disk, a), q).Some?;
    assert a in deletes + [a];
    if !(Trash(a) <= q) && !IsTmpOf(tmps, q) {
      var b :| b in deletes && Trash(b) <= q;
      assert b in deletes + [a];
    }
  }

  lemma AsideKeeps(disk: Tree, start: Tree, deletes: seq<EntryPath>, made: set<Path>, tmps: set<Path>, a: EntryPath, b: EntryPath)
    requires WellFormed(disk) && ShowsDrop(disk, start, deletes, made) && TrashKept(disk, start, deletes)
    requires OnlySideFiles(disk, deletes, tmps) && tmps <= made && InnerFirst(deletes)
    requires Named(a) && a in disk && Apart(made, a) && InnerFirst(deletes + [a])
    requires forall c :: c in deletes ==> !(c <= a)
    requires b in deletes + [a]
    ensures KeptOf(SetAside(disk, a), start, deletes + [a], b)
  {
    hide SetAside, WellFormed;
    assert Named(b);
    BuriedMore(deletes, a, b);
    if b == a {
      forall s
        ensures HeldAt(SetAside(disk, a), start, deletes + [a], a, s)
      {
        OwnTrash(disk, start, deletes, made, tmps, a, s);
      }
    } else {
      assert b in deletes && KeptOf(disk, start, deletes, b);
      TrashMoves(disk, a, b, []);
      assert Trash(b) + [] == Trash(b);
      forall s
        ensures !Buried(deletes + [a], b) ==> HeldAt(SetAside(disk, a), start, deletes + [a], b, s)
      {
        if !Buried(deletes + [a], b) {
          TrashMoves(disk, a, b, s);
          HeldMore(start, deletes, a, b, s);
          assert HeldAt(disk, start, deletes, b, s);
          HeldStays(disk, SetAside(disk, a), start, deletes, a, b, s);
        }
      }
    }
  }

  lemma HeldStays(disk: Tree, u: Tree, start: Tree, deletes: seq<EntryPath>, a: EntryPath, b: EntryPath, s: Path)
    requires HeldAt(disk, start, deletes, b, s) && Find(u, Trash(b) + s) == Find(disk, Trash(b) + s)
    requires Held(start, deletes + [a], b, s) == Held(start, deletes, b, s)
    ensures HeldAt(u, start, deletes + [a], b, s)
  {
    if !Clean(s) && Trash(b) + s in u {
      assert Find(u, Trash(b) + s).Some?;
      var c :| c in deletes && b < c && Trash(c) <= b + s;
      assert c in deletes + [a];
    }
  }

  lemma BuriedMore(deletes: seq<EntryPath>, a: EntryPath, b: Path)
    ensures Buried(deletes + [a], b) <==> Buried(deletes, b) || a < b
  {
    var more := deletes + [a];
    assert a in more;
    if c :| c in deletes && c < b {
      assert c in more;
    }
    if c :| c in more && c < b {
      assert c in deletes || c == a;
    }
  }

  lemma HeldMore(start: Tree, deletes: seq<EntryPath>, a: EntryPath, b: Path, s: Path)
    requires !(b < a)
    ensures Held(start, deletes + [a], b, s) == Held(start, deletes, b, s)
  {
    assert forall c :: c in deletes + [a] <==> c in deletes || c == a;
  }

  /** Setting `a` aside takes the trash of every entry below it along. */
  lemma TrashMoves(disk: Tree, a: EntryPath, b: EntryPath, s: Path)
    requires Named(a) && Named(b) && a != b && WellFormed(disk) && a in disk
    ensures Find(SetAside(disk, a), Trash(b) + s) == if a < b then None else Find(disk, Trash(b) + s)
  {
    var q := Trash(b) + s;
    assert Trash(b) <= q;
    SetAsideAt(disk, a, q);
    SideShape(TRASH, b);
    if Trash(a) <= q {
      TrashApart(a, b, q);
    }
    if a <= q {
      AboveTrash(a, b, q);
    }
    if a < b {
      assert a <= Parent(b) && Parent(b) <= q;
    }
  }

  /** What is about to be set aside is what the user sees there. */
  lemma OwnTrash(disk: Tree, start: Tree, deletes: seq<EntryPath>, made: set<Path>, tmps: set<Path>, a: EntryPath, s: Path)
    requires WellFormed(disk) && ShowsDrop(disk, start, deletes, made) && InnerFirst(deletes)
    requires OnlySideFiles(disk, deletes, tmps) && tmps <= made
    requires Named(a) && a in disk && Apart(made, a) && forall c :: c in deletes ==> !(c <= a)
    ensures HeldAt(SetAside(disk, a), start, deletes + [a], a, s)
  {
    hide SetAside, WellFormed;
    var q := a + s;
    TrashNotBelow(a, s);
    SetAsideAt(disk, a, Trash(a) + s);
    SideShape(TRASH, a);
    assert (Trash(a) + s)[|a|..] == s && a <= q;
    if Clean(s) {
      UserSees(disk, start, deletes, made, a, s);
      HeldMore(start, deletes, a, a, s);
    } else if q in disk {
      assert !Clean(q) by {
        var i :| 0 <= i < |s| && IsSide(s[i]);
        assert q[|a| + i] == s[i];
      }
      SideFileBelow(disk, deletes, made, tmps, a, q);
    }
  }

  /** A side file below `a` is in the trash of an entry below `a`. */
  lemma SideFileBelow(disk: Tree, deletes: seq<EntryPath>, made: set<Path>, tmps: set<Path>, a: EntryPath, q: Path)
    requires OnlySideFiles(disk, deletes, tmps) && tmps <= made && InnerFirst(deletes)
    requires Named(a) && Apart(made, a) && a <= q && q in disk && !Clean(q)
    ensures exists b :: b in deletes + [a] && a < b && Trash(b) <= q
  {
    assert forall y :: y in made ==> !(a < y);
    forall y: EntryPath | y in tmps
      ensures q != Tmp(y)
    {
      if q == Tmp(y) {
        AboveSide(a, TMP, y);
      }
    }
    var b :| b in deletes && Trash(b) <= q;
    AboveTrash(a, b, q);
    assert b in deletes + [a];
  }

  lemma UserSees(disk: Tree, start: Tree, deletes: seq<EntryPath>, made: set<Path>, a: EntryPath, s: Path)
    requires ShowsDrop(disk, start, deletes, made) && Named(a) && Clean(s) && Apart(made, a)
    requires forall c :: c in deletes ==> !(c <= a)
    ensures Find(disk, a + s) == Held(start, deletes, a, s)
  {
    var q := a + s;
    assert Clean(q) && a <= q;
    assert Find(disk, q) == AtDrop(start, deletes, made, q);
    assert !AboveSome(made, q) by {
      assert forall y :: y in made && q < y ==> a < y;
    }
    forall c | c in deletes
      ensures c <= q <==> a < c && c <= q
    {
      if c <= q {
        PrefixesComparable(a, c, q);
      }
    }
    if Covered(SetOf(deletes), q) {
      var c :| c in SetOf(deletes) && c <= q;
      assert c in deletes && a < c;
    } else {
      assert forall c :: c in deletes ==> c in SetOf(deletes);
    }
  }

  lemma MadeStep(disk: Tree, start: Tree, deletes: seq<EntryPath>, made: set<Path>, tmps: set<Path>, x: EntryPath)
    requires DropState(disk, start, deletes, made, tmps) && Named(x) && ParentsOk(disk, x)
    ensures DropState(WithParents(disk, x), start, deletes, made + {x}, tmps)
  {
    hide WithParents, AtDrop, UserTree, WellFormed, MadeRoom, ShowsDrop, ParentsOk, KeptOf;
    var u := WithParents(disk, x);
    WithParentsWellFormed(disk, x);
    forall q
      ensures Find(u, q) == if q in disk then Some(disk[q]) else if q < x then Some(Dir) else None
    {
      WithParentsAt(disk, x, q);
      assert q < x <==> q <= Parent(x);
    }
    MadeShows(disk, start, deletes, made, u, x);
    assert forall q :: q < x ==> Clean(q) && !(q !in disk && !Clean(q));
    forall a | a in deletes
      ensures KeptOf(u, start, deletes, a)
    {
      forall s
        ensures Find(u, Trash(a) + s) == Find(disk, Trash(a) + s)
      {
        SideShape(TRASH, a);
        assert Trash(a) <= Trash(a) + s;
      }
      SameTrash(disk, u, start, deletes, a);
    }
    forall q | q in u && !Clean(q)
      ensures IsTmpOf(tmps, q) || InTrash(deletes, q)
    {
      assert Find(u, q).Some?;
    }
    assert forall y: EntryPath :: y in tmps ==> Find(u, Tmp(y)) == Find(disk, Tmp(y));
  }

  lemma SameTrash(disk: Tree, u: Tree, start: Tree, deletes: seq<EntryPath>, a: EntryPath)
    requires KeptOf(disk, start, deletes, a)
    requires forall s :: Find(u, Trash(a) + s) == Find(disk, Trash(a) + s)
    ensures KeptOf(u, start, deletes, a)
  {
    assert Trash(a) + [] == Trash(a);
    assert Find(u, Trash(a) + []) == Find(disk, Trash(a) + []);
    forall s
      ensures !Buried(deletes, a) ==> HeldAt(u, start, deletes, a, s)
    {
      assert !Buried(deletes, a) ==> HeldAt(disk, start, deletes, a, s);
    }
  }

  lemma MadeShows(disk: Tree, start: Tree, deletes: seq<EntryPath>, made: set<Path>, u: Tree, x: EntryPath)
    requires Named(x) && ParentsOk(disk, x)
    requires ShowsDrop(disk, start, deletes, made) && MadeRoom(start, deletes, made)
    requires forall q :: Find(u, q) == if q in disk then Some(disk[q]) else if q < x then Some(Dir) else None
    ensures ShowsDrop(u, start, deletes, made + {x}) && MadeRoom(start, deletes, made + {x})
  {
    forall q | Clean(q)
      ensures Find(u, q) == AtDrop(start, deletes, made + {x}, q)
    {
      assert Find(disk, q) == AtDrop(start, deletes, made, q);
      assert AboveSome(made + {x}, q) <==> AboveSome(made, q) || q < x;
      assert q < x ==> q <= Parent(x);
    }
    forall q | q in start && q < x && !Covered(SetOf(deletes), q)
      ensures start[q].Dir?
    {
      assert Clean(q) && q <= Parent(x);
      assert Find(disk, q) == AtDrop(start, deletes, made, q);
      if y :| y in made && q < y {
        assert RoomAbove(start, SetOf(deletes), y);
      }
    }
  }

  lemma TmpStep(disk: Tree, start: Tree, deletes: seq<EntryPath>, made: set<Path>, tmps: set<Path>, x: EntryPath, e: Entry)
    requires DropState(disk, start, deletes, made, tmps) && Named(x) && x in made && !e.Dir?
    requires Find(disk, Tmp(x)) != Some(Dir) && Find(disk, Parent(x)) == Some(Dir)
    ensures DropState(disk[Tmp(x) := e], start, deletes, made, tmps + {x})
  {
    hide WellFormed, UserTree, MadeRoom, KeptOf;
    var u := disk[Tmp(x) := e];
    SideShape(TMP, x);
    LeafKeepsForm(disk, Tmp(x), e);
    forall a | a in deletes
      ensures KeptOf(u, start, deletes, a)
    {
      forall s
        ensures Find(u, Trash(a) + s) == Find(disk, Trash(a) + s)
      {
        if Trash(a) + s == Tmp(x) {
          assert Trash(a) <= Tmp(x);
          SidesMeet(TRASH, a, TMP, x);
        }
      }
      SameTrash(disk, u, start, deletes, a);
    }
    assert IsTmpOf(tmps + {x}, Tmp(x));
    forall q | q in u && !Clean(q) && q != Tmp(x)
      ensures IsTmpOf(tmps + {x}, q) || InTrash(deletes, q)
    {
      if IsTmpOf(tmps, q) {
        var y: EntryPath :| y in tmps && q == Tmp(y);
        assert y in tmps + {x};
      }
    }
    assert forall q :: Clean(q) ==> Find(u, q) == Find(disk, q);
  }

  lemma LeafKeepsForm(disk: Tree, p: EntryPath, e: Entry)
    requires WellFormed(disk) && Find(disk, Parent(p)) == Some(Dir) && Find(disk, p) != Some(Dir)
    ensures WellFormed(disk[p := e])
  {
    var u := disk[p := e];
    forall r, q | r in u && q < r
      ensures Find(u, q) == Some(Dir)
    {
      if r == p {
        assert q <= Parent(p);
        assert q == Parent(p) || q < Parent(p);
      }
    }
    WellFormedIf(u);
  }

  // ----- dropping the copies' side files -----

  /** The destinations whose side file the drop does not know of. */
  ghost function Residue(tmps: set<Path>, copies: seq<EntryPath>): set<Path> {
    tmps - SetOf(copies)
  }

  lemma DropTmpsAt(disk: Tree, tmps: set<Path>, copies: seq<EntryPath>, q: Path)
    requires WellFormed(disk) && TmpsAreFiles(disk, tmps) && SetOf(copies) <= tmps
    ensures Find(DropTmps(disk, copies), q) == if IsTmpOf(SetOf(copies), q) then None else Find(disk, q)
  {
    if q in disk && Covered(Tmps(copies), q) {
      var y: EntryPath :| y in copies && Tmp(y) <= q;
      assert y in SetOf(copies);
      assert q == Tmp(y) || Tmp(y) < q;
    }
    if IsTmpOf(SetOf(copies), q) {
      var y: EntryPath :| y in SetOf(copies) && q == Tmp(y);
      assert q in Tmps(copies);
    }
  }

  lemma DropStep(disk: Tree, start: Tree, deletes: seq<EntryPath>, made: set<Path>, tmps: set<Path>, copies: seq<EntryPath>)
    requires DropState(disk, start, deletes, made, tmps) && SetOf(copies) <= tmps
    ensures DropState(DropTmps(disk, copies), start, deletes, made, Residue(tmps, copies))
  {
    hide WellFormed, UserTree, KeptOf, DropTmps;
    var u, residue := DropTmps(disk, copies), Residue(tmps, copies);
    forall q
      ensures Find(u, q) == if IsTmpOf(SetOf(copies), q) then None else Find(disk, q)
    {
      DropTmpsAt(disk, tmps, copies, q);
    }
    DropKeepsForm(disk, u, tmps, SetOf(copies));
    TmpsUnclean();
    assert forall q :: Clean(q) ==> !IsTmpOf(SetOf(copies), q);
    forall a | a in deletes
      ensures KeptOf(u, start, deletes, a)
    {
      forall s
        ensures Find(u, Trash(a) + s) == Find(disk, Trash(a) + s)
      {
        TrashIsNoTmp(a, SetOf(copies), s, made);
      }
      SameTrash(disk, u, start, deletes, a);
    }
    forall q | q in u && !Clean(q)
      ensures IsTmpOf(residue, q) || InTrash(deletes, q)
    {
      assert Find(u, q).Some?;
      if IsTmpOf(tmps, q) {
        var y: EntryPath :| y in tmps && q == Tmp(y);
        assert y in residue;
      }
    }
    forall y: EntryPath | y in residue
      ensures Tmp(y) in u && !u[Tmp(y)].Dir?
    {
      OtherTmp(y, SetOf(copies), made);
      assert Find(u, Tmp(y)) == Find(disk, Tmp(y));
    }
  }

  lemma TmpsUnclean()
    ensures forall y: EntryPath :: !Clean(Tmp(y))
  {
    forall y: EntryPath
      ensures !Clean(Tmp(y))
    {
      SideShape(TMP, y);
    }
  }

  lemma DropKeepsForm(disk: Tree, u: Tree, tmps: set<Path>, gone: set<Path>)
    requires WellFormed(disk) && TmpsAreFiles(disk, tmps) && gone <= tmps
    requires forall q :: Find(u, q) == if IsTmpOf(gone, q) then None else Find(disk, q)
    ensures WellFormed(u)
  {
    TmpsUnclean();
    assert Find(u, []) == Some(Dir);
    forall p, q | p in u && q < p
      ensures Find(u, q) == Some(Dir)
    {
      assert Find(u, p).Some?;
      assert Find(disk, q) == Some(Dir);
    }
    WellFormedIf(u);
  }

  lemma TrashIsNoTmp(a: EntryPath, gone: set<Path>, s: Path, made: set<Path>)
    requires Named(a) && gone <= made && forall y :: y in made ==> Named(y)
    ensures !IsTmpOf(gone, Trash(a) + s)
  {
    if IsTmpOf(gone, Trash(a) + s) {
      var y: EntryPath :| y in gone && Trash(a) + s == Tmp(y);
      assert Trash(a) <= Tmp(y);
      SidesMeet(TRASH, a, TMP, y);
    }
  }

  lemma OtherTmp(y: EntryPath, gone: set<Path>, made: set<Path>)
    requires y !in gone && y in made && gone <= made && forall x :: x in made ==> Named(x)
    ensures !IsTmpOf(gone, Tmp(y))
  {
    if IsTmpOf(gone, Tmp(y)) {
      var x: EntryPath :| x in gone && Tmp(y) == Tmp(x);
      SidesMeet(TMP, y, TMP, x);
    }
  }

  // ----- what can be renamed back -----

  /** What was set aside at `a` can be renamed back: no copy made directories below
      `a`, or `a` was a directory and only `a` itself was made again, empty. */
  ghost predicate Restorable(start: Tree, made: set<Path>, residue: set<Path>, a: Path) {
    || (forall y :: y in made ==> !(a < y))
    || (Find(start, a) == Some(Dir) && forall y :: y in made && a < y ==> |y| == |a| + 1 && y !in residue)
  }

  /** In such a state an entry can be renamed back exactly when nothing above it was set
      aside and no copy is in its place. */
  lemma CanRestoreIff(disk: Tree, start: Tree, deletes: seq<EntryPath>, made: set<Path>, tmps: set<Path>, a: EntryPath)
    requires DropState(disk, start, deletes, made, tmps) && a in deletes
    ensures CanRename(disk, Trash(a), a) <==> !Buried(deletes, a) && Restorable(start, made, tmps, a)
  {
    assert Named(a) && KeptOf(disk, start, deletes, a);
    if !Buried(deletes, a) {
      TrashIsFull(disk, start, deletes, a);
      ParentThere(disk, start, deletes, made, a);
      TrashNotBelow(a, []);
      assert Find(disk, a) == AtDrop(start, deletes, made, a);
      assert a in SetOf(deletes) && Covered(SetOf(deletes), a);
      PlaceEmptyIff(disk, start, deletes, made, tmps, a);
      assert Trash(a) + [] == Trash(a);
    }
  }

  lemma TrashIsFull(disk: Tree, start: Tree, deletes: seq<EntryPath>, a: EntryPath)
    requires KeptOf(disk, start, deletes, a) && !Buried(deletes, a) && a in start
    ensures Find(disk, Trash(a)) == Some(start[a])
  {
    assert HeldAt(disk, start, deletes, a, []);
    assert Trash(a) + [] == Trash(a) && a + [] == a;
  }

  lemma ParentThere(disk: Tree, start: Tree, deletes: seq<EntryPath>, made: set<Path>, a: EntryPath)
    requires UserTree(start) && ShowsDrop(disk, start, deletes, made) && a in start && !Buried(deletes, a)
    ensures Find(disk, Parent(a)) == Some(Dir)
  {
    assert Parent(a) < a;
    assert Clean(Parent(a));
    assert Find(disk, Parent(a)) == AtDrop(start, deletes, made, Parent(a));
    forall b | b in SetOf(deletes)
      ensures !(b <= Parent(a))
    {
      assert b <= Parent(a) ==> b < a;
    }
  }

  lemma PlaceEmptyIff(disk: Tree, start: Tree, deletes: seq<EntryPath>, made: set<Path>, tmps: set<Path>, a: EntryPath)
    requires DropState(disk, start, deletes, made, tmps) && a in deletes && !Buried(deletes, a)
    ensures (forall q :: q in disk ==> !(a < q)) <==> forall y :: y in made && a < y ==> |y| == |a| + 1 && y !in tmps
  {
    if y :| y in made && a < y && (|y| != |a| + 1 || y in tmps) {
      MadeBelow(disk, start, deletes, made, tmps, a, y);
    } else {
      forall q | q in disk
        ensures !(a < q)
      {
        NothingElseBelow(disk, start, deletes, made, tmps, a, q);
      }
    }
  }

  lemma MadeBelow(disk: Tree, start: Tree, deletes: seq<EntryPath>, made: set<Path>, tmps: set<Path>, a: EntryPath, y: EntryPath)
    requires DropState(disk, start, deletes, made, tmps) && y in made && a < y && (|y| != |a| + 1 || y in tmps)
    ensures exists q :: q in disk && a < q
  {
    assert Named(y);
    SideShape(TMP, y);
    if y in tmps {
      assert a <= Parent(y) && Parent(y) < Tmp(y);
      assert Tmp(y) in disk;
    } else {
      assert a < Parent(y) && Parent(y) < y && Clean(Parent(y));
      assert AboveSome(made, Parent(y));
      assert Find(disk, Parent(y)) == AtDrop(start, deletes, made, Parent(y));
    }
  }

  lemma NothingElseBelow(disk: Tree, start: Tree, deletes: seq<EntryPath>, made: set<Path>, tmps: set<Path>, a: EntryPath, q: Path)
    requires DropState(disk, start, deletes, made, tmps) && a in deletes && !Buried(deletes, a) && q in disk
    requires forall y :: y in made && a < y ==> |y| == |a| + 1 && y !in tmps
    ensures !(a < q)
  {
    hide WellFormed, UserTree, MadeRoom, KeptOf;
    assert Named(a);
    if Clean(q) {
      assert Find(disk, q) == AtDrop(start, deletes, made, q);
      assert a in SetOf(deletes) && (a < q ==> Covered(SetOf(deletes), q));
      assert forall y :: y in made && a < q < y ==> a < y && |y| > |a| + 1;
    } else if IsTmpOf(tmps, q) {
      var y: EntryPath :| y in tmps && q == Tmp(y);
      if a < q {
        AboveSide(a, TMP, y);
      }
    } else {
      var b :| b in deletes && Trash(b) <= q;
      NotInBuriedTrash(disk, start, deletes, b, q);
      if a < q {
        AboveTrash(a, b, q);
      }
    }
  }

  lemma NotInBuriedTrash(disk: Tree, start: Tree, deletes: seq<EntryPath>, b: EntryPath, q: Path)
    requires WellFormed(disk) && TrashKept(disk, start, deletes) && b in deletes && q in disk && Trash(b) <= q
    ensures !Buried(deletes, b)
  {
    assert KeptOf(disk, start, deletes, b);
    assert Trash(b) == q || Trash(b) < q;
  }

  // ----- every staging run, broken off anywhere -----

  lemma DeleteReaches(m: Merge, start: Tree, a: EntryPath)
    requires DropState(m.disk, start, m.deletes, {}, {}) && Named(a)
    ensures DropState(StageDelete(m, a).disk, start, StageDelete(m, a).deletes, {}, {})
  {
    hide DropState, SetAside;
    if a in m.disk {
      SeenInStart(m.disk, start, m.deletes, {}, {}, a);
      AsideStep(m.disk, start, m.deletes, {}, {}, a);
    }
  }

  lemma SeenInStart(disk: Tree, start: Tree, deletes: seq<EntryPath>, made: set<Path>, tmps: set<Path>, a: EntryPath)
    requires DropState(disk, start, deletes, made, tmps) && Named(a) && a in disk && Apart(made, a)
    ensures a in start
  {
    assert Find(disk, a) == AtDrop(start, deletes, made, a);
  }

  lemma StartIsDropState(start: Tree)
    requires UserTree(start)
    ensures DropState(start, start, [], {}, {})
  {
    assert SetOf([]) == {};
  }

  lemma {:induction false} DeletesReach(start: Tree, targets: seq<EntryPath>)
    requires UserTree(start) && Paths(targets)
    ensures var m := StageDeletes(Merge(start, [], []), targets); DropState(m.disk, start, m.deletes, {}, {})
  {
    hide DropState, StageDelete;
    if targets == [] {
      StartIsDropState(start);
    } else {
      var n := |targets| - 1;
      DeletesReach(start, targets[..n]);
      DeleteReaches(StageDeletes(Merge(start, [], []), targets[..n]), start, targets[n]);
    }
  }

  lemma ClearReaches(m: Merge, start: Tree, made: set<Path>, tmps: set<Path>, x: EntryPath)
    requires DropState(m.disk, start, m.deletes, made, tmps) && Named(x) && Apart(made, x)
    ensures var m1 := ClearDestination(m, x); DropState(m1.disk, start, m1.deletes, made, tmps)
  {
    hide DropState, SetAside;
    if Find(m.disk, x) == Some(Dir) {
      SeenInStart(m.disk, start, m.deletes, made, tmps, x);
      AsideStep(m.disk, start, m.deletes, made, tmps, x);
    }
  }

  lemma CopyReaches(m: Merge, start: Tree, made: set<Path>, tmps: set<Path>, x: EntryPath, e: Entry)
    requires DropState(m.disk, start, m.deletes, made, tmps) && Named(x) && Apart(made, x) && !e.Dir?
    requires CanCopy(ClearDestination(m, x).disk, x)
    ensures var m1 := ClearDestination(m, x);
      DropState(WithTmp(m1.disk, x, e), start, m1.deletes, made + {x}, tmps + {x})
  {
    hide DropState, ClearDestination;
    var m1 := ClearDestination(m, x);
    ClearReaches(m, start, made, tmps, x);
    MadeStep(m1.disk, start, m1.deletes, made, tmps, x);
    WithParentsAt(m1.disk, x, Tmp(x));
    WithParentsAt(m1.disk, x, Parent(x));
    SideShape(TMP, x);
    assert Clean(Parent(x));
    TmpStep(WithParents(m1.disk, x), start, m1.deletes, made + {x}, tmps, x, e);
  }

  lemma {:induction false} CopiesReach(m: Merge, start: Tree, sources: Tree, dests: seq<EntryPath>)
    requires CopyList(dests, sources) && m.copies == [] && StageCopies(m, dests, sources).Some?
    requires DropState(m.disk, start, m.deletes, {}, {})
    ensures var m' := StageCopies(m, dests, sources).value;
      DropState(m'.disk, start, m'.deletes, SetOf(dests), SetOf(dests)) && m'.copies == dests
  {
    hide DropState, WithTmp, CanCopy, SetAside;
    if dests == [] {
      assert SetOf(dests) == {};
    } else {
      var n := |dests| - 1;
      CopyListPrefix(dests, sources);
      CopiesReach(m, start, sources, dests[..n]);
      var before := StageCopies(m, dests[..n], sources).value;
      CopyReaches(before, start, SetOf(dests[..n]), SetOf(dests[..n]), dests[n], sources[dests[n]]);
      assert dests == dests[..n] + [dests[n]];
    }
  }

  /** How far the copy that ended the staging got: making room, making the parent
      directories, or leaving a partial side file. */
  datatype Fault = BeforeParents | AfterParents | AfterTmp(partial: Entry)
  datatype LastCopy = Nothing | Failed(dest: EntryPath, fault: Fault)

  ghost function BrokenOff(m: Merge, last: LastCopy): Merge {
    match last
    case Nothing => m
    case Failed(x, fault) =>
      var m1 := ClearDestination(m, x);
      if !CanCopy(m1.disk, x) || fault.BeforeParents? then m1
      else if fault.AfterParents? then Merge(WithParents(m1.disk, x), m1.copies, m1.deletes)
      else Merge(WithTmp(m1.disk, x, fault.partial), m1.copies, m1.deletes)
  }

  /** The copies whose parent directories exist when the merge is dropped ... */
  ghost function Made(m: Merge, last: LastCopy): set<Path> {
    SetOf(m.copies) +
    (if last.Failed? && !last.fault.BeforeParents? && CanCopy(ClearDestination(m, last.dest).disk, last.dest)
     then {last.dest} else {})
  }

  /** ... and the one whose side file the merge does not know of. */
  ghost function Left(m: Merge, last: LastCopy): set<Path> {
    if last.Failed? && last.fault.AfterTmp? && CanCopy(ClearDestination(m, last.dest).disk, last.dest)
    then {last.dest} else {}
  }

  ghost function AllDests(dests: seq<EntryPath>, last: LastCopy): seq<EntryPath> {
    if last.Failed? then dests + [last.dest] else dests
  }

  lemma FailedReaches(m: Merge, start: Tree, x: EntryPath, fault: Fault)
    requires DropState(m.disk, start, m.deletes, SetOf(m.copies), SetOf(m.copies))
    requires Named(x) && Apart(SetOf(m.copies), x) && (fault.AfterTmp? ==> !fault.partial.Dir?)
    ensures var d := BrokenOff(m, Failed(x, fault));
      DropState(d.disk, start, d.deletes, Made(m, Failed(x, fault)), SetOf(m.copies) + Left(m, Failed(x, fault)))
  {
    hide DropState, ClearDestination, WithTmp;
    var m1 := ClearDestination(m, x);
    var copies := SetOf(m.copies);
    assert copies + {} == copies;
    ClearReaches(m, start, copies, copies, x);
    if CanCopy(m1.disk, x) && fault.AfterParents? {
      MadeStep(m1.disk, start, m1.deletes, copies, copies, x);
    } else if CanCopy(m1.disk, x) && fault.AfterTmp? {
      CopyReaches(m, start, copies, copies, x, fault.partial);
    }
  }

  lemma BrokenOffReaches(m: Merge, start: Tree, sources: Tree, last: LastCopy)
    requires DropState(m.disk, start, m.deletes, SetOf(m.copies), SetOf(m.copies))
    requires CopyList(AllDests(m.copies, last), sources)
    requires last.Failed? && last.fault.AfterTmp? ==> !last.fault.partial.Dir?
    ensures var d := BrokenOff(m, last);
      DropState(d.disk, start, d.deletes, Made(m, last), SetOf(m.copies) + Left(m, last)) && d.copies == m.copies
  {
    hide DropState, SetAside, WithTmp;
    if last.Failed? {
      var all := AllDests(m.copies, last);
      assert all[|all| - 1] == last.dest && all[..|all| - 1] == m.copies;
      assert Named(all[|all| - 1]);
      CopyListPrefix(all, sources);
      FailedReaches(m, start, last.dest, last.fault);
    } else {
      assert SetOf(m.copies) + {} == SetOf(m.copies);
    }
  }

  lemma {:induction false} NoCopiesYet(start: Tree, targets: seq<EntryPath>)
    ensures StageDeletes(Merge(start, [], []), targets).copies == []
  {
    if targets != [] {
      NoCopiesYet(start, targets[..|targets| - 1]);
    }
  }

  lemma {:induction false} CopiesKeepDests(m: Merge, dests: seq<EntryPath>, sources: Tree)
    requires CopyList(dests, sources) && StageCopies(m, dests, sources).Some?
    ensures StageCopies(m, dests, sources).value.copies == m.copies + dests
  {
    hide CopyList, WithTmp, CanCopy, SetAside;
    if dests != [] {
      CopyListPrefix(dests, sources);
      CopiesKeepDests(m, dests[..|dests| - 1], sources);
      assert dests == dests[..|dests| - 1] + [dests[|dests| - 1]];
    }
  }

  lemma LeftIsResidue(m: Merge, last: LastCopy, sources: Tree)
    requires CopyList(AllDests(m.copies, last), sources)
    ensures Residue(SetOf(m.copies) + Left(m, last), m.copies) == Left(m, last)
  {
    if last.Failed? {
      var all := AllDests(m.copies, last);
      assert all[|all| - 1] == last.dest;
      assert forall i :: 0 <= i < |m.copies| ==> all[i] == m.copies[i];
      assert last.dest !in m.copies;
    }
  }

  /** The rolled-back tree starts from such a state, without the copies' side files. */
  lemma DroppedState(start: Tree, targets: seq<EntryPath>, dests: seq<EntryPath>, sources: Tree, last: LastCopy)
    requires UserTree(start) && Paths(targets) && CopyList(AllDests(dests, last), sources) && CopyList(dests, sources)
    requires last.Failed? && last.fault.AfterTmp? ==> !last.fault.partial.Dir?
    requires StageMerge(start, targets, dests, sources).Some?
    ensures var m := StageMerge(start, targets, dests, sources).value;
      var d := BrokenOff(m, last);
      && m.copies == dests
      && DropState(DropTmps(d.disk, d.copies), start, d.deletes, Made(m, last), Left(m, last))
      && RestoredTo(DropTmps(d.disk, d.copies), Back(DropTmps(d.disk, d.copies), d.deletes), RollBack(d))
  {
    hide DropTmps, BrokenOff, Made, Left;
    var m := StageMerge(start, targets, dests, sources).value;
    var d := BrokenOff(m, last);
    DeletesReach(start, targets);
    NoCopiesYet(start, targets);
    CopiesReach(StageDeletes(Merge(start, [], []), targets), start, sources, dests);
    BrokenOffReaches(m, start, sources, last);
    LeftIsResidue(m, last, sources);
    DropStep(d.disk, start, d.deletes, Made(m, last), SetOf(m.copies) + Left(m, last), d.copies);
    RestoreAllRestores(DropTmps(d.disk, d.copies), d.deletes);
  }

  // ----- what a rollback gives back -----

  /** Some file of the start lies at or below `a`. */
  ghost predicate HoldsFile(start: Tree, a: Path) {
    exists p :: p in Leaves(start) && a <= p
  }

  /** Every file of the start is back at its place. */
  ghost predicate FilesBack(start: Tree, out: Tree) {
    forall p :: p in Leaves(start) ==> Find(out, p) == Some(start[p])
  }

  /** Where a file of the start is after renaming back: in place if nothing at or above it
      was set aside, or exactly one entry was and could be renamed back. */
  lemma FileComesBackIff(disk: Tree, start: Tree, deletes: seq<EntryPath>, made: set<Path>, tmps: set<Path>, out: Tree, p: Path)
    requires DropState(disk, start, deletes, made, tmps) && RestoredTo(disk, Back(disk, deletes), out)
    requires p in Leaves(start)
    ensures Find(out, p) == Some(start[p]) <==>
      forall a :: a in deletes && a <= p ==> !Buried(deletes, a) && Restorable(start, made, tmps, a)
  {
    assert RestoredAt(disk, Back(disk, deletes), out, p);
    assert Clean(p);
    if a :| a in deletes && a <= p && !Buried(deletes, a) && Restorable(start, made, tmps, a) {
      CanRestoreIff(disk, start, deletes, made, tmps, a);
      FileInTrash(disk, start, deletes, a, p);
      BackOnlyOnce(disk, start, deletes, made, tmps, a, p);
    } else {
      FileNotBack(disk, start, deletes, made, tmps, out, p);
    }
  }

  /** The trash of `a` holds the file exactly when nothing between them was set aside. */
  lemma FileInTrash(disk: Tree, start: Tree, deletes: seq<EntryPath>, a: EntryPath, p: Path)
    requires KeptOf(disk, start, deletes, a) && !Buried(deletes, a) && a <= p && p in start && Clean(p)
    ensures Find(disk, Trash(a) + p[|a|..]) ==
      if exists b :: b in deletes && a < b && b <= p then None else Some(start[p])
  {
    var s := p[|a|..];
    SplitAt(p, a);
    assert HeldAt(disk, start, deletes, a, s);
  }

  /** When the outermost entry above a file comes back, all entries above the file are
      fit to come back exactly when it is the only one. */
  lemma BackOnlyOnce(disk: Tree, start: Tree, deletes: seq<EntryPath>, made: set<Path>, tmps: set<Path>, a: EntryPath, p: Path)
    requires a in deletes && a <= p && !Buried(deletes, a) && Restorable(start, made, tmps, a)
    ensures (exists b :: b in deletes && a < b && b <= p) <==>
      !(forall b :: b in deletes && b <= p ==> !Buried(deletes, b) && Restorable(start, made, tmps, b))
  {
    if b :| b in deletes && a < b && b <= p {
      assert Buried(deletes, b);
    } else {
      forall b | b in deletes && b <= p
        ensures b == a
      {
        PrefixesComparable(a, b, p);
        assert a <= b ==> a == b || a < b;
        assert b <= a ==> a == b || b < a;
      }
    }
  }

  lemma FileNotBack(disk: Tree, start: Tree, deletes: seq<EntryPath>, made: set<Path>, tmps: set<Path>, out: Tree, p: Path)
    requires DropState(disk, start, deletes, made, tmps) && RestoredTo(disk, Back(disk, deletes), out)
    requires p in Leaves(start)
    requires forall a :: a in deletes && a <= p ==> Buried(deletes, a) || !Restorable(start, made, tmps, a)
    ensures Find(out, p) == Some(start[p]) <==> forall a :: a in deletes ==> !(a <= p)
  {
    forall a | a in deletes && a <= p
      ensures a !in Back(disk, deletes)
    {
      CanRestoreIff(disk, start, deletes, made, tmps, a);
    }
    UserPathStays(disk, Back(disk, deletes), out, p);
    assert Find(disk, p) == AtDrop(start, deletes, made, p);
    if y :| y in made && p < y {
      assert RoomAbove(start, SetOf(deletes), y);
    }
    if a :| a in deletes && a <= p {
      assert a in SetOf(deletes);
    }
  }

  /** Dropping a merge after any prefix of its staging steps, a failing copy included,
      returns every file of the destination to its place if and only if each recorded
      entry that held one has no recorded entry above it and can be renamed back: no copy
      made anything in its place beyond its own, still empty, directory. */
  lemma RollbackRestoresFilesIff(start: Tree, targets: seq<EntryPath>, dests: seq<EntryPath>, sources: Tree, last: LastCopy)
    requires UserTree(start) && Paths(targets) && CopyList(AllDests(dests, last), sources) && CopyList(dests, sources)
    requires last.Failed? && last.fault.AfterTmp? ==> !last.fault.partial.Dir?
    requires StageMerge(start, targets, dests, sources).Some?
    ensures var m := StageMerge(start, targets, dests, sources).value;
      var d := BrokenOff(m, last);
      FilesBack(start, RollBack(d)) <==>
      forall a :: a in d.deletes && HoldsFile(start, a) ==>
        !Buried(d.deletes, a) && Restorable(start, Made(m, last), Left(m, last), a)
  {
    hide BrokenOff, RollBack, DropTmps, Made, Left, DropState, RestoredTo, Restorable, Buried, StageMerge;
    var m := StageMerge(start, targets, dests, sources).value;
    var d := BrokenOff(m, last);
    DroppedState(start, targets, dests, sources, last);
    forall p | p in Leaves(start)
      ensures Find(RollBack(d), p) == Some(start[p]) <==>
        forall a :: a in d.deletes && a <= p ==> !Buried(d.deletes, a) && Restorable(start, Made(m, last), Left(m, last), a)
    {
      FileComesBackIff(DropTmps(d.disk, d.copies), start, d.deletes, Made(m, last), Left(m, last), RollBack(d), p);
    }
  }

  /** When every recorded entry can be renamed back and none is nested in another, the
      whole start is back, and all that is new are directories above the staged copies and
      the side file of a copy that broke off half-written. */
  lemma RollbackRestoresAll(start: Tree, targets: seq<EntryPath>, dests: seq<EntryPath>, sources: Tree, last: LastCopy)
    requires UserTree(start) && Paths(targets) && CopyList(AllDests(dests, last), sources) && CopyList(dests, sources)
    requires last.Failed? && last.fault.AfterTmp? ==> !last.fault.partial.Dir?
    requires StageMerge(start, targets, dests, sources).Some?
    requires var m := StageMerge(start, targets, dests, sources).value; var d := BrokenOff(m, last);
      forall a :: a in d.deletes ==> !Buried(d.deletes, a) && Restorable(start, Made(m, last), Left(m, last), a)
    ensures var m := StageMerge(start, targets, dests, sources).value;
      var after := RollBack(BrokenOff(m, last));
      forall q :: BackAsItWas(start, Made(m, last), Left(m, last), after, q)
  {
    hide BrokenOff, RollBack, DropTmps, Made, Left, DropState, RestoredTo, Restorable, Buried, StageMerge;
    var m := StageMerge(start, targets, dests, sources).value;
    var d := BrokenOff(m, last);
    DroppedState(start, targets, dests, sources, last);
    forall q
      ensures BackAsItWas(start, Made(m, last), Left(m, last), RollBack(d), q)
    {
      AllBack(DropTmps(d.disk, d.copies), start, d.deletes, Made(m, last), Left(m, last), RollBack(d), q);
    }
  }

  ghost predicate BackAsItWas(start: Tree, made: set<Path>, residue: set<Path>, after: Tree, q: Path) {
    if q in start then Find(after, q) == Some(start[q])
    else q in after ==> (after[q].Dir? && AboveSome(made, q)) || IsTmpOf(residue, q)
  }

  lemma AllBack(disk: Tree, start: Tree, deletes: seq<EntryPath>, made: set<Path>, tmps: set<Path>, out: Tree, q: Path)
    requires DropState(disk, start, deletes, made, tmps) && RestoredTo(disk, Back(disk, deletes), out)
    requires forall a :: a in deletes ==> !Buried(deletes, a) && Restorable(start, made, tmps, a)
    ensures BackAsItWas(start, made, tmps, out, q)
  {
    hide WellFormed, CanRename, UserTree, RestoredTo, Restorable, KeptOf, Buried;
    UnfoldRestored(disk, Back(disk, deletes), out, q);
    forall a | a in deletes
      ensures a in Back(disk, deletes)
    {
      CanRestoreIff(disk, start, deletes, made, tmps, a);
    }
    if a :| a in deletes && a <= q {
      WholeTrash(disk, start, deletes, a, q);
    } else {
      Untouched(disk, start, deletes, made, tmps, q);
    }
  }

  /** With no nested entries the trash holds what the start had, and nothing else. */
  lemma WholeTrash(disk: Tree, start: Tree, deletes: seq<EntryPath>, a: EntryPath, q: Path)
    requires UserTree(start) && TrashKept(disk, start, deletes) && a in deletes && a <= q && Named(a)
    requires forall b :: b in deletes ==> !Buried(deletes, b)
    ensures Find(disk, Trash(a) + q[|a|..]) == Find(start, q)
  {
    var s := q[|a|..];
    SplitAt(q, a);
    assert KeptOf(disk, start, deletes, a) && HeldAt(disk, start, deletes, a, s);
    forall b | b in deletes
      ensures !(a < b)
    {
      assert a < b ==> Buried(deletes, b);
    }
    if !Clean(s) {
      var i :| 0 <= i < |s| && IsSide(s[i]);
      assert q[|a| + i] == s[i];
      assert !Clean(q);
    }
  }

  lemma Untouched(disk: Tree, start: Tree, deletes: seq<EntryPath>, made: set<Path>, tmps: set<Path>, q: Path)
    requires DropState(disk, start, deletes, made, tmps) && forall a :: a in deletes ==> !(a <= q)
    ensures q in start ==> Find(disk, q) == Some(start[q]) && forall a :: a in deletes ==> !(Trash(a) <= q)
    ensures q !in start && q in disk && (forall a :: a in deletes ==> !(Trash(a) <= q)) ==>
      (disk[q].Dir? && AboveSome(made, q)) || IsTmpOf(tmps, q)
  {
    if Clean(q) {
      assert Find(disk, q) == AtDrop(start, deletes, made, q);
      assert !Covered(SetOf(deletes), q);
      if q in start && AboveSome(made, q) {
        var y :| y in made && q < y;
        assert RoomAbove(start, SetOf(deletes), y);
      }
      forall a | a in deletes
        ensures !(Trash(a) <= q)
      {
        SideShape(TRASH, a);
      }
    }
  }
}
