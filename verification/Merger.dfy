/** The staged merge as an object: its methods change the destination call by call and
    refine the staging, publish and rollback functions. */
module Merger {
  import opened FileTree
  import opened Disk
  import opened Staging
  import opened Publish
  import opened Rollback

  /** What a merge leaves when publishing broke off: after `i` copies were renamed into
      place and `j` set-aside entries removed it was rolled back. */
  ghost function BrokenPublish(m: Merge, i: nat, j: nat): Tree
    requires i <= |m.copies| && j <= |m.deletes| && PublishAll(m.disk, m.copies[..i]).Some?
  {
    RollBack(Merge(Discard(PublishAll(m.disk, m.copies[..i]).value, m.deletes[..j]), m.copies, m.deletes))
  }

  ghost predicate Publishes(m: Merge) {
    PublishAll(m.disk, m.copies).Some? && CanDiscard(PublishAll(m.disk, m.copies).value, m.deletes)
  }

  ghost predicate PublishBroke(m: Merge, disk: Tree) {
    exists i, j :: 0 <= i <= |m.copies| && 0 <= j <= |m.deletes| && BrokeAt(m, i, j, disk)
  }

  /** The i-th copy could not be renamed into place, or, with all copies in place, the j-th
      set-aside entry was the first that could not be removed. */
  ghost predicate BrokeAt(m: Merge, i: nat, j: nat, disk: Tree)
    requires i <= |m.copies| && j <= |m.deletes|
  {
    var published := PublishAll(m.disk, m.copies[..i]);
    && published.Some? && disk == BrokenPublish(m, i, j)
    && (if i < |m.copies| then j == 0 && !CanRename(published.value, Tmp(m.copies[i]), m.copies[i])
        else j < |m.deletes| && !CanRemove(Discard(published.value, m.deletes[..j]), Trash(m.deletes[j])))
    && forall k :: 0 <= k < j ==> CanRemove(Discard(published.value, m.deletes[..k]), Trash(m.deletes[k]))
  }

  function FaultOf(fault: Option<Fault>): Fault {
    if fault.Some? then fault.value else BeforeParents
  }

  class StagedMerge {
    var disk: Tree
    var copies: seq<EntryPath>
    var deletes: seq<EntryPath>
    var committed: bool

    ghost function Value(): Merge
      reads this
    {
      Merge(disk, copies, deletes)
    }

    ghost predicate Valid()
      reads this
    {
      WellFormed(disk) && Paths(copies) && Paths(deletes)
    }

    constructor (destination: Tree)
      requires WellFormed(destination)
      ensures Valid() && Value() == Merge(destination, [], []) && !committed
    {
      disk, copies, deletes, committed := destination, [], [], false;
    }

    // ----- calls on the file system -----

    method RemoveEntry(p: EntryPath) returns (ok: bool)
      requires WellFormed(disk)
      modifies this`disk
      ensures ok == CanRemove(old(disk), p) && disk == RemoveUnder(old(disk), p) && WellFormed(disk)
    {
      RemoveUnderWellFormed(disk, p);
      if p in disk {
        disk := RemoveUnder(disk, p);
        ok := true;
      } else {
        RemoveMissing(disk, p);
        ok := !Blocked(disk, p);
      }
    }

    method RenameEntry(a: EntryPath, b: EntryPath) returns (ok: bool)
      requires WellFormed(disk) && !(b <= a)
      modifies this`disk
      ensures ok == CanRename(old(disk), a, b) && WellFormed(disk)
      ensures disk == if ok then Moved(RemoveUnder(old(disk), b), a, b) else old(disk)
    {
      ok := CanRename(disk, a, b);
      if ok {
        RenamedWellFormed(disk, a, b);
        disk := Moved(RemoveUnder(disk, b), a, b);
      }
    }

    // ----- staging -----

    /** Rename the target aside; nothing to do when it does not exist. */
    method StageDelete(target: EntryPath)
      requires Valid() && Named(target)
      modifies this
      ensures Valid() && Value() == Staging.StageDelete(old(Value()), target) && committed == old(committed)
    {
      hide RemoveUnder, Moved;
      if target !in disk {
        return;
      }
      SetAsideSteps(disk, target);
      var trash := Trash(target);
      var _ := RemoveEntry(trash);
      var _ := RenameEntry(target, trash);
      deletes := deletes + [target];
    }

    /** Copy an entry beside its destination, after making room and parent directories.
        `fault` says where the operating system fails, if it does. */
    method StageCopy(dest: EntryPath, e: Entry, fault: Option<Fault>) returns (ok: bool)
      requires Valid() && Named(dest) && !e.Dir?
      requires fault.Some? && fault.value.AfterTmp? ==> !fault.value.partial.Dir?
      modifies this
      ensures Valid() && committed == old(committed)
      ensures ok <==> fault.None? && Staging.StageCopy(old(Value()), dest, e).Some?
      ensures ok ==> Value() == Staging.StageCopy(old(Value()), dest, e).value
      ensures !ok ==> Value() == BrokenOff(old(Value()), Failed(dest, FaultOf(fault)))
    {
      if dest in disk && disk[dest].Dir? {
        StageDelete(dest);
      }
      if !CanCopy(disk, dest) || fault == Some(BeforeParents) {
        return false;
      }
      TmpKeepsForm(disk, dest, if fault.Some? && fault.value.AfterTmp? then fault.value.partial else e);
      disk := WithParents(disk, dest);
      if fault == Some(AfterParents) {
        return false;
      }
      disk := disk[Tmp(dest) := if fault.Some? then fault.value.partial else e];
      if fault.Some? {
        return false;
      }
      copies := copies + [dest];
      ok := true;
    }

    // ----- publish or roll back -----

    method PublishCopies() returns (ok: bool, ghost i: nat)
      requires Valid()
      modifies this`disk
      ensures Valid() && i <= |copies| && PublishAll(old(disk), copies[..i]) == Some(disk)
      ensures ok ==> i == |copies|
      ensures !ok ==> i < |copies| && !CanRename(disk, Tmp(copies[i]), copies[i])
    {
      hide CanRename, RemoveUnder, Moved, PublishAll;
      ghost var start := disk;
      var k := 0;
      assert copies[..0] == [] && PublishAll(start, []) == Some(start) by {
        PublishNone(start);
      }
      while k < |copies|
        invariant 0 <= k <= |copies| && Valid()
        invariant PublishAll(start, copies[..k]) == Some(disk)
      {
        TmpIsBeside(copies[k]);
        PublishMore(start, copies, k);
        var renamed := RenameEntry(Tmp(copies[k]), copies[k]);
        if !renamed {
          return false, k;
        }
        k := k + 1;
      }
      return true, k;
    }

    method DiscardTrash() returns (ok: bool, ghost j: nat)
      requires Valid()
      modifies this`disk
      ensures Valid() && j <= |deletes| && disk == Discard(old(disk), deletes[..j])
      ensures forall k :: 0 <= k < j ==> CanRemove(Discard(old(disk), deletes[..k]), Trash(deletes[k]))
      ensures ok ==> j == |deletes|
      ensures !ok ==> j < |deletes| && !CanRemove(disk, Trash(deletes[j]))
    {
      hide CanRemove, RemoveUnder, Discard;
      ghost var start := disk;
      NothingDiscarded(disk, deletes);
      var k := 0;
      while k < |deletes|
        invariant 0 <= k <= |deletes| && Valid()
        invariant disk == Discard(start, deletes[..k])
        invariant forall n :: 0 <= n < k ==> CanRemove(Discard(start, deletes[..n]), Trash(deletes[n]))
      {
        DiscardMore(start, deletes, k);
        ghost var before := disk;
        var removed := RemoveEntry(Trash(deletes[k]));
        if !removed {
          CannotRemoveChangesNothing(before, Trash(deletes[k]));
          return false, k;
        }
        k := k + 1;
      }
      return true, k;
    }

    /** Rename every copy into place, then remove what was set aside; an error on the way
        drops the merge. */
    method Commit() returns (ok: bool)
      requires Valid() && !committed
      modifies this
      ensures Valid() && committed == ok
      ensures ok <==> Publishes(old(Value()))
      ensures ok ==> disk == Discard(PublishAll(old(disk), old(copies)).value, old(deletes))
      ensures !ok ==> PublishBroke(old(Value()), disk)
    {
      ghost var m := Value();
      var published, i := PublishCopies();
      if !published {
        PublishFails(m.disk, m.copies, i);
        NothingDiscarded(disk, m.deletes);
        assert Value() == Merge(Discard(disk, m.deletes[..0]), m.copies, m.deletes);
        Drop();
        assert BrokeAt(m, i, 0, disk);
        return false;
      }
      assert m.copies[..i] == m.copies;
      ghost var after := disk;
      var discarded, j := DiscardTrash();
      if !discarded {
        Drop();
        assert BrokeAt(m, i, j, disk);
        return false;
      }
      assert m.deletes[..j] == m.deletes;
      committed := true;
      ok := true;
    }

    /** Remove the copies' side files and rename back what was set aside, in order;
        errors are ignored. */
    method Drop()
      requires Valid()
      modifies this`disk
      ensures Valid() && disk == RollBack(old(Value()))
    {
      ghost var m := Value();
      var i := 0;
      NoTmpsDropped(disk);
      while i < |copies|
        invariant 0 <= i <= |copies| && WellFormed(disk)
        invariant disk == DropTmps(m.disk, m.copies[..i])
      {
        DropMore(m.disk, m.copies, i);
        var _ := RemoveEntry(Tmp(copies[i]));
        i := i + 1;
      }
      assert m.copies[..i] == m.copies;
      ghost var dropped := disk;
      i := 0;
      while i < |deletes|
        invariant 0 <= i <= |deletes| && WellFormed(disk)
        invariant disk == RestoreAll(dropped, m.deletes[..i])
      {
        TrashIsBeside(deletes[i]);
        assert m.deletes[..i + 1][..i] == m.deletes[..i];
        var _ := RenameEntry(Trash(deletes[i]), deletes[i]);
        i := i + 1;
      }
      assert m.deletes[..i] == m.deletes;
    }
  }

  // ----- the calls succeed where the source relies on it -----

  lemma TmpIsBeside(x: EntryPath)
    requires Named(x)
    ensures !(x <= Tmp(x)) && !(Tmp(x) <= x)
  {
    SideShape(TMP, x);
    assert x <= Tmp(x) ==> x == Tmp(x);
  }

  lemma TrashIsBeside(a: EntryPath)
    requires Named(a)
    ensures !(a <= Trash(a)) && !(Trash(a) <= a)
  {
    SideShape(TRASH, a);
    assert a <= Trash(a) ==> a == Trash(a);
  }

  lemma SetAsideSteps(disk: Tree, a: EntryPath)
    requires Named(a) && WellFormed(disk) && a in disk
    ensures var cleared := RemoveUnder(disk, Trash(a));
      && CanRename(cleared, a, Trash(a)) && !(Trash(a) <= a)
      && Moved(RemoveUnder(cleared, Trash(a)), a, Trash(a)) == SetAside(disk, a)
  {
    TrashIsBeside(a);
    SideShape(TRASH, a);
    assert Parent(a) < a;
    assert RemoveUnder(RemoveUnder(disk, Trash(a)), Trash(a)) == RemoveUnder(disk, Trash(a));
  }

  lemma TmpKeepsForm(disk: Tree, x: EntryPath, e: Entry)
    requires Named(x) && WellFormed(disk) && CanCopy(disk, x) && !e.Dir?
    ensures WellFormed(WithParents(disk, x)) && WellFormed(WithTmp(disk, x, e))
  {
    WithParentsWellFormed(disk, x);
    SideShape(TMP, x);
    WithParentsAt(disk, x, Parent(x));
    WithParentsAt(disk, x, Tmp(x));
    LeafKeepsForm(WithParents(disk, x), Tmp(x), e);
  }

  lemma PublishNone(disk: Tree)
    ensures PublishAll(disk, []) == Some(disk)
  {
  }

  lemma PublishMore(disk: Tree, dests: seq<EntryPath>, i: nat)
    requires i < |dests| && PublishAll(disk, dests[..i]).Some?
    ensures var before := PublishAll(disk, dests[..i]).value;
      PublishAll(disk, dests[..i + 1]) ==
        if CanRename(before, Tmp(dests[i]), dests[i]) then Some(PublishOne(before, dests[i])) else None
  {
    assert dests[..i + 1][..i] == dests[..i];
  }

  lemma PublishFails(disk: Tree, dests: seq<EntryPath>, i: nat)
    requires i < |dests| && PublishAll(disk, dests[..i]).Some?
    requires !CanRename(PublishAll(disk, dests[..i]).value, Tmp(dests[i]), dests[i])
    ensures PublishAll(disk, dests).None?
  {
    PublishMore(disk, dests, i);
    StaysFailed(disk, dests, i + 1);
  }

  lemma {:induction false} StaysFailed(disk: Tree, dests: seq<EntryPath>, i: nat)
    requires i <= |dests| && PublishAll(disk, dests[..i]).None?
    ensures PublishAll(disk, dests).None?
    decreases |dests| - i
  {
    if i < |dests| {
      assert dests[..i + 1][..i] == dests[..i];
      StaysFailed(disk, dests, i + 1);
    } else {
      assert dests[..i] == dests;
    }
  }

  lemma NothingDiscarded(disk: Tree, deletes: seq<EntryPath>)
    ensures Discard(disk, deletes[..0]) == disk
  {
    assert Trashes(deletes[..0]) == {};
  }

  lemma DiscardMore(disk: Tree, deletes: seq<EntryPath>, i: nat)
    requires i < |deletes|
    ensures Discard(disk, deletes[..i + 1]) == RemoveUnder(Discard(disk, deletes[..i]), Trash(deletes[i]))
  {
    assert deletes[..i + 1] == deletes[..i] + [deletes[i]];
    assert Trashes(deletes[..i + 1]) == Trashes(deletes[..i]) + {Trash(deletes[i])};
  }

  lemma CannotRemoveChangesNothing(disk: Tree, p: EntryPath)
    requires WellFormed(disk) && !CanRemove(disk, p)
    ensures RemoveUnder(disk, p) == disk
  {
    RemoveMissing(disk, p);
  }

  lemma NoTmpsDropped(disk: Tree)
    ensures DropTmps(disk, []) == disk
  {
    assert Tmps([]) == {};
  }

  lemma DropMore(disk: Tree, copies: seq<EntryPath>, i: nat)
    requires i < |copies|
    ensures DropTmps(disk, copies[..i + 1]) == RemoveUnder(DropTmps(disk, copies[..i]), Tmp(copies[i]))
  {
    assert copies[..i + 1] == copies[..i] + [copies[i]];
    assert Tmps(copies[..i + 1]) == Tmps(copies[..i]) + {Tmp(copies[i])};
  }
}
