/** The storage quota: a byte count that calls add to and subtract from, and the size
    of a delta as the directory walk finds it. */
module Quota {
  import opened FileTree
  import opened Edits
  import opened EditRuns
  import opened Store
  import opened Snapshots

  const I64_LIMIT := 0x8000_0000_0000_0000

  class StorageQuota {
    var usedBytes: int
    const maxBytes: Option<nat>

    constructor (maxBytes: Option<nat>)
      ensures usedBytes == 0 && this.maxBytes == maxBytes
    {
      usedBytes := 0;
      this.maxBytes := maxBytes;
    }

    /** Whether `additional` more bytes may be stored: always without a limit, and for counts
        and limits of 63 bits whether the count is not negative and stays within the limit.
        After more has been subtracted than added nothing is allowed. */
    method Check(additional: nat) returns (ok: bool)
      ensures ok <==> QuotaAllows(maxBytes, usedBytes, additional)
      ensures maxBytes.None? ==> ok
      ensures maxBytes.Some? && maxBytes.value < I64_LIMIT && -I64_LIMIT <= usedBytes < I64_LIMIT ==>
        (ok <==> 0 <= usedBytes && usedBytes + additional <= maxBytes.value)
    {
      if maxBytes.Some? {
        var current := if usedBytes < 0 then usedBytes + U64_LIMIT else usedBytes;
        if current + additional > maxBytes.value {
          return false;
        }
      }
      ok := true;
    }

    method Add(bytes: nat)
      modifies this
      ensures usedBytes == old(usedBytes) + bytes
    {
      usedBytes := usedBytes + bytes;
    }

    method Sub(bytes: nat)
      modifies this
      ensures usedBytes == old(usedBytes) - bytes
    {
      usedBytes := usedBytes - bytes;
    }
  }

  // ----- the size of a directory -----

  /** What lies strictly below `d` under the names in `done`. */
  ghost function Walked(t: Tree, d: Path, done: set<string>): Tree {
    map q | q in t && d < q && q[|d|] in done :: t[q]
  }

  ghost function BelowTree(t: Tree, d: Path): Tree {
    map q | q in t && d < q :: t[q]
  }

  lemma WalkedOne(t: Tree, d: Path, done: set<string>, n: string)
    requires d + [n] in t && n !in done
    ensures Size(Walked(t, d, done + {n})) ==
            Size(Walked(t, d, done)) + SizeOf(t[d + [n]]) + Size(BelowTree(t, d + [n]))
  {
    hide Size, SizeOf;
    var c := d + [n];
    var more := Walked(t, d, done + {n});
    SizeOfParts(more, c);
    forall q
      ensures c <= q <==> d < q && q[|d|] == n
      ensures c <= q <==> q == c || c < q
    {
    }
    assert RemoveUnder(more, c) == Walked(t, d, done);
    assert Under(more, c) == BelowTree(t, c)[c := t[c]];
    SizeUpdate(BelowTree(t, c), c, t[c]);
  }

  lemma WalkedAll(t: Tree, d: Path)
    requires WellFormed(t)
    ensures Walked(t, d, Children(t, d)) == BelowTree(t, d)
  {
    forall q | q in t && d < q
      ensures q[|d|] in Children(t, d)
    {
      var c := d + [q[|d|]];
      assert c <= q;
      assert c == q || c < q;
      ChildrenAt(t, d, q[|d|]);
    }
  }

  /** dir_size: the bytes of all files and links below a directory. */
  method DirSize(t: Tree, d: Path) returns (total: nat)
    requires WellFormed(t) && d in t && t[d].Dir?
    ensures total == Size(BelowTree(t, d))
    decreases Below(t, d)
  {
    total := 0;
    var names := ReadDirNames(t, d);
    ghost var all, done := names, {};
    SizeOfNone(Walked(t, d, done));
    while names != {}
      invariant names + done == all && names !! done
      invariant total == Size(Walked(t, d, done))
      decreases names
    {
      var n :| n in names;
      names := names - {n};
      NamesAreChildren(t, d, n);
      WalkedOne(t, d, done, n);
      BelowShrinks(t, d, n);
      var entry := t[d + [n]];
      if entry.Dir? {
        var below := DirSize(t, d + [n]);
        total := total + below;
      } else {
        NothingBelow(t, d + [n]);
        total := total + SizeOf(entry);
      }
      done := done + {n};
    }
    WalkedAll(t, d);
    assert all == Children(t, d);
  }

  lemma SizeOfNone(t: Tree)
    requires t == map[]
    ensures Size(t) == 0
  {
    assert (map p | p in t :: SizeOf(t[p])) == map[];
  }

  lemma NothingBelow(t: Tree, p: Path)
    requires WellFormed(t) && p in t && !t[p].Dir?
    ensures Size(BelowTree(t, p)) == 0
  {
    assert BelowTree(t, p) == map[];
    SizeOfNone(BelowTree(t, p));
  }

  /** The bytes that removing the delta at `p` frees. */
  method FreedBy(t: Tree, p: Path) returns (freed: nat)
    requires WellFormed(t) && p in t
    ensures freed == Size(Under(t, p))
  {
    forall q | q in t
      ensures p <= q <==> q == p || p < q
    {
    }
    assert Under(t, p) == BelowTree(t, p)[p := t[p]];
    SizeUpdate(BelowTree(t, p), p, t[p]);
    if t[p].Dir? {
      freed := DirSize(t, p);
    } else {
      NothingBelow(t, p);
      freed := SizeOf(t[p]);
    }
  }
}
