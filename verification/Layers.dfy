/** One branch: a delta tree, tombstones and hide rules over an inherited view. */
module Layers {
  import opened FileTree
  import opened MergeView

  datatype Mode = Lazy | Snapshot

  datatype Kind = Missing | Directory | Regular | Link

  // What is recorded of a path when a branch first touches it.
  datatype Identity = Identity(kind: Kind, bytes: nat)
  datatype Touch = Touch(path: Path, identity: Identity, base: Option<seq<byte>>)

  datatype Layer = Layer(
    parent: Option<string>,
    mode: Mode,
    hides: set<Path>,
    files: Tree,
    inherited: Tree,
    tombs: set<Path>,
    touches: map<Path, Touch>,
    commitCount: nat,
    forkVersion: nat,
    frozen: bool
  )

  /** The deltas and the frozen inherited copy are trees on disk; no tombstone or
      hide rule names the root. */
  ghost predicate LayerOk(b: Layer) {
    WellFormed(b.files) && WellFormed(b.inherited) && [] !in b.tombs && [] !in b.hides
  }

  /** The reference meaning of a branch: its deltas over whatever part of the
      inherited view it neither deletes nor hides. */
  ghost function Overlaid(b: Layer, inherited: Tree): Tree {
    map p | p in b.files.Keys + inherited.Keys &&
            (p in b.files || (!Covered(b.tombs, p) && !Covered(b.hides, p))) ::
      if p in b.files then b.files[p] else inherited[p]
  }

  lemma OverlaidAt(b: Layer, inherited: Tree, p: Path)
    ensures Find(Overlaid(b, inherited), p) ==
      if p in b.files then Some(b.files[p])
      else if Covered(b.tombs, p) || Covered(b.hides, p) then None
      else Find(inherited, p)
  {
  }

  /** A view depends on the branch only through its deltas, tombstones and hide rules. */
  lemma OverlaidDepends(b: Layer, b': Layer, inherited: Tree)
    requires b.files == b'.files && b.tombs == b'.tombs && b.hides == b'.hides
    ensures Overlaid(b, inherited) == Overlaid(b', inherited)
  {
  }

  lemma OverlaidPrefixClosed(b: Layer, inherited: Tree)
    requires WellFormed(b.files) && PrefixClosed(inherited)
    ensures PrefixClosed(Overlaid(b, inherited))
  {
    var v := Overlaid(b, inherited);
    forall p, q | p in v && q < p
      ensures q in v
    {
      if p !in b.files {
        assert forall d :: d in b.tombs + b.hides && d <= q ==> d <= p;
      }
    }
  }

  /** No delta directory stands where the branch would otherwise see an inherited
      file or symlink. */
  ghost predicate KindStable(b: Layer, inherited: Tree) {
    forall d ::
      (d in b.files && b.files[d].Dir? && d in inherited && !Covered(b.tombs, d) && !Covered(b.hides, d)) ==>
        inherited[d].Dir?
  }

  /** `after` is `before` without some directories that were empty by the time they
      were removed. */
  ghost predicate Shrinks(before: Tree, after: Tree) {
    && WellFormed(after)
    && (forall p :: p in after ==> p in before && after[p] == before[p])
    && (forall p :: p in before && p !in after ==> before[p].Dir?)
  }

  /** The branch inherits a file or symlink at `d` and neither deletes nor hides it. */
  ghost predicate Masked(b: Layer, inherited: Tree, d: Path) {
    d in inherited && !inherited[d].Dir? && !Covered(b.tombs, d) && !Covered(b.hides, d)
  }

  /** Kind stability, asked only of the delta directories that `files` no longer has. */
  ghost predicate RemovedStable(b: Layer, files: Tree, inherited: Tree) {
    forall d :: d in b.files && d !in files ==> !Masked(b, inherited, d)
  }

  /** Dropping empty delta directories changes no file of the view exactly when none
      of them stood over an inherited file that the branch would otherwise show. */
  lemma ShrinkKeepsFilesIff(b: Layer, files: Tree, inherited: Tree)
    requires WellFormed(b.files) && PrefixClosed(inherited)
    requires Shrinks(b.files, files)
    ensures Files(Overlaid(b, inherited)) == Files(Overlaid(b.(files := files), inherited)) <==>
      RemovedStable(b, files, inherited)
  {
    hide Files, Reachable, RemovedStable;
    var v := Overlaid(b, inherited);
    var w := Overlaid(b.(files := files), inherited);
    var dirs := set d | d in b.files && b.files[d].Dir?;
    OverlaidPrefixClosed(b.(files := files), inherited);
    forall q
      ensures Find(v, q) == if q in dirs then Some(Dir) else Find(w, q)
    {
      OverlaidAt(b, inherited, q);
      OverlaidAt(b.(files := files), inherited, q);
    }
    DirsShowSameFiles(dirs, v, w);
    MasksOnlyWhereRemoved(b, files, inherited);
  }

  lemma MasksOnlyWhereRemoved(b: Layer, files: Tree, inherited: Tree)
    requires Shrinks(b.files, files)
    ensures (forall d :: d in b.files && b.files[d].Dir? ==> !Masks(Overlaid(b.(files := files), inherited), d)) <==>
      RemovedStable(b, files, inherited)
  {
    forall d | d in b.files && b.files[d].Dir?
      ensures Masks(Overlaid(b.(files := files), inherited), d) <==>
        d !in files && d in inherited && !Covered(b.tombs, d) && !Covered(b.hides, d) && !inherited[d].Dir?
    {
      OverlaidAt(b.(files := files), inherited, d);
    }
  }
}
