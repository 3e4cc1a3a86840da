/** Which content a commit publishes at each file of a branch, told by what the branch saw
    when it first touched the path, what it inherits there now and what it holds itself. */
module CommitContent {
  import opened FileTree
  import opened Layers
  import opened Edits
  import opened EditLaws
  import opened TextMerge
  import opened CommitRun

  // ----- what is recorded of an entry -----

  ghost predicate LooksAlike(e: Option<Entry>, f: Option<Entry>) {
    if e.None? || f.None? then e == f
    else if e.value.File? && f.value.File? then |e.value.data| == |f.value.data|
    else (e.value.Dir? && f.value.Dir?) || (e.value.Symlink? && f.value.Symlink?)
  }

  /** Two entries are recorded alike exactly when both are missing, both directories, both
      symlinks, or both files of one length. */
  lemma IdentityIff(e: Option<Entry>, f: Option<Entry>)
    ensures IdentityOf(e) == IdentityOf(f) <==> LooksAlike(e, f)
    ensures IdentityOf(e).kind.Regular? <==> e.Some? && e.value.File?
  {
  }

  /** A file that is kept as a text: at most a mebibyte, without NUL. */
  ghost predicate IsText(e: Option<Entry>, text: Text) {
    e == Some(File(text)) && |text| <= 0x10_0000 && forall i :: 0 <= i < |text| ==> text[i] != 0
  }

  lemma BoundedTextIff(e: Option<Entry>, text: Text)
    ensures BoundedText(e) == Some(text) <==> IsText(e, text)
    ensures BoundedText(e).Some? ==> IsText(e, BoundedText(e).value)
  {
  }

  // ----- what is published -----

  /** The branch inherits at `x` what it inherited when it first touched the path, or still
      nothing if it has no record of it. */
  ghost predicate Unmoved(c: Layer, inherited: Tree, newer: set<Path>, x: Path) {
    && x !in newer
    && if x in c.touches then c.touches[x].identity == IdentityOf(InheritedAt(c, inherited, x))
       else InheritedAt(c, inherited, x) == None
  }

  /** The three sides of a text: as first touched, as inherited now, as the branch has it. */
  ghost predicate Sides(c: Layer, inherited: Tree, x: Path, base: Text, current: Text, session: Text) {
    && x in c.touches && c.touches[x].identity.kind.Regular? && c.touches[x].base == Some(base)
    && IsText(InheritedAt(c, inherited, x), current) && IsText(Find(c.files, x), session)
  }

  /** A commit publishes the merge of the three texts exactly where the parent has changed,
      what the branch inherits has moved since the first touch, and all three sides are texts
      that merge; everywhere else, whether the parent has changed or not, the branch's own
      file. */
  lemma PublishedContent(c: Layer, changed: bool, inherited: Tree, newer: set<Path>, x: Path)
    requires !CommitPanics(c, changed, inherited, newer) && x in Leaves(c.files)
    ensures x in CommitSources(c, changed, inherited, newer)
    ensures var e := CommitSources(c, changed, inherited, newer)[x];
      && (!changed || Unmoved(c, inherited, newer, x) ==> e == c.files[x])
      && (changed && !Unmoved(c, inherited, newer, x) ==> forall base, current, session ::
            Sides(c, inherited, x, base, current, session) && ThreeWayMerge(base, current, session).Merged? ==>
              e == File(ThreeWayMerge(base, current, session).result))
      && ((forall base, current, session :: Sides(c, inherited, x, base, current, session) ==>
             !ThreeWayMerge(base, current, session).Merged?) ==> e == c.files[x])
  {
    hide ThreeWayMerge;
    BoundedSides(c, inherited, x);
    IdentityIff(None, InheritedAt(c, inherited, x));
  }

  lemma BoundedSides(c: Layer, inherited: Tree, x: Path)
    requires x in c.files
    ensures var record, cur := TouchOf(c, x), InheritedAt(c, inherited, x);
      forall base, current, session :: Sides(c, inherited, x, base, current, session) <==>
        record.identity.kind.Regular? && record.base == Some(base) && BoundedText(cur) == Some(current) &&
        BoundedText(Some(c.files[x])) == Some(session)
    ensures var record, cur := TouchOf(c, x), InheritedAt(c, inherited, x);
      record.identity.kind.Regular? && record.base.Some? && BoundedText(cur).Some? && BoundedText(Some(c.files[x])).Some? ==>
        Sides(c, inherited, x, record.base.value, BoundedText(cur).value, c.files[x].data)
  {
    var cur := InheritedAt(c, inherited, x);
    forall text
      ensures BoundedText(cur) == Some(text) <==> IsText(cur, text)
      ensures BoundedText(Some(c.files[x])) == Some(text) <==> IsText(Some(c.files[x]), text)
    {
      BoundedTextIff(cur, text);
      BoundedTextIff(Some(c.files[x]), text);
    }
  }

  /** A commit runs into the slice out of range exactly when the parent has changed and at
      some moved file of the branch the edits of the two sides tie. */
  lemma CommitPanicsIff(c: Layer, changed: bool, inherited: Tree, newer: set<Path>)
    ensures CommitPanics(c, changed, inherited, newer) <==>
      changed && exists x, base, current, session ::
        x in Leaves(c.files) && !Unmoved(c, inherited, newer, x) && Sides(c, inherited, x, base, current, session) &&
        ThreeWayMerge(base, current, session).Panics?
  {
    hide ThreeWayMerge, Sides, Unmoved;
    forall x | x in Leaves(c.files)
      ensures MergeSource(c, changed, inherited, newer, x).Panics? <==>
        changed && exists base, current, session ::
          !Unmoved(c, inherited, newer, x) && Sides(c, inherited, x, base, current, session) &&
          ThreeWayMerge(base, current, session).Panics?
    {
      SourcePanicsIff(c, changed, inherited, newer, x);
    }
  }

  lemma SourcePanicsIff(c: Layer, changed: bool, inherited: Tree, newer: set<Path>, x: Path)
    requires x in c.files
    ensures MergeSource(c, changed, inherited, newer, x).Panics? <==>
      changed && exists base, current, session ::
        !Unmoved(c, inherited, newer, x) && Sides(c, inherited, x, base, current, session) &&
        ThreeWayMerge(base, current, session).Panics?
  {
    hide ThreeWayMerge;
    BoundedSides(c, inherited, x);
    IdentityIff(None, InheritedAt(c, inherited, x));
    if MergeSource(c, changed, inherited, newer, x).Panics? {
      var record, cur := TouchOf(c, x), InheritedAt(c, inherited, x);
      assert Sides(c, inherited, x, record.base.value, BoundedText(cur).value, c.files[x].data);
    }
  }
}
