/** Which bytes a file holds after it has been written. */
module WriteBytes {
  import opened FileTree
  import opened Layers
  import opened Edits
  import opened EditLaws
  import opened CopyUp
  import opened TextMerge

  // ----- one write -----

  /** `after` is what a write of `data` at `offset` leaves of `before`: the data, the old
      bytes before and behind it, and zeros in a gap; writing no data leaves everything. */
  ghost predicate WrittenOver(before: seq<byte>, offset: nat, data: seq<byte>, after: seq<byte>) {
    if data == [] then after == before else
      && offset + |data| <= |after| && |before| <= |after|
      && (|after| == offset + |data| || |after| == |before|)
      && after[offset..offset + |data|] == data
      && (forall i :: 0 <= i < |before| && !(offset <= i < offset + |data|) ==> after[i] == before[i])
      && (forall i :: |before| <= i < offset ==> after[i] == 0)
  }

  /** There is exactly one such content, the one that a write computes. */
  lemma OverwriteIff(before: seq<byte>, offset: nat, data: seq<byte>, after: seq<byte>)
    ensures after == Overwrite(before, offset, data) <==> WrittenOver(before, offset, data, after)
  {
    var written := Overwrite(before, offset, data);
    if data != [] {
      assert written[offset..offset + |data|] == data;
      if WrittenOver(before, offset, data, after) {
        forall i | 0 <= i < |after|
          ensures after[i] == written[i]
        {
          if offset <= i < offset + |data| {
            assert after[i] == after[offset..offset + |data|][i - offset];
          }
        }
      }
    }
  }

  /** After a successful write a reader of the branch finds the data at the offset, around it
      the bytes that the write started from, and zeros in a gap. Unless the path was deleted
      these are the bytes that the reader found there before. */
  lemma WriteReadsBack(d: Done<nat>, max: Option<nat>, inherited: Tree, p: Path, offset: nat, data: seq<byte>)
    requires Writable(d.layer, inherited, p) && Written(d, max, inherited, p, offset, data).result.Success?
    ensures var d' := Written(d, max, inherited, p, offset, data);
      && WrittenOver(Base(d, inherited, p), offset, data, Content(Overlaid(d'.layer, inherited), p))
      && d'.result == Success(|data|)
      && (p in d.layer.files || !Covered(d.layer.tombs, p) ==> Base(d, inherited, p) == Content(Overlaid(d.layer, inherited), p))
  {
    hide Overwrite, WriteEdit;
    var d' := Written(d, max, inherited, p, offset, data);
    WritableAgain(d, max, inherited, p, offset, data);
    OverlaidAt(d.layer, inherited, p);
    OverlaidAt(d'.layer, inherited, p);
    OverwriteIff(Base(d, inherited, p), offset, data, Base(d', inherited, p));
    WrittenLength(d, max, inherited, p, offset, data);
  }

  lemma WrittenLength(d: Done<nat>, max: Option<nat>, inherited: Tree, p: Path, offset: nat, data: seq<byte>)
    requires p != [] && Written(d, max, inherited, p, offset, data).result.Success?
    ensures Written(d, max, inherited, p, offset, data).result == Success(|data|)
  {
    hide Overwrite;
  }

  // ----- chunks one after the other -----

  /** Write the chunks of a file in order, each behind the one before. */
  ghost function Streamed(d: Done<nat>, max: Option<nat>, inherited: Tree, p: Path, chunks: seq<seq<byte>>): Done<nat>
    requires p != []
  {
    if chunks == [] then d else
      var n := |chunks| - 1;
      Written(Streamed(d, max, inherited, p, chunks[..n]), max, inherited, p, |Concat(chunks[..n])|, chunks[n])
  }

  ghost predicate AllSucceed(d: Done<nat>, max: Option<nat>, inherited: Tree, p: Path, chunks: seq<seq<byte>>)
    requires p != []
  {
    forall k :: 1 <= k <= |chunks| ==> Streamed(d, max, inherited, p, chunks[..k]).result.Success?
  }

  lemma {:induction false} ConcatMore(chunks: seq<seq<byte>>, last: seq<byte>)
    ensures Concat(chunks + [last]) == Concat(chunks) + last
  {
    if chunks == [] {
      assert Concat([last]) == last + Concat([]);
    } else {
      assert (chunks + [last])[1..] == chunks[1..] + [last];
      ConcatMore(chunks[1..], last);
    }
  }

  /** Appending is writing behind the end. */
  lemma OverwriteAppends(before: seq<byte>, data: seq<byte>)
    ensures Overwrite(before, |before|, data) == before + data
  {
    OverwriteIff(before, |before|, data, before + data);
  }

  /** A file that held nothing holds, after its chunks have been written one behind the
      other, the chunks in that order, however the data was cut into them. */
  lemma {:induction false} StreamReadsBack(d: Done<nat>, max: Option<nat>, inherited: Tree, p: Path, chunks: seq<seq<byte>>)
    requires Writable(d.layer, inherited, p) && Base(d, inherited, p) == []
    requires chunks != [] && AllSucceed(d, max, inherited, p, chunks)
    ensures var d' := Streamed(d, max, inherited, p, chunks);
      && Writable(d'.layer, inherited, p) && Base(d', inherited, p) == Concat(chunks)
      && Content(Overlaid(d'.layer, inherited), p) == Concat(chunks)
  {
    hide Written, Overwrite, Writable, Base, Overlaid;
    WritableIsNamed(d.layer, inherited, p);
    var n := |chunks| - 1;
    var before := Streamed(d, max, inherited, p, chunks[..n]);
    assert chunks[..n + 1] == chunks;
    if n > 0 {
      forall k | 1 <= k <= n
        ensures chunks[..n][..k] == chunks[..k]
      {
      }
      StreamReadsBack(d, max, inherited, p, chunks[..n]);
    } else {
      assert chunks[..n] == [];
    }
    assert Base(before, inherited, p) == Concat(chunks[..n]) && Writable(before.layer, inherited, p);
    var data := chunks[n];
    assert Streamed(d, max, inherited, p, chunks[..n + 1]).result.Success?;
    WritableAgain(before, max, inherited, p, |Concat(chunks[..n])|, data);
    OverwriteAppends(Concat(chunks[..n]), data);
    ConcatMore(chunks[..n], data);
    assert chunks[..n] + [data] == chunks;
    var d' := Streamed(d, max, inherited, p, chunks);
    assert Base(d', inherited, p) == Concat(chunks);
    OverlaidAt(d'.layer, inherited, p);
    BaseOfDelta(d', inherited, p);
  }

  lemma BaseOfDelta(d: Done<nat>, inherited: Tree, p: Path)
    requires p in d.layer.files
    ensures Base(d, inherited, p) == Content(d.layer.files, p)
  {
  }
}
