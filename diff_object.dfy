/**
 * Per-object extent computation of the slow diff path (`C_DiffObject` in
 * src/librbd/DiffIterate.cc): turning one object's changed byte ranges, or
 * the parent image's data when the object does not exist, into image-offset
 * triples.
 *
 * `calc_snap_set_diff` is not part of this model: its outcome (the changed
 * object-relative interval set and whether the object exists at the end
 * snapshot) is an input, together with the return codes of the `list_snaps`
 * query.
 */
module DiffObject {
  import opened Errno
  import opened Intervals
  import opened DiffCoordinator
  import opened Seqs

  /** A piece of the caller's buffer (image range) that an object extent maps: (buffer offset, length). */
  datatype BufferExtent = BufferExtent(bufOff: nat, len: nat)

  /** One object-relative range of an object and the buffer pieces it maps to, in order. */
  datatype ObjectExtent = ObjectExtent(objectNo: nat, offset: nat, length: nat,
                                       bufferExtents: seq<BufferExtent>)

  /** Outcome of the `list_snaps` query for one object and of the snapshot-set diff on it. */
  datatype ListSnapsReply = ListSnapsReply(aioRet: int, snapRet: int, diff: IntervalSet, endExists: bool)

  function SumLens(bs: seq<BufferExtent>): nat {
    if bs == [] then 0 else SumLens(bs[..|bs| - 1]) + bs[|bs| - 1].len
  }

  /** The buffer pieces of every extent add up to the extent's length (asserted by the source). */
  predicate WellFormed(exts: seq<ObjectExtent>) {
    forall i :: 0 <= i < |exts| ==> SumLens(exts[i].bufferExtents) == exts[i].length
  }

  /** Image offset `y` lies in one of the reported extents. */
  predicate Covers(ds: seq<Diff>, y: nat) {
    ds != [] && (ds[0].offset <= y < ds[0].offset + ds[0].length || Covers(ds[1..], y))
  }

  predicate AllTagged(ds: seq<Diff>, present: bool) {
    forall k :: 0 <= k < |ds| ==> ds[k].present == present && ds[k].length > 0
  }

  lemma {:induction false} CoversAppend(a: seq<Diff>, b: seq<Diff>, y: nat)
    ensures Covers(a + b, y) <==> Covers(a, y) || Covers(b, y)
  {
    if a == [] {
      assert a + b == b;
    } else {
      assert (a + b)[1..] == a[1..] + b;
      CoversAppend(a[1..], b, y);
    }
  }

  /**
   * The intervals of `ov` (all at or after object offset `opos`) as image
   * extents: an interval starting at `s` is reported at `base + (s - opos)`.
   */
  function Translate(ov: IntervalSet, opos: nat, base: nat, present: bool): seq<Diff>
    requires StartsFrom(ov, opos)
  {
    if ov == [] then []
    else
      var s := ov[|ov| - 1];
      Translate(ov[..|ov| - 1], opos, base, present) + [Diff(base + (s.start - opos), s.len, present)]
  }

  lemma {:induction false} TranslateCovers(ov: IntervalSet, opos: nat, base: nat, present: bool, y: nat)
    requires StartsFrom(ov, opos)
    ensures Covers(Translate(ov, opos, base, present), y) <==> base <= y && Contains(ov, y - base + opos)
    decreases |ov|
  {
    if ov != [] {
      var pre := ov[..|ov| - 1];
      var s := ov[|ov| - 1];
      TranslateCovers(pre, opos, base, present, y);
      var d := Diff(base + (s.start - opos), s.len, present);
      CoversAppend(Translate(pre, opos, base, present), [d], y);
      assert ov == pre + [s];
      assert Covers([d], y) <==> d.offset <= y < d.offset + d.length;
      if base <= y {
        ContainsAppend(pre, [s], y - base + opos);
        assert Contains([s], y - base + opos) <==> s.start <= y - base + opos < s.End();
      }
    }
  }

  lemma {:induction false} TranslateTagged(ov: IntervalSet, opos: nat, base: nat, present: bool)
    requires StartsFrom(ov, opos)
    requires forall i :: 0 <= i < |ov| ==> ov[i].len > 0
    ensures AllTagged(Translate(ov, opos, base, present), present)
    decreases |ov|
  {
    if ov != [] {
      TranslateTagged(ov[..|ov| - 1], opos, base, present);
    }
  }

  // ---------------------------------------------------------------------
  // compute_diffs

  /**
   * The precise pieces for the buffer extents `bs` of one object extent
   * starting at object offset `objOff`: buffer piece j covers object bytes
   * from `objOff + SumLens(bs[..j])` on.
   */
  function BufferPieces(diff: IntervalSet, bs: seq<BufferExtent>, objOff: nat,
                        imageOff: nat, endExists: bool): seq<Diff>
  {
    if bs == [] then []
    else
      var pre := bs[..|bs| - 1];
      var r := bs[|bs| - 1];
      var opos := objOff + SumLens(pre);
      BufferPieces(diff, pre, objOff, imageOff, endExists)
        + Translate(Clip(diff, opos, opos + r.len), opos, imageOff + r.bufOff, endExists)
  }

  function PreciseDiffs(diff: IntervalSet, exts: seq<ObjectExtent>, imageOff: nat, endExists: bool): seq<Diff>
  {
    if exts == [] then []
    else
      var q := exts[|exts| - 1];
      PreciseDiffs(diff, exts[..|exts| - 1], imageOff, endExists)
        + BufferPieces(diff, q.bufferExtents, q.offset, imageOff, endExists)
  }

  /** Whole-object mode: one extent per object extent, at `imageOff + offset`. */
  function WholeObjectDiffs(exts: seq<ObjectExtent>, imageOff: nat, endExists: bool): seq<Diff>
  {
    seq(|exts|, i requires 0 <= i < |exts| => Diff(imageOff + exts[i].offset, exts[i].length, endExists))
  }

  /** What `compute_diffs` reports for one object. */
  function ObjectDiffs(diff: IntervalSet, endExists: bool, wholeObject: bool,
                       exts: seq<ObjectExtent>, imageOff: nat): seq<Diff>
  {
    if diff == [] then []
    else if wholeObject then WholeObjectDiffs(exts, imageOff, endExists)
    else PreciseDiffs(diff, exts, imageOff, endExists)
  }

  /** One more buffer piece, read from object offset `opos`, appends its translated overlap `ov`. */
  lemma BufferPiecesSnoc(diff: IntervalSet, bs: seq<BufferExtent>, r: BufferExtent, objOff: nat,
                         imageOff: nat, endExists: bool, opos: nat, ov: IntervalSet)
    requires opos == objOff + SumLens(bs) && ov == Clip(diff, opos, opos + r.len)
    ensures SumLens(bs + [r]) == opos - objOff + r.len
    ensures BufferPieces(diff, bs + [r], objOff, imageOff, endExists) ==
            BufferPieces(diff, bs, objOff, imageOff, endExists) + Translate(ov, opos, imageOff + r.bufOff, endExists)
  {
    assert (bs + [r])[..|bs|] == bs;
  }

  /**
   * One more buffer piece `r`, read from object offset `opos` (the end of
   * the pieces before it): appending its translated overlap `ov` to what
   * the earlier pieces reported gives what all of them report.
   */
  lemma BufferPiecesStep(diff: IntervalSet, bs: seq<BufferExtent>, i: nat, objOff: nat,
                         imageOff: nat, endExists: bool, opos: nat, r: BufferExtent, ov: IntervalSet,
                         diffs: seq<Diff>, out: seq<Diff>)
    requires i < |bs| && r == bs[i] && opos == objOff + SumLens(bs[..i])
    requires ov == Clip(diff, opos, opos + r.len)
    requires out == diffs + BufferPieces(diff, bs[..i], objOff, imageOff, endExists)
    ensures opos + r.len == objOff + SumLens(bs[..i + 1])
    ensures out + Translate(ov, opos, imageOff + r.bufOff, endExists) ==
            diffs + BufferPieces(diff, bs[..i + 1], objOff, imageOff, endExists)
  {
    var pre := bs[..i];
    var done := BufferPieces(diff, pre, objOff, imageOff, endExists);
    var part := Translate(ov, opos, imageOff + r.bufOff, endExists);
    assert bs[..i + 1] == pre + [r];
    BufferPiecesSnoc(diff, pre, r, objOff, imageOff, endExists, opos, ov);
    Assoc(diffs, done, part);
  }

  /**
   * Image offset `y` lies in buffer piece `b`, and the object byte behind it
   * (the piece maps object bytes from `opos` on) is in `diff`.
   */
  predicate PieceChanged(diff: IntervalSet, opos: nat, b: BufferExtent, imageOff: nat, y: nat) {
    InBuffer(b, imageOff, y) && Contains(diff, opos + (y - imageOff - b.bufOff))
  }

  /** `y` is in some buffer piece of `bs` whose object byte changed; the pieces map object bytes from `objOff` on, in order. */
  predicate BufferChanged(diff: IntervalSet, objOff: nat, bs: seq<BufferExtent>, imageOff: nat, y: nat) {
    bs != [] &&
    (BufferChanged(diff, objOff, bs[..|bs| - 1], imageOff, y) ||
     PieceChanged(diff, objOff + SumLens(bs[..|bs| - 1]), bs[|bs| - 1], imageOff, y))
  }

  /** `y` maps, through some extent and buffer piece, to a changed object byte. */
  predicate ImageByteChanged(diff: IntervalSet, exts: seq<ObjectExtent>, imageOff: nat, y: nat) {
    exts != [] &&
    (ImageByteChanged(diff, exts[..|exts| - 1], imageOff, y) ||
     BufferChanged(diff, exts[|exts| - 1].offset, exts[|exts| - 1].bufferExtents, imageOff, y))
  }

  lemma {:induction false} BufferPiecesCover(diff: IntervalSet, bs: seq<BufferExtent>, objOff: nat,
                                             imageOff: nat, endExists: bool, y: nat)
    ensures Covers(BufferPieces(diff, bs, objOff, imageOff, endExists), y) <==>
            BufferChanged(diff, objOff, bs, imageOff, y)
    decreases |bs|
  {
    if bs != [] {
      var pre := bs[..|bs| - 1];
      var r := bs[|bs| - 1];
      var opos := objOff + SumLens(pre);
      var ov := Clip(diff, opos, opos + r.len);
      var P := BufferPieces(diff, pre, objOff, imageOff, endExists);
      var T := Translate(ov, opos, imageOff + r.bufOff, endExists);
      assert BufferPieces(diff, bs, objOff, imageOff, endExists) == P + T;
      assert BufferChanged(diff, objOff, bs, imageOff, y) <==>
             BufferChanged(diff, objOff, pre, imageOff, y) || PieceChanged(diff, opos, r, imageOff, y);
      BufferPiecesCover(diff, pre, objOff, imageOff, endExists, y);
      CoversAppend(P, T, y);
      PieceCover(diff, opos, r, imageOff, endExists, y);
    }
  }

  /** One buffer piece reports exactly its image bytes whose object bytes changed. */
  lemma PieceCover(diff: IntervalSet, opos: nat, r: BufferExtent, imageOff: nat, endExists: bool, y: nat)
    ensures Covers(Translate(Clip(diff, opos, opos + r.len), opos, imageOff + r.bufOff, endExists), y) <==>
            PieceChanged(diff, opos, r, imageOff, y)
  {
    var base := imageOff + r.bufOff;
    var ov := Clip(diff, opos, opos + r.len);
    if base <= y {
      var x: nat := y - base + opos;
      calc {
        Covers(Translate(ov, opos, base, endExists), y);
      == { TranslateCovers(ov, opos, base, endExists, y); }
        Contains(ov, x);
      == { ClipContains(diff, opos, opos + r.len, x); }
        Contains(diff, x) && opos <= x < opos + r.len;
      == { assert x == opos + (y - imageOff - r.bufOff); }
        PieceChanged(diff, opos, r, imageOff, y);
      }
    } else {
      TranslateCovers(ov, opos, base, endExists, y);
      assert !InBuffer(r, imageOff, y);
    }
  }

  /**
   * Precise mode reports exactly the image bytes whose object bytes changed:
   * every reported byte maps to a changed object byte, and every such byte
   * is reported.
   */
  lemma {:induction false} PreciseDiffsCover(diff: IntervalSet, exts: seq<ObjectExtent>,
                                             imageOff: nat, endExists: bool, y: nat)
    ensures Covers(PreciseDiffs(diff, exts, imageOff, endExists), y) <==>
            ImageByteChanged(diff, exts, imageOff, y)
    decreases |exts|
  {
    if exts != [] {
      var pre := exts[..|exts| - 1];
      var q := exts[|exts| - 1];
      PreciseDiffsCover(diff, pre, imageOff, endExists, y);
      CoversAppend(PreciseDiffs(diff, pre, imageOff, endExists),
                   BufferPieces(diff, q.bufferExtents, q.offset, imageOff, endExists), y);
      BufferPiecesCover(diff, q.bufferExtents, q.offset, imageOff, endExists, y);
    }
  }

  /** Every precise piece carries the end-existence tag and is non-empty. */
  lemma {:induction false} PreciseDiffsTagged(diff: IntervalSet, exts: seq<ObjectExtent>,
                                              imageOff: nat, endExists: bool)
    ensures AllTagged(PreciseDiffs(diff, exts, imageOff, endExists), endExists)
    decreases |exts|
  {
    if exts != [] {
      PreciseDiffsTagged(diff, exts[..|exts| - 1], imageOff, endExists);
      BufferPiecesTagged(diff, exts[|exts| - 1].bufferExtents, exts[|exts| - 1].offset, imageOff, endExists);
    }
  }

  lemma {:induction false} BufferPiecesTagged(diff: IntervalSet, bs: seq<BufferExtent>, objOff: nat,
                                              imageOff: nat, endExists: bool)
    ensures AllTagged(BufferPieces(diff, bs, objOff, imageOff, endExists), endExists)
    decreases |bs|
  {
    if bs != [] {
      var pre := bs[..|bs| - 1];
      var r := bs[|bs| - 1];
      var opos := objOff + SumLens(pre);
      BufferPiecesTagged(diff, pre, objOff, imageOff, endExists);
      TranslateTagged(Clip(diff, opos, opos + r.len), opos, imageOff + r.bufOff, endExists);
    }
  }

  /**
   * `compute_diffs`: nothing for an unchanged object; in whole-object mode
   * one triple per object extent; otherwise the precise pieces.
   */
  method ComputeDiffs(diff: IntervalSet, endExists: bool, wholeObject: bool,
                      exts: seq<ObjectExtent>, imageOff: nat) returns (diffs: seq<Diff>)
    requires Canonical(diff) && WellFormed(exts)
    ensures diff == [] ==> diffs == []
    ensures diff != [] && wholeObject ==>
              |diffs| == |exts| &&
              forall i :: 0 <= i < |exts| ==>
                diffs[i] == Diff(imageOff + exts[i].offset, exts[i].length, endExists)
    ensures diff != [] && !wholeObject ==> diffs == PreciseDiffs(diff, exts, imageOff, endExists)
    ensures diffs == ObjectDiffs(diff, endExists, wholeObject, exts, imageOff)
  {
    diffs := [];
    if diff == [] {
      return;
    } else if wholeObject {
      for qi := 0 to |exts|
        invariant diffs == WholeObjectDiffs(exts[..qi], imageOff, endExists)
      {
        var q := exts[qi];
        diffs := diffs + [Diff(imageOff + q.offset, q.length, endExists)];
      }
      assert exts[..|exts|] == exts;
      return;
    }

    for qi := 0 to |exts|
      invariant diffs == PreciseDiffs(diff, exts[..qi], imageOff, endExists)
    {
      assert exts[..qi + 1][..qi] == exts[..qi];
      diffs := AppendBufferPieces(diffs, diff, exts[qi], imageOff, endExists);
    }
    assert exts[..|exts|] == exts;
  }

  /** The loop over the buffer pieces of one object extent `q`. */
  method AppendBufferPieces(diffs: seq<Diff>, diff: IntervalSet, q: ObjectExtent,
                            imageOff: nat, endExists: bool) returns (out: seq<Diff>)
    requires SumLens(q.bufferExtents) == q.length
    ensures out == diffs + BufferPieces(diff, q.bufferExtents, q.offset, imageOff, endExists)
  {
    var bs := q.bufferExtents;
    out := diffs;
    var opos := q.offset;
    for ri := 0 to |bs|
      invariant opos == q.offset + SumLens(bs[..ri])
      invariant out == diffs + BufferPieces(diff, bs[..ri], q.offset, imageOff, endExists)
    {
      var r := bs[ri];
      var ov := Clip(diff, opos, opos + r.len);
      BufferPiecesStep(diff, bs, ri, q.offset, imageOff, endExists, opos, r, ov, diffs, out);
      out := AppendTranslated(out, ov, opos, imageOff + r.bufOff, endExists);
      opos := opos + r.len;
    }
    assert bs[..|bs|] == bs;
    assert opos == q.offset + q.length;
  }

  /** The loop over one overlap: each interval reported at its image offset. */
  method AppendTranslated(diffs: seq<Diff>, ov: IntervalSet, opos: nat, base: nat, present: bool)
    returns (out: seq<Diff>)
    requires StartsFrom(ov, opos)
    ensures out == diffs + Translate(ov, opos, base, present)
  {
    out := diffs;
    for si := 0 to |ov|
      invariant out == diffs + Translate(ov[..si], opos, base, present)
    {
      var s := ov[si];
      var suOff := s.start - opos;
      assert ov[..si + 1] == ov[..si] + [s];
      Assoc(diffs, Translate(ov[..si], opos, base, present), [Diff(base + suOff, s.len, present)]);
      out := out + [Diff(base + suOff, s.len, present)];
    }
    assert ov[..|ov|] == ov;
  }

  // ---------------------------------------------------------------------
  // compute_parent_overlap

  /** The parent-image data inside the image range of buffer piece `r`, as data extents. */
  function ParentPiece(parentDiff: IntervalSet, r: BufferExtent, imageOff: nat): seq<Diff>
  {
    var lo := imageOff + r.bufOff;
    Translate(Clip(parentDiff, lo, lo + r.len), 0, 0, true)
  }

  /** The parent-image data inside the image ranges of buffer pieces `bs`, as data extents. */
  function ParentPieces(parentDiff: IntervalSet, bs: seq<BufferExtent>, imageOff: nat): seq<Diff>
  {
    if bs == [] then []
    else ParentPieces(parentDiff, bs[..|bs| - 1], imageOff) + ParentPiece(parentDiff, bs[|bs| - 1], imageOff)
  }

  function ParentExtents(parentDiff: IntervalSet, exts: seq<ObjectExtent>, imageOff: nat): seq<Diff>
  {
    if exts == [] then []
    else
      ParentExtents(parentDiff, exts[..|exts| - 1], imageOff)
        + ParentPieces(parentDiff, exts[|exts| - 1].bufferExtents, imageOff)
  }

  /** What `compute_parent_overlap` reports: parent data, only when diffing from the start. */
  function ParentOverlapDiffs(parentDiff: IntervalSet, fromSnapId: nat,
                              exts: seq<ObjectExtent>, imageOff: nat): seq<Diff>
  {
    if fromSnapId == 0 && parentDiff != [] then ParentExtents(parentDiff, exts, imageOff) else []
  }

  predicate InBuffer(b: BufferExtent, imageOff: nat, y: nat) {
    imageOff + b.bufOff <= y < imageOff + b.bufOff + b.len
  }

  /** `y` lies in the image range of some buffer piece of `bs`. */
  predicate InSomeBuffer(bs: seq<BufferExtent>, imageOff: nat, y: nat) {
    bs != [] && (InSomeBuffer(bs[..|bs| - 1], imageOff, y) || InBuffer(bs[|bs| - 1], imageOff, y))
  }

  /** `y` lies in the image range of some buffer piece of some extent. */
  predicate InSomeExtent(exts: seq<ObjectExtent>, imageOff: nat, y: nat) {
    exts != [] &&
    (InSomeExtent(exts[..|exts| - 1], imageOff, y) || InSomeBuffer(exts[|exts| - 1].bufferExtents, imageOff, y))
  }

  /** Translated to image offset 0 from object offset 0, the extents cover exactly the set. */
  lemma TranslateIdentityCovers(ov: IntervalSet, y: nat)
    requires StartsFrom(ov, 0)
    ensures Covers(Translate(ov, 0, 0, true), y) <==> Contains(ov, y)
  {
    TranslateCovers(ov, 0, 0, true, y);
  }

  lemma ParentPieceCover(parentDiff: IntervalSet, r: BufferExtent, imageOff: nat, y: nat)
    ensures Covers(ParentPiece(parentDiff, r, imageOff), y) <==>
            Contains(parentDiff, y) && InBuffer(r, imageOff, y)
  {
    var lo := imageOff + r.bufOff;
    var ov := Clip(parentDiff, lo, lo + r.len);
    calc {
      Covers(ParentPiece(parentDiff, r, imageOff), y);
    ==
      Covers(Translate(ov, 0, 0, true), y);
    == { TranslateIdentityCovers(ov, y); }
      Contains(ov, y);
    == { ClipContains(parentDiff, lo, lo + r.len, y); }
      Contains(parentDiff, y) && InBuffer(r, imageOff, y);
    }
  }

  lemma {:induction false} ParentPiecesCover(parentDiff: IntervalSet, bs: seq<BufferExtent>, imageOff: nat, y: nat)
    ensures Covers(ParentPieces(parentDiff, bs, imageOff), y) <==>
            Contains(parentDiff, y) && InSomeBuffer(bs, imageOff, y)
    decreases |bs|
  {
    if bs != [] {
      var pre := bs[..|bs| - 1];
      var r := bs[|bs| - 1];
      ParentPiecesCover(parentDiff, pre, imageOff, y);
      CoversAppend(ParentPieces(parentDiff, pre, imageOff), ParentPiece(parentDiff, r, imageOff), y);
      ParentPieceCover(parentDiff, r, imageOff, y);
    }
  }

  lemma {:induction false} ParentPiecesTagged(parentDiff: IntervalSet, bs: seq<BufferExtent>, imageOff: nat)
    ensures AllTagged(ParentPieces(parentDiff, bs, imageOff), true)
    decreases |bs|
  {
    if bs != [] {
      var r := bs[|bs| - 1];
      var lo := imageOff + r.bufOff;
      ParentPiecesTagged(parentDiff, bs[..|bs| - 1], imageOff);
      TranslateTagged(Clip(parentDiff, lo, lo + r.len), 0, 0, true);
      assert ParentPiece(parentDiff, r, imageOff) == Translate(Clip(parentDiff, lo, lo + r.len), 0, 0, true);
    }
  }

  lemma {:induction false} ParentExtentsCover(parentDiff: IntervalSet, exts: seq<ObjectExtent>, imageOff: nat, y: nat)
    ensures AllTagged(ParentExtents(parentDiff, exts, imageOff), true)
    ensures Covers(ParentExtents(parentDiff, exts, imageOff), y) <==>
            Contains(parentDiff, y) && InSomeExtent(exts, imageOff, y)
    decreases |exts|
  {
    if exts != [] {
      var pre := exts[..|exts| - 1];
      var q := exts[|exts| - 1];
      ParentExtentsCover(parentDiff, pre, imageOff, y);
      ParentPiecesCover(parentDiff, q.bufferExtents, imageOff, y);
      ParentPiecesTagged(parentDiff, q.bufferExtents, imageOff);
      CoversAppend(ParentExtents(parentDiff, pre, imageOff), ParentPieces(parentDiff, q.bufferExtents, imageOff), y);
    }
  }

  /**
   * The parent overlap is non-empty only when diffing from the start with a
   * non-empty parent diff; it covers exactly the parent data inside the
   * object's image ranges, all reported as data.
   */
  lemma ParentOverlapCover(parentDiff: IntervalSet, fromSnapId: nat,
                           exts: seq<ObjectExtent>, imageOff: nat, y: nat)
    ensures ParentOverlapDiffs(parentDiff, fromSnapId, exts, imageOff) != [] ==>
              fromSnapId == 0 && parentDiff != []
    ensures AllTagged(ParentOverlapDiffs(parentDiff, fromSnapId, exts, imageOff), true)
    ensures Covers(ParentOverlapDiffs(parentDiff, fromSnapId, exts, imageOff), y) <==>
            fromSnapId == 0 && Contains(parentDiff, y) && InSomeExtent(exts, imageOff, y)
  {
    ParentExtentsCover(parentDiff, exts, imageOff, y);
  }

  /** `compute_parent_overlap`. */
  method ComputeParentOverlap(parentDiff: IntervalSet, fromSnapId: nat,
                              exts: seq<ObjectExtent>, imageOff: nat) returns (diffs: seq<Diff>)
    ensures diffs == ParentOverlapDiffs(parentDiff, fromSnapId, exts, imageOff)
  {
    diffs := [];
    if fromSnapId == 0 && parentDiff != [] {
      for qi := 0 to |exts|
        invariant diffs == ParentExtents(parentDiff, exts[..qi], imageOff)
      {
        assert exts[..qi + 1][..qi] == exts[..qi];
        assert exts[..qi + 1][qi] == exts[qi];
        diffs := AppendParentPieces(diffs, parentDiff, exts[qi].bufferExtents, imageOff);
      }
      assert exts[..|exts|] == exts;
    }
  }

  /** Appending the clipped parent data of piece `bs[i]` extends the report by one piece. */
  lemma ParentPiecesStep(parentDiff: IntervalSet, bs: seq<BufferExtent>, i: nat, imageOff: nat,
                         r: BufferExtent, ov: IntervalSet, diffs: seq<Diff>, out: seq<Diff>)
    requires i < |bs| && r == bs[i] && ov == Clip(parentDiff, imageOff + r.bufOff, imageOff + r.bufOff + r.len)
    requires out == diffs + ParentPieces(parentDiff, bs[..i], imageOff)
    ensures out + Translate(ov, 0, 0, true) == diffs + ParentPieces(parentDiff, bs[..i + 1], imageOff)
  {
    var pre := bs[..i];
    assert bs[..i + 1] == pre + [r];
    assert (pre + [r])[..i] == pre;
    assert ParentPiece(parentDiff, r, imageOff) == Translate(ov, 0, 0, true);
    Assoc(diffs, ParentPieces(parentDiff, pre, imageOff), Translate(ov, 0, 0, true));
  }

  /** The loop over the buffer pieces of one object extent, clipping the parent diff to each. */
  method AppendParentPieces(diffs: seq<Diff>, parentDiff: IntervalSet, bs: seq<BufferExtent>, imageOff: nat)
    returns (out: seq<Diff>)
    ensures out == diffs + ParentPieces(parentDiff, bs, imageOff)
  {
    out := diffs;
    for ri := 0 to |bs|
      invariant out == diffs + ParentPieces(parentDiff, bs[..ri], imageOff)
    {
      var r := bs[ri];
      var ov := Clip(parentDiff, imageOff + r.bufOff, imageOff + r.bufOff + r.len);
      ParentPiecesStep(parentDiff, bs, ri, imageOff, r, ov, diffs, out);
      out := AppendTranslated(out, ov, 0, 0, true);
    }
    assert bs[..|bs|] == bs;
  }

  // ---------------------------------------------------------------------
  // finish

  /** The status `finish` starts from: the completion code, or the `list_snaps` op's own code. */
  function ListStatus(reply: ListSnapsReply): int {
    if reply.aioRet == 0 && reply.snapRet < 0 then reply.snapRet else reply.aioRet
  }

  /** What `finish` passes to `finish_op`: the status and the object's extents. */
  function ObjectOutcome(reply: ListSnapsReply, wholeObject: bool, fromSnapId: nat,
                         parentDiff: IntervalSet, exts: seq<ObjectExtent>, imageOff: nat): (int, seq<Diff>)
  {
    var r := ListStatus(reply);
    if r == 0 then (0, ObjectDiffs(reply.diff, reply.endExists, wholeObject, exts, imageOff))
    else if r == -ENOENT then (0, ParentOverlapDiffs(parentDiff, fromSnapId, exts, imageOff))
    else (r, [])
  }

  /**
   * `C_DiffObject::finish`: a missing object is not an error and reports the
   * parent overlap instead; any other failure reports nothing and passes
   * the error on.
   */
  method FinishDiffObject(reply: ListSnapsReply, wholeObject: bool, fromSnapId: nat,
                          parentDiff: IntervalSet, exts: seq<ObjectExtent>, imageOff: nat)
    returns (r: int, diffs: seq<Diff>)
    requires Canonical(reply.diff) && WellFormed(exts)
    ensures (r, diffs) == ObjectOutcome(reply, wholeObject, fromSnapId, parentDiff, exts, imageOff)
    ensures ListStatus(reply) == 0 ==>
              r == 0 && diffs == ObjectDiffs(reply.diff, reply.endExists, wholeObject, exts, imageOff)
    ensures ListStatus(reply) == -ENOENT ==>
              r == 0 && diffs == ParentOverlapDiffs(parentDiff, fromSnapId, exts, imageOff)
    ensures ListStatus(reply) != 0 && ListStatus(reply) != -ENOENT ==>
              r == ListStatus(reply) && diffs == []
  {
    r := reply.aioRet;
    if r == 0 && reply.snapRet < 0 {
      r := reply.snapRet;
    }
    diffs := [];
    if r == 0 {
      diffs := ComputeDiffs(reply.diff, reply.endExists, wholeObject, exts, imageOff);
    } else if r == -ENOENT {
      r := 0;
      diffs := ComputeParentOverlap(parentDiff, fromSnapId, exts, imageOff);
    }
  }
}
