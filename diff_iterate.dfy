/**
 * The top level of `DiffIterate` (src/librbd/DiffIterate.cc): validating the
 * snapshot range, choosing between the fast (object map) and the slow
 * (per-object `list_snaps`) path, collecting the parent image's extents, and
 * walking the requested image range one stripe period at a time.
 *
 * What the walk reads from the image is an input value: the resolved
 * snapshot ids, the object map metadata, the outcome of the parent diff, the
 * stripe period, the striping layout (`Striper::file_to_extents`) and the
 * reply each object's `list_snaps` query gets.
 */
module DiffIterate {
  import opened Errno
  import opened Intervals
  import opened DiffCoordinator
  import opened DiffObject
  import opened ObjectMapDiff
  import opened Seqs

  /** The extents of one object inside one stripe period (one entry of `file_to_extents`' map). */
  datatype ObjectGroup = ObjectGroup(oid: nat, extents: seq<ObjectExtent>)

  /** The parent step: no parent data to diff, or the recursive diff's result and the extents it reported. */
  datatype ParentScan = NoParent | ParentScan(ret: int, extents: seq<Diff>)

  /** One stripe-period-bounded piece of the requested range. */
  datatype Chunk = Chunk(off: nat, len: nat)

  datatype Image = Image(
    fromSnapId: nat,              // 0 for "from the beginning", NOSNAP when the start snapshot is unknown
    endSnapId: nat,               // the open snapshot, NOSNAP for the head
    fastDiffFeature: bool,
    meta: ImageMeta,
    parent: ParentScan,
    period: nat,
    layout: (nat, nat) -> seq<ObjectGroup>,
    listSnaps: (nat, nat) -> ListSnapsReply,   // by chunk offset and object
    concurrentOps: nat)

  datatype Request = Request(offset: nat, length: nat, includeParent: bool, wholeObject: bool)

  /** What the fast path and the slow path use for the walk. */
  datatype Plan = Plan(fast: bool, state: seq<DiffState>, parentDiff: IntervalSet)

  predicate LayoutOk(gs: seq<ObjectGroup>) {
    forall i :: 0 <= i < |gs| ==> gs[i].extents != [] && WellFormed(gs[i].extents)
  }

  predicate AllPresent(ds: seq<Diff>) {
    forall k :: 0 <= k < |ds| ==> ds[k].present
  }

  /**
   * What the source takes for granted about the image: a snapshot table keyed
   * by id, snapshot ids that name snapshots, a positive stripe period and
   * operation limit, non-empty well-formed object extents, canonical diffs,
   * and a parent that reports only data.
   */
  ghost predicate ImageOk(img: Image) {
    && SnapsSorted(img.meta.snaps)
    && (img.fromSnapId == 0 || img.fromSnapId == NOSNAP || HasSnap(img.meta.snaps, img.fromSnapId))
    && (img.endSnapId == NOSNAP || HasSnap(img.meta.snaps, img.endSnapId))
    && img.period > 0
    && img.concurrentOps > 0
    && (forall o, l :: LayoutOk(img.layout(o, l)))
    && (forall o, oid :: Canonical(img.listSnaps(o, oid).diff))
    && (img.parent.ParentScan? ==> AllPresent(img.parent.extents))
  }

  /** The snapshot range passes validation. */
  predicate Proceeds(img: Image) {
    img.fromSnapId < img.endSnapId
  }

  predicate ParentFails(img: Image, req: Request) {
    req.includeParent && img.fromSnapId == 0 && img.parent.ParentScan? && img.parent.ret < 0
  }

  function Min(a: nat, b: nat): nat {
    if a < b then a else b
  }

  // ---------------------------------------------------------------------
  // simple_diff_cb and the parent diff

  /** `simple_diff_cb`: adds the reported range to the interval set; the extent must be data. */
  function SimpleDiffCb(s: IntervalSet, off: nat, len: nat, exists_: bool): (res: (int, IntervalSet))
    requires exists_ && Canonical(s)
    ensures res.0 == 0 && Canonical(res.1)
    ensures forall x: nat :: Contains(res.1, x) <==> Contains(s, x) || off <= x < off + len
  {
    UnionCorrect(s, off, off + len);
    (0, Union(s, off, off + len))
  }

  /** The parent diff after `simple_diff_cb` received the extents `ds` in order. */
  function ParentDiffFrom(ds: seq<Diff>): (s: IntervalSet)
    requires AllPresent(ds)
    ensures Canonical(s)
  {
    if ds == [] then []
    else
      var d := ds[|ds| - 1];
      SimpleDiffCb(ParentDiffFrom(ds[..|ds| - 1]), d.offset, d.length, d.present).1
  }

  /** The parent diff holds exactly the bytes the parent's extents cover. */
  lemma {:induction false} ParentDiffCovers(ds: seq<Diff>, x: nat)
    requires AllPresent(ds)
    ensures Contains(ParentDiffFrom(ds), x) <==> Covers(ds, x)
    decreases |ds|
  {
    if ds != [] {
      var pre := ds[..|ds| - 1];
      var d := ds[|ds| - 1];
      ParentDiffCovers(pre, x);
      assert ds == pre + [d];
      CoversAppend(pre, [d], x);
      assert Covers([d], x) <==> d.offset <= x < d.offset + d.length;
    }
  }

  function ParentDiffOf(img: Image, req: Request): IntervalSet
    requires ImageOk(img)
  {
    if req.includeParent && img.fromSnapId == 0 && img.parent.ParentScan? then ParentDiffFrom(img.parent.extents)
    else []
  }

  // ---------------------------------------------------------------------
  // The walk over the requested range

  /** The stripe-period pieces of [off, off + left), in order. */
  function Chunks(off: nat, left: nat, period: nat): (cs: seq<Chunk>)
    requires period > 0
    ensures forall i :: 0 <= i < |cs| ==> 0 < cs[i].len
    ensures left > 0 ==> cs != [] && cs[0].off == off
    ensures Contiguous(cs)
    ensures TotalLen(cs) == left
    decreases left
  {
    if left == 0 then []
    else
      var readLen := Min(period - off % period, left);
      var rest := Chunks(off + readLen, left - readLen, period);
      [Chunk(off, readLen)] + rest
  }

  /** No chunk crosses a stripe-period boundary. */
  lemma {:induction false} ChunksInPeriod(off: nat, left: nat, period: nat)
    requires period > 0
    ensures forall i :: 0 <= i < |Chunks(off, left, period)| ==>
              Chunks(off, left, period)[i].off % period + Chunks(off, left, period)[i].len <= period
    decreases left
  {
    if left > 0 {
      var readLen := Min(period - off % period, left);
      ChunksInPeriod(off + readLen, left - readLen, period);
      var cs := Chunks(off, left, period);
      assert cs[1..] == Chunks(off + readLen, left - readLen, period);
      forall i | 0 <= i < |cs| ensures cs[i].off % period + cs[i].len <= period {
        if i > 0 { assert cs[i] == cs[1..][i - 1]; }
      }
    }
  }

  /** Each chunk starts where the previous one ends. */
  predicate Contiguous(cs: seq<Chunk>) {
    |cs| <= 1 || (cs[1].off == cs[0].off + cs[0].len && Contiguous(cs[1..]))
  }

  function TotalLen(cs: seq<Chunk>): nat {
    if cs == [] then 0 else cs[0].len + TotalLen(cs[1..])
  }

  /** The object's entry in the fast-diff state; objects past its end read as unchanged. */
  function StateOf(state: seq<DiffState>, objectNo: nat): DiffState {
    if objectNo < |state| then state[objectNo] else NoDiff
  }

  /** Fast path: every extent of a changed object, flagged as data when it was updated. */
  function FastDiffs(st: DiffState, off: nat, exts: seq<ObjectExtent>): seq<Diff> {
    if st == NoDiff then []
    else seq(|exts|, i requires 0 <= i < |exts| => Diff(off + exts[i].offset, exts[i].length, st == Updated))
  }

  /** What part of the walk ends with: 0 or the error that stops the walk, and the extents reported up to there. */
  datatype Report = Report(status: int, diffs: seq<Diff>)

  /**
   * What one object of a stripe period reports, by the path the plan chose.
   * The fast path cannot fail; a slow-path query that fails reports nothing,
   * and its error stops the walk. `file_to_extents` never maps an object to
   * no extents; the empty case is there only to make the function total.
   */
  function GroupReport(img: Image, req: Request, plan: Plan, off: nat, g: ObjectGroup): (res: Report)
    ensures res.status <= 0
    ensures plan.fast ==> res.status == 0
  {
    if g.extents == [] then Report(0, [])
    else if plan.fast then Report(0, FastDiffs(StateOf(plan.state, g.extents[0].objectNo), off, g.extents))
    else
      var (r, ds) := ObjectOutcome(img.listSnaps(off, g.oid), req.wholeObject, img.fromSnapId,
                                   plan.parentDiff, g.extents, off);
      Report(if r < 0 then r else 0, ds)
  }

  /**
   * Walk `xs` in order, reporting what each element reports, and stop after
   * the first element that fails: the status is that element's error, or 0
   * when none fails.
   */
  function Run<T>(f: T -> Report, xs: seq<T>): (res: Report)
    ensures res.status <= 0
  {
    if xs == [] then Report(0, [])
    else
      var pre := Run(f, xs[..|xs| - 1]);
      if pre.status < 0 then pre
      else
        var last := f(xs[|xs| - 1]);
        Report(if last.status < 0 then last.status else 0, pre.diffs + last.diffs)
  }

  function GroupFn(img: Image, req: Request, plan: Plan, off: nat): ObjectGroup -> Report {
    g => GroupReport(img, req, plan, off, g)
  }

  /** What the objects of one stripe period report, in `file_to_extents` order. */
  function ChunkReport(img: Image, req: Request, plan: Plan, c: Chunk): Report {
    Run(GroupFn(img, req, plan, c.off), img.layout(c.off, c.len))
  }

  function ChunkFn(img: Image, req: Request, plan: Plan): Chunk -> Report {
    c => ChunkReport(img, req, plan, c)
  }

  /** The plan `execute` settles on before walking the range. */
  function PlanOf(img: Image, req: Request): Plan
    requires ImageOk(img) && Proceeds(img)
  {
    var tried := req.wholeObject && img.fastDiffFeature;
    var scan := if tried then ScanSpec(img.meta, img.fromSnapId, img.endSnapId) else ScanResult(0, []);
    Plan(tried && scan.r >= 0, scan.state, ParentDiffOf(img, req))
  }

  /** What the walk over the requested range reports, and the status it ends with. */
  function Expected(img: Image, req: Request): Report
    requires ImageOk(img) && Proceeds(img)
  {
    Run(ChunkFn(img, req, PlanOf(img, req)), Chunks(req.offset, req.length, img.period))
  }

  // ---------------------------------------------------------------------
  // Properties of the reports

  /**
   * Both paths report each object's extents at the chunk offset plus the
   * object offset, one triple per object extent in whole-object mode.
   */
  lemma FastDiffsShape(st: DiffState, off: nat, exts: seq<ObjectExtent>)
    ensures st == NoDiff ==> FastDiffs(st, off, exts) == []
    ensures st != NoDiff ==>
              |FastDiffs(st, off, exts)| == |exts| &&
              forall i :: 0 <= i < |exts| ==>
                FastDiffs(st, off, exts)[i] == Diff(off + exts[i].offset, exts[i].length, st == Updated) &&
                FastDiffs(st, off, exts)[i] == WholeObjectDiffs(exts, off, st == Updated)[i]
  {
  }

  /** One more element: the walk so far, then that element's report unless the walk has already stopped. */
  lemma RunStep<T>(f: T -> Report, xs: seq<T>, i: nat)
    requires i < |xs|
    ensures Run(f, xs[..i + 1]) ==
            if Run(f, xs[..i]).status < 0 then Run(f, xs[..i])
            else Report(if f(xs[i]).status < 0 then f(xs[i]).status else 0,
                        Run(f, xs[..i]).diffs + f(xs[i]).diffs)
  {
    assert xs[..i + 1][..i] == xs[..i];
  }

  /** Once the walk has stopped, the rest of the sequence changes nothing. */
  lemma {:induction false} RunStopped<T>(f: T -> Report, xs: seq<T>, i: nat)
    requires i <= |xs| && Run(f, xs[..i]).status < 0
    ensures Run(f, xs) == Run(f, xs[..i])
    decreases |xs|
  {
    if i < |xs| {
      var n := |xs| - 1;
      assert xs[..n][..i] == xs[..i];
      RunStopped(f, xs[..n], i);
    } else {
      assert xs[..i] == xs;
    }
  }

  /** What the walk reports over a prefix is a prefix of what it reports over the whole sequence. */
  lemma {:induction false} RunPrefix<T>(f: T -> Report, xs: seq<T>, i: nat)
    requires i <= |xs|
    ensures Run(f, xs[..i]).diffs <= Run(f, xs).diffs
    decreases |xs|
  {
    if i < |xs| {
      var n := |xs| - 1;
      assert xs[..n][..i] == xs[..i];
      RunPrefix(f, xs[..n], i);
      PrefixGrow(Run(f, xs[..i]).diffs, Run(f, xs[..n]).diffs, f(xs[n]).diffs);
    } else {
      assert xs[..i] == xs;
    }
  }

  /** The walk succeeds exactly when no element fails. */
  lemma {:induction false} RunSucceedsIff<T>(f: T -> Report, xs: seq<T>)
    ensures Run(f, xs).status == 0 <==> forall i :: 0 <= i < |xs| ==> f(xs[i]).status >= 0
    decreases |xs|
  {
    if xs != [] {
      var n := |xs| - 1;
      RunSucceedsIff(f, xs[..n]);
      assert forall i :: 0 <= i < n ==> xs[..n][i] == xs[i];
    }
  }

  /**
   * When element `i` is the first to fail, the walk ends with its error,
   * having reported everything before it and what it reported itself.
   */
  lemma RunFirstFailure<T>(f: T -> Report, xs: seq<T>, i: nat)
    requires i < |xs| && f(xs[i]).status < 0
    requires forall j :: 0 <= j < i ==> f(xs[j]).status >= 0
    ensures Run(f, xs) == Report(f(xs[i]).status, Run(f, xs[..i]).diffs + f(xs[i]).diffs)
  {
    assert forall j :: 0 <= j < i ==> xs[..i][j] == xs[j];
    RunSucceedsIff(f, xs[..i]);
    RunStep(f, xs, i);
    RunStopped(f, xs, i + 1);
  }

  /** The query of every object of stripe period `c` succeeds (or finds no object). */
  predicate ChunkSucceeds(img: Image, req: Request, plan: Plan, c: Chunk) {
    forall j :: 0 <= j < |img.layout(c.off, c.len)| ==>
      GroupReport(img, req, plan, c.off, img.layout(c.off, c.len)[j]).status == 0
  }

  lemma ChunkSucceedsIff(img: Image, req: Request, plan: Plan, c: Chunk)
    ensures ChunkReport(img, req, plan, c).status == 0 <==> ChunkSucceeds(img, req, plan, c)
  {
    var gs := img.layout(c.off, c.len);
    var gf := GroupFn(img, req, plan, c.off);
    RunSucceedsIff(gf, gs);
    assert forall j :: 0 <= j < |gs| ==> gf(gs[j]) == GroupReport(img, req, plan, c.off, gs[j]);
  }

  /** The query of every object of every stripe period in `cs` succeeds (or finds no object). */
  predicate ChunksSucceed(img: Image, req: Request, plan: Plan, cs: seq<Chunk>) {
    forall i :: 0 <= i < |cs| ==> ChunkSucceeds(img, req, plan, cs[i])
  }

  /** A walk over stripe periods succeeds exactly when every one of them does. */
  lemma ChunksSucceedIff(img: Image, req: Request, plan: Plan, cs: seq<Chunk>)
    ensures Run(ChunkFn(img, req, plan), cs).status == 0 <==> ChunksSucceed(img, req, plan, cs)
  {
    var cf := ChunkFn(img, req, plan);
    RunSucceedsIff(cf, cs);
    forall i | 0 <= i < |cs|
      ensures cf(cs[i]).status >= 0 <==> ChunkSucceeds(img, req, plan, cs[i])
    {
      ChunkSucceedsIff(img, req, plan, cs[i]);
    }
  }

  /** The whole walk succeeds exactly when the query of every object of every stripe period of the range does. */
  lemma ExpectedSucceedsIff(img: Image, req: Request)
    requires ImageOk(img) && Proceeds(img)
    ensures Expected(img, req).status == 0 <==>
              ChunksSucceed(img, req, PlanOf(img, req), Chunks(req.offset, req.length, img.period))
  {
    ChunksSucceedIff(img, req, PlanOf(img, req), Chunks(req.offset, req.length, img.period));
  }

  /**
   * Element `i` ended with status 0 after all elements before it did: the
   * walk goes on, and every reply so far was an acceptance.
   */
  lemma FollowedContinue<T>(cb: Callback, lo: nat, f: T -> Report, xs: seq<T>, i: nat,
                            acc: seq<Diff>, part: seq<Diff>)
    requires i < |xs| && Run(f, xs[..i]) == Report(0, acc)
    requires lo + |acc| <= |cb.delivered| && cb.AcceptedIn(lo, lo + |acc|)
    requires Followed(cb, lo + |acc|, part, 0, f(xs[i]).status, f(xs[i]).diffs)
    ensures Run(f, xs[..i + 1]) == Report(0, acc + part)
    ensures cb.AcceptedIn(lo, |cb.delivered|)
  {
    RunStep(f, xs, i);
    cb.AcceptedJoin(lo, lo + |acc|, |cb.delivered|);
  }

  /**
   * Element `i` stopped with an error after all elements before it ended
   * with status 0: the walk as a whole followed its report.
   */
  lemma FollowedStop<T>(cb: Callback, lo: nat, f: T -> Report, xs: seq<T>, i: nat,
                        acc: seq<Diff>, part: seq<Diff>, r: int)
    requires i < |xs| && Run(f, xs[..i]) == Report(0, acc)
    requires lo + |acc| <= |cb.delivered| && cb.AcceptedIn(lo, lo + |acc|)
    requires r < 0 && Followed(cb, lo + |acc|, part, r, f(xs[i]).status, f(xs[i]).diffs)
    ensures Followed(cb, lo, acc + part, r, Run(f, xs).status, Run(f, xs).diffs)
  {
    RunStep(f, xs, i);
    if cb.RefusedFirst(lo + |acc|, r) && part <= f(xs[i]).diffs {
      cb.RefusedAfter(lo, lo + |acc|, r);
      PrefixAppend(acc, part, f(xs[i]).diffs);
      RunPrefix(f, xs, i + 1);
    } else {
      RunStopped(f, xs, i + 1);
      cb.AcceptedJoin(lo, lo + |acc|, |cb.delivered|);
    }
  }

  // ---------------------------------------------------------------------
  // The imperative walk

  /** The fast path for one object: call back directly for each extent of a changed object. */
  method EmitFastObject(cb: Callback, st: DiffState, off: nat, exts: seq<ObjectExtent>)
    returns (r: int, ghost sent: seq<Diff>)
    modifies cb
    ensures cb.delivered == old(cb.delivered) + sent
    ensures Followed(cb, |old(cb.delivered)|, sent, r, 0, FastDiffs(st, off, exts))
  {
    sent := [];
    r := 0;
    if st != NoDiff {
      var updated := st == Updated;
      var all := FastDiffs(st, off, exts);
      for qi := 0 to |exts|
        invariant sent == all[..qi]
        invariant cb.delivered == old(cb.delivered) + sent
        invariant cb.AcceptedIn(|old(cb.delivered)|, |cb.delivered|)
      {
        var q := exts[qi];
        var d := Diff(off + q.offset, q.length, updated);
        assert all[..qi + 1] == all[..qi] + [d];
        var rr := cb.Invoke(d);
        sent := sent + [d];
        if rr < 0 {
          assert sent <= all;
          return rr, sent;
        }
      }
      assert all[..|exts|] == all;
    }
  }

  /**
   * The slow path for one object: admit its query, let it complete (the
   * model's schedule runs each query to completion right after it is
   * sent), store its outcome, and flush.
   */
  method DiffSlowObject(ctx: DiffContext, reply: ListSnapsReply, exts: seq<ObjectExtent>, off: nat)
    returns (r: int, ghost sent: seq<Diff>)
    requires ctx.Valid() && ctx.Idle() && ctx.returnValue == 0 && ctx.concurrentOps > 0
    requires Canonical(reply.diff) && WellFormed(exts)
    modifies ctx, ctx.callback
    ensures ctx.Valid() && ctx.pendingOps == 0
    ensures ctx.parentDiff == old(ctx.parentDiff)
    ensures ctx.callback.delivered == old(ctx.callback.delivered) + sent
    ensures r == 0 ==> ctx.Idle() && ctx.returnValue == 0
    ensures var o := ObjectOutcome(reply, ctx.whole_object, ctx.fromSnapId, ctx.parentDiff, exts, off);
            Followed(ctx.callback, |old(ctx.callback.delivered)|, sent, r, if o.0 < 0 then o.0 else 0, o.1)
  {
    var k := ctx.StartOp();
    var objR, diffs := FinishDiffObject(reply, ctx.whole_object, ctx.fromSnapId, ctx.parentDiff, exts, off);
    r, sent := CompleteQuery(ctx, k, objR, diffs);
  }

  /**
   * The completion of the only outstanding query `k`, then the flush it
   * enables: a failed query's error is returned before anything is passed
   * on; otherwise its extents go to the callback.
   */
  method CompleteQuery(ctx: DiffContext, k: nat, objR: int, diffs: seq<Diff>) returns (r: int, ghost sent: seq<Diff>)
    requires ctx.Valid() && ctx.returnValue == 0
    requires ctx.outstanding == {k} && ctx.nextRequest == k + 1 && ctx.waitingRequest == k
    requires ctx.requestDiffs == map[]
    modifies ctx, ctx.callback
    ensures ctx.Valid() && ctx.pendingOps == 0
    ensures ctx.parentDiff == old(ctx.parentDiff)
    ensures ctx.callback.delivered == old(ctx.callback.delivered) + sent
    ensures r == 0 ==> ctx.Idle() && ctx.returnValue == 0
    ensures objR < 0 ==> r == objR && sent == []
    ensures objR >= 0 ==> Followed(ctx.callback, |old(ctx.callback.delivered)|, sent, r, 0, diffs)
  {
    ctx.FinishOp(k, objR, diffs);
    assert ctx.outstanding == {} && ctx.waitingRequest == k;
    assert k in ctx.results && ctx.results[k] == diffs;
    r, sent := ctx.InvokeCallback();
    if r == 0 {
      assert ctx.waitingRequest == k + 1;
      assert FlatRange(ctx.results, k, k + 1) == FlatRange(ctx.results, k, k) + ctx.results[k];
    } else if objR >= 0 {
      assert ctx.waitingRequest == k;
      assert FlatRange(ctx.results, k, k) == [];
    }
  }

  /** One object of a stripe period, by the fast or the slow path; a slow-path failure waits for the outstanding queries. */
  method DiffGroup(img: Image, req: Request, plan: Plan, ctx: DiffContext, off: nat, g: ObjectGroup)
    returns (r: int, ghost part: seq<Diff>)
    requires ImageOk(img) && g.extents != [] && WellFormed(g.extents)
    requires ctx.Valid() && ctx.Idle() && ctx.returnValue == 0 && ctx.concurrentOps > 0
    requires ctx.parentDiff == plan.parentDiff && ctx.whole_object == req.wholeObject
    requires ctx.fromSnapId == img.fromSnapId
    modifies ctx, ctx.callback
    ensures ctx.Valid() && ctx.pendingOps == 0 && ctx.parentDiff == old(ctx.parentDiff)
    ensures ctx.callback.delivered == old(ctx.callback.delivered) + part
    ensures r == 0 ==> ctx.Idle() && ctx.returnValue == 0
    ensures Followed(ctx.callback, |old(ctx.callback.delivered)|, part, r,
                     GroupReport(img, req, plan, off, g).status, GroupReport(img, req, plan, off, g).diffs)
  {
    if plan.fast {
      r, part := EmitFastObject(ctx.callback, StateOf(plan.state, g.extents[0].objectNo), off, g.extents);
    } else {
      var reply := img.listSnaps(off, g.oid);
      r, part := DiffSlowObject(ctx, reply, g.extents, off);
      if r < 0 {
        var _ := ctx.WaitForRet();
      }
    }
  }

  /** One stripe period: the objects it maps to, in order, until one fails. */
  method DiffChunk(img: Image, req: Request, plan: Plan, ctx: DiffContext, c: Chunk)
    returns (r: int, ghost sent: seq<Diff>)
    requires ImageOk(img)
    requires ctx.Valid() && ctx.Idle() && ctx.returnValue == 0 && ctx.concurrentOps > 0
    requires ctx.parentDiff == plan.parentDiff && ctx.whole_object == req.wholeObject
    requires ctx.fromSnapId == img.fromSnapId
    modifies ctx, ctx.callback
    ensures ctx.Valid() && ctx.pendingOps == 0 && ctx.parentDiff == old(ctx.parentDiff)
    ensures ctx.callback.delivered == old(ctx.callback.delivered) + sent
    ensures r == 0 ==> ctx.Idle() && ctx.returnValue == 0
    ensures Followed(ctx.callback, |old(ctx.callback.delivered)|, sent, r,
                     ChunkReport(img, req, plan, c).status, ChunkReport(img, req, plan, c).diffs)
  {
    var cb := ctx.callback;
    var groups := img.layout(c.off, c.len);
    ghost var f := GroupFn(img, req, plan, c.off);
    ghost var lo := |cb.delivered|;
    assert LayoutOk(groups);
    sent := [];
    r := 0;
    for gi := 0 to |groups|
      invariant ctx.Valid() && ctx.Idle() && ctx.returnValue == 0 && ctx.parentDiff == old(ctx.parentDiff)
      invariant cb.delivered == old(cb.delivered) + sent
      invariant r == 0
      invariant Run(f, groups[..gi]) == Report(0, sent)
      invariant cb.AcceptedIn(lo, |cb.delivered|)
    {
      ghost var part;
      r, part := DiffGroup(img, req, plan, ctx, c.off, groups[gi]);
      Assoc(old(cb.delivered), sent, part);
      if r < 0 {
        FollowedStop(cb, lo, f, groups, gi, sent, part, r);
        sent := sent + part;
        return;
      }
      FollowedContinue(cb, lo, f, groups, gi, sent, part);
      sent := sent + part;
    }
    assert groups[..|groups|] == groups;
  }

  /** `wait_for_ret` and the final `invoke_callback` once the walk is over. */
  method Drain(ctx: DiffContext) returns (r: int)
    requires ctx.Valid() && ctx.Idle()
    modifies ctx, ctx.callback
    ensures r == old(ctx.returnValue)
    ensures ctx.callback.delivered == old(ctx.callback.delivered)
  {
    r := ctx.WaitForRet();
    if r < 0 {
      return r;
    }
    ghost var sent;
    r, sent := ctx.InvokeCallback();
    assert ctx.waitingRequest == old(ctx.waitingRequest);
  }

  /** The `while (left > 0)` walk over the range, then the final drain. */
  method WalkRange(img: Image, req: Request, plan: Plan, ctx: DiffContext) returns (r: int, ghost sent: seq<Diff>)
    requires ImageOk(img)
    requires ctx.Valid() && ctx.Idle() && ctx.returnValue == 0 && ctx.concurrentOps > 0
    requires ctx.parentDiff == plan.parentDiff && ctx.whole_object == req.wholeObject
    requires ctx.fromSnapId == img.fromSnapId
    modifies ctx, ctx.callback
    ensures ctx.callback.delivered == old(ctx.callback.delivered) + sent
    ensures Followed(ctx.callback, |old(ctx.callback.delivered)|, sent, r,
                     Run(ChunkFn(img, req, plan), Chunks(req.offset, req.length, img.period)).status,
                     Run(ChunkFn(img, req, plan), Chunks(req.offset, req.length, img.period)).diffs)
  {
    var cb := ctx.callback;
    var period := img.period;
    var all := Chunks(req.offset, req.length, period);
    ghost var f := ChunkFn(img, req, plan);
    ghost var lo := |cb.delivered|;
    var off := req.offset;
    var left := req.length;
    ghost var done: seq<Chunk> := [];
    ghost var todo := all;
    sent := [];
    while left > 0
      invariant ctx.Valid() && ctx.Idle() && ctx.returnValue == 0 && ctx.parentDiff == plan.parentDiff
      invariant todo == Chunks(off, left, period) && done + todo == all
      invariant cb.delivered == old(cb.delivered) + sent
      invariant Run(f, all[..|done|]) == Report(0, sent)
      invariant cb.AcceptedIn(lo, |cb.delivered|)
      decreases left
    {
      var readLen := Min(period - off % period, left);
      var c := Chunk(off, readLen);
      var nextOff, nextLeft := off + readLen, left - readLen;
      ghost var rest := Chunks(nextOff, nextLeft, period);
      ChunksAdvance(all, done, off, left, period, readLen, nextOff, nextLeft);
      ghost var part;
      r, part := DiffChunk(img, req, plan, ctx, c);
      Assoc(old(cb.delivered), sent, part);
      if r < 0 {
        FollowedStop(cb, lo, f, all, |done|, sent, part, r);
        sent := sent + part;
        return;
      }
      FollowedContinue(cb, lo, f, all, |done|, sent, part);
      sent := sent + part;
      done, todo := done + [c], rest;
      off, left := nextOff, nextLeft;
    }
    assert todo == [];
    assert all[..|done|] == all;
    r := Drain(ctx);
  }

  /** The first chunk of a range runs to the end of its stripe period or of the range. */
  lemma ChunksHead(off: nat, left: nat, period: nat, readLen: nat, nextOff: nat, nextLeft: nat)
    requires period > 0 && left > 0 && readLen == Min(period - off % period, left)
    requires nextOff == off + readLen && nextLeft + readLen == left
    ensures Chunks(off, left, period) == [Chunk(off, readLen)] + Chunks(nextOff, nextLeft, period)
  {
  }

  /** Taking the next chunk off the range moves it from what is left to what is done. */
  lemma ChunksAdvance(all: seq<Chunk>, done: seq<Chunk>, off: nat, left: nat, period: nat,
                      readLen: nat, nextOff: nat, nextLeft: nat)
    requires period > 0 && left > 0 && readLen == Min(period - off % period, left)
    requires nextOff == off + readLen && nextLeft + readLen == left
    requires done + Chunks(off, left, period) == all
    ensures |done| < |all| && all[..|done|] == done && all[|done|] == Chunk(off, readLen)
    ensures all[..|done| + 1] == done + [Chunk(off, readLen)]
    ensures (done + [Chunk(off, readLen)]) + Chunks(nextOff, nextLeft, period) == all
  {
    var c := Chunk(off, readLen);
    ChunksHead(off, left, period, readLen, nextOff, nextLeft);
    Assoc(done, [c], Chunks(nextOff, nextLeft, period));
    assert all[..|done| + 1] == done + [c];
  }

  /**
   * `DiffIterate::execute`: validate the snapshot range, try the fast path,
   * collect the parent diff when diffing from the beginning, and walk the
   * range. Nothing reaches the callback when validation or the parent step
   * fails. Otherwise the walk follows `Expected`: either every extent up to
   * the first failed object query (or all of them) is accepted and the
   * result is that query's error (or 0), or the callback refuses an extent
   * of that report, having accepted everything before it, and the result is
   * its refusal.
   */
  method Execute(img: Image, req: Request, cb: Callback) returns (r: int, ghost sent: seq<Diff>)
    requires ImageOk(img)
    modifies cb
    ensures r <= 0
    ensures cb.delivered == old(cb.delivered) + sent
    ensures img.fromSnapId == NOSNAP ==> r == -ENOENT && sent == []
    ensures img.fromSnapId != NOSNAP && img.fromSnapId == img.endSnapId ==> r == 0 && sent == []
    ensures img.fromSnapId != NOSNAP && img.fromSnapId > img.endSnapId ==> r == -EINVAL && sent == []
    ensures Proceeds(img) && ParentFails(img, req) ==> r == img.parent.ret && sent == []
    ensures Proceeds(img) && !ParentFails(img, req) ==>
              Followed(cb, |old(cb.delivered)|, sent, r, Expected(img, req).status, Expected(img, req).diffs)
  {
    sent := [];
    var fromSnapId := img.fromSnapId;
    var endSnapId := img.endSnapId;
    if fromSnapId == NOSNAP {
      return -ENOENT, sent;
    }
    if fromSnapId == endSnapId {
      return 0, sent;
    }
    if fromSnapId >= endSnapId {
      return -EINVAL, sent;
    }

    var fastDiffEnabled := false;
    var objectDiffState: seq<DiffState> := [];
    if req.wholeObject && img.fastDiffFeature {
      r, objectDiffState := DiffObjectMap(img.meta, fromSnapId, endSnapId);
      if r >= 0 {
        fastDiffEnabled := true;
      }
    }

    var ctx := new DiffContext(cb, img.concurrentOps, req.wholeObject, fromSnapId, endSnapId);
    if req.includeParent && fromSnapId == 0 {
      r := 0;
      if img.parent.ParentScan? {
        var ds := img.parent.extents;
        var parentDiff: IntervalSet := [];
        for i := 0 to |ds|
          invariant parentDiff == ParentDiffFrom(ds[..i])
        {
          assert ds[..i + 1][..i] == ds[..i];
          var res := SimpleDiffCb(parentDiff, ds[i].offset, ds[i].length, ds[i].present);
          parentDiff := res.1;
        }
        assert ds[..|ds|] == ds;
        ctx.parentDiff := parentDiff;
        r := img.parent.ret;
      }
      if r < 0 {
        return r, sent;
      }
    }

    var plan := Plan(fastDiffEnabled, objectDiffState, ctx.parentDiff);
    assert plan == PlanOf(img, req);
    r, sent := WalkRange(img, req, plan, ctx);
  }
}
