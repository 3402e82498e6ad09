/**
 * The in-order result coordinator of the snapshot diff engine (`DiffContext`
 * in src/librbd/DiffIterate.cc) and the user callback it flushes results to.
 *
 * Blocking on the mutex and condition variable is not modelled: a wait
 * becomes a precondition (the state the wait is waiting for), and the
 * completions of concurrent object queries become sequential calls of
 * `FinishOp` in any order.
 */
module DiffCoordinator {
  import opened Errno
  import opened Intervals
  import opened Seqs

  /** One reported extent: image offset, length, and whether data exists there (false: a hole). */
  datatype Diff = Diff(offset: nat, length: nat, present: bool)

  /**
   * The caller's callback as an oracle: its k-th invocation returns
   * `replies[k]` (0 once the replies run out); every invocation is logged.
   */
  class Callback {
    const replies: seq<int>
    var delivered: seq<Diff>

    constructor (replies: seq<int>)
      ensures this.replies == replies && delivered == []
    {
      this.replies := replies;
      delivered := [];
    }

    /** What the k-th invocation returns. */
    function Reply(k: nat): int {
      if k < |replies| then replies[k] else 0
    }

    /** Every invocation at positions [lo, hi) returns a non-negative value. */
    ghost predicate AcceptedIn(lo: nat, hi: nat) {
      forall j :: lo <= j < hi ==> Reply(j) >= 0
    }

    /**
     * Since invocation `lo` every invocation was accepted except the latest,
     * which refused with `r`: the first refusal since `lo` is the last call.
     */
    ghost predicate RefusedFirst(lo: nat, r: int)
      reads this
    {
      lo < |delivered| && AcceptedIn(lo, |delivered| - 1) && Reply(|delivered| - 1) == r && r < 0
    }

    lemma AcceptedJoin(lo: nat, mid: nat, hi: nat)
      requires AcceptedIn(lo, mid) && AcceptedIn(mid, hi)
      ensures AcceptedIn(lo, hi)
    {
    }

    lemma RefusedAfter(lo: nat, mid: nat, r: int)
      requires lo <= mid && AcceptedIn(lo, mid) && RefusedFirst(mid, r)
      ensures RefusedFirst(lo, r)
    {
      AcceptedJoin(lo, mid, |delivered| - 1);
    }

    method Invoke(d: Diff) returns (r: int)
      modifies this
      ensures delivered == old(delivered) + [d]
      ensures r == Reply(|old(delivered)|)
    {
      r := Reply(|delivered|);
      delivered := delivered + [d];
    }
  }

  /**
   * `sent` went to `cb` from invocation `lo` on as the outcome `(s, d)`
   * prescribes: either all of `d` was accepted and the result is the status
   * `s`, or a prefix of `d` was passed up to the callback's first refusal,
   * and the result is that refusal.
   */
  ghost predicate Followed(cb: Callback, lo: nat, sent: seq<Diff>, r: int, s: int, d: seq<Diff>)
    reads cb
  {
    (r == s && sent == d && cb.AcceptedIn(lo, |cb.delivered|)) ||
    (cb.RefusedFirst(lo, r) && sent <= d)
  }

  /** The batches of requests lo, lo+1, ..., hi-1 concatenated in request order. */
  ghost function FlatRange(results: map<nat, seq<Diff>>, lo: nat, hi: nat): seq<Diff>
    requires forall k: nat :: lo <= k < hi ==> k in results
    decreases hi - lo
  {
    if hi <= lo then [] else FlatRange(results, lo, hi - 1) + results[hi - 1]
  }

  lemma {:induction false} FlatRangeSplit(results: map<nat, seq<Diff>>, lo: nat, mid: nat, hi: nat)
    requires lo <= mid <= hi
    requires forall k: nat :: lo <= k < hi ==> k in results
    ensures FlatRange(results, lo, hi) == FlatRange(results, lo, mid) + FlatRange(results, mid, hi)
    decreases hi - mid
  {
    if mid < hi {
      FlatRangeSplit(results, lo, mid, hi - 1);
      Assoc(FlatRange(results, lo, mid), FlatRange(results, mid, hi - 1), results[hi - 1]);
    } else {
      assert FlatRange(results, lo, mid) + [] == FlatRange(results, lo, mid);
    }
  }

  /** Storing a batch at or beyond `hi` does not change the flattened prefix. */
  lemma {:induction false} FlatRangeUpdate(results: map<nat, seq<Diff>>, lo: nat, hi: nat, k: nat, v: seq<Diff>)
    requires hi <= k
    requires forall j: nat :: lo <= j < hi ==> j in results
    ensures FlatRange(results[k := v], lo, hi) == FlatRange(results, lo, hi)
    decreases hi - lo
  {
    if lo < hi {
      FlatRangeUpdate(results, lo, hi - 1, k, v);
    }
  }

  class DiffContext {
    const whole_object: bool
    const fromSnapId: nat
    const endSnapId: nat
    var parentDiff: IntervalSet

    const callback: Callback
    /** `m_image_ctx.concurrent_management_ops`: the bound on outstanding object queries. */
    const concurrentOps: nat

    var pendingOps: nat
    var returnValue: int
    var nextRequest: nat
    var waitingRequest: nat
    var requestDiffs: map<nat, seq<Diff>>

    /** Every result ever stored by `FinishOp`, by request number. */
    ghost var results: map<nat, seq<Diff>>
    /** Requests handed out by `StartOp` that have not finished. */
    ghost var outstanding: set<nat>
    /** Everything this coordinator has passed to the callback, in order. */
    ghost var delivered: seq<Diff>

    ghost predicate Valid()
      reads this
    {
      && pendingOps <= concurrentOps
      && pendingOps == |outstanding|
      && waitingRequest <= nextRequest
      && returnValue <= 0
      && (forall k :: k in outstanding ==> waitingRequest <= k < nextRequest)
      && (forall k: nat :: k in results <==> k < nextRequest && k !in outstanding)
      && (forall k :: k in requestDiffs ==>
            waitingRequest <= k && k in results && requestDiffs[k] == results[k])
      && (returnValue == 0 ==>
            forall k: nat :: waitingRequest <= k < nextRequest && k in results ==> k in requestDiffs)
      && FlatRange(results, 0, waitingRequest) <= delivered
      && (returnValue == 0 ==> delivered == FlatRange(results, 0, waitingRequest))
    }

    constructor (callback: Callback, concurrentOps: nat, whole_object: bool,
                 fromSnapId: nat, endSnapId: nat)
      ensures Valid()
      ensures this.callback == callback && this.concurrentOps == concurrentOps
      ensures this.whole_object == whole_object
      ensures this.fromSnapId == fromSnapId && this.endSnapId == endSnapId
      ensures parentDiff == []
      ensures pendingOps == 0 && returnValue == 0 && nextRequest == 0 && waitingRequest == 0
      ensures requestDiffs == map[] && results == map[] && outstanding == {} && delivered == []
    {
      this.callback := callback;
      this.concurrentOps := concurrentOps;
      this.whole_object := whole_object;
      this.fromSnapId := fromSnapId;
      this.endSnapId := endSnapId;
      parentDiff := [];
      pendingOps, returnValue, nextRequest, waitingRequest := 0, 0, 0, 0;
      requestDiffs := map[];
      results, outstanding, delivered := map[], {}, [];
    }

    /** Nothing outstanding, nothing buffered, every admitted request delivered. */
    ghost predicate Idle()
      reads this
    {
      pendingOps == 0 && requestDiffs == map[] && waitingRequest == nextRequest
    }

    /**
     * Admit one object query and hand out its sequence number. The wait
     * while `concurrentOps` queries are outstanding is the precondition.
     */
    method StartOp() returns (requestNum: nat)
      requires Valid() && pendingOps < concurrentOps
      modifies this
      ensures Valid()
      ensures requestNum == old(nextRequest) && nextRequest == old(nextRequest) + 1
      ensures pendingOps == old(pendingOps) + 1 && pendingOps <= concurrentOps
      ensures outstanding == old(outstanding) + {requestNum}
      ensures returnValue == old(returnValue) && waitingRequest == old(waitingRequest)
      ensures requestDiffs == old(requestDiffs) && parentDiff == old(parentDiff)
      ensures results == old(results) && delivered == old(delivered)
    {
      assert nextRequest !in outstanding;
      pendingOps := pendingOps + 1;
      requestNum := nextRequest;
      nextRequest := nextRequest + 1;
      outstanding := outstanding + {requestNum};
    }

    /** Store the result of request `requestNum`; the first error is kept. */
    method FinishOp(requestNum: nat, r: int, diffs: seq<Diff>)
      requires Valid() && requestNum in outstanding
      modifies this
      ensures Valid()
      ensures requestDiffs == old(requestDiffs)[requestNum := diffs]
      ensures results == old(results)[requestNum := diffs]
      ensures outstanding == old(outstanding) - {requestNum}
      ensures pendingOps == old(pendingOps) - 1
      ensures returnValue == (if old(returnValue) == 0 && r < 0 then r else old(returnValue))
      ensures old(returnValue) < 0 ==> returnValue == old(returnValue)
      ensures nextRequest == old(nextRequest) && waitingRequest == old(waitingRequest)
      ensures parentDiff == old(parentDiff) && delivered == old(delivered)
    {
      FlatRangeUpdate(results, 0, waitingRequest, requestNum, diffs);
      requestDiffs := requestDiffs[requestNum := diffs];
      results := results[requestNum := diffs];
      if returnValue == 0 && r < 0 {
        returnValue := r;
      }
      assert |outstanding - {requestNum}| == |outstanding| - 1;
      outstanding := outstanding - {requestNum};
      pendingOps := pendingOps - 1;
    }

    /**
     * Flush the contiguous run of stored results that starts at
     * `waitingRequest` to the callback, in request order. The source loops
     * while the smallest buffered key equals `waitingRequest`; as no key is
     * ever below `waitingRequest` (see `Valid`), that is `waitingRequest in
     * requestDiffs`. `sent` is what reached the callback during this call.
     */
    method InvokeCallback() returns (r: int, ghost sent: seq<Diff>)
      requires Valid()
      modifies this, callback
      ensures Valid()
      ensures r == returnValue
      ensures nextRequest == old(nextRequest) && pendingOps == old(pendingOps)
      ensures outstanding == old(outstanding) && results == old(results)
      ensures parentDiff == old(parentDiff)
      ensures delivered == old(delivered) + sent
      ensures callback.delivered == old(callback.delivered) + sent
      ensures old(returnValue) < 0 ==>
                r == old(returnValue) && sent == [] &&
                waitingRequest == old(waitingRequest) && requestDiffs == old(requestDiffs)
      ensures old(waitingRequest) <= waitingRequest
      ensures r == 0 ==> waitingRequest !in requestDiffs
      ensures r == 0 ==> sent == FlatRange(results, old(waitingRequest), waitingRequest)
      ensures r == 0 ==>
                callback.AcceptedIn(|old(callback.delivered)|, |callback.delivered|)
      ensures r < 0 && old(returnValue) == 0 ==>
                callback.RefusedFirst(|old(callback.delivered)|, r)
      ensures forall k: nat :: old(waitingRequest) <= k < waitingRequest ==> k in results
      ensures r < 0 && old(returnValue) == 0 ==>
                waitingRequest in results &&
                sent <= FlatRange(results, old(waitingRequest), waitingRequest) + results[waitingRequest]
      ensures r == 0 && pendingOps == 0 ==> Idle()
    {
      sent := [];
      if returnValue < 0 {
        return returnValue, sent;
      }
      r, sent := FlushReady();
    }

    /**
     * With no error, nothing outstanding and no stored result for
     * `waitingRequest`, every admitted request has been delivered.
     */
    lemma DrainedIsIdle()
      requires Valid() && returnValue == 0 && pendingOps == 0 && waitingRequest !in requestDiffs
      ensures Idle()
    {
      assert outstanding == {};
      assert waitingRequest == nextRequest;
      assert forall k :: k !in requestDiffs;
    }

    /** The loop of `invoke_callback`, entered when no error has been recorded. */
    method FlushReady() returns (r: int, ghost sent: seq<Diff>)
      requires Valid() && returnValue == 0
      modifies this, callback
      ensures Valid()
      ensures r == returnValue
      ensures nextRequest == old(nextRequest) && pendingOps == old(pendingOps)
      ensures outstanding == old(outstanding) && results == old(results)
      ensures parentDiff == old(parentDiff)
      ensures delivered == old(delivered) + sent
      ensures callback.delivered == old(callback.delivered) + sent
      ensures old(waitingRequest) <= waitingRequest
      ensures forall k: nat :: old(waitingRequest) <= k < waitingRequest ==> k in results
      ensures r == 0 ==> waitingRequest !in requestDiffs
      ensures r == 0 ==> sent == FlatRange(results, old(waitingRequest), waitingRequest)
      ensures r == 0 ==>
                callback.AcceptedIn(|old(callback.delivered)|, |callback.delivered|)
      ensures r < 0 ==> callback.RefusedFirst(|old(callback.delivered)|, r)
      ensures r < 0 ==>
                waitingRequest in results &&
                sent <= FlatRange(results, old(waitingRequest), waitingRequest) + results[waitingRequest]
      ensures r == 0 && pendingOps == 0 ==> Idle()
    {
      sent := [];
      ghost var w0 := waitingRequest;
      ghost var c0 := callback.delivered;
      while waitingRequest in requestDiffs
        invariant Valid() && returnValue == 0
        invariant nextRequest == old(nextRequest) && pendingOps == old(pendingOps)
        invariant outstanding == old(outstanding) && results == old(results)
        invariant parentDiff == old(parentDiff)
        invariant w0 <= waitingRequest
        invariant forall k: nat :: w0 <= k < waitingRequest ==> k in results
        invariant sent == FlatRange(results, w0, waitingRequest)
        invariant delivered == old(delivered) + sent
        invariant callback.delivered == c0 + sent
        invariant callback.AcceptedIn(|c0|, |callback.delivered|)
        decreases nextRequest - waitingRequest
      {
        ghost var batch;
        ghost var w, cd := waitingRequest, callback.delivered;
        var ok;
        ok, batch := FlushNext();
        ghost var flushed := sent;
        sent := sent + batch;
        Assoc(old(delivered), flushed, batch);
        Assoc(c0, flushed, batch);
        if !ok {
          callback.RefusedAfter(|c0|, |cd|, returnValue);
          assert sent <= flushed + results[waitingRequest];
          return returnValue, sent;
        }
        assert FlatRange(results, w0, w + 1) == flushed + batch;
        callback.AcceptedJoin(|c0|, |cd|, |callback.delivered|);
      }
      if pendingOps == 0 {
        DrainedIsIdle();
      }
      return 0, sent;
    }

    /**
     * One round of the outer loop of `invoke_callback`: take the batch of
     * `waitingRequest` out of the buffer and pass it to the callback; on a
     * negative reply record it and stop, otherwise move on to the next request.
     */
    method FlushNext() returns (ok: bool, ghost batch: seq<Diff>)
      requires Valid() && returnValue == 0 && waitingRequest in requestDiffs
      modifies this, callback
      ensures Valid()
      ensures nextRequest == old(nextRequest) && pendingOps == old(pendingOps)
      ensures outstanding == old(outstanding) && results == old(results)
      ensures parentDiff == old(parentDiff)
      ensures requestDiffs == old(requestDiffs) - {old(waitingRequest)}
      ensures delivered == old(delivered) + batch
      ensures callback.delivered == old(callback.delivered) + batch
      ensures ok ==> returnValue == 0 && waitingRequest == old(waitingRequest) + 1
      ensures ok ==> batch == results[old(waitingRequest)]
      ensures ok ==> callback.AcceptedIn(|old(callback.delivered)|, |callback.delivered|)
      ensures !ok ==> returnValue < 0 && waitingRequest == old(waitingRequest)
      ensures !ok ==> callback.RefusedFirst(|old(callback.delivered)|, returnValue)
      ensures !ok ==> waitingRequest in results && batch <= results[waitingRequest]
    {
      var diffs := requestDiffs[waitingRequest];
      requestDiffs := requestDiffs - {waitingRequest};
      ok, batch := DeliverBatch(diffs);
      if ok {
        waitingRequest := waitingRequest + 1;
      }
    }

    /**
     * The inner loop of `invoke_callback`: pass one batch to the callback,
     * stopping at (and recording) the first negative reply.
     */
    method DeliverBatch(diffs: seq<Diff>) returns (ok: bool, ghost sent: seq<Diff>)
      requires returnValue == 0
      modifies this`returnValue, this`delivered, callback
      ensures delivered == old(delivered) + sent
      ensures callback.delivered == old(callback.delivered) + sent
      ensures sent <= diffs
      ensures ok ==> returnValue == 0 && sent == diffs
      ensures ok ==> callback.AcceptedIn(|old(callback.delivered)|, |callback.delivered|)
      ensures !ok ==> returnValue < 0 && callback.RefusedFirst(|old(callback.delivered)|, returnValue)
    {
      var i := 0;
      while i < |diffs|
        invariant 0 <= i <= |diffs|
        invariant returnValue == 0
        invariant delivered == old(delivered) + diffs[..i]
        invariant callback.delivered == old(callback.delivered) + diffs[..i]
        invariant callback.AcceptedIn(|old(callback.delivered)|, |callback.delivered|)
      {
        var r := callback.Invoke(diffs[i]);
        delivered := delivered + [diffs[i]];
        assert diffs[..i + 1] == diffs[..i] + [diffs[i]];
        if returnValue == 0 && r < 0 {
          returnValue := r;
          return false, diffs[..i + 1];
        }
        i := i + 1;
      }
      assert diffs[..i] == diffs;
      return true, diffs;
    }

    /**
     * The final synchronisation gate: the wait for every admitted query to
     * finish is the precondition; it reports the first error recorded.
     */
    method WaitForRet() returns (r: int)
      requires Valid() && pendingOps == 0
      ensures r == returnValue && r <= 0
    {
      return returnValue;
    }
  }

  /**
   * Two queries admitted in order 0, 1 and completed in the opposite order
   * reach the callback in admission order.
   */
  method ReorderedCompletion(first: seq<Diff>, second: seq<Diff>) returns (out: seq<Diff>, r: int)
    ensures r == 0 && out == first + second
  {
    var cb, ctx := SecondCompletesFirst(second);
    ctx.FinishOp(0, 0, first);
    assert ctx.results == map[0 := first, 1 := second];
    ghost var sent;
    r, sent := ctx.InvokeCallback();
    assert r == 0;
    assert ctx.waitingRequest == 2;
    assert FlatRange(ctx.results, 0, 1) == first;
    assert sent == first + second;
    out := cb.delivered;
  }

  /** The first half of the scenario: query 1 finishes while query 0 is outstanding, and nothing is delivered. */
  method SecondCompletesFirst(second: seq<Diff>) returns (cb: Callback, ctx: DiffContext)
    ensures fresh(cb) && fresh(ctx) && ctx.callback == cb
    ensures ctx.Valid() && ctx.returnValue == 0 && cb.replies == []
    ensures ctx.outstanding == {0} && ctx.nextRequest == 2 && ctx.waitingRequest == 0
    ensures ctx.results == map[1 := second] && ctx.delivered == [] && cb.delivered == []
  {
    cb := new Callback([]);
    ctx := new DiffContext(cb, 2, false, 0, NOSNAP);
    var k0 := ctx.StartOp();
    var k1 := ctx.StartOp();
    ctx.FinishOp(k1, 0, second);
    assert k0 in ctx.outstanding;
    ghost var sent;
    var r;
    r, sent := ctx.InvokeCallback();
    assert r == 0;
    assert ctx.waitingRequest == 0;
    assert sent == [];
  }
}
