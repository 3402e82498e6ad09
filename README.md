# Ceph: RBD diff iteration, the inline preallocator, and period push acceptance

This project models three pieces of Ceph in Dafny and proves properties of
the models.

**`librbd::DiffIterate`** reports which extents of an RBD image changed
between two snapshots. The report goes to a caller-supplied callback as
`(offset, length, exists)` triples, in image order.

- The snapshot range is checked first: an unknown start snapshot is
  `-ENOENT`, an empty range is `0`, and a reversed range is `-EINVAL`.
- With the fast-diff feature and whole-object reporting, the object maps of
  the snapshots in the range are folded into one diff state per object.
  That state is NONE, UPDATED or HOLE.
- Otherwise, every object of every stripe period is queried with
  `list_snaps`. The replies may complete out of order. `DiffContext` hands
  out request numbers, buffers each object's extents, and feeds them to the
  callback strictly in request order. It keeps the first error.
- When diffing from the beginning of time with `include_parent`, the
  parent's extents are first collected into an interval set via
  `simple_diff_cb`. They are reported for objects that do not exist in the
  child.

**`ceph::preallocator<T, N>`** serves allocations bump-pointer style from N
inline slots. It falls back to a base allocator once a request does not
fit. Only the block ending at `index` can be reclaimed. An allocator may be
copied only while it is unused.

**`RGWOp_Period_Post::execute`** decides what a zone does with a period
pushed to it.

- A push to the master zone is refused with `-EINVAL`.
- A new period whose predecessor is not the current period is refused with
  `-ENOENT`.
- A successor period is stored and becomes the realm's current period.
- A same-id period with an epoch that is not newer is refused with
  `-EEXIST`.
- A newer epoch is stored, then stored again with its latest epoch raised.

## Files

- `errno.dfy`: the error codes and `CEPH_NOSNAP`.
- `seqs.dfy`: associativity of concatenation and prefix facts shared by the proofs.
- `intervals.dfy`: `interval_set<uint64_t>` as a canonical list of intervals.
- `diff_context.dfy`: `DiffContext`, a class with a callback oracle.
- `diff_object.dfy`: `C_DiffObject::finish`, `compute_diffs` and `compute_parent_overlap`.
- `object_map_diff.dfy`: `diff_object_map`.
- `diff_iterate.dfy`: `execute`, `simple_diff_cb`, the parent diff and the chunked walk.
- `preallocator.dfy`: the preallocator, with the recorded unit scenarios.
- `rgw_period.dfy`: the period push rule and its handler.

## Model

| member | source | states |
|---|---|---|
| Intervals.UnionCorrect | src/librbd/DiffIterate.cc:519-521 | inserting [a, b) into a canonical interval set keeps it canonical, and the result contains exactly the old offsets plus [a, b) |
| Intervals.ClipContains | src/librbd/DiffIterate.cc:217-219 | `intersection_of` with one range [lo, hi) keeps exactly the offsets of the set that lie in [lo, hi) |
| Intervals.ClipCanonical | src/librbd/DiffIterate.cc:217-219 | the intersection of a canonical set with a range is canonical and starts no earlier than the set |
| DiffCoordinator.DiffContext.constructor | src/librbd/DiffIterate.cc:42-51 | the context starts with no pending ops, status 0, request counters at 0, nothing buffered and nothing delivered, and satisfies its invariant |
| DiffCoordinator.DiffContext.StartOp | src/librbd/DiffIterate.cc:89-96 | hands out consecutive request numbers starting at 0; the number of outstanding queries rises by one and never exceeds `concurrent_management_ops` |
| DiffCoordinator.DiffContext.FinishOp | src/librbd/DiffIterate.cc:98-108 | buffers the request's extents under its number; the first negative status is kept and later ones never replace it; one fewer op is pending |
| DiffCoordinator.DiffContext.InvokeCallback | src/librbd/DiffIterate.cc:53-79 | with an earlier error, returns it and delivers nothing; otherwise delivers the buffered results of consecutive requests from the waiting one on, exactly in request order, stopping at the first missing request; on a callback error, every earlier reply of the call was an acceptance, the refused extent is the last one delivered, and its error is returned; with nothing pending, a return of 0 leaves the context idle |
| DiffCoordinator.DiffContext.FlushReady | src/librbd/DiffIterate.cc:60-77 | the loop of `invoke_callback`: everything delivered is the concatenation of finished results from the waiting request on; every reply is an acceptance, or every reply but the last is and the last one's error is returned |
| DiffCoordinator.DiffContext.DeliverBatch | src/librbd/DiffIterate.cc:65-75 | delivers one request's extents in order; either all are accepted, or the delivery stops at the first negative reply, every reply before it being an acceptance, and records that reply as the context's status |
| DiffCoordinator.DiffContext.WaitForRet | src/librbd/DiffIterate.cc:81-87 | once no op is pending, returns the stored status, which is 0 or an error |
| DiffCoordinator.DiffContext.DrainedIsIdle | src/librbd/DiffIterate.cc:60-61 | with no pending op and no error, an empty buffer at the waiting request means every admitted request has been delivered |
| DiffCoordinator.FlatRangeSplit | src/librbd/DiffIterate.cc:60-77 | the in-order delivery of requests lo..hi is the delivery of lo..mid followed by that of mid..hi |
| DiffCoordinator.ReorderedCompletion | src/librbd/DiffIterate.cc:98-108 | two queries completing in reverse order still reach the callback in request order, first then second |
| DiffObject.ComputeDiffs | src/librbd/DiffIterate.cc:186-237 | an empty object diff reports nothing; in whole-object mode it reports each object extent once, in order, at the chunk offset; otherwise it reports exactly the precise per-buffer overlaps |
| DiffObject.PreciseDiffsCover | src/librbd/DiffIterate.cc:208-236 | an image offset is covered by the precise report exactly when it maps, through some object extent and buffer piece, to an object byte inside the snapshot diff |
| DiffObject.PreciseDiffsTagged | src/librbd/DiffIterate.cc:230-231 | every precisely reported extent is non-empty and carries the object's `end_exists` flag |
| DiffObject.BufferPiecesCover | src/librbd/DiffIterate.cc:213-234 | the pieces of one object extent cover an image offset exactly when its buffer piece maps it to a changed object byte, with object positions advancing by each piece's length |
| DiffObject.PieceCover | src/librbd/DiffIterate.cc:217-232 | one buffer piece reports an image offset exactly when the offset lies in the piece and its object byte is in the diff |
| DiffObject.TranslateCovers | src/librbd/DiffIterate.cc:223-232 | shifting object intervals to image offsets maps coverage one-to-one |
| DiffObject.ComputeParentOverlap | src/librbd/DiffIterate.cc:239-261 | the parent-overlap report equals its specification |
| DiffObject.ParentOverlapCover | src/librbd/DiffIterate.cc:239-261 | the report is non-empty only when diffing from the start with a non-empty parent diff; every extent is reported as data; an image offset is covered exactly when it is in the parent diff and in some buffer piece of the object |
| DiffObject.ParentExtentsCover | src/librbd/DiffIterate.cc:243-259 | over all extents and pieces, the reported parent extents cover exactly the parent diff restricted to the object's image ranges, all tagged as data |
| DiffObject.FinishDiffObject | src/librbd/DiffIterate.cc:151-172 | a successful `list_snaps` yields status 0 with the object's diffs; ENOENT (from the op or from the snap listing) yields status 0 with the parent overlap; any other error is passed on with no extents; a snap-listing error counts only if the op itself succeeded |
| ObjectMapDiff.Classify | src/librbd/DiffIterate.cc:476-485 | EXISTS is an update; a removed object is a hole; an unchanged state or a clean-by-flush keeps the verdict so far; any other change of an existing object is an update |
| ObjectMapDiff.StepNoStaleUpdate | src/librbd/DiffIterate.cc:471-501 | one snapshot step yields a state as long as the new map and never leaves an object that is now absent marked as updated |
| ObjectMapDiff.StepHoleOnlyAbsent | src/librbd/DiffIterate.cc:471-501 | one snapshot step yields a state as long as the new map and marks as a hole only objects that are absent from the new map |
| ObjectMapDiff.StepExistsUpdated | src/librbd/DiffIterate.cc:471-501 | after a step that may grow the state, every object EXISTS in the new map is marked updated |
| ObjectMapDiff.ComputeStep | src/librbd/DiffIterate.cc:471-501 | the per-object loops of one step compute the step's specification |
| ObjectMapDiff.IndexOf | src/librbd/DiffIterate.cc:426-428 | a lookup in the snapshot table returns the entry with that id, or reports that no entry has it |
| ObjectMapDiff.LastPosIsEnd | src/librbd/DiffIterate.cc:504-506 | in a table sorted by id, the walk stops exactly at the end snapshot |
| ObjectMapDiff.WalkFacts | src/librbd/DiffIterate.cc:423-510 | the walk returns 0 or an error; it returns 0 exactly when the flags allow fast diff and the map at every position it visits loads and covers the object count; on success its state matches the last map loaded in length, has no stale update, marks as a hole only objects absent from that map, and marks every EXISTS object updated once the first map is valid |
| ObjectMapDiff.ScanFacts | src/librbd/DiffIterate.cc:403-512 | from the resolved start snapshot: a flag read error, an invalid fast-diff flag (-EINVAL) or a start map load error is returned as the result; the scan returns 0 exactly when the flags allow it and the map of every snapshot from start to end loads and covers its object count; on success there is one state per object of the end snapshot's size, EXISTS objects are updated, absent objects are never updated, and only objects absent from the end snapshot's map are holes (reported with exists false) |
| ObjectMapDiff.DiffObjectMap | src/librbd/DiffIterate.cc:403-512 | the snapshot-by-snapshot loop computes the scan specification, including its error returns |
| DiffIterate.SimpleDiffCb | src/librbd/DiffIterate.cc:514-523 | returns 0; the interval set stays canonical and gains exactly the reported range |
| DiffIterate.ParentDiffCovers | src/librbd/DiffIterate.cc:323-340 | the interval set built by the parent diff contains exactly the offsets the parent reported |
| DiffIterate.Chunks | src/librbd/DiffIterate.cc:342-392 | the requested range is split into non-empty, contiguous pieces that start at the request offset and add up to the requested length |
| DiffIterate.ChunksInPeriod | src/librbd/DiffIterate.cc:346-348 | no piece crosses a stripe-period boundary |
| DiffIterate.FastDiffsShape | src/librbd/DiffIterate.cc:362-374 | on the fast path, an unchanged object reports nothing; a changed one reports each extent at the chunk offset, with exists set only for UPDATED, the same triples the whole-object slow path reports |
| ObjectMapDiff.WalkFailsAt | src/librbd/DiffIterate.cc:451-468 | with the flags allowing fast diff, the first visited map that fails to load ends the walk with the load error, and the first one smaller than its object count ends it with -EINVAL |
| ObjectMapDiff.ScanFailsAt | src/librbd/DiffIterate.cc:423-468 | the same for the whole scan: the first snapshot between start and end whose map fails to load or is too small gives the scan's error, the load error or -EINVAL |
| DiffIterate.EmitFastObject | src/librbd/DiffIterate.cc:362-374 | reports a fast-path object's extents in order: either the callback accepts all of them and the result is 0, or it accepts all up to a refusal, the refused extent is the last one delivered, and the refusal is returned |
| DiffIterate.GroupReport | src/librbd/DiffIterate.cc:362-386 | an object's report never carries a positive status (a positive query status counts as 0), and a fast-path report always has status 0 |
| DiffIterate.CompleteQuery | src/librbd/DiffIterate.cc:151-172 | a failed query's error is the result before anything reaches the callback; otherwise its extents are delivered, and the result is 0 with all of them accepted, or the first refusal, with every earlier extent accepted |
| DiffIterate.DiffSlowObject | src/librbd/DiffIterate.cc:376-386 | one slow-path object is queried, finished and flushed: when the callback accepts everything delivered, the result is the query's error (or 0) and the callback received exactly the object's outcome; otherwise the result is the first refusal, every earlier extent was accepted, and what was delivered is a prefix of the outcome |
| DiffIterate.DiffGroup | src/librbd/DiffIterate.cc:362-387 | one object by the chosen path follows its report in the same sense: its status and extents in full when every reply is an acceptance, else the first refusal after a prefix |
| DiffIterate.DiffChunk | src/librbd/DiffIterate.cc:357-388 | one stripe period's objects are walked in `file_to_extents` order up to the first that fails, and the callback sees exactly the period's report with its status as the result, or the first refusal after a prefix of it |
| DiffIterate.WalkRange | src/librbd/DiffIterate.cc:342-400 | the walk over all stripe periods delivers exactly the report of the whole range and returns its status (0, or the first failed query's error), or stops at the first callback refusal, having delivered a prefix of that report |
| DiffIterate.RunStopped | src/librbd/DiffIterate.cc:382-386 | once an object has failed, the objects and periods after it contribute nothing |
| DiffIterate.RunPrefix | src/librbd/DiffIterate.cc:346-392 | what the walk reports up to any point is a prefix of what it reports over the whole range |
| DiffIterate.RunSucceedsIff | src/librbd/DiffIterate.cc:346-392 | the walk ends with status 0 exactly when no element fails |
| DiffIterate.RunFirstFailure | src/librbd/DiffIterate.cc:382-386 | when the i-th element is the first to fail, the walk ends with its error after reporting everything before it and what it reported itself |
| DiffIterate.FollowedContinue | src/librbd/DiffIterate.cc:357-392 | an element that ended with status 0, after all before it did, extends the delivered report by its own, every reply so far being an acceptance |
| DiffIterate.FollowedStop | src/librbd/DiffIterate.cc:382-386 | an element that returned an error ends the walk as a whole in the same way: the element's failed query, or the first callback refusal after a prefix |
| DiffIterate.ChunkSucceedsIff | src/librbd/DiffIterate.cc:357-388 | a stripe period ends with status 0 exactly when the query of each of its objects succeeds |
| DiffIterate.ChunksSucceedIff | src/librbd/DiffIterate.cc:346-392 | a walk over stripe periods ends with status 0 exactly when each of them does |
| DiffIterate.ExpectedSucceedsIff | src/librbd/DiffIterate.cc:346-392 | the expected report of the whole range has status 0 exactly when the query of every object of every stripe period succeeds |
| DiffIterate.Execute | src/librbd/DiffIterate.cc:266-401 | an unknown start snapshot is -ENOENT, an empty range is 0, a reversed range is -EINVAL, all with nothing delivered; a failing parent diff is returned with nothing delivered; otherwise, when the callback accepts every extent, it receives exactly the expected report and the result is that report's status (0, or the first failed object query's error); when it refuses one, every earlier extent was accepted, what it saw is a prefix of the expected report, and the refusal is the result |
| Preallocation.IndexBounded | src/common/preallocator.h:36 | `index` never exceeds N across allocations and deallocations |
| Preallocation.AllocateOutcome | src/common/preallocator.h:68-78 | a request is served inline at slot `index` exactly when `index + n <= N`, advancing `index` by n; otherwise it goes to the base allocator as one call, with `index` unchanged |
| Preallocation.HeapBlocksFresh | src/common/preallocator.h:76-77 | a block from the base allocator was never handed out before |
| Preallocation.DeallocateOutcome | src/common/preallocator.h:80-92 | freeing the block ending at `index` lowers `index` by n; freeing another inline block below `index` changes nothing; a heap block is forwarded to the base allocator as one call |
| Preallocation.AllocateThenDeallocate | src/common/preallocator.h:68-92 | freeing the block just allocated restores `index`; an inline round trip restores the whole state |
| Preallocation.ReclaimedServedInline | src/common/preallocator.h:80-86 | after the last block is reclaimed, a request of the same size gets the same inline slot again |
| Preallocation.AllocateAllInline | src/common/preallocator.h:68-75 | requests that fit together are served back to back from `index` without the base allocator |
| Preallocation.AllocateAllThenReverse | src/common/preallocator.h:68-92 | requests that fit, freed in reverse order, restore the allocator's state exactly |
| Preallocation.DeallocateReverseFirst | src/common/preallocator.h:80-92 | freeing in reverse order frees the first block last |
| Preallocation.Preallocator.constructor | src/common/preallocator.h:36-45 | a new allocator has `index` 0 |
| Preallocation.Preallocator.Copy | src/common/preallocator.h:56-66 | only an unused allocator (`index == 0`) may be copied; the copy is unused and shares the base allocator |
| Preallocation.Preallocator.Allocate | src/common/preallocator.h:68-78 | the new state and the pointer are those of the allocation rule, and `index` stays within N |
| Preallocation.Preallocator.Deallocate | src/common/preallocator.h:80-92 | the new state is that of the deallocation rule |
| Preallocation.AllocateOverflow | src/test/common/test_preallocator.cc:69-82 | with one slot, the first single allocation is inline and the second is the only one the base allocator sees, both ways |
| Preallocation.AllocateUnalignedOverflow | src/test/common/test_preallocator.cc:84-98 | a request for two with one of two slots free goes to the base allocator |
| Preallocation.DeallocateFront | src/test/common/test_preallocator.cc:100-118 | freeing the front block reclaims nothing, so its replacement goes to the base allocator |
| Preallocation.DeallocateBack | src/test/common/test_preallocator.cc:120-137 | freeing the back block reclaims it, so its replacement is inline at slot 1 |
| Preallocation.DeallocateReverseOrder | src/test/common/test_preallocator.cc:139-173 | four singles freed in reverse are all reclaimed; refilled, only the fifth single reaches the base allocator |
| RealmPeriod.AcceptedIff | src/rgw/rgw_rest_realm.cc:82-126 | a pushed period is accepted exactly when this zone is not its master and it is either a successor of the current period or a newer epoch of it |
| RealmPeriod.RefusalCodes | src/rgw/rgw_rest_realm.cc:82-126 | -EINVAL exactly for a push to the master zone, -ENOENT exactly for a new period that does not follow the current one, -EEXIST exactly for an epoch that is not newer |
| RealmPeriod.ReplayRefused | src/rgw/rgw_rest_realm.cc:120-126 | once accepted and current, the same period pushed again is refused as not newer |
| RealmPeriod.PostSucceedsIff | src/rgw/rgw_rest_realm.cc:64-147 | the request succeeds exactly when the body decodes, the period is accepted, and every store write it needs succeeds |
| RealmPeriod.RefusedHasNoEffect | src/rgw/rgw_rest_realm.cc:72-126 | a refused or undecodable period is never written, leaves the realm alone, and returns the refusal or decode error |
| RealmPeriod.RealmMovesOnlyToStoredSuccessor | src/rgw/rgw_rest_realm.cc:104-117 | the realm's current period changes only to an accepted successor whose write succeeded, and always does then |
| RealmPeriod.RaiseEpochWrites | src/rgw/rgw_rest_realm.cc:128-146 | a newer epoch is written as received and, if that write succeeds, again with its latest epoch raised to its epoch; the realm is unchanged |
| RealmPeriod.PeriodPost.Execute | src/rgw/rgw_rest_realm.cc:64-147 | the status, the periods written and the realm's current period are those of the push rule; the handler's period is the decoded one, with its latest epoch raised after a successful first write of a newer epoch |
| RealmPeriod.SuccessorAccepted | src/rgw/rgw_rest_realm.cc:92-117 | a successor pushed to a non-master zone is written once and becomes current |
| RealmPeriod.StaleEpochRefused | src/rgw/rgw_rest_realm.cc:120-126 | an epoch equal to the current one is refused with -EEXIST and nothing is written |

## Left out

- Locking, the condition variable and the asynchronous completion are not modelled. The waits in `start_op` and `wait_for_ret` become preconditions. Each object query in `execute` completes right after it is sent; `DiffContext` on its own admits any completion order.
- `DiffCoordinator.DiffContext.InvokeCallback` runs the callback with the lock held. The source drops the lock around each call, so a `finish_op` that records an error during a call could make the loop return 0; that interleaving is not modelled.
- The recursive `execute` on the parent image is not modelled. Its status and the extents it reports are an input (`ParentScan`). `get_parent_overlap` and the parent's existence are folded into that input.
- Snapshot name lookup, the image sizes, `Striper::file_to_extents`, `get_num_objects`, `get_stripe_period`, and each object's `list_snaps` reply are inputs. `calc_snap_set_diff` is not part of this model; its interval set and `end_exists` arrive in the reply.
- Logging, `head_ctx` duplication and `snap_set_read` have no effect on the result and are left out.
- DiffObject.ComputeDiffs: the source's assertion that the buffer pieces add up to the extent length is a precondition (`WellFormed`).
- Intervals.UnionCorrect: Ceph's `interval_set::insert` asserts that the new range overlaps nothing already in the set; the model merges overlapping and adjacent ranges instead.
- 64-bit wrap-around of offsets, lengths and snapshot ids is not modelled; all are unbounded naturals.
- ObjectMapDiff.DiffObjectMap: `snaps.back()` is taken to be the oldest snapshot (the one with the smallest id), since `ImageCtx::snaps` lists the newest snapshot first. The zero fill of a grown `BitVector` is modelled as NONE.
- DiffIterate.GroupReport: the branch for an object with no extents exists only to make the function total; `file_to_extents` never produces one.
- DiffIterate.StateOf: an object number past the end of the fast-diff state reads as NONE; the source's `BitVector` indexing there is undefined.
- Preallocation.Preallocator.Allocate: the 64-bit overflow of `index + n` is not modelled, since `n` is bounded by the allocator's `max_size`.
- Preallocation: a pointer from the base allocator is assumed never to lie inside or right after the inline storage, so it is always forwarded on deallocation.
- Preallocation.Preallocator.Copy models both the copy constructor and the converting copy constructor for `rebind`. `rebind`, `storage_t` alignment and the `std` container tests (list, map, set, vector) are type-level or library behaviour.
- `prealloc_vector`, `PGQueueable` and `ceph_context` are not part of this model.
- RealmPeriod.PeriodPost.Execute: on a malformed body the handler's period is left unchanged; the source may hold a partially decoded period, which nothing afterwards reads. A successful decode is status 0.
- RealmPeriod: `period.init`, the persistent write behind `realm.set_current_period`, and the zone notification (a TODO in the source) are not modelled. The zone's `current_period` is not updated by the request, as in the source.
- The realm `GET` handlers, `send_response` and the REST handler classes of `rgw_rest_realm.cc` are not part of this model.
