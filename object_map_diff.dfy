/**
 * The fast-diff scan (`DiffIterate::diff_object_map` in
 * src/librbd/DiffIterate.cc): walking the object maps of the snapshots from
 * the start snapshot to the end snapshot and classifying every object as
 * unchanged, updated or turned into a hole.
 *
 * The image metadata the scan reads under the snapshot lock (the snapshot
 * table, the head size, the image flags, the stored object maps and the
 * striping layout's object count) is an input value.
 */
module ObjectMapDiff {
  import opened Errno

  /** The two-bit object map states (OBJECT_NONEXISTENT, OBJECT_EXISTS, OBJECT_PENDING, OBJECT_EXISTS_CLEAN). */
  datatype ObjectState = Nonexistent | Exists | Pending | ExistsClean

  /** The two-bit diff states (OBJECT_DIFF_STATE_NONE, _UPDATED, _HOLE). */
  datatype DiffState = NoDiff | Updated | Hole

  /** One entry of the image's snapshot table: its id and the image size at that snapshot. */
  datatype SnapEntry = SnapEntry(id: nat, size: nat)

  /** Outcome of loading one object map: a return code and the map's states. */
  datatype MapLoad = MapLoad(ret: int, states: seq<ObjectState>)

  /** Outcome of reading the image flags of one snapshot: a return code and the fast-diff-invalid flag. */
  datatype FlagsReply = FlagsReply(ret: int, fastDiffInvalid: bool)

  /**
   * What the scan reads: the snapshot table in ascending id order, the head
   * image size, the flags and the object map stored for each snapshot id
   * (NOSNAP for the head), and the object count for an image size.
   */
  datatype ImageMeta = ImageMeta(snaps: seq<SnapEntry>, headSize: nat,
                                 flags: nat -> FlagsReply, load: nat -> MapLoad,
                                 numObjects: nat -> nat)

  datatype ScanResult = ScanResult(r: int, state: seq<DiffState>)

  /** The snapshot table is keyed by id: ascending, and no snapshot uses the head's id. */
  predicate SnapsSorted(snaps: seq<SnapEntry>) {
    (forall i, j :: 0 <= i < j < |snaps| ==> snaps[i].id < snaps[j].id) &&
    (forall i :: 0 <= i < |snaps| ==> snaps[i].id < NOSNAP)
  }

  predicate HasSnap(snaps: seq<SnapEntry>, id: nat) {
    exists i :: 0 <= i < |snaps| && snaps[i].id == id
  }

  /** Lookup in the snapshot table: the entry's position, or |snaps| when absent. */
  function IndexOf(snaps: seq<SnapEntry>, id: nat): (k: nat)
    ensures k <= |snaps|
    ensures k < |snaps| ==> snaps[k].id == id
    ensures k == |snaps| ==> !HasSnap(snaps, id)
  {
    if snaps == [] then 0
    else if snaps[0].id == id then 0
    else
      var k := IndexOf(snaps[1..], id);
      assert k < |snaps| - 1 ==> snaps[1..][k] == snaps[k + 1];
      assert !HasSnap(snaps[1..], id) ==> !HasSnap(snaps, id) by {
        if !HasSnap(snaps[1..], id) {
          forall i | 0 < i < |snaps| ensures snaps[i].id != id {
            assert snaps[i] == snaps[1..][i - 1];
          }
        }
      }
      k + 1
  }

  /** Position `p` of the walk: a snapshot, or the head when `p == |snaps|`. */
  function IdAt(m: ImageMeta, p: nat): nat
    requires p <= |m.snaps|
  {
    if p == |m.snaps| then NOSNAP else m.snaps[p].id
  }

  function SizeAt(m: ImageMeta, p: nat): nat
    requires p <= |m.snaps|
  {
    if p == |m.snaps| then m.headSize else m.snaps[p].size
  }

  /** The snapshot the scan starts from: the oldest one (or the head) when diffing from the start. */
  function StartPos(m: ImageMeta, fromSnapId: nat): nat {
    if fromSnapId == 0 then 0 else IndexOf(m.snaps, fromSnapId)
  }

  /** After comparing position `p` the scan stops: at the head, or when the next snapshot is past the end. */
  predicate Stops(m: ImageMeta, to: nat, p: nat)
    requires p <= |m.snaps|
  {
    p == |m.snaps| || IdAt(m, p + 1) > to
  }

  /**
   * One object's diff state after comparing its previous map state `prev`
   * with its current state `cur`, starting from the verdict `mark` so far.
   */
  function Classify(prev: ObjectState, cur: ObjectState, mark: DiffState): (d: DiffState)
    // written to since the previous snapshot
    ensures cur == Exists ==> d == Updated
    // deleted since the previous snapshot
    ensures cur == Nonexistent && prev != Nonexistent ==> d == Hole
    // no change of state, or only cleaned by a flush: the verdict so far stands
    ensures prev == cur && cur != Exists ==> d == mark
    ensures prev == Exists && cur == ExistsClean ==> d == mark
    // any other change of an existing object is an update
    ensures cur != Nonexistent && cur != prev && !(prev == Exists && cur == ExistsClean) ==> d == Updated
  {
    if cur == Nonexistent then
      if prev != Nonexistent then Hole else mark
    else if cur == Exists || (prev != cur && !(prev == Exists && cur == ExistsClean)) then Updated
    else mark
  }

  /**
   * The diff states after comparing the map `cur` with `prev`: objects in
   * both maps are classified, the rest is cut off or, for objects beyond
   * the previous map, reported as updated when they exist and growth is
   * taken into account.
   */
  function Step(state: seq<DiffState>, prev: seq<ObjectState>, cur: seq<ObjectState>, growOk: bool): seq<DiffState>
    requires |state| == |prev|
  {
    seq(|cur|, i requires 0 <= i < |cur| =>
      if i < |prev| then Classify(prev[i], cur[i], state[i])
      else if growOk && cur[i] != Nonexistent then Updated
      else NoDiff)
  }

  /** No object that is missing in map `prev` carries an update verdict. */
  predicate NoStaleUpdate(state: seq<DiffState>, prev: seq<ObjectState>)
    requires |state| == |prev|
  {
    forall i :: 0 <= i < |prev| && prev[i] == Nonexistent ==> state[i] != Updated
  }

  /**
   * The scan from position `p` on: read the start snapshot's flags, load and
   * size-check the map at `p`, compare it with the previous one, and go on
   * to the next position unless the scan stops here.
   */
  function Walk(m: ImageMeta, fromId: nat, to: nat, fromStart: bool, p: nat,
                state: seq<DiffState>, prev: seq<ObjectState>, valid: bool): ScanResult
    requires p <= |m.snaps| && |state| == |prev|
    decreases |m.snaps| - p
  {
    var f := m.flags(fromId);
    if f.ret < 0 then ScanResult(f.ret, state)
    else if f.fastDiffInvalid then ScanResult(-EINVAL, state)
    else
      var l := m.load(IdAt(m, p));
      var n := m.numObjects(SizeAt(m, p));
      if l.ret < 0 then ScanResult(l.ret, state)
      else if |l.states| < n then ScanResult(-EINVAL, state)
      else
        var next := Step(state, prev, l.states[..n], fromStart || valid);
        if Stops(m, to, p) then ScanResult(0, next)
        else Walk(m, fromId, to, fromStart, p + 1, next, l.states[..n], true)
  }

  /** The id the scan starts from (and whose flags it reads). */
  function StartId(m: ImageMeta, fromSnapId: nat): nat {
    if fromSnapId != 0 then fromSnapId
    else if |m.snaps| > 0 then m.snaps[0].id
    else NOSNAP
  }

  function ScanSpec(m: ImageMeta, fromSnapId: nat, toSnapId: nat): ScanResult
    requires fromSnapId == 0 || HasSnap(m.snaps, fromSnapId)
  {
    Walk(m, StartId(m, fromSnapId), toSnapId, fromSnapId == 0, StartPos(m, fromSnapId), [], [], false)
  }

  /** The map at position `p` loaded and at least as large as the object count at that size. */
  predicate Loadable(m: ImageMeta, p: nat)
    requires p <= |m.snaps|
  {
    m.load(IdAt(m, p)).ret >= 0 && |m.load(IdAt(m, p)).states| >= m.numObjects(SizeAt(m, p))
  }

  /** The map at position `p`, cut to the object count at that size. */
  function MapAt(m: ImageMeta, p: nat): seq<ObjectState>
    requires p <= |m.snaps| && Loadable(m, p)
  {
    m.load(IdAt(m, p)).states[..m.numObjects(SizeAt(m, p))]
  }

  /** The position the scan from `p` ends at. */
  function LastPos(m: ImageMeta, to: nat, p: nat): (e: nat)
    requires p <= |m.snaps|
    ensures p <= e <= |m.snaps|
    decreases |m.snaps| - p
  {
    if Stops(m, to, p) then p else LastPos(m, to, p + 1)
  }

  /** Only objects missing in map `prev` carry a hole verdict. */
  predicate HoleOnlyAbsent(state: seq<DiffState>, prev: seq<ObjectState>)
    requires |state| == |prev|
  {
    forall i :: 0 <= i < |prev| && state[i] == Hole ==> prev[i] == Nonexistent
  }

  // ---------------------------------------------------------------------
  // Properties of one comparison step

  /** A step keeps missing objects free of update verdicts. */
  lemma StepNoStaleUpdate(state: seq<DiffState>, prev: seq<ObjectState>, cur: seq<ObjectState>, growOk: bool)
    requires |state| == |prev| && NoStaleUpdate(state, prev)
    ensures |Step(state, prev, cur, growOk)| == |cur|
    ensures NoStaleUpdate(Step(state, prev, cur, growOk), cur)
  {
    var next := Step(state, prev, cur, growOk);
    forall i | 0 <= i < |cur| && cur[i] == Nonexistent ensures next[i] != Updated {
      if i < |prev| {
        assert next[i] == Classify(prev[i], cur[i], state[i]);
      }
    }
  }

  /** A step marks as a hole only objects that are missing in the new map. */
  lemma StepHoleOnlyAbsent(state: seq<DiffState>, prev: seq<ObjectState>, cur: seq<ObjectState>, growOk: bool)
    requires |state| == |prev| && HoleOnlyAbsent(state, prev)
    ensures |Step(state, prev, cur, growOk)| == |cur|
    ensures HoleOnlyAbsent(Step(state, prev, cur, growOk), cur)
  {
    var next := Step(state, prev, cur, growOk);
    forall i | 0 <= i < |cur| && next[i] == Hole ensures cur[i] == Nonexistent {
      if i < |prev| {
        assert next[i] == Classify(prev[i], cur[i], state[i]);
      }
    }
  }

  /** When growth counts, every object written since the previous map ends up updated. */
  lemma StepExistsUpdated(state: seq<DiffState>, prev: seq<ObjectState>, cur: seq<ObjectState>)
    requires |state| == |prev|
    ensures forall i :: 0 <= i < |cur| && cur[i] == Exists ==> Step(state, prev, cur, true)[i] == Updated
  {
  }

  // ---------------------------------------------------------------------
  // Properties of the whole scan

  lemma {:induction false} WalkFacts(m: ImageMeta, fromId: nat, to: nat, fromStart: bool, p: nat,
                                     state: seq<DiffState>, prev: seq<ObjectState>, valid: bool)
    requires p <= |m.snaps| && |state| == |prev| && NoStaleUpdate(state, prev) && HoleOnlyAbsent(state, prev)
    ensures Walk(m, fromId, to, fromStart, p, state, prev, valid).r <= 0
    ensures Walk(m, fromId, to, fromStart, p, state, prev, valid).r == 0 ==>
              var e := LastPos(m, to, p);
              var res := Walk(m, fromId, to, fromStart, p, state, prev, valid).state;
              Loadable(m, e) && |res| == |MapAt(m, e)| &&
              NoStaleUpdate(res, MapAt(m, e)) && HoleOnlyAbsent(res, MapAt(m, e)) &&
              ((fromStart || valid || e > p) ==>
                 forall i :: 0 <= i < |res| && MapAt(m, e)[i] == Exists ==> res[i] == Updated)
    // it succeeds exactly when the flags allow it and every map it visits loads and is large enough
    ensures Walk(m, fromId, to, fromStart, p, state, prev, valid).r == 0 <==>
              m.flags(fromId).ret >= 0 && !m.flags(fromId).fastDiffInvalid &&
              forall q :: p <= q <= LastPos(m, to, p) ==> Loadable(m, q)
    decreases |m.snaps| - p
  {
    var f := m.flags(fromId);
    var l := m.load(IdAt(m, p));
    var n := m.numObjects(SizeAt(m, p));
    if f.ret >= 0 && !f.fastDiffInvalid && l.ret >= 0 && |l.states| >= n {
      var cur := l.states[..n];
      var next := Step(state, prev, cur, fromStart || valid);
      StepNoStaleUpdate(state, prev, cur, fromStart || valid);
      StepHoleOnlyAbsent(state, prev, cur, fromStart || valid);
      if Stops(m, to, p) {
        StepExistsUpdated(state, prev, cur);
      } else {
        WalkFacts(m, fromId, to, fromStart, p + 1, next, cur, true);
        assert Loadable(m, p);
      }
    } else if f.ret >= 0 && !f.fastDiffInvalid {
      assert !Loadable(m, p) && p <= LastPos(m, to, p);
    }
  }

  /**
   * With the flags allowing the scan, the first position whose map fails to
   * load, or is smaller than the object count, ends the scan with the load
   * error, or with -EINVAL for a short map.
   */
  lemma {:induction false} WalkFailsAt(m: ImageMeta, fromId: nat, to: nat, fromStart: bool, p: nat,
                                       state: seq<DiffState>, prev: seq<ObjectState>, valid: bool, q: nat)
    requires p <= |m.snaps| && |state| == |prev|
    requires p <= q <= LastPos(m, to, p)
    requires m.flags(fromId).ret >= 0 && !m.flags(fromId).fastDiffInvalid
    requires forall j :: p <= j < q ==> Loadable(m, j)
    requires !Loadable(m, q)
    ensures Walk(m, fromId, to, fromStart, p, state, prev, valid).r ==
              if m.load(IdAt(m, q)).ret < 0 then m.load(IdAt(m, q)).ret else -EINVAL
    decreases q - p
  {
    if p < q {
      assert Loadable(m, p);
      assert !Stops(m, to, p);
      var n := m.numObjects(SizeAt(m, p));
      var cur := m.load(IdAt(m, p)).states[..n];
      WalkFailsAt(m, fromId, to, fromStart, p + 1, Step(state, prev, cur, fromStart || valid), cur, true, q);
    }
  }

  /** Positions grow with ids: the scan stops exactly at the end snapshot's position. */
  lemma {:induction false} LastPosIsEnd(m: ImageMeta, to: nat, p: nat)
    requires SnapsSorted(m.snaps)
    requires to == NOSNAP || HasSnap(m.snaps, to)
    requires p <= IndexOf(m.snaps, to)
    ensures LastPos(m, to, p) == IndexOf(m.snaps, to)
    decreases |m.snaps| - p
  {
    var e := IndexOf(m.snaps, to);
    if p < e {
      assert IdAt(m, p + 1) <= to by {
        if p + 1 < |m.snaps| {
          assert p + 1 <= e;
        }
      }
      LastPosIsEnd(m, to, p + 1);
    } else {
      assert p == e;
      if p < |m.snaps| {
        assert m.snaps[p].id == to;
      }
    }
  }

  /**
   * What the scan promises its caller: a non-positive result; a failure to
   * read the start snapshot's flags, or flags marking fast diff invalid, or a
   * failure to load the start map ends it with that error; and on success
   * one verdict per object of the end snapshot, never "updated" for an
   * object missing at the end, always "updated" for one written since the
   * previous map, and "hole" only for an object missing at the end.
   */
  lemma ScanFacts(m: ImageMeta, fromSnapId: nat, toSnapId: nat)
    requires SnapsSorted(m.snaps)
    requires fromSnapId == 0 || HasSnap(m.snaps, fromSnapId)
    requires toSnapId == NOSNAP || HasSnap(m.snaps, toSnapId)
    requires fromSnapId < toSnapId
    ensures ScanSpec(m, fromSnapId, toSnapId).r <= 0
    ensures m.flags(StartId(m, fromSnapId)).ret < 0 ==>
              ScanSpec(m, fromSnapId, toSnapId).r == m.flags(StartId(m, fromSnapId)).ret
    ensures m.flags(StartId(m, fromSnapId)).ret >= 0 && m.flags(StartId(m, fromSnapId)).fastDiffInvalid ==>
              ScanSpec(m, fromSnapId, toSnapId).r == -EINVAL
    ensures var f := m.flags(StartId(m, fromSnapId));
            var l := m.load(StartId(m, fromSnapId));
            f.ret >= 0 && !f.fastDiffInvalid && l.ret < 0 ==> ScanSpec(m, fromSnapId, toSnapId).r == l.ret
    ensures ScanSpec(m, fromSnapId, toSnapId).r == 0 ==>
              var e := IndexOf(m.snaps, toSnapId);
              var res := ScanSpec(m, fromSnapId, toSnapId).state;
              Loadable(m, e) && |res| == m.numObjects(SizeAt(m, e)) &&
              (forall i :: 0 <= i < |res| && MapAt(m, e)[i] == Nonexistent ==> res[i] != Updated) &&
              (forall i :: 0 <= i < |res| && MapAt(m, e)[i] == Exists ==> res[i] == Updated) &&
              (forall i :: 0 <= i < |res| && res[i] == Hole ==> MapAt(m, e)[i] == Nonexistent)
    // it succeeds exactly when the flags allow it and the map of every snapshot from start to end loads
    ensures ScanSpec(m, fromSnapId, toSnapId).r == 0 <==>
              m.flags(StartId(m, fromSnapId)).ret >= 0 && !m.flags(StartId(m, fromSnapId)).fastDiffInvalid &&
              forall q :: StartPos(m, fromSnapId) <= q <= IndexOf(m.snaps, toSnapId) ==> Loadable(m, q)
  {
    var s := StartPos(m, fromSnapId);
    var e := IndexOf(m.snaps, toSnapId);
    assert IdAt(m, s) == StartId(m, fromSnapId);
    assert s <= e && (fromSnapId != 0 ==> s < e) by {
      if fromSnapId != 0 && e < |m.snaps| {
        assert m.snaps[s].id == fromSnapId;
      }
    }
    WalkFacts(m, StartId(m, fromSnapId), toSnapId, fromSnapId == 0, s, [], [], false);
    LastPosIsEnd(m, toSnapId, s);
  }

  /**
   * The scan's error when the map at position `q`, between the start and the
   * end snapshot, is the first one that fails to load or is too short: the
   * load error, or -EINVAL.
   */
  lemma ScanFailsAt(m: ImageMeta, fromSnapId: nat, toSnapId: nat, q: nat)
    requires SnapsSorted(m.snaps)
    requires fromSnapId == 0 || HasSnap(m.snaps, fromSnapId)
    requires toSnapId == NOSNAP || HasSnap(m.snaps, toSnapId)
    requires fromSnapId < toSnapId
    requires m.flags(StartId(m, fromSnapId)).ret >= 0 && !m.flags(StartId(m, fromSnapId)).fastDiffInvalid
    requires StartPos(m, fromSnapId) <= q <= IndexOf(m.snaps, toSnapId)
    requires forall j :: StartPos(m, fromSnapId) <= j < q ==> Loadable(m, j)
    requires !Loadable(m, q)
    ensures ScanSpec(m, fromSnapId, toSnapId).r ==
              if m.load(IdAt(m, q)).ret < 0 then m.load(IdAt(m, q)).ret else -EINVAL
  {
    var s := StartPos(m, fromSnapId);
    assert s <= IndexOf(m.snaps, toSnapId) by {
      if fromSnapId != 0 && IndexOf(m.snaps, toSnapId) < |m.snaps| {
        assert m.snaps[s].id == fromSnapId;
      }
    }
    LastPosIsEnd(m, toSnapId, s);
    WalkFailsAt(m, StartId(m, fromSnapId), toSnapId, fromSnapId == 0, s, [], [], false, q);
  }

  // ---------------------------------------------------------------------
  // The scan as the source runs it

  /** The two loops of one comparison: classify the overlap, then resize and mark the grown part. */
  method ComputeStep(state: seq<DiffState>, prev: seq<ObjectState>, cur: seq<ObjectState>, growOk: bool)
    returns (next: seq<DiffState>)
    requires |state| == |prev|
    ensures next == Step(state, prev, cur, growOk)
  {
    next := state;
    var overlap := if |cur| < |prev| then |cur| else |prev|;
    for i := 0 to overlap
      invariant |next| == |state|
      invariant forall k :: 0 <= k < i ==> next[k] == Classify(prev[k], cur[k], state[k])
      invariant forall k :: i <= k < |next| ==> next[k] == state[k]
    {
      if cur[i] == Nonexistent {
        if prev[i] != Nonexistent {
          next := next[i := Hole];
        }
      } else if cur[i] == Exists || (prev[i] != cur[i] && !(prev[i] == Exists && cur[i] == ExistsClean)) {
        next := next[i := Updated];
      }
    }
    // BitVector::resize: truncate, or extend with NONE
    if |cur| <= |next| {
      next := next[..|cur|];
    } else {
      next := next + seq(|cur| - |next|, _ => NoDiff);
    }
    if |cur| > |prev| && growOk {
      for i := overlap to |next|
        invariant |next| == |cur|
        invariant forall k :: 0 <= k < overlap ==> next[k] == Classify(prev[k], cur[k], state[k])
        invariant forall k :: overlap <= k < i ==> next[k] == (if cur[k] != Nonexistent then Updated else NoDiff)
        invariant forall k :: i <= k < |next| ==> next[k] == NoDiff
      {
        if cur[i] == Nonexistent {
          next := next[i := NoDiff];
        } else {
          next := next[i := Updated];
        }
      }
    }
  }

  /** One position of the walk with its map loaded: stop there, or go on to the next position. */
  lemma WalkUnfold(m: ImageMeta, fromId: nat, to: nat, fromStart: bool, p: nat,
                   state: seq<DiffState>, prev: seq<ObjectState>, valid: bool)
    requires p <= |m.snaps| && |state| == |prev|
    requires m.flags(fromId).ret >= 0 && !m.flags(fromId).fastDiffInvalid && Loadable(m, p)
    ensures Stops(m, to, p) ==>
              Walk(m, fromId, to, fromStart, p, state, prev, valid) ==
              ScanResult(0, Step(state, prev, MapAt(m, p), fromStart || valid))
    ensures !Stops(m, to, p) ==>
              Walk(m, fromId, to, fromStart, p, state, prev, valid) ==
              Walk(m, fromId, to, fromStart, p + 1, Step(state, prev, MapAt(m, p), fromStart || valid), MapAt(m, p), true)
  {
  }

  /**
   * `diff_object_map`: the loop over snapshot positions, with the lookup of
   * each snapshot's size and successor, the flag and load checks, and the
   * comparison with the previous map.
   */
  method DiffObjectMap(m: ImageMeta, fromSnapId: nat, toSnapId: nat) returns (r: int, state: seq<DiffState>)
    requires SnapsSorted(m.snaps)
    requires fromSnapId == 0 || HasSnap(m.snaps, fromSnapId)
    requires toSnapId == NOSNAP || HasSnap(m.snaps, toSnapId)
    ensures ScanResult(r, state) == ScanSpec(m, fromSnapId, toSnapId)
  {
    var diffFromStart := fromSnapId == 0;
    var from := fromSnapId;
    if from == 0 {
      from := if |m.snaps| > 0 then m.snaps[0].id else NOSNAP;
    }
    state := [];
    var current := from;
    var next := toSnapId;
    var prev: seq<ObjectState> := [];
    var prevValid := false;
    ghost var pos := StartPos(m, fromSnapId);
    while true
      invariant pos <= |m.snaps| && current == IdAt(m, pos)
      invariant current == NOSNAP ==> next == NOSNAP
      invariant |state| == |prev|
      invariant ScanSpec(m, fromSnapId, toSnapId) == Walk(m, from, toSnapId, diffFromStart, pos, state, prev, prevValid)
      decreases |m.snaps| - pos
    {
      var currentSize := m.headSize;
      if current != NOSNAP {
        var k := IndexOf(m.snaps, current);
        assert k == pos;
        currentSize := m.snaps[k].size;
        next := if k + 1 < |m.snaps| then m.snaps[k + 1].id else NOSNAP;
      }
      var f := m.flags(from);
      if f.ret < 0 {
        r := f.ret;
        return;
      }
      if f.fastDiffInvalid {
        r := -EINVAL;
        return;
      }
      var l := m.load(current);
      if l.ret < 0 {
        r := l.ret;
        return;
      }
      var numObjs := m.numObjects(currentSize);
      if |l.states| < numObjs {
        r := -EINVAL;
        return;
      }
      var objectMap := l.states[..numObjs];
      WalkUnfold(m, from, toSnapId, diffFromStart, pos, state, prev, prevValid);
      state := ComputeStep(state, prev, objectMap, diffFromStart || prevValid);
      if current == next || next > toSnapId {
        assert Stops(m, toSnapId, pos);
        break;
      }
      current := next;
      prev := objectMap;
      prevValid := true;
      pos := pos + 1;
    }
    r := 0;
  }
}
