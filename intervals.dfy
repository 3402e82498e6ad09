/**
 * `interval_set<uint64_t>` as a canonical list of half-open intervals:
 * sorted, non-empty, and separated by at least one missing offset
 * (adjacent intervals are merged, as interval_set does).
 */
module Intervals {

  datatype Interval = Interval(start: nat, len: nat) {
    function End(): nat { start + len }
  }

  type IntervalSet = seq<Interval>

  /** Every interval is non-empty and strictly before the next one, with a gap. */
  predicate Canonical(s: IntervalSet) {
    s == [] ||
    (s[0].len > 0 && (|s| > 1 ==> s[0].End() < s[1].start) && Canonical(s[1..]))
  }

  /** Offset `x` belongs to the set. */
  predicate Contains(s: IntervalSet, x: nat) {
    s != [] && (s[0].start <= x < s[0].End() || Contains(s[1..], x))
  }

  /** Every interval of `s` starts at or after `lo`. */
  predicate StartsFrom(s: IntervalSet, lo: nat) {
    forall i :: 0 <= i < |s| ==> lo <= s[i].start
  }

  /** `intersection_of` with the single range [lo, hi). */
  function Clip(s: IntervalSet, lo: nat, hi: nat): (r: IntervalSet)
    ensures StartsFrom(r, lo)
    ensures forall i :: 0 <= i < |r| ==> 0 < r[i].len && r[i].End() <= hi
  {
    if s == [] then []
    else
      var a := if s[0].start < lo then lo else s[0].start;
      var b := if s[0].End() < hi then s[0].End() else hi;
      if a < b then [Interval(a, b - a)] + Clip(s[1..], lo, hi) else Clip(s[1..], lo, hi)
  }

  /** `insert`/`union_insert` of the range [a, b): merges every interval it touches. */
  function Union(s: IntervalSet, a: nat, b: nat): IntervalSet
    decreases |s|
  {
    if b <= a then s
    else if s == [] then [Interval(a, b - a)]
    else if b < s[0].start then [Interval(a, b - a)] + s
    else if s[0].End() < a then [s[0]] + Union(s[1..], a, b)
    else
      Union(s[1..], if a < s[0].start then a else s[0].start,
                    if b < s[0].End() then s[0].End() else b)
  }

  lemma {:induction false} ContainsAppend(s: IntervalSet, t: IntervalSet, x: nat)
    ensures Contains(s + t, x) <==> Contains(s, x) || Contains(t, x)
  {
    if s == [] {
      assert s + t == t;
    } else {
      assert (s + t)[1..] == s[1..] + t;
      ContainsAppend(s[1..], t, x);
    }
  }

  /** Clipping keeps exactly the offsets of `s` inside [lo, hi). */
  lemma {:induction false} ClipContains(s: IntervalSet, lo: nat, hi: nat, x: nat)
    ensures Contains(Clip(s, lo, hi), x) <==> Contains(s, x) && lo <= x < hi
  {
    if s != [] {
      ClipContains(s[1..], lo, hi, x);
      var a := if s[0].start < lo then lo else s[0].start;
      var b := if s[0].End() < hi then s[0].End() else hi;
      if a < b {
        ContainsAppend([Interval(a, b - a)], Clip(s[1..], lo, hi), x);
        assert Contains([Interval(a, b - a)], x) <==> a <= x < b;
      }
    }
  }

  /** Every interval of a canonical set starts at or after the first one. */
  lemma {:induction false} CanonicalStarts(s: IntervalSet)
    requires Canonical(s) && s != []
    ensures StartsFrom(s, s[0].start)
  {
    if |s| > 1 {
      CanonicalStarts(s[1..]);
      forall i | 0 <= i < |s| ensures s[0].start <= s[i].start {
        if i > 0 { assert s[i] == s[1..][i - 1]; }
      }
    }
  }

  /** Clipping a canonical set yields a canonical set. */
  lemma {:induction false} ClipCanonical(s: IntervalSet, lo: nat, hi: nat)
    requires Canonical(s)
    ensures Canonical(Clip(s, lo, hi))
    ensures forall i :: 0 <= i < |Clip(s, lo, hi)| ==>
              s != [] && s[0].start <= Clip(s, lo, hi)[i].start
  {
    if s != [] {
      ClipCanonical(s[1..], lo, hi);
      var rest := Clip(s[1..], lo, hi);
      if s[1..] != [] {
        CanonicalStarts(s);
        assert s[1..][0] == s[1];
      }
      var a := if s[0].start < lo then lo else s[0].start;
      var b := if s[0].End() < hi then s[0].End() else hi;
      if a < b {
        var r := [Interval(a, b - a)] + rest;
        assert r[1..] == rest;
        assert |r| > 1 ==> r[0].End() < r[1].start;
      }
    }
  }

  /** Union of a non-empty range into a set whose intervals all start after `m` starts after `m`. */
  lemma {:induction false} UnionStartsAfter(s: IntervalSet, a: nat, b: nat, m: nat)
    requires Canonical(s) && a < b && m < a
    requires s != [] ==> m < s[0].start
    ensures Union(s, a, b) != [] && m < Union(s, a, b)[0].start
    decreases |s|
  {
    if s != [] && b >= s[0].start {
      if s[0].End() < a {
      } else {
        var a' := if a < s[0].start then a else s[0].start;
        var b' := if b < s[0].End() then s[0].End() else b;
        if |s| > 1 { assert s[1..][0] == s[1]; }
        UnionStartsAfter(s[1..], a', b', m);
      }
    }
  }

  /** Union keeps a set canonical and adds exactly the offsets of [a, b). */
  lemma {:induction false} UnionCorrect(s: IntervalSet, a: nat, b: nat)
    requires Canonical(s)
    ensures Canonical(Union(s, a, b))
    ensures forall x: nat :: Contains(Union(s, a, b), x) <==> Contains(s, x) || a <= x < b
    decreases |s|
  {
    if b <= a || s == [] {
    } else if b < s[0].start {
      var r := [Interval(a, b - a)] + s;
      assert r[1..] == s;
      forall x: nat ensures Contains(r, x) <==> Contains(s, x) || a <= x < b {
        ContainsAppend([Interval(a, b - a)], s, x);
      }
    } else if s[0].End() < a {
      UnionCorrect(s[1..], a, b);
      if |s| > 1 { assert s[1..][0] == s[1]; }
      UnionStartsAfter(s[1..], a, b, s[0].End());
      var r := [s[0]] + Union(s[1..], a, b);
      assert r[1..] == Union(s[1..], a, b);
      forall x: nat ensures Contains(r, x) <==> Contains(s, x) || a <= x < b {
        ContainsAppend([s[0]], Union(s[1..], a, b), x);
      }
    } else {
      var a' := if a < s[0].start then a else s[0].start;
      var b' := if b < s[0].End() then s[0].End() else b;
      UnionCorrect(s[1..], a', b');
    }
  }
}
