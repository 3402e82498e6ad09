/**
 * `ceph::preallocator<T, N, Alloc>` (src/common/preallocator.h): an
 * allocator that serves requests from N inline slots, bump-pointer style,
 * and falls back to a base allocator `Alloc` once a request does not fit.
 *
 * Pointers are abstract: `Inline(slot)` is `storage_at(slot)`, and
 * `Heap(id)` is the id-th block the base allocator handed out. Pointer
 * arithmetic on inline pointers is arithmetic on slots; a heap pointer
 * never compares equal to, or inside, the inline storage.
 */
module Preallocation {

  datatype Ptr = Inline(slot: nat) | Heap(id: nat)

  /** One call seen by the base allocator: the pointer and the element count. */
  datatype Allocation = Allocation(p: Ptr, n: nat)

  /**
   * Everything an allocation or deallocation can change: the preallocator's
   * `index` (next free inline slot) and the base allocator's call logs and
   * next fresh heap block.
   */
  datatype AllocState = AllocState(index: nat, allocs: seq<Allocation>, deallocs: seq<Allocation>, nextId: nat)

  // ---------------------------------------------------------------------
  // The transition rules

  /** `allocate(n)` with `cap` inline slots: the new state and the pointer handed out. */
  function AllocateStep(s: AllocState, cap: nat, n: nat): (AllocState, Ptr)
  {
    if s.index + n <= cap then
      (s.(index := s.index + n), Inline(s.index))
    else
      var p := Heap(s.nextId);
      (s.(allocs := s.allocs + [Allocation(p, n)], nextId := s.nextId + 1), p)
  }

  /** `deallocate(p, n)`: reclaim the block ending at `index`, drop other inline blocks, forward the rest. */
  function DeallocateStep(s: AllocState, p: Ptr, n: nat): AllocState
  {
    match p
    case Inline(slot) =>
      if slot + n == s.index then s.(index := slot)
      else if slot < s.index then s
      else s.(deallocs := s.deallocs + [Allocation(p, n)])
    case Heap(_) =>
      s.(deallocs := s.deallocs + [Allocation(p, n)])
  }

  // ---------------------------------------------------------------------
  // Properties of single steps

  /** `index` never exceeds the number of inline slots. */
  lemma IndexBounded(s: AllocState, cap: nat, n: nat, p: Ptr)
    requires s.index <= cap
    ensures AllocateStep(s, cap, n).0.index <= cap
    ensures DeallocateStep(s, p, n).index <= cap
  {
  }

  /**
   * A request that fits is served from inline slot `index` and touches no
   * base allocator; one that does not fit, even by a single slot, goes to
   * the base allocator as exactly one call and leaves `index` alone.
   */
  lemma AllocateOutcome(s: AllocState, cap: nat, n: nat)
    ensures var (t, p) := AllocateStep(s, cap, n);
            (p.Inline? <==> s.index + n <= cap) &&
            (p.Inline? ==> p.slot == s.index && t.index == s.index + n &&
                           t.allocs == s.allocs && t.deallocs == s.deallocs) &&
            (p.Heap? ==> t.index == s.index && t.allocs == s.allocs + [Allocation(p, n)] &&
                         t.deallocs == s.deallocs)
  {
  }

  /** The blocks handed out by the base allocator are fresh: no earlier call returned them. */
  lemma HeapBlocksFresh(s: AllocState, cap: nat, n: nat)
    requires forall a :: a in s.allocs ==> a.p.Heap? && a.p.id < s.nextId
    ensures var (t, p) := AllocateStep(s, cap, n);
            (p.Heap? ==> forall a :: a in s.allocs ==> a.p != p) &&
            (forall a :: a in t.allocs ==> a.p.Heap? && a.p.id < t.nextId)
  {
  }

  /**
   * Deallocation: the block ending at `index` is reclaimed; any other inline
   * block below `index` is dropped without any effect; every other pointer
   * is forwarded to the base allocator as exactly one call.
   */
  lemma DeallocateOutcome(s: AllocState, p: Ptr, n: nat)
    ensures var t := DeallocateStep(s, p, n);
            t.allocs == s.allocs && t.nextId == s.nextId &&
            (p.Inline? && p.slot + n == s.index ==> t.index == s.index - n && t.deallocs == s.deallocs) &&
            (p.Inline? && p.slot + n != s.index && p.slot < s.index ==> t == s) &&
            (p.Heap? ==> t.index == s.index && t.deallocs == s.deallocs + [Allocation(p, n)])
  {
  }

  /**
   * Freeing what was just allocated undoes the allocation: an inline block
   * gives its slots back, a heap block is returned to the base allocator
   * (which then has seen one allocation and one deallocation of it).
   */
  lemma AllocateThenDeallocate(s: AllocState, cap: nat, n: nat)
    ensures var (t, p) := AllocateStep(s, cap, n);
            var u := DeallocateStep(t, p, n);
            u.index == s.index &&
            (s.index + n <= cap ==> u == s) &&
            (s.index + n > cap ==>
               u.allocs == s.allocs + [Allocation(p, n)] && u.deallocs == s.deallocs + [Allocation(p, n)])
  {
  }

  /** After the block at the end is reclaimed, a request of the same size is served inline again. */
  lemma ReclaimedServedInline(s: AllocState, cap: nat, n: nat)
    requires s.index + n <= cap
    ensures var (t, p) := AllocateStep(s, cap, n);
            var u := DeallocateStep(t, p, n);
            AllocateStep(u, cap, n) == (t, p)
  {
  }

  // ---------------------------------------------------------------------
  // Sequences of requests

  function Sum(sizes: seq<nat>): nat {
    if sizes == [] then 0 else sizes[0] + Sum(sizes[1..])
  }

  /** Allocate `sizes[0]`, then `sizes[1]`, ...; the final state and the pointers in order. */
  function AllocateAll(s: AllocState, cap: nat, sizes: seq<nat>): (r: (AllocState, seq<Ptr>))
    ensures |r.1| == |sizes|
    decreases |sizes|
  {
    if sizes == [] then (s, [])
    else
      var (s1, p) := AllocateStep(s, cap, sizes[0]);
      var (s2, ps) := AllocateAll(s1, cap, sizes[1..]);
      (s2, [p] + ps)
  }

  /** Free the blocks `ptrs` (with sizes `sizes`) from the last one to the first. */
  function DeallocateReverse(s: AllocState, ptrs: seq<Ptr>, sizes: seq<nat>): AllocState
    requires |ptrs| == |sizes|
    decreases |ptrs|
  {
    if ptrs == [] then s
    else DeallocateReverse(DeallocateStep(s, ptrs[|ptrs| - 1], sizes[|sizes| - 1]),
                           ptrs[..|ptrs| - 1], sizes[..|sizes| - 1])
  }

  /** Freeing in reverse order frees the first block last. */
  lemma {:induction false} DeallocateReverseFirst(s: AllocState, p: Ptr, ptrs: seq<Ptr>, n: nat, sizes: seq<nat>)
    requires |ptrs| == |sizes|
    ensures DeallocateReverse(s, [p] + ptrs, [n] + sizes) ==
            DeallocateStep(DeallocateReverse(s, ptrs, sizes), p, n)
    decreases |ptrs|
  {
    if ptrs == [] {
      assert DeallocateReverse(s, [p], [n]) == DeallocateReverse(DeallocateStep(s, p, n), [], []);
    } else {
      var k := |ptrs| - 1;
      var t := DeallocateStep(s, ptrs[k], sizes[k]);
      assert ([p] + ptrs)[..|ptrs|] == [p] + ptrs[..k];
      assert ([n] + sizes)[..|sizes|] == [n] + sizes[..k];
      calc {
        DeallocateReverse(s, [p] + ptrs, [n] + sizes);
        DeallocateReverse(t, [p] + ptrs[..k], [n] + sizes[..k]);
      == { DeallocateReverseFirst(t, p, ptrs[..k], n, sizes[..k]); }
        DeallocateStep(DeallocateReverse(t, ptrs[..k], sizes[..k]), p, n);
        DeallocateStep(DeallocateReverse(s, ptrs, sizes), p, n);
      }
    }
  }

  /**
   * Stack discipline: when a run of requests all fit inline, freeing them
   * in reverse order restores the state exactly, with no base allocator call.
   */
  lemma {:induction false} AllocateAllThenReverse(s: AllocState, cap: nat, sizes: seq<nat>)
    requires s.index + Sum(sizes) <= cap
    ensures var (t, ptrs) := AllocateAll(s, cap, sizes);
            DeallocateReverse(t, ptrs, sizes) == s
    decreases |sizes|
  {
    if sizes != [] {
      var (s1, p) := AllocateStep(s, cap, sizes[0]);
      assert s1.index == s.index + sizes[0] && p == Inline(s.index);
      AllocateAllThenReverse(s1, cap, sizes[1..]);
      var (t, ps) := AllocateAll(s1, cap, sizes[1..]);
      assert sizes == [sizes[0]] + sizes[1..];
      DeallocateReverseFirst(t, p, ps, sizes[0], sizes[1..]);
    }
  }

  /** A run of requests that all fit is served inline, back to back, from `index` on. */
  lemma {:induction false} AllocateAllInline(s: AllocState, cap: nat, sizes: seq<nat>)
    requires s.index + Sum(sizes) <= cap
    ensures var (t, ptrs) := AllocateAll(s, cap, sizes);
            t == s.(index := s.index + Sum(sizes)) &&
            forall i :: 0 <= i < |ptrs| ==> ptrs[i].Inline? && ptrs[i].slot >= s.index
    decreases |sizes|
  {
    if sizes != [] {
      var (s1, p) := AllocateStep(s, cap, sizes[0]);
      AllocateAllInline(s1, cap, sizes[1..]);
    }
  }

  // ---------------------------------------------------------------------
  // The objects

  /** The base allocator `Alloc`, recording every call it receives. */
  class BaseAllocator {
    var allocs: seq<Allocation>
    var deallocs: seq<Allocation>
    /** The id of the next block this allocator hands out. */
    var nextId: nat

    constructor ()
      ensures allocs == [] && deallocs == [] && nextId == 0
    {
      allocs, deallocs, nextId := [], [], 0;
    }

    method Allocate(n: nat) returns (p: Ptr)
      modifies this
      ensures p == Heap(old(nextId)) && nextId == old(nextId) + 1
      ensures allocs == old(allocs) + [Allocation(p, n)] && deallocs == old(deallocs)
    {
      p := Heap(nextId);
      nextId := nextId + 1;
      allocs := allocs + [Allocation(p, n)];
    }

    method Deallocate(p: Ptr, n: nat)
      modifies this
      ensures deallocs == old(deallocs) + [Allocation(p, n)]
      ensures allocs == old(allocs) && nextId == old(nextId)
    {
      deallocs := deallocs + [Allocation(p, n)];
    }
  }

  class Preallocator {
    /** The number of inline slots `N`. */
    const N: nat
    /** The allocator this one falls back to; copies share it. */
    const base: BaseAllocator
    /** The next inline slot to hand out. */
    var index: nat

    ghost predicate Valid()
      reads this
    {
      index <= N
    }

    function State(): AllocState
      reads this, base
    {
      AllocState(index, base.allocs, base.deallocs, base.nextId)
    }

    constructor (N: nat, base: BaseAllocator)
      ensures Valid() && this.N == N && this.base == base && index == 0
    {
      this.N := N;
      this.base := base;
      index := 0;
    }

    /**
     * The copy constructor and the converting copy constructor: only an
     * unused allocator may be copied, since the copy could not deallocate
     * inline blocks the original handed out.
     */
    constructor Copy(other: Preallocator)
      requires other.index == 0
      ensures Valid() && N == other.N && base == other.base && index == 0
    {
      N := other.N;
      base := other.base;
      index := 0;
    }

    method Allocate(n: nat) returns (p: Ptr)
      requires Valid()
      modifies this, base
      ensures Valid()
      ensures (State(), p) == AllocateStep(old(State()), N, n)
    {
      if index + n <= N {
        p := Inline(index);
        index := index + n;
        return;
      }
      p := base.Allocate(n);
    }

    method Deallocate(p: Ptr, n: nat)
      requires Valid()
      modifies this, base
      ensures Valid()
      ensures State() == DeallocateStep(old(State()), p, n)
    {
      if p.Inline? && p.slot + n == index {
        index := index - n;
      } else if p.Inline? && p.slot < index {
      } else {
        base.Deallocate(p, n);
      }
    }
  }

  // ---------------------------------------------------------------------
  // The recorded scenarios

  /** One inline slot: the second single allocation overflows, and only it reaches the base allocator. */
  method AllocateOverflow() returns (p1: Ptr, p2: Ptr, allocs: seq<Allocation>, deallocs: seq<Allocation>)
    ensures p1 == Inline(0) && p2.Heap?
    ensures allocs == [Allocation(p2, 1)] && deallocs == [Allocation(p2, 1)]
  {
    var base := new BaseAllocator();
    var a := new Preallocator(1, base);
    p1 := a.Allocate(1);
    assert base.allocs == [];
    p2 := a.Allocate(1);
    a.Deallocate(p1, 1);
    assert base.deallocs == [];
    a.Deallocate(p2, 1);
    allocs, deallocs := base.allocs, base.deallocs;
  }

  /** Two slots, one used: a request for two overflows although one slot is free. */
  method AllocateUnalignedOverflow() returns (p1: Ptr, p2: Ptr, allocs: seq<Allocation>, deallocs: seq<Allocation>)
    ensures p1 == Inline(0) && p2.Heap?
    ensures allocs == [Allocation(p2, 2)] && deallocs == [Allocation(p2, 2)]
  {
    var base := new BaseAllocator();
    var a := new Preallocator(2, base);
    p1 := a.Allocate(1);
    p2 := a.Allocate(2);
    assert base.allocs == [Allocation(p2, 2)];
    a.Deallocate(p1, 1);
    assert base.deallocs == [];
    a.Deallocate(p2, 2);
    allocs, deallocs := base.allocs, base.deallocs;
  }

  /** Freeing the front block reclaims nothing, so its replacement overflows. */
  method DeallocateFront() returns (p1: Ptr, allocs: seq<Allocation>, deallocs: seq<Allocation>)
    ensures p1.Heap?
    ensures allocs == [Allocation(p1, 1)] && deallocs == [Allocation(p1, 1)]
  {
    var base := new BaseAllocator();
    var a := new Preallocator(2, base);
    p1 := a.Allocate(1);
    var p2 := a.Allocate(1);
    assert base.allocs == [];
    a.Deallocate(p1, 1);
    assert base.deallocs == [];
    p1 := a.Allocate(1);
    a.Deallocate(p2, 1);
    assert base.deallocs == [];
    a.Deallocate(p1, 1);
    allocs, deallocs := base.allocs, base.deallocs;
  }

  /** Freeing the back block reclaims it, so its replacement is served inline. */
  method DeallocateBack() returns (p2: Ptr, allocs: seq<Allocation>, deallocs: seq<Allocation>)
    ensures p2 == Inline(1)
    ensures allocs == [] && deallocs == []
  {
    var base := new BaseAllocator();
    var a := new Preallocator(2, base);
    var p1 := a.Allocate(1);
    p2 := a.Allocate(1);
    a.Deallocate(p2, 1);
    p2 := a.Allocate(1);
    a.Deallocate(p2, 1);
    a.Deallocate(p1, 1);
    allocs, deallocs := base.allocs, base.deallocs;
  }

  /**
   * Four slots filled with singles and freed in reverse are all reclaimed;
   * filled again, the fifth single overflows and is the only block the base
   * allocator sees.
   */
  method DeallocateReverseOrder() returns (p5: Ptr, allocs: seq<Allocation>, deallocs: seq<Allocation>)
    ensures p5.Heap?
    ensures allocs == [Allocation(p5, 1)] && deallocs == [Allocation(p5, 1)]
  {
    var base := new BaseAllocator();
    var a := new Preallocator(4, base);
    var p1 := a.Allocate(1);
    var p2 := a.Allocate(1);
    var p3 := a.Allocate(1);
    var p4 := a.Allocate(1);
    a.Deallocate(p4, 1);
    a.Deallocate(p3, 1);
    a.Deallocate(p2, 1);
    a.Deallocate(p1, 1);
    assert a.index == 0 && base.allocs == [] && base.deallocs == [];
    p1 := a.Allocate(1);
    p2 := a.Allocate(1);
    p3 := a.Allocate(1);
    p4 := a.Allocate(1);
    assert base.allocs == [];
    p5 := a.Allocate(1);
    a.Deallocate(p4, 1);
    a.Deallocate(p3, 1);
    a.Deallocate(p2, 1);
    a.Deallocate(p1, 1);
    assert base.deallocs == [];
    a.Deallocate(p5, 1);
    allocs, deallocs := base.allocs, base.deallocs;
  }
}
