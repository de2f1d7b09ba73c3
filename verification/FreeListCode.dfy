/** The code of the free list, proved to do what its value-level description says.  Blocks are found by
    the queries of an ordered map, and lengths are indexed by a second one. */
module FreeListCode {
  import opened Options
  import opened Spec = FreeList

  type Index = map<nat, set<nat>>

  /** `free_block_len_to_indices` lists exactly the blocks, by length, and no empty sets. */
  ghost predicate Indexed(m: Blocks, d: Index) {
    && (forall i | i in m :: m[i] in d && i in d[m[i]])
    && (forall n | n in d :: d[n] != {})
    && (forall n, i | n in d && i in d[n] :: i in m && m[i] == n)
  }

  function Added(d: Index, i: nat, n: nat): Index {
    d[n := (if n in d then d[n] else {}) + {i}]
  }

  function Dropped(d: Index, i: nat, n: nat): Index
    requires n in d
  {
    if d[n] - {i} == {} then d - {n} else d[n := d[n] - {i}]
  }

  lemma AddedIndexed(m: Blocks, d: Index, i: nat, n: nat)
    requires Indexed(m, d) && i !in m
    ensures Indexed(m[i := n], Added(d, i, n))
  {
  }

  lemma DroppedIndexed(m: Blocks, d: Index, i: nat)
    requires Indexed(m, d) && i in m
    ensures m[i] in d && Indexed(m - {i}, Dropped(d, i, m[i]))
  {
  }

  /** `blocks_are_contiguous`. */
  predicate Contiguous(prev: nat, len: nat, next: nat) {
    prev + len <= next && next - (prev + len) < ALIGN
  }

  /** The block before the range is contiguous with it exactly when it ends there. */
  lemma PrevMerges(m: Blocks, i: nat, n: nat, p: nat)
    requires BlocksOk(m) && Clear(m, i, n) && IsPrev(m, i, p)
    ensures Contiguous(p, m[p], i) <==> EndingAt(m, i).Some?
    ensures Contiguous(p, m[p], i) ==> EndingAt(m, i) == Some(p)
  {
    GridSum(p, m[p]);
    if Contiguous(p, m[p], i) {
      GridGap(p + m[p], i);
    }
  }

  lemma NoPrev(m: Blocks, i: nat, n: nat)
    requires BlocksOk(m) && Clear(m, i, n) && forall j | j in m :: j >= i
    ensures EndingAt(m, i).None?
  {
  }

  /** And the one after it exactly when it begins where the range ends. */
  lemma NextMerges(m: Blocks, i: nat, n: nat, q: nat)
    requires BlocksOk(m) && Clear(m, i, n) && IsNext(m, i, q)
    ensures Contiguous(i, n, q) <==> i + n in m
    ensures Contiguous(i, n, q) ==> q == i + n
  {
    GridSum(i, n);
    if Contiguous(i, n, q) {
      GridGap(i + n, q);
    }
  }

  lemma NeighboursAre(m: Blocks, i: nat, n: nat, prev: Option<nat>, next: Option<nat>)
    requires BlocksOk(m) && Clear(m, i, n)
    requires if prev.Some? then IsPrev(m, i, prev.value) else forall j | j in m :: j >= i
    requires if next.Some? then IsNext(m, i, next.value) else forall j | j in m :: j <= i
    ensures EndingAt(m, i) == if prev.Some? && Contiguous(prev.value, m[prev.value], i) then prev else None
    ensures i + n in m <==> next.Some? && Contiguous(i, n, next.value)
    ensures i + n in m ==> next == Some(i + n)
  {
    if prev.Some? { PrevMerges(m, i, n, prev.value); } else { NoPrev(m, i, n); }
    if next.Some? { NextMerges(m, i, n, next.value); }
  }

  /** What is stored once the blocks that `prev` and `next` name, if they do, are merged with `i..i + n`. */
  function Stored(m: Blocks, i: nat, n: nat, prev: Option<nat>, next: Option<nat>): Blocks
    requires prev.Some? ==> prev.value in m && prev.value <= i
    requires next.Some? ==> next.value in m && i <= next.value
  {
    var rest := if next.Some? then m - {next.value} else m;
    var end := if next.Some? then next.value + m[next.value] else i + n;
    if prev.Some? then (rest - {prev.value})[prev.value := end - prev.value] else rest[i := end - i]
  }

  lemma Overwrites(m: Blocks, k: nat, v: nat)
    ensures (m - {k})[k := v] == m[k := v]
  {
  }

  lemma StoredIsMerge(m: Blocks, i: nat, n: nat)
    ensures Stored(m, i, n, EndingAt(m, i), if i + n in m then Some(i + n) else None) == Merge(m, i, n)
  {
    var prev, end := EndingAt(m, i), MergedEnd(m, i, n);
    if i + n !in m {
      assert m - {i + n} == m;
    }
    if prev.Some? {
      Overwrites(m - {i + n}, prev.value, end - prev.value);
    }
  }

  lemma LastIs(h: Heap, last: nat)
    requires BlocksOk(h.blocks) && IsLast(h.blocks, last)
    ensures AbsorbLast(h) == if last + h.blocks[last] == h.lo then h.(blocks := h.blocks - {last}, lo := last) else h
  {
    var prev := EndingAt(h.blocks, h.lo);
    if prev.Some? && last + h.blocks[last] == h.lo {
      assert prev.value == last;
    }
  }

  lemma BestIs(m: Blocks, d: Index, n: nat, len: nat, i: nat)
    requires Indexed(m, d) && len in d && len >= n && (forall k | k in d && k >= n :: len <= k)
    requires i in d[len] && forall k | k in d[len] :: i <= k
    ensures BestFit(m, n) == Some(i)
  {
    assert IsBestFit(m, n, i) by {
      forall j | j in m && m[j] >= n
        ensures m[i] < m[j] || (m[i] == m[j] && i <= j)
      {
        assert m[j] in d;
      }
    }
  }

  class FreeList {
    var capacity: nat
    var blocks: Blocks
    var bySize: Index
    var bumpPtr: nat
    var bumpEnd: nat

    ghost function Fields(): Heap
      reads this
    {
      Heap(blocks, bumpPtr, bumpEnd)
    }

    ghost predicate Valid(limit: nat)
      reads this
    {
      Indexed(blocks, bySize) && Ok(Fields(), limit)
    }

    constructor (cap: nat)
      ensures Valid(Limit(cap)) && capacity == cap && Fields() == New(cap)
    {
      capacity := cap;
      blocks, bySize := map[], map[];
      bumpPtr := ALIGN;
      var end := if cap > U32_MAX then U32_MAX else cap;
      var len := RoundDown(if end > ALIGN then end - ALIGN else 0);
      bumpEnd := if len >= ALIGN then ALIGN + len else ALIGN;
      NewOk(cap);
    }

    method RemoveBlock(i: nat) returns (len: nat)
      requires Indexed(blocks, bySize) && i in blocks
      modifies this`blocks, this`bySize
      ensures blocks == old(blocks) - {i} && len == old(blocks)[i] && Indexed(blocks, bySize)
    {
      DroppedIndexed(blocks, bySize, i);
      len := blocks[i];
      blocks := blocks - {i};
      RemoveFromBlockLenToIndex(i, len);
    }

    method RemoveFromBlockLenToIndex(i: nat, len: nat)
      requires len in bySize
      modifies this`bySize
      ensures bySize == Dropped(old(bySize), i, len)
    {
      var rest := bySize[len] - {i};
      if rest == {} {
        bySize := bySize - {len};
      } else {
        bySize := bySize[len := rest];
      }
    }

    method InsertBlock(i: nat, len: nat)
      requires Indexed(blocks, bySize) && i !in blocks
      modifies this`blocks, this`bySize
      ensures blocks == old(blocks)[i := len] && Indexed(blocks, bySize)
    {
      AddedIndexed(blocks, bySize, i, len);
      blocks := blocks[i := len];
      bySize := Added(bySize, i, len);
    }

    method PrevBlock(i: nat) returns (prev: Option<nat>)
      ensures if prev.Some? then IsPrev(blocks, i, prev.value) else forall j | j in blocks :: j >= i
    {
      if j :| j in blocks && j < i {
        PrevKeyExists(blocks, i, j);
        assert IsPrev(blocks, i, PrevKey(blocks, i).value);
        var p :| p in blocks && p < i && forall k | k in blocks && k < i :: k <= p;
        return Some(p);
      }
      return None;
    }

    method NextBlock(i: nat) returns (next: Option<nat>)
      ensures if next.Some? then IsNext(blocks, i, next.value) else forall j | j in blocks :: j <= i
    {
      if j :| j in blocks && i < j {
        NextKeyExists(blocks, i, j);
        assert IsNext(blocks, i, NextKey(blocks, i).value);
        var q :| q in blocks && i < q && forall k | k in blocks && i < k :: q <= k;
        return Some(q);
      }
      return None;
    }

    method LastBlock() returns (last: Option<nat>)
      ensures if last.Some? then IsLast(blocks, last.value) else blocks == map[]
    {
      if blocks == map[] {
        return None;
      }
      LastKeyExists(blocks);
      assert IsLast(blocks, LastKey(blocks).value);
      var k :| k in blocks && forall j | j in blocks :: j <= k;
      return Some(k);
    }

    /** The last block, if it touches the bump region from below, joins it. */
    method AbsorbLastBlock()
      requires Indexed(blocks, bySize) && BlocksOk(blocks)
      modifies this`blocks, this`bySize, this`bumpPtr
      ensures Indexed(blocks, bySize) && Fields() == AbsorbLast(old(Fields()))
    {
      var last := LastBlock();
      if last.Some? {
        LastIs(Fields(), last.value);
        if last.value + blocks[last.value] == bumpPtr {
          bumpPtr := last.value;
          var _ := RemoveBlock(last.value);
        }
      }
    }

    /** The last four cases of `dealloc_impl`: a new block, merged with its neighbours. */
    method InsertMerged(i: nat, n: nat)
      requires Indexed(blocks, bySize) && BlocksOk(blocks) && Clear(blocks, i, n)
      modifies this`blocks, this`bySize
      ensures Indexed(blocks, bySize) && blocks == Merge(old(blocks), i, n)
    {
      var prev := PrevBlock(i);
      var next := NextBlock(i);
      NeighboursAre(blocks, i, n, prev, next);
      StoredIsMerge(blocks, i, n);
      if prev.Some? && !Contiguous(prev.value, blocks[prev.value], i) {
        prev := None;
      }
      if next.Some? && !Contiguous(i, n, next.value) {
        next := None;
      }
      Store(i, n, prev, next);
    }

    method Store(i: nat, n: nat, prev: Option<nat>, next: Option<nat>)
      requires Indexed(blocks, bySize) && i !in blocks
      requires prev.Some? ==> prev.value in blocks && prev.value < i
      requires next.Some? ==> next.value in blocks && i < next.value
      modifies this`blocks, this`bySize
      ensures Indexed(blocks, bySize) && blocks == Stored(old(blocks), i, n, prev, next)
    {
      var end := i + n;
      if next.Some? {
        var nextLen := RemoveBlock(next.value);
        end := next.value + nextLen;
      }
      if prev.Some? {
        var _ := RemoveBlock(prev.value);
        InsertBlock(prev.value, end - prev.value);
      } else {
        InsertBlock(i, end - i);
      }
    }

    /** A block that begins where the bump region ends joins it. */
    method AbsorbBlockAbove()
      requires Indexed(blocks, bySize)
      modifies this`blocks, this`bySize, this`bumpEnd
      ensures Indexed(blocks, bySize) && Fields() == AbsorbAbove(old(Fields()))
    {
      if bumpEnd in blocks {
        var len := RemoveBlock(bumpEnd);
        bumpEnd := bumpEnd + len;
      }
    }

    method DeallocImpl(i: nat, n: nat)
      requires Indexed(blocks, bySize) && BlocksOk(blocks) && Clear(blocks, i, n)
      modifies this`blocks, this`bySize, this`bumpPtr, this`bumpEnd
      ensures Indexed(blocks, bySize) && Fields() == Dealloc(old(Fields()), i, n)
    {
      if i + n == bumpPtr {
        bumpPtr := i;
        AbsorbLastBlock();
      } else if bumpEnd == i {
        bumpEnd := i + n;
        AbsorbBlockAbove();
      } else {
        MergeOk(blocks, i, n);
        InsertMerged(i, n);
        AbsorbLastBlock();
      }
    }

    /** Frees the range `i..i + n`, which is not free. */
    method DeallocFast(i: nat, n: nat, ghost limit: nat)
      requires Valid(limit) && Taken(Fields(), limit, i, n)
      modifies this`blocks, this`bySize, this`bumpPtr, this`bumpEnd
      ensures Valid(limit) && Fields() == Dealloc(old(Fields()), i, n)
    {
      DeallocOk(Fields(), limit, i, n);
      DeallocImpl(i, n);
    }

    /** Allocates `n` bytes, a positive multiple of the alignment. */
    method AllocImpl(n: nat, ghost limit: nat) returns (r: Option<nat>)
      requires Valid(limit) && OnGrid(n) && n >= ALIGN
      modifies this`blocks, this`bySize, this`bumpPtr, this`bumpEnd
      ensures Valid(limit) && (r, Fields()) == Alloc(old(Fields()), n)
    {
      if bumpPtr + n <= U32_MAX && bumpPtr + n <= bumpEnd {
        BumpOk(Fields(), limit, n);
        r := Some(bumpPtr);
        bumpPtr := bumpPtr + n;
      } else {
        RetireOk(Fields(), limit);
        if bumpPtr < bumpEnd {
          RetiredRange(Fields(), limit);
        }
        RetireBump();
        r := TakeBestBlock(n, limit);
      }
    }

    /** The first half of `alloc_slow`. */
    method RetireBump()
      requires Indexed(blocks, bySize) && BlocksOk(blocks) && bumpPtr <= bumpEnd
      requires bumpPtr < bumpEnd ==> Clear(blocks, bumpPtr, bumpEnd - bumpPtr)
      modifies this`blocks, this`bySize, this`bumpPtr, this`bumpEnd
      ensures Indexed(blocks, bySize) && Fields() == Retire(old(Fields()))
    {
      hide Dealloc, Clear, BlocksOk;
      var remainingPtr, remaining := bumpPtr, bumpEnd - bumpPtr;
      bumpPtr, bumpEnd := ALIGN, ALIGN;
      assert Fields() == old(Fields()).(lo := ALIGN, hi := ALIGN);
      if remaining >= ALIGN {
        DeallocImpl(remainingPtr, remaining);
      }
    }

    /** Its second half. */
    method TakeBestBlock(n: nat, ghost limit: nat) returns (r: Option<nat>)
      requires Valid(limit) && bumpPtr == ALIGN && OnGrid(n) && n >= ALIGN
      modifies this`blocks, this`bySize, this`bumpPtr, this`bumpEnd
      ensures Valid(limit) && (r, Fields()) == TakeBest(old(Fields()), n)
    {
      TakeBestOk(Fields(), limit, n);
      r := PopBestFit(n);
      if r.Some? {
        var len := blocks[r.value];
        blocks := blocks - {r.value};
        bumpPtr, bumpEnd := r.value + n, r.value + len;
      }
    }

    /** The smallest length that fits, and its lowest index, which leaves the index by length. */
    method PopBestFit(n: nat) returns (r: Option<nat>)
      requires Indexed(blocks, bySize)
      modifies this`bySize
      ensures r == BestFit(blocks, n)
      ensures if r.Some? then r.value in blocks && Indexed(blocks - {r.value}, bySize) else bySize == old(bySize)
    {
      ghost var lens := set k | k in bySize && k >= n;
      if any :| any in bySize && any >= n {
        assert any in lens;
        ghost var least := MinExists(lens);
        assert forall k | k in bySize && k >= n :: k in lens;
        var len :| len in bySize && len >= n && forall k | k in bySize && k >= n :: len <= k;
        ghost var lowest := MinExists(bySize[len]);
        var i :| i in bySize[len] && forall k | k in bySize[len] :: i <= k;
        BestIs(blocks, bySize, n, len, i);
        DroppedIndexed(blocks, bySize, i);
        RemoveFromBlockLenToIndex(i, len);
        return Some(i);
      }
      return None;
    }

    /** Adds the block `index..end`, if there is any memory in it. */
    method AddBlock(index: nat, end: nat)
      requires Valid(end) && (index < end ==> Taken(Fields(), end, index, end - index))
      modifies this`blocks, this`bySize, this`bumpPtr, this`bumpEnd
      ensures Valid(end)
      ensures Fields() == if index >= end then old(Fields()) else Dealloc(old(Fields()), index, end - index)
    {
      if index > end {
        return;
      }
      var size := end - index;
      if size == 0 {
        return;
      }
      DeallocFast(index, size, end);
    }

    method AddMoreCapacity(additional: nat)
      requires capacity <= USIZE_MAX && Valid(Limit(capacity))
      modifies this
      ensures capacity == Grown(old(capacity), additional) && Valid(Limit(capacity))
      ensures Fields() == AddCapacity(old(Fields()), old(capacity), additional)
    {
      hide Dealloc, RoundDown, Ok, Limit, Indexed, Taken;
      LimitGrows(capacity, additional);
      AddedRange(Fields(), capacity, additional);
      var rounded := RoundDown(capacity);
      capacity := Grown(capacity, additional);
      if rounded > U32_MAX {
        return;
      }
      AddBlock(if rounded == 0 then ALIGN else rounded, Limit(capacity));
    }
  }
}
