/** The free list that the garbage collectors allocate from (`vm/gc/enabled/free_list.rs`).  Free
    memory is a set of blocks, kept by index and again by length, and one bump region that
    allocations are cut from.  All indices and lengths are multiples of 16, and index 0 is never
    handed out. */
module FreeList {
  import opened Options

  const ALIGN: nat := 16
  const U32_MAX: nat := 0xFFFF_FFFF

  // ----- sorted maps

  type Blocks = map<nat, nat>

  ghost predicate IsLast(m: Blocks, k: nat) {
    k in m && forall j | j in m :: j <= k
  }

  ghost predicate IsPrev(m: Blocks, i: nat, k: nat) {
    k in m && k < i && forall j | j in m && j < i :: j <= k
  }

  ghost predicate IsNext(m: Blocks, i: nat, k: nat) {
    k in m && i < k && forall j | j in m && i < j :: k <= j
  }

  /** The smallest block that holds `n`, and of several the one with the lowest index. */
  ghost predicate IsBestFit(m: Blocks, n: nat, k: nat) {
    && k in m && m[k] >= n
    && forall j | j in m && m[j] >= n :: m[k] < m[j] || (m[k] == m[j] && k <= j)
  }

  ghost function LastKey(m: Blocks): Option<nat> {
    if k :| IsLast(m, k) then Some(k) else None
  }

  ghost function PrevKey(m: Blocks, i: nat): Option<nat> {
    if k :| IsPrev(m, i, k) then Some(k) else None
  }

  ghost function NextKey(m: Blocks, i: nat): Option<nat> {
    if k :| IsNext(m, i, k) then Some(k) else None
  }

  ghost function BestFit(m: Blocks, n: nat): Option<nat> {
    if k :| IsBestFit(m, n, k) then Some(k) else None
  }

  lemma {:induction false} MaxExists(s: set<nat>) returns (k: nat)
    requires s != {}
    ensures k in s && forall j | j in s :: j <= k
  {
    k :| k in s;
    if s != {k} {
      var j := MaxExists(s - {k});
      assert forall x | x in s :: x == k || x in s - {k};
      if j > k { k := j; }
    }
  }

  lemma {:induction false} MinExists(s: set<nat>) returns (k: nat)
    requires s != {}
    ensures k in s && forall j | j in s :: k <= j
  {
    k :| k in s;
    if s != {k} {
      var j := MinExists(s - {k});
      assert forall x | x in s :: x == k || x in s - {k};
      if j < k { k := j; }
    }
  }

  lemma LastKeyExists(m: Blocks)
    requires m != map[]
    ensures LastKey(m).Some?
  {
    var k := MaxExists(m.Keys);
    assert IsLast(m, k);
  }

  lemma PrevKeyExists(m: Blocks, i: nat, j: nat)
    requires j in m && j < i
    ensures PrevKey(m, i).Some?
  {
    var below := set x | x in m && x < i;
    assert j in below;
    var k := MaxExists(below);
    assert forall x | x in m && x < i :: x in below;
    assert IsPrev(m, i, k);
  }

  lemma NextKeyExists(m: Blocks, i: nat, j: nat)
    requires j in m && i < j
    ensures NextKey(m, i).Some?
  {
    var above := set x | x in m && i < x;
    assert j in above;
    var k := MinExists(above);
    assert forall x | x in m && i < x :: x in above;
    assert IsNext(m, i, k);
  }

  lemma BestFitExists(m: Blocks, n: nat, j: nat)
    requires j in m && m[j] >= n
    ensures BestFit(m, n).Some?
  {
    var lens := set x | x in m && m[x] >= n :: m[x];
    assert m[j] in lens;
    var len := MinExists(lens);
    assert forall x | x in m && m[x] >= n :: m[x] in lens;
    var shortest := set x | x in m && m[x] == len;
    var any :| any in m && m[any] >= n && m[any] == len;
    assert any in shortest;
    var k := MinExists(shortest);
    assert forall x | x in m && m[x] == len :: x in shortest;
    assert IsBestFit(m, n, k);
  }

  // ----- the free list as a value

  /** The blocks, and the bump region from `lo` up to `hi`. */
  datatype Heap = Heap(blocks: Blocks, lo: nat, hi: nat)

  /** The block that ends at `x`. */
  ghost function EndingAt(m: Blocks, x: nat): Option<nat> {
    if b :| b in m && b + m[b] == x then Some(b) else None
  }

  /** One block from `s` to `e` in place of the range `i..i + n` and the blocks that touch it. */
  ghost function Joined(m: Blocks, i: nat, n: nat, s: nat, e: nat): Blocks {
    (m - {i + n})[s := if s <= e then e - s else 0]
  }

  ghost function MergedStart(m: Blocks, i: nat): nat {
    var prev := EndingAt(m, i);
    if prev.Some? then prev.value else i
  }

  ghost function MergedEnd(m: Blocks, i: nat, n: nat): nat {
    if i + n in m then i + n + m[i + n] else i + n
  }

  /** The blocks once `i..i + n` is free too and merged with its neighbours. */
  ghost function Merge(m: Blocks, i: nat, n: nat): Blocks {
    Joined(m, i, n, MergedStart(m, i), MergedEnd(m, i, n))
  }

  /** The last block joins the bump region if it ends where that begins. */
  ghost function AbsorbLast(h: Heap): Heap {
    var prev := EndingAt(h.blocks, h.lo);
    if prev.Some? && IsLast(h.blocks, prev.value) then h.(blocks := h.blocks - {prev.value}, lo := prev.value) else h
  }

  /** So does a block that begins where it ends. */
  ghost function AbsorbAbove(h: Heap): Heap {
    if h.hi in h.blocks then h.(blocks := h.blocks - {h.hi}, hi := h.hi + h.blocks[h.hi]) else h
  }

  /** `dealloc_impl`. */
  ghost function Dealloc(h: Heap, i: nat, n: nat): (h': Heap) {
    if i + n == h.lo then AbsorbLast(h.(lo := i))
    else if h.hi == i then AbsorbAbove(h.(hi := i + n))
    else AbsorbLast(h.(blocks := Merge(h.blocks, i, n)))
  }

  /** The first half of `alloc_slow`: the bump region is given back to the blocks. */
  ghost function Retire(h: Heap): (h': Heap) {
    var h0 := h.(lo := ALIGN, hi := ALIGN);
    if h.hi >= h.lo + ALIGN then Dealloc(h0, h.lo, h.hi - h.lo) else h0
  }

  /** Block `b` as the bump region, with its first `n` bytes taken. */
  ghost function Cut(h: Heap, b: nat, n: nat): (h': Heap)
    requires b in h.blocks
  {
    Heap(h.blocks - {b}, b + n, b + h.blocks[b])
  }

  /** Its second half: the best block becomes the bump region, and the allocation is cut from it. */
  ghost function TakeBest(h: Heap, n: nat): (r: (Option<nat>, Heap)) {
    var fit := BestFit(h.blocks, n);
    if fit.None? || fit.value !in h.blocks then (None, h) else (fit, Cut(h, fit.value, n))
  }

  /** `alloc_impl`. */
  ghost function Alloc(h: Heap, n: nat): (r: (Option<nat>, Heap)) {
    if h.lo + n <= U32_MAX && h.lo + n <= h.hi then (Some(h.lo), h.(lo := h.lo + n))
    else TakeBest(Retire(h), n)
  }

  // ----- integrity

  /** A multiple of the alignment. */
  predicate OnGrid(x: nat) {
    if x < ALIGN then x == 0 else OnGrid(x - ALIGN)
  }

  lemma {:induction false} GridIff(x: nat)
    ensures OnGrid(x) <==> x % ALIGN == 0
  {
    if x >= ALIGN {
      GridIff(x - ALIGN);
    }
  }

  lemma GridSum(a: nat, b: nat)
    requires OnGrid(a) && OnGrid(b)
    ensures OnGrid(a + b)
  {
    GridIff(a);
    GridIff(b);
    GridIff(a + b);
  }

  lemma GridDifference(a: nat, b: nat)
    requires OnGrid(a) && OnGrid(b) && a < b
    ensures OnGrid(b - a) && b - a >= ALIGN
  {
    GridIff(a);
    GridIff(b);
    GridIff(b - a);
  }

  /** Two multiples less than one alignment apart are equal. */
  lemma GridGap(a: nat, b: nat)
    requires OnGrid(a) && OnGrid(b) && a <= b < a + ALIGN
    ensures a == b
  {
    GridIff(a);
    GridIff(b);
  }

  ghost predicate Aligned(m: Blocks) {
    forall b | b in m :: b >= ALIGN && OnGrid(b) && m[b] >= ALIGN && OnGrid(m[b])
  }

  /** No two blocks overlap or touch: neighbours have been merged. */
  ghost predicate Apart(m: Blocks) {
    forall b, c | b in m && c in m && b < c :: b + m[b] < c
  }

  ghost predicate BlocksOk(m: Blocks) {
    Aligned(m) && Apart(m)
  }

  ghost predicate Covered(m: Blocks, x: nat) {
    exists b | b in m :: b <= x < b + m[b]
  }

  ghost predicate FreeAt(h: Heap, x: nat) {
    Covered(h.blocks, x) || h.lo <= x < h.hi
  }

  /** Blocks lie below `limit` and on either side of the bump region. */
  ghost predicate Beside(m: Blocks, limit: nat, lo: nat, hi: nat) {
    forall b | b in m :: b + m[b] <= limit && (hi <= b || b + m[b] <= lo)
  }

  /** What `check_integrity` checks, and that no block begins where the bump region ends, unless that
      is the empty one at the very start. */
  ghost predicate Ok(h: Heap, limit: nat) {
    && BlocksOk(h.blocks)
    && Beside(h.blocks, limit, h.lo, h.hi)
    && ALIGN <= h.lo <= h.hi && OnGrid(h.lo) && OnGrid(h.hi)
    && (h.hi <= limit || h.hi == ALIGN)
    && (h.hi in h.blocks ==> h.hi == ALIGN)
  }

  /** An aligned range below `limit`, none of it free. */
  ghost predicate Taken(h: Heap, limit: nat, i: nat, n: nat) {
    && Clear(h.blocks, i, n) && i + n <= limit
    && (i + n <= h.lo || h.hi <= i)
  }

  /** An aligned range that no block overlaps. */
  ghost predicate Clear(m: Blocks, i: nat, n: nat) {
    && i >= ALIGN && OnGrid(i) && n >= ALIGN && OnGrid(n)
    && (forall b | b in m :: b + m[b] <= i || i + n <= b)
  }

  lemma AlignedDistance(s: nat, i: nat, n: nat, len: nat)
    requires s <= i && OnGrid(s) && OnGrid(i) && OnGrid(n) && OnGrid(len) && n > 0
    ensures OnGrid(i + n + len) && OnGrid(i + n + len - s)
  {
    GridSum(i, n);
    GridSum(i + n, len);
    GridDifference(s, i + n + len);
  }

  lemma JoinedAligned(m: Blocks, i: nat, n: nat, s: nat, e: nat)
    requires Aligned(m) && Clear(m, i, n)
    requires s == i || s in m
    requires e == if i + n in m then i + n + m[i + n] else i + n
    requires s <= i
    ensures s >= ALIGN && OnGrid(s) && OnGrid(e) && Aligned(Joined(m, i, n, s, e))
  {
    AlignedDistance(s, i, n, if i + n in m then m[i + n] else 0);
    var m' := Joined(m, i, n, s, e);
    forall b | b in m' && b != s
      ensures b in m && m'[b] == m[b]
    {
    }
  }

  lemma JoinedApart(m: Blocks, i: nat, n: nat, s: nat, e: nat)
    requires Apart(m) && n > 0 && (forall b | b in m :: m[b] > 0 && (b + m[b] <= i || i + n <= b))
    requires s <= i && (s < i ==> s in m && s + m[s] == i) && (s == i ==> forall p | p in m :: p + m[p] != i)
    requires e == if i + n in m then i + n + m[i + n] else i + n
    ensures Apart(Joined(m, i, n, s, e))
  {
    var m' := Joined(m, i, n, s, e);
    forall b, c | b in m' && c in m' && b < c
      ensures b + m'[b] < c
    {
      if b == s {
        assert c in m && c != i + n;
      } else {
        assert b in m;
      }
    }
  }

  lemma MergeOk(m: Blocks, i: nat, n: nat)
    requires BlocksOk(m) && Clear(m, i, n)
    ensures var s, e := MergedStart(m, i), MergedEnd(m, i, n);
            && s <= i < i + n <= e && OnGrid(s) && OnGrid(e) && s >= ALIGN
            && BlocksOk(Merge(m, i, n))
  {
    JoinedAligned(m, i, n, MergedStart(m, i), MergedEnd(m, i, n));
    JoinedApart(m, i, n, MergedStart(m, i), MergedEnd(m, i, n));
  }

  lemma MergeCovers(m: Blocks, i: nat, n: nat, x: nat)
    requires BlocksOk(m) && Clear(m, i, n)
    ensures Covered(Merge(m, i, n), x) <==> Covered(m, x) || i <= x < i + n
  {
    MergeOk(m, i, n);
    var s, e := MergedStart(m, i), MergedEnd(m, i, n);
    var m' := Merge(m, i, n);
    if b :| b in m && b <= x < b + m[b] {
      if b != s && b != i + n {
        assert b in m' && m'[b] == m[b];
      } else {
        assert s in m' && s <= x < s + m'[s];
      }
    }
    if i <= x < i + n {
      assert s in m' && s <= x < s + m'[s];
    }
  }

  lemma AbsorbLastOk(h: Heap, limit: nat)
    requires Ok(h, limit)
    ensures Ok(AbsorbLast(h), limit)
  {
    if AbsorbLast(h) != h {
      WithoutOk(h.blocks, AbsorbLast(h).lo);
    }
  }

  lemma AbsorbLastFree(h: Heap, limit: nat, x: nat)
    requires Ok(h, limit)
    ensures FreeAt(AbsorbLast(h), x) <==> FreeAt(h, x)
  {
    var h' := AbsorbLast(h);
    if b :| b in h.blocks && b <= x < b + h.blocks[b] {
      assert b in h'.blocks || h'.lo <= x < h'.hi;
    }
  }

  /** Freeing the range below the bump region. */
  lemma FreeBelow(h: Heap, limit: nat, i: nat, n: nat)
    requires Ok(h, limit) && Taken(h, limit, i, n) && i + n == h.lo
    ensures Ok(h.(lo := i), limit)
  {
  }

  /** Freeing the range above it, and taking in the block after that. */
  lemma FreeAbove(h: Heap, limit: nat, i: nat, n: nat)
    requires Ok(h, limit) && Taken(h, limit, i, n) && h.hi == i
    ensures Ok(AbsorbAbove(h.(hi := i + n)), limit)
  {
    GridSum(i, n);
    if i + n in h.blocks {
      GridSum(i + n, h.blocks[i + n]);
      WithoutOk(h.blocks, i + n);
    }
  }

  lemma FreeAboveFree(h: Heap, limit: nat, i: nat, n: nat, x: nat)
    requires Ok(h, limit) && Taken(h, limit, i, n) && h.hi == i
    ensures FreeAt(AbsorbAbove(h.(hi := i + n)), x) <==> FreeAt(h, x) || i <= x < i + n
  {
    var h' := AbsorbAbove(h.(hi := i + n));
    if b :| b in h.blocks && b <= x < b + h.blocks[b] {
      assert b in h'.blocks || h'.lo <= x < h'.hi;
    }
  }

  /** Freeing a range elsewhere. */
  lemma FreeApart(h: Heap, limit: nat, i: nat, n: nat)
    requires Ok(h, limit) && Taken(h, limit, i, n) && i + n != h.lo && h.hi != i
    ensures Ok(h.(blocks := Merge(h.blocks, i, n)), limit)
  {
    MergeOk(h.blocks, i, n);
  }

  /** Freeing keeps the list in order and adds exactly the range freed to the free memory. */
  lemma DeallocOk(h: Heap, limit: nat, i: nat, n: nat)
    requires Ok(h, limit) && Taken(h, limit, i, n)
    ensures Ok(Dealloc(h, i, n), limit)
  {
    if i + n == h.lo {
      FreeBelow(h, limit, i, n);
      AbsorbLastOk(h.(lo := i), limit);
    } else if h.hi == i {
      FreeAbove(h, limit, i, n);
    } else {
      FreeApart(h, limit, i, n);
      AbsorbLastOk(h.(blocks := Merge(h.blocks, i, n)), limit);
    }
  }

  lemma DeallocFree(h: Heap, limit: nat, i: nat, n: nat, x: nat)
    requires Ok(h, limit) && Taken(h, limit, i, n)
    ensures FreeAt(Dealloc(h, i, n), x) <==> FreeAt(h, x) || i <= x < i + n
  {
    if i + n == h.lo {
      FreeBelow(h, limit, i, n);
      AbsorbLastFree(h.(lo := i), limit, x);
    } else if h.hi == i {
      FreeAboveFree(h, limit, i, n, x);
    } else {
      FreeApart(h, limit, i, n);
      AbsorbLastFree(h.(blocks := Merge(h.blocks, i, n)), limit, x);
      MergeCovers(h.blocks, i, n, x);
    }
  }

  // ----- allocation

  lemma RetiredRange(h: Heap, limit: nat)
    requires Ok(h, limit) && h.lo < h.hi
    ensures h.hi >= h.lo + ALIGN
    ensures Ok(h.(lo := ALIGN, hi := ALIGN), limit)
    ensures Taken(h.(lo := ALIGN, hi := ALIGN), limit, h.lo, h.hi - h.lo)
  {
    GridDifference(h.lo, h.hi);
  }

  lemma NothingBelowStart(h: Heap, limit: nat)
    requires Ok(h, limit) && h.lo == ALIGN
    ensures AbsorbLast(h) == h
  {
  }

  /** What retiring comes to: an empty bump region and, if it was not empty before, its memory merged
      into the blocks.  But one starting at the very first index just stays as it is. */
  lemma RetireIs(h: Heap, limit: nat)
    requires Ok(h, limit)
    ensures Retire(h) == if h.lo == h.hi then h.(lo := ALIGN, hi := ALIGN)
                         else if h.lo == ALIGN then h
                         else Heap(Merge(h.blocks, h.lo, h.hi - h.lo), ALIGN, ALIGN)
  {
    if ALIGN < h.lo < h.hi {
      RetiredRange(h, limit);
      RetireMerges(h.(lo := ALIGN, hi := ALIGN), limit, h.lo, h.hi - h.lo);
    } else if h.lo < h.hi {
      GridDifference(h.lo, h.hi);
    }
  }

  lemma RetireMerges(h: Heap, limit: nat, i: nat, n: nat)
    requires Ok(h, limit) && h.lo == h.hi == ALIGN < i && Taken(h, limit, i, n)
    ensures Dealloc(h, i, n) == h.(blocks := Merge(h.blocks, i, n))
  {
    FreeApart(h, limit, i, n);
    NothingBelowStart(h.(blocks := Merge(h.blocks, i, n)), limit);
  }

  lemma RetireOk(h: Heap, limit: nat)
    requires Ok(h, limit)
    ensures Ok(Retire(h), limit) && Retire(h).lo == ALIGN
  {
    RetireIs(h, limit);
    if ALIGN < h.lo < h.hi {
      RetiredRange(h, limit);
      FreeApart(h.(lo := ALIGN, hi := ALIGN), limit, h.lo, h.hi - h.lo);
    }
  }

  /** And nothing is lost by it. */
  lemma RetireFree(h: Heap, limit: nat, x: nat)
    requires Ok(h, limit)
    ensures FreeAt(Retire(h), x) <==> FreeAt(h, x)
  {
    RetireIs(h, limit);
    if ALIGN < h.lo < h.hi {
      RetiredRange(h, limit);
      MergeCovers(h.blocks, h.lo, h.hi - h.lo, x);
    }
  }

  /** The bump region that `alloc_slow` forgets: it starts at the very first index, so that retiring it
      only makes it the bump region again, and then a block is found to replace it. */
  ghost predicate Leaks(h: Heap, n: nat) {
    && h.lo == ALIGN < h.hi < ALIGN + n
    && exists b | b in h.blocks :: h.blocks[b] >= n
  }

  ghost predicate Lost(h: Heap, n: nat, x: nat) {
    Leaks(h, n) && h.lo <= x < h.hi
  }

  lemma BumpOk(h: Heap, limit: nat, n: nat)
    requires Ok(h, limit) && OnGrid(n) && n >= ALIGN && h.lo + n <= h.hi
    ensures Ok(h.(lo := h.lo + n), limit) && Taken(h.(lo := h.lo + n), limit, h.lo, n)
  {
    GridSum(h.lo, n);
  }

  lemma CutBeside(m: Blocks, limit: nat, lo: nat, hi: nat, b: nat, n: nat)
    requires BlocksOk(m) && Beside(m, limit, lo, hi) && b in m && n <= m[b]
    ensures Beside(m - {b}, limit, b + n, b + m[b]) && b + m[b] !in m
  {
  }

  lemma CutClear(m: Blocks, b: nat, n: nat)
    requires BlocksOk(m) && b in m && OnGrid(n) && ALIGN <= n <= m[b]
    ensures Clear(m - {b}, b, n)
  {
  }

  lemma CutOk(h: Heap, limit: nat, b: nat, n: nat)
    requires Ok(h, limit) && b in h.blocks && OnGrid(n) && ALIGN <= n <= h.blocks[b]
    ensures Ok(Cut(h, b, n), limit) && Taken(Cut(h, b, n), limit, b, n)
  {
    GridSum(b, n);
    GridSum(b, h.blocks[b]);
    WithoutOk(h.blocks, b);
    CutBeside(h.blocks, limit, h.lo, h.hi, b, n);
    CutClear(h.blocks, b, n);
  }

  lemma WithoutOk(m: Blocks, b: nat)
    requires BlocksOk(m)
    ensures BlocksOk(m - {b})
  {
  }

  lemma TakeBestOk(h: Heap, limit: nat, n: nat)
    requires Ok(h, limit) && h.lo == ALIGN && OnGrid(n) && n >= ALIGN
    ensures var (r, h') := TakeBest(h, n);
            Ok(h', limit) && (r.Some? ==> Taken(h', limit, r.value, n))
  {
    var fit := BestFit(h.blocks, n);
    if fit.Some? {
      CutOk(h, limit, fit.value, n);
    }
  }

  lemma TakeBestFree(h: Heap, limit: nat, n: nat, x: nat)
    requires Ok(h, limit) && h.lo == ALIGN && n >= ALIGN
    ensures var (r, h') := TakeBest(h, n);
            var taken := r.Some? && r.value <= x < r.value + n;
            && (taken ==> FreeAt(h, x))
            && (FreeAt(h', x) <==> FreeAt(h, x) && !taken && !(r.Some? && h.lo <= x < h.hi))
  {
    var (r, h') := TakeBest(h, n);
    if r.Some? {
      if c :| c in h.blocks && c <= x < c + h.blocks[c] {
        assert c != r.value ==> c in h'.blocks;
      }
    }
  }

  lemma TakeBestIff(h: Heap, n: nat)
    ensures TakeBest(h, n).0.Some? <==> exists b | b in h.blocks :: h.blocks[b] >= n
  {
    if b :| b in h.blocks && h.blocks[b] >= n {
      BestFitExists(h.blocks, n, b);
    }
  }

  /** An allocation from the blocks leaves as little over as any could, and of several that would leave the
      same takes the lowest. */
  lemma TakesLeast(h: Heap, n: nat, b: nat)
    requires TakeBest(h, n).0.Some? && b in h.blocks && h.blocks[b] >= n
    ensures var (r, h') := TakeBest(h, n);
            && r.value in h.blocks && h'.lo == r.value + n && h'.lo <= h'.hi
            && h'.hi - h'.lo <= h.blocks[b] - n
            && (h'.hi - h'.lo == h.blocks[b] - n ==> r.value <= b)
  {
  }

  lemma AllocOk(h: Heap, limit: nat, n: nat)
    requires Ok(h, limit) && limit <= U32_MAX && OnGrid(n) && n >= ALIGN
    ensures var (r, h') := Alloc(h, n);
            Ok(h', limit) && (r.Some? ==> Taken(h', limit, r.value, n))
  {
    if h.lo + n <= h.hi {
      BumpOk(h, limit, n);
    } else {
      RetireOk(h, limit);
      TakeBestOk(Retire(h), limit, n);
    }
  }

  /** What is handed out was free and is so no longer; nothing else changes but for what is lost. */
  lemma AllocFree(h: Heap, limit: nat, n: nat, x: nat)
    requires Ok(h, limit) && limit <= U32_MAX && OnGrid(n) && n >= ALIGN
    ensures var (r, h') := Alloc(h, n);
            var taken := r.Some? && r.value <= x < r.value + n;
            && (taken ==> FreeAt(h, x))
            && (FreeAt(h', x) <==> FreeAt(h, x) && !taken && !Lost(h, n, x))
  {
    if h.lo + n > h.hi {
      RetireOk(h, limit);
      RetireFree(h, limit, x);
      RetireIs(h, limit);
      TakeBestFree(Retire(h), limit, n, x);
      TakeBestIff(Retire(h), n);
    }
  }

  /** Since blocks do not touch, an unbroken stretch of covered memory is inside one of them. */
  lemma {:induction false} StretchInOneBlock(m: Blocks, p: nat, n: nat) returns (b: nat)
    requires BlocksOk(m) && n > 0 && forall x | p <= x < p + n :: Covered(m, x)
    ensures b in m && b <= p && p + n <= b + m[b]
  {
    if n == 1 {
      assert Covered(m, p);
      b :| b in m && b <= p < b + m[b];
    } else {
      b := StretchInOneBlock(m, p, n - 1);
      var x := p + n - 1;
      assert Covered(m, x);
      var c :| c in m && c <= x < c + m[c];
    }
  }

  /** `n` bytes of unbroken free memory from `p`. */
  ghost predicate Stretch(h: Heap, p: nat, n: nat) {
    forall x | p <= x < p + n :: FreeAt(h, x)
  }

  lemma {:induction false} StretchInOneRegion(h: Heap, limit: nat, p: nat, n: nat)
    requires Ok(h, limit) && h.lo == ALIGN && n > 0 && Stretch(h, p, n)
    ensures (h.lo <= p && p + n <= h.hi) || exists b | b in h.blocks :: h.blocks[b] >= n
  {
    if h.lo <= p < h.hi {
      assert p + n > h.hi ==> FreeAt(h, h.hi);
    } else {
      forall x | p <= x < p + n
        ensures Covered(h.blocks, x)
      {
        assert FreeAt(h, p) && FreeAt(h, x);
      }
      var b := StretchInOneBlock(h.blocks, p, n);
    }
  }

  /** There is no fragmentation that an allocation would notice: it succeeds exactly when so much free
      memory lies together anywhere, whichever regions it is recorded in. */
  lemma AllocSucceedsIff(h: Heap, limit: nat, n: nat)
    requires Ok(h, limit) && limit <= U32_MAX && OnGrid(n) && n >= ALIGN
    ensures Alloc(h, n).0.Some? <==> exists p: nat :: Stretch(h, p, n)
  {
    if Alloc(h, n).0.Some? {
      var p := Alloc(h, n).0.value;
      forall x | p <= x < p + n
        ensures FreeAt(h, x)
      {
        AllocFree(h, limit, n, x);
      }
      assert Stretch(h, p, n);
    } else if p: nat :| Stretch(h, p, n) {
      RetireOk(h, limit);
      var h1 := Retire(h);
      forall x | p <= x < p + n
        ensures FreeAt(h1, x)
      {
        RetireFree(h, limit, x);
      }
      StretchInOneRegion(h1, limit, p, n);
      RetireIs(h, limit);
      TakeBestIff(h1, n);
    }
  }

  // ----- fragmentation

  /** No block touches the bump region. */
  ghost predicate Coalesced(h: Heap) {
    h.lo < h.hi ==> forall b | b in h.blocks :: b + h.blocks[b] != h.lo
  }

  /** A free block touches the freed range from below, and the range the bump region, but the block is
      not merged: below the bump region because only the last of all blocks is looked at, above an
      empty one because none is. */
  ghost predicate LeftUnmerged(h: Heap, i: nat, n: nat, b: nat) {
    && b in h.blocks && b + h.blocks[b] == i
    && ((i + n == h.lo && !IsLast(h.blocks, b)) || (i + n != h.lo && h.hi == i))
  }

  /** `b` touches the bump region from below. */
  ghost predicate Touches(h: Heap, b: nat) {
    h.lo < h.hi && b in h.blocks && b + h.blocks[b] == h.lo
  }

  /** Freeing the range makes good for an earlier omission: `b` is looked at, being the last block, and
      still is, since the range is below. */
  ghost predicate Cured(h: Heap, i: nat, b: nat) {
    Touches(h, b) && IsLast(h.blocks, b) && i < h.lo
  }

  /** Freeing merges all that can be merged with the bump region, exactly unless a block below is left
      out now, or was before and is not made good for. */
  lemma DeallocCoalescesIff(h: Heap, limit: nat, i: nat, n: nat)
    requires Ok(h, limit) && Taken(h, limit, i, n)
    ensures Coalesced(Dealloc(h, i, n)) <==>
            !exists b :: LeftUnmerged(h, i, n, b) || (Touches(h, b) && !Cured(h, i, b))
  {
    CoalescedIff(h);
    if b :| Touches(h, b) {
      UncoalescedStays(h, limit, i, n, b);
    } else if i + n == h.lo {
      FreeBelow(h, limit, i, n);
      CoalescedBelow(h, limit, i, n);
    } else if h.hi == i {
      CoalescedAbove(h, limit, i, n);
    } else {
      FreeApart(h, limit, i, n);
      CoalescedApart(h, limit, i, n);
    }
  }

  lemma CoalescedIff(h: Heap)
    ensures Coalesced(h) <==> !exists b :: Touches(h, b)
  {
    if b :| b in h.blocks && b + h.blocks[b] == h.lo && h.lo < h.hi {
      assert Touches(h, b);
    }
  }

  lemma UncoalescedStays(h: Heap, limit: nat, i: nat, n: nat, b: nat)
    requires Ok(h, limit) && Taken(h, limit, i, n) && Touches(h, b)
    ensures forall c :: !LeftUnmerged(h, i, n, c) && (Touches(h, c) ==> c == b)
    ensures Coalesced(Dealloc(h, i, n)) <==> Cured(h, i, b)
  {
    if i >= h.hi {
      if i == h.hi {
        assert b in Dealloc(h, i, n).blocks;
      } else {
        AboveStays(h, limit, i, n, b);
      }
    } else {
      BelowMerges(h, limit, i, n, b);
    }
  }

  /** Freeing elsewhere above: the new block is the last one or below another, so `b` is not. */
  lemma AboveStays(h: Heap, limit: nat, i: nat, n: nat, b: nat)
    requires Ok(h, limit) && Taken(h, limit, i, n) && Touches(h, b) && i > h.hi
    ensures !Coalesced(Dealloc(h, i, n))
  {
    var m := Merge(h.blocks, i, n);
    FreeApart(h, limit, i, n);
    assert b in m && m[b] == h.blocks[b];
    assert MergedStart(h.blocks, i) in m && MergedStart(h.blocks, i) > b;
    OneEnd(m, h.lo, b);
    assert !IsLast(m, b);
  }

  lemma OneEnd(m: Blocks, x: nat, b: nat)
    requires BlocksOk(m) && b in m && b + m[b] == x
    ensures EndingAt(m, x) == Some(b)
  {
  }

  /** Freeing below: the block that touches the bump region may have grown downwards, and is absorbed
      exactly if nothing is above the region. */
  lemma BelowMerges(h: Heap, limit: nat, i: nat, n: nat, b: nat)
    requires Ok(h, limit) && Taken(h, limit, i, n) && Touches(h, b) && i < h.hi
    ensures Coalesced(Dealloc(h, i, n)) <==> IsLast(h.blocks, b)
  {
    FreeApart(h, limit, i, n);
    MergeOk(h.blocks, i, n);
    var m := Merge(h.blocks, i, n);
    var h1 := h.(blocks := m);
    var e := if i + n == b then MergedStart(h.blocks, i) else b;
    assert e in m && e + m[e] == h.lo;
    OneEnd(m, h.lo, e);
    MergedLast(h, limit, i, n, b, e);
    if IsLast(m, e) {
      AbsorbedCoalesced(h1, limit);
    } else {
      assert Touches(h1, e);
    }
  }

  lemma MergedLast(h: Heap, limit: nat, i: nat, n: nat, b: nat, e: nat)
    requires Ok(h, limit) && Taken(h, limit, i, n) && Touches(h, b) && i < h.hi
    requires e == if i + n == b then MergedStart(h.blocks, i) else b
    ensures IsLast(Merge(h.blocks, i, n), e) <==> IsLast(h.blocks, b)
  {
    MergeOk(h.blocks, i, n);
    var m := Merge(h.blocks, i, n);
    if c :| c in h.blocks && c > b {
      assert c in m && c > e;
    }
    assert e in m;
    forall c | c in m
      ensures c in h.blocks || c <= b
    {
    }
  }

  /** Having absorbed the last block, the bump region touches no other. */
  lemma AbsorbedCoalesced(h: Heap, limit: nat)
    requires Ok(h, limit) && AbsorbLast(h) != h
    ensures Coalesced(AbsorbLast(h))
  {
  }

  lemma CoalescedBelow(h: Heap, limit: nat, i: nat, n: nat)
    requires Ok(h, limit) && Taken(h, limit, i, n) && i + n == h.lo && Ok(h.(lo := i), limit)
    ensures Coalesced(Dealloc(h, i, n)) <==> !exists b :: LeftUnmerged(h, i, n, b)
  {
    var h1 := h.(lo := i);
    if AbsorbLast(h1) != h1 {
      AbsorbedCoalesced(h1, limit);
    } else if b :| b in h.blocks && b + h.blocks[b] == i {
      assert LeftUnmerged(h, i, n, b);
    }
  }

  lemma CoalescedAbove(h: Heap, limit: nat, i: nat, n: nat)
    requires Ok(h, limit) && Taken(h, limit, i, n) && Coalesced(h) && i + n != h.lo && h.hi == i
    ensures Coalesced(Dealloc(h, i, n)) <==> !exists b :: LeftUnmerged(h, i, n, b)
  {
    var h' := Dealloc(h, i, n);
    if b :| LeftUnmerged(h, i, n, b) {
      assert h.lo == i && b in h'.blocks;
    }
    if b :| b in h'.blocks && b + h'.blocks[b] == h'.lo {
      assert LeftUnmerged(h, i, n, b);
    }
  }

  lemma CoalescedApart(h: Heap, limit: nat, i: nat, n: nat)
    requires Ok(h, limit) && Taken(h, limit, i, n) && Coalesced(h) && i + n != h.lo && h.hi != i
    requires Ok(h.(blocks := Merge(h.blocks, i, n)), limit)
    ensures Coalesced(Dealloc(h, i, n))
  {
    var h1 := h.(blocks := Merge(h.blocks, i, n));
    if AbsorbLast(h1) != h1 {
      AbsorbedCoalesced(h1, limit);
    } else {
      MergeOk(h.blocks, i, n);
    }
  }

  /** Every allocation, even one that fails, leaves nothing unmerged. */
  lemma AllocCoalesces(h: Heap, limit: nat, n: nat)
    requires Ok(h, limit) && limit <= U32_MAX && n >= ALIGN
    ensures Coalesced(Alloc(h, n).1)
  {
    if h.lo + n > h.hi {
      RetireOk(h, limit);
    }
  }

  /** When all memory is free it is one region or, at worst, two: one block and the bump region. */
  lemma AllFreeShapes(h: Heap, limit: nat)
    requires Ok(h, limit) && limit > ALIGN && forall x | ALIGN <= x < limit :: FreeAt(h, x)
    ensures || (h.lo == h.hi && h.blocks == map[ALIGN := limit - ALIGN])
            || (h.lo < h.hi == limit && h.blocks == if h.lo == ALIGN then map[] else map[ALIGN := h.lo - ALIGN])
  {
    if h.lo == h.hi {
      forall x | ALIGN <= x < limit
        ensures Covered(h.blocks, x)
      {
        assert FreeAt(h, x);
      }
      var b := StretchInOneBlock(h.blocks, ALIGN, limit - ALIGN);
      assert b == ALIGN && h.blocks[b] == limit - ALIGN;
      assert forall c | c in h.blocks :: c == b;
    } else {
      assert h.hi < limit ==> FreeAt(h, h.hi);
      if h.lo > ALIGN {
        forall x | ALIGN <= x < h.lo
          ensures Covered(h.blocks, x)
        {
          assert FreeAt(h, x);
        }
        var b := StretchInOneBlock(h.blocks, ALIGN, h.lo - ALIGN);
        assert b == ALIGN && h.blocks[b] == h.lo - ALIGN;
        assert forall c | c in h.blocks :: c == b;
      } else {
        assert forall c | c in h.blocks :: false;
      }
    }
  }

  /** `num_free_blocks`. */
  ghost function Regions(h: Heap): nat {
    |h.blocks| + if h.lo < h.hi then 1 else 0
  }

  /** All memory is free and is one region, or there is none to be free. */
  ghost predicate Whole(h: Heap, limit: nat) {
    && Regions(h) == (if limit > ALIGN then 1 else 0)
    && forall x | ALIGN <= x < limit :: FreeAt(h, x)
  }

  lemma WholeIff(h: Heap, limit: nat)
    requires Ok(h, limit)
    ensures Whole(h, limit) <==> Coalesced(h) && forall x | ALIGN <= x < limit :: FreeAt(h, x)
  {
    if limit <= ALIGN {
      assert h.blocks == map[];
    } else if forall x | ALIGN <= x < limit :: FreeAt(h, x) {
      AllFreeShapes(h, limit);
      if h.lo < h.hi && h.lo > ALIGN {
        assert ALIGN in h.blocks && ALIGN + h.blocks[ALIGN] == h.lo;
      }
    }
  }

  // ----- capacity

  const USIZE_MAX: nat := 0xFFFF_FFFF_FFFF_FFFF

  function RoundDown(x: nat): (r: nat)
    ensures r <= x < r + ALIGN
  {
    x - x % ALIGN
  }

  lemma RoundDownGrid(x: nat)
    ensures OnGrid(RoundDown(x))
  {
    GridIff(RoundDown(x));
  }

  /** The end of the memory that 32-bit indices can manage. */
  function Limit(capacity: nat): (limit: nat)
    ensures limit <= U32_MAX
  {
    RoundDown(if capacity > U32_MAX then U32_MAX else capacity)
  }

  /** `new`. */
  function New(capacity: nat): (h: Heap) {
    var end := if capacity > U32_MAX then U32_MAX else capacity;
    var len := RoundDown(if end > ALIGN then end - ALIGN else 0);
    Heap(map[], ALIGN, if len >= ALIGN then ALIGN + len else ALIGN)
  }

  function Grown(capacity: nat, additional: nat): nat {
    if capacity + additional > USIZE_MAX then USIZE_MAX else capacity + additional
  }

  /** `add_capacity`. */
  ghost function AddCapacity(h: Heap, capacity: nat, additional: nat): (h': Heap) {
    var rounded := RoundDown(capacity);
    var index := if rounded == 0 then ALIGN else rounded;
    var end := Limit(Grown(capacity, additional));
    if rounded > U32_MAX || index >= end then h else Dealloc(h, index, end - index)
  }

  lemma RoundDownShift(x: nat)
    ensures RoundDown(ALIGN + x) == ALIGN + RoundDown(x)
  {
  }

  lemma NewOk(capacity: nat)
    ensures Ok(New(capacity), Limit(capacity))
    ensures forall x: nat :: FreeAt(New(capacity), x) <==> ALIGN <= x < Limit(capacity)
  {
    var end := if capacity > U32_MAX then U32_MAX else capacity;
    if end > ALIGN {
      RoundDownShift(end - ALIGN);
      RoundDownGrid(end);
    }
  }

  lemma LimitGrows(capacity: nat, additional: nat)
    requires capacity <= USIZE_MAX
    ensures Limit(capacity) <= Limit(Grown(capacity, additional))
    ensures RoundDown(capacity) <= U32_MAX ==> RoundDown(capacity) == Limit(capacity)
    ensures RoundDown(capacity) > U32_MAX ==> Limit(capacity) == Limit(Grown(capacity, additional))
  {
  }

  lemma AddedRange(h: Heap, capacity: nat, additional: nat)
    requires capacity <= USIZE_MAX && Ok(h, Limit(capacity))
    ensures Ok(h, Limit(Grown(capacity, additional)))
    ensures var index := if RoundDown(capacity) == 0 then ALIGN else RoundDown(capacity);
            var end := Limit(Grown(capacity, additional));
            RoundDown(capacity) <= U32_MAX && index < end ==> Taken(h, end, index, end - index)
  {
    LimitGrows(capacity, additional);
    var index := if RoundDown(capacity) == 0 then ALIGN else RoundDown(capacity);
    var cap := Grown(capacity, additional);
    RoundDownGrid(capacity);
    RoundDownGrid(if cap > U32_MAX then U32_MAX else cap);
    if index < Limit(cap) {
      GridDifference(index, Limit(cap));
    }
  }

  /** Growing adds exactly the new memory, up to what 32 bits can index. */
  lemma AddCapacityOk(h: Heap, capacity: nat, additional: nat, x: nat)
    requires capacity <= USIZE_MAX && Ok(h, Limit(capacity))
    ensures var cap := Grown(capacity, additional);
            var h' := AddCapacity(h, capacity, additional);
            && Ok(h', Limit(cap))
            && (FreeAt(h', x) <==> FreeAt(h, x) || (x >= ALIGN && Limit(capacity) <= x < Limit(cap)))
  {
    LimitGrows(capacity, additional);
    AddedRange(h, capacity, additional);
    var index := if RoundDown(capacity) == 0 then ALIGN else RoundDown(capacity);
    var end := Limit(Grown(capacity, additional));
    if RoundDown(capacity) <= U32_MAX && index < end {
      DeallocOk(h, end, index, end - index);
      DeallocFree(h, end, index, end - index, x);
    }
  }
}
