/** Whole histories of a free list: allocations that are later freed, and growth. */
module FreeListRuns {
  import opened FreeList
  import opened Options

  datatype Op = Malloc(n: nat) | Release(i: nat) | Grow(additional: nat)

  /** The free list, the ranges handed out and not yet freed, and the capacity. */
  datatype World = World(h: Heap, live: Blocks, capacity: nat)

  /** Sizes come rounded up to the alignment, and only what was handed out is freed, whole. */
  ghost predicate Possible(w: World, op: Op) {
    match op
    case Malloc(n) => OnGrid(n) && n >= ALIGN
    case Release(i) => i in w.live
    case Grow(_) => true
  }

  ghost function Step(w: World, op: Op): World
    requires Possible(w, op)
  {
    match op
    case Malloc(n) =>
      var (r, h) := Alloc(w.h, n);
      World(h, if r.Some? then w.live[r.value := n] else w.live, w.capacity)
    case Release(i) => World(Dealloc(w.h, i, w.live[i]), w.live - {i}, w.capacity)
    case Grow(additional) => World(AddCapacity(w.h, w.capacity, additional), w.live, Grown(w.capacity, additional))
  }

  ghost predicate Run(ws: seq<World>, ops: seq<Op>, capacity: nat) {
    && |ws| == |ops| + 1
    && capacity <= USIZE_MAX && ws[0] == World(New(capacity), map[], capacity)
    && forall i | 0 <= i < |ops| :: Possible(ws[i], ops[i]) && ws[i + 1] == Step(ws[i], ops[i])
  }

  /** The list is in order; every live range is aligned, inside the memory managed and not free; and no
      two overlap. */
  ghost predicate Inv(w: World) {
    && w.capacity <= USIZE_MAX
    && Ok(w.h, Limit(w.capacity))
    && (forall i | i in w.live :: Taken(w.h, Limit(w.capacity), i, w.live[i]))
    && (forall i, j | i in w.live && j in w.live && i < j :: i + w.live[i] <= j)
  }

  /** A range stays taken if none of it has become free and the bump region is not empty, or is where
      it was, or at the start. */
  lemma StaysTaken(h: Heap, h': Heap, limit: nat, limit': nat, i: nat, n: nat)
    requires Ok(h, limit) && Taken(h, limit, i, n) && Ok(h', limit') && limit <= limit'
    requires forall x | i <= x < i + n :: !FreeAt(h', x)
    requires h'.lo < h'.hi || (h'.lo == h.lo && h'.hi == h.hi) || h'.hi == ALIGN
    ensures Taken(h', limit', i, n)
  {
    forall b | b in h'.blocks
      ensures b + h'.blocks[b] <= i || i + n <= b
    {
      var x := if b < i then i else b;
      assert i <= x < i + n ==> !FreeAt(h', x);
    }
    if h'.lo < h'.hi {
      var x := if h'.lo < i then i else h'.lo;
      assert i <= x < i + n ==> !FreeAt(h', x);
    }
  }

  lemma TakenNotFree(h: Heap, limit: nat, i: nat, n: nat, x: nat)
    requires Taken(h, limit, i, n) && i <= x < i + n
    ensures !FreeAt(h, x)
  {
  }

  lemma DeallocBump(h: Heap, limit: nat, i: nat, n: nat)
    requires Ok(h, limit) && Taken(h, limit, i, n)
    ensures var h' := Dealloc(h, i, n);
            h'.lo < h'.hi || (h'.lo == h.lo && h'.hi == h.hi)
  {
  }

  /** Freeing one range leaves the others taken. */
  lemma DeallocKeepsTaken(h: Heap, limit: nat, i: nat, n: nat, j: nat, k: nat)
    requires Ok(h, limit) && Taken(h, limit, i, n) && Taken(h, limit, j, k)
    requires i + n <= j || j + k <= i
    ensures Taken(Dealloc(h, i, n), limit, j, k)
  {
    DeallocOk(h, limit, i, n);
    DeallocBump(h, limit, i, n);
    forall x | j <= x < j + k
      ensures !FreeAt(Dealloc(h, i, n), x)
    {
      DeallocFree(h, limit, i, n, x);
      TakenNotFree(h, limit, j, k, x);
    }
    StaysTaken(h, Dealloc(h, i, n), limit, limit, j, k);
  }

  lemma RetireKeepsTaken(h: Heap, limit: nat, j: nat, k: nat)
    requires Ok(h, limit) && Taken(h, limit, j, k)
    ensures Taken(Retire(h), limit, j, k)
  {
    RetireOk(h, limit);
    RetireIs(h, limit);
    forall x | j <= x < j + k
      ensures !FreeAt(Retire(h), x)
    {
      RetireFree(h, limit, x);
      TakenNotFree(h, limit, j, k, x);
    }
    StaysTaken(h, Retire(h), limit, limit, j, k);
  }

  lemma CutKeepsTaken(h: Heap, limit: nat, b: nat, n: nat, j: nat, k: nat)
    requires Ok(h, limit) && Taken(h, limit, j, k) && b in h.blocks
    ensures Taken(Cut(h, b, n), limit, j, k)
  {
  }

  lemma TakeBestKeepsTaken(h: Heap, limit: nat, n: nat, j: nat, k: nat)
    requires Ok(h, limit) && Taken(h, limit, j, k)
    ensures Taken(TakeBest(h, n).1, limit, j, k)
  {
    var fit := BestFit(h.blocks, n);
    if fit.Some? {
      CutKeepsTaken(h, limit, fit.value, n, j, k);
    }
  }

  /** Allocating leaves live ranges taken. */
  lemma AllocKeepsTaken(h: Heap, limit: nat, n: nat, j: nat, k: nat)
    requires Ok(h, limit) && limit <= U32_MAX && Taken(h, limit, j, k)
    ensures Taken(Alloc(h, n).1, limit, j, k)
  {
    if h.lo + n > h.hi {
      RetireOk(h, limit);
      RetireKeepsTaken(h, limit, j, k);
      TakeBestKeepsTaken(Retire(h), limit, n, j, k);
    }
  }

  /** What is handed out overlaps no live range. */
  lemma AllocDisjoint(h: Heap, limit: nat, n: nat, j: nat, k: nat)
    requires Ok(h, limit) && limit <= U32_MAX && OnGrid(n) && n >= ALIGN && Taken(h, limit, j, k)
    ensures var r := Alloc(h, n).0; r.Some? ==> r.value + n <= j || j + k <= r.value
  {
    var r := Alloc(h, n).0;
    if r.Some? {
      var x := if r.value < j then j else r.value;
      AllocFree(h, limit, n, x);
      if j <= x < j + k {
        TakenNotFree(h, limit, j, k, x);
      }
    }
  }

  lemma MallocInv(w: World, n: nat)
    requires Inv(w) && Possible(w, Malloc(n))
    ensures Inv(Step(w, Malloc(n)))
  {
    var limit := Limit(w.capacity);
    var (r, h) := Alloc(w.h, n);
    AllocOk(w.h, limit, n);
    forall j | j in w.live
      ensures Taken(h, limit, j, w.live[j]) && (r.Some? ==> r.value + n <= j || j + w.live[j] <= r.value)
    {
      AllocKeepsTaken(w.h, limit, n, j, w.live[j]);
      AllocDisjoint(w.h, limit, n, j, w.live[j]);
    }
  }

  lemma ReleaseInv(w: World, i: nat)
    requires Inv(w) && Possible(w, Release(i))
    ensures Inv(Step(w, Release(i)))
  {
    var limit := Limit(w.capacity);
    DeallocOk(w.h, limit, i, w.live[i]);
    forall j | j in w.live && j != i
      ensures Taken(Dealloc(w.h, i, w.live[i]), limit, j, w.live[j])
    {
      DeallocKeepsTaken(w.h, limit, i, w.live[i], j, w.live[j]);
    }
  }

  lemma GrowKeepsTaken(h: Heap, capacity: nat, additional: nat, j: nat, k: nat)
    requires capacity <= USIZE_MAX && Ok(h, Limit(capacity)) && Taken(h, Limit(capacity), j, k)
    ensures Taken(AddCapacity(h, capacity, additional), Limit(Grown(capacity, additional)), j, k)
  {
    LimitGrows(capacity, additional);
    AddedRange(h, capacity, additional);
    var index := if RoundDown(capacity) == 0 then ALIGN else RoundDown(capacity);
    var end := Limit(Grown(capacity, additional));
    if RoundDown(capacity) <= U32_MAX && index < end {
      DeallocKeepsTaken(h, end, index, end - index, j, k);
    }
  }

  lemma GrowInv(w: World, additional: nat)
    requires Inv(w)
    ensures Inv(Step(w, Grow(additional)))
  {
    AddCapacityOk(w.h, w.capacity, additional, 0);
    forall j | j in w.live
      ensures Taken(AddCapacity(w.h, w.capacity, additional), Limit(Grown(w.capacity, additional)), j, w.live[j])
    {
      GrowKeepsTaken(w.h, w.capacity, additional, j, w.live[j]);
    }
  }

  /** In every history the list stays in order, and live ranges are aligned, apart and never free. */
  lemma {:induction false} EveryRunInOrder(ws: seq<World>, ops: seq<Op>, capacity: nat, k: nat)
    requires Run(ws, ops, capacity) && k < |ws|
    ensures Inv(ws[k])
  {
    if k == 0 {
      NewOk(capacity);
    } else {
      EveryRunInOrder(ws, ops, capacity, k - 1);
      var w := ws[k - 1];
      assert ws[k - 1 + 1] == Step(w, ops[k - 1]);
      match ops[k - 1]
      case Malloc(n) => MallocInv(w, n);
      case Release(i) => ReleaseInv(w, i);
      case Grow(additional) => GrowInv(w, additional);
    }
  }

  // ----- accounting for every byte

  ghost predicate LiveAt(w: World, x: nat) {
    Covered(w.live, x)
  }

  ghost predicate Accounted(w: World, x: nat) {
    FreeAt(w.h, x) || LiveAt(w, x)
  }

  /** What a step does to the byte at `x`: it is accounted for afterwards if it was before, or has just
      been added, unless the step is an allocation that loses it. */
  lemma StepAccounts(w: World, op: Op, x: nat)
    requires Inv(w) && Possible(w, op)
    ensures Accounted(Step(w, op), x) <==>
            || (Accounted(w, x) && !(op.Malloc? && Lost(w.h, op.n, x)))
            || (op.Grow? && x >= ALIGN && Limit(w.capacity) <= x < Limit(Grown(w.capacity, op.additional)))
  {
    var limit := Limit(w.capacity);
    match op
    case Malloc(n) => MallocAccounts(w, n, x);
    case Release(i) =>
      DeallocFree(w.h, limit, i, w.live[i], x);
      ReleasedLive(w, i, x);
    case Grow(additional) => AddCapacityOk(w.h, w.capacity, additional, x);
  }

  lemma ReleasedLive(w: World, i: nat, x: nat)
    requires Inv(w) && i in w.live
    ensures LiveAt(w, x) <==> Covered(w.live - {i}, x) || i <= x < i + w.live[i]
  {
    if j :| j in w.live && j <= x < j + w.live[j] {
      assert j != i ==> j in w.live - {i};
    }
  }

  lemma AddedLive(live: Blocks, p: nat, n: nat, x: nat)
    requires p !in live
    ensures Covered(live[p := n], x) <==> Covered(live, x) || p <= x < p + n
  {
    var longer := live[p := n];
    if j :| j in live && j <= x < j + live[j] {
      assert j in longer && longer[j] == live[j];
    }
    assert p in longer && longer[p] == n;
  }

  lemma LiveNotFree(w: World, x: nat)
    requires Inv(w) && LiveAt(w, x)
    ensures !FreeAt(w.h, x)
  {
    var j :| j in w.live && j <= x < j + w.live[j];
    TakenNotFree(w.h, Limit(w.capacity), j, w.live[j], x);
  }

  lemma MallocAccounts(w: World, n: nat, x: nat)
    requires Inv(w) && Possible(w, Malloc(n))
    ensures Accounted(Step(w, Malloc(n)), x) <==> Accounted(w, x) && !Lost(w.h, n, x)
  {
    var r := Alloc(w.h, n).0;
    AllocFree(w.h, Limit(w.capacity), n, x);
    if LiveAt(w, x) {
      LiveNotFree(w, x);
    }
    if r.Some? {
      if r.value in w.live {
        AllocDisjoint(w.h, Limit(w.capacity), n, r.value, w.live[r.value]);
      }
      AddedLive(w.live, r.value, n, x);
    }
  }

  /** The `k`th step loses the byte at `x`. */
  ghost predicate LostIn(ws: seq<World>, ops: seq<Op>, k: nat, x: nat)
    requires |ws| == |ops| + 1 && k < |ops|
  {
    ops[k].Malloc? && Lost(ws[k].h, ops[k].n, x)
  }

  /** Every byte managed is free or live, for good, except those that some allocation has lost; and
      those never come back. */
  lemma {:induction false} AccountedIffNotLost(ws: seq<World>, ops: seq<Op>, capacity: nat, k: nat, x: nat)
    requires Run(ws, ops, capacity) && k < |ws| && ALIGN <= x < Limit(ws[k].capacity)
    ensures Accounted(ws[k], x) <==> !exists j :: 0 <= j < k && LostIn(ws, ops, j, x)
  {
    if k == 0 {
      NewOk(capacity);
    } else {
      var w := ws[k - 1];
      EveryRunInOrder(ws, ops, capacity, k - 1);
      assert ws[k - 1 + 1] == Step(w, ops[k - 1]);
      StepAccounts(w, ops[k - 1], x);
      if x < Limit(w.capacity) {
        AccountedIffNotLost(ws, ops, capacity, k - 1, x);
        assert LostIn(ws, ops, k - 1, x) ==> exists j :: 0 <= j < k && LostIn(ws, ops, j, x);
      } else {
        forall j | 0 <= j < k
          ensures !LostIn(ws, ops, j, x)
        {
          EveryRunInOrder(ws, ops, capacity, j);
          LimitsGrow(ws, ops, capacity, j, k - 1);
        }
      }
    }
  }

  lemma {:induction false} LimitsGrow(ws: seq<World>, ops: seq<Op>, capacity: nat, j: nat, k: nat)
    requires Run(ws, ops, capacity) && j <= k < |ws|
    ensures Limit(ws[j].capacity) <= Limit(ws[k].capacity)
  {
    if j < k {
      LimitsGrow(ws, ops, capacity, j, k - 1);
      EveryRunInOrder(ws, ops, capacity, k - 1);
      assert ws[k - 1 + 1] == Step(ws[k - 1], ops[k - 1]);
      if ops[k - 1].Grow? {
        LimitGrows(ws[k - 1].capacity, ops[k - 1].additional);
      }
    }
  }

  // ----- growth

  /** All that is added by the operations. */
  ghost function Added(ops: seq<Op>): nat {
    if ops == [] then 0
    else Added(ops[..|ops| - 1]) + if ops[|ops| - 1].Grow? then ops[|ops| - 1].additional else 0
  }

  /** The capacity is the initial one and all that was added since, as far as that can be counted. */
  lemma {:induction false} CapacityIs(ws: seq<World>, ops: seq<Op>, capacity: nat, k: nat)
    requires Run(ws, ops, capacity) && k < |ws|
    ensures var total := capacity + Added(ops[..k]);
            ws[k].capacity == if total > USIZE_MAX then USIZE_MAX else total
  {
    if k > 0 {
      CapacityIs(ws, ops, capacity, k - 1);
      assert ws[k - 1 + 1] == Step(ws[k - 1], ops[k - 1]);
      assert ops[..k][..k - 1] == ops[..k - 1];
    }
  }

  /** However it came to its capacity, a free list manages the memory that a new one of the total size
      would: every byte of that, and no other, is free or live, except for what allocations lost. */
  lemma ManagesAsNew(ws: seq<World>, ops: seq<Op>, capacity: nat, k: nat, x: nat)
    requires Run(ws, ops, capacity) && k < |ws|
    ensures Accounted(ws[k], x) <==>
            && FreeAt(New(capacity + Added(ops[..k])), x)
            && !exists j :: 0 <= j < k && LostIn(ws, ops, j, x)
  {
    assert k <= |ops|;
    hide FreeAt, Inv, Limit, LiveAt, LostIn, New, Run;
    var total := capacity + Added(ops[..k]);
    CapacityIs(ws, ops, capacity, k);
    LimitSaturates(total);
    NewOk(total);
    EveryRunInOrder(ws, ops, capacity, k);
    if ALIGN <= x < Limit(total) {
      AccountedIffNotLost(ws, ops, capacity, k, x);
    } else {
      NothingOutside(ws[k], x);
    }
  }

  /** What cannot be counted cannot be indexed either. */
  lemma LimitSaturates(total: nat)
    ensures Limit(total) == Limit(if total > USIZE_MAX then USIZE_MAX else total)
  {
  }

  lemma NothingOutside(w: World, x: nat)
    requires Inv(w) && (x < ALIGN || Limit(w.capacity) <= x)
    ensures !Accounted(w, x)
  {
  }

  // ----- one region again

  /** The range that a step frees. */
  ghost function Freed(w: World, op: Op): Option<(nat, nat)> {
    match op
    case Malloc(_) => None
    case Release(i) => if i in w.live then Some((i, w.live[i])) else None
    case Grow(additional) =>
      var index := if RoundDown(w.capacity) == 0 then ALIGN else RoundDown(w.capacity);
      var end := Limit(Grown(w.capacity, additional));
      if RoundDown(w.capacity) > U32_MAX || index >= end then None else Some((index, end - index))
  }

  lemma FreedIs(w: World, op: Op)
    requires Inv(w) && Possible(w, op) && !op.Malloc?
    ensures Ok(w.h, Limit(Step(w, op).capacity))
    ensures match Freed(w, op)
            case None => Step(w, op).h == w.h
            case Some((i, n)) => Taken(w.h, Limit(Step(w, op).capacity), i, n) && Step(w, op).h == Dealloc(w.h, i, n)
  {
    hide Dealloc, Limit, Ok, RoundDown, Taken;
    if op.Grow? {
      LimitGrows(w.capacity, op.additional);
      AddedRange(w.h, w.capacity, op.additional);
    }
  }

  /** The step leaves a block beside the bump region unmerged. */
  ghost predicate Omits(w: World, op: Op) {
    var f := Freed(w, op);
    f.Some? && exists b :: LeftUnmerged(w.h, f.value.0, f.value.1, b)
  }

  /** The step makes good for that: any allocation does, and freeing below the bump region while
      nothing free is above it. */
  ghost predicate Mends(w: World, op: Op) {
    var f := Freed(w, op);
    op.Malloc? || (f.Some? && exists b :: Cured(w.h, f.value.0, b))
  }

  lemma StepCoalesces(w: World, op: Op)
    requires Inv(w) && Possible(w, op)
    ensures Coalesced(Step(w, op).h) <==> if Coalesced(w.h) then !Omits(w, op) else Mends(w, op)
    ensures Omits(w, op) ==> Coalesced(w.h)
  {
    CoalescedIff(w.h);
    if op.Malloc? {
      AllocCoalesces(w.h, Limit(w.capacity), op.n);
    } else {
      FreedIs(w, op);
      var f := Freed(w, op);
      if f.Some? {
        var (i, n) := f.value;
        DeallocCoalescesIff(w.h, Limit(Step(w, op).capacity), i, n);
        if b :| Touches(w.h, b) {
          UncoalescedStays(w.h, Limit(Step(w, op).capacity), i, n, b);
        }
      }
    }
  }

  /** Some step left a block unmerged, and none since made good for it. */
  ghost predicate LeftApart(ws: seq<World>, ops: seq<Op>, k: nat)
    requires |ws| == |ops| + 1 && k <= |ops|
  {
    exists j :: 0 <= j < k && Omits(ws[j], ops[j]) && forall l | j < l < k :: !Mends(ws[l], ops[l])
  }

  lemma {:induction false} CoalescedIffMended(ws: seq<World>, ops: seq<Op>, capacity: nat, k: nat)
    requires Run(ws, ops, capacity) && k < |ws|
    ensures Coalesced(ws[k].h) <==> !LeftApart(ws, ops, k)
  {
    if k > 0 {
      CoalescedIffMended(ws, ops, capacity, k - 1);
      EveryRunInOrder(ws, ops, capacity, k - 1);
      assert ws[k - 1 + 1] == Step(ws[k - 1], ops[k - 1]);
      StepCoalesces(ws[k - 1], ops[k - 1]);
      LeftApartStep(ws, ops, k - 1);
    }
  }

  lemma LeftApartStep(ws: seq<World>, ops: seq<Op>, k: nat)
    requires |ws| == |ops| + 1 && k < |ops|
    ensures LeftApart(ws, ops, k + 1) <==> Omits(ws[k], ops[k]) || (LeftApart(ws, ops, k) && !Mends(ws[k], ops[k]))
  {
    if j :| 0 <= j < k && Omits(ws[j], ops[j]) && forall l | j < l < k :: !Mends(ws[l], ops[l]) {
      if !Mends(ws[k], ops[k]) {
        assert forall l | j < l < k + 1 :: !Mends(ws[l], ops[l]);
      }
    }
    if j :| 0 <= j < k + 1 && Omits(ws[j], ops[j]) && forall l | j < l < k + 1 :: !Mends(ws[l], ops[l]) {
      assert j < k ==> LeftApart(ws, ops, k);
    }
  }

  ghost predicate Leaking(w: World, op: Op) {
    op.Malloc? && Leaks(w.h, op.n)
  }

  /** Nothing that was managed is missing exactly if no allocation leaked. */
  lemma NothingLostIff(ws: seq<World>, ops: seq<Op>, capacity: nat, k: nat)
    requires Run(ws, ops, capacity) && k < |ws|
    ensures (forall x | ALIGN <= x < Limit(ws[k].capacity) :: Accounted(ws[k], x))
       <==> (forall j | 0 <= j < k :: !Leaking(ws[j], ops[j]))
  {
    forall x | ALIGN <= x < Limit(ws[k].capacity)
      ensures Accounted(ws[k], x) <==> !exists j :: 0 <= j < k && LostIn(ws, ops, j, x)
    {
      AccountedIffNotLost(ws, ops, capacity, k, x);
    }
    if j :| 0 <= j < k && Leaking(ws[j], ops[j]) {
      EveryRunInOrder(ws, ops, capacity, j);
      LimitsGrow(ws, ops, capacity, j, k);
      assert LostIn(ws, ops, j, ALIGN);
      assert !Accounted(ws[k], ALIGN);
    } else {
      assert forall j, x | 0 <= j < k && LostIn(ws, ops, j, x) :: Leaking(ws[j], ops[j]);
    }
  }

  /** When everything handed out has been freed, all of the memory is one free region, as it was at the
      start, if and only if no allocation leaked and no block was left unmerged for good. */
  lemma EndsWholeIff(ws: seq<World>, ops: seq<Op>, capacity: nat, k: nat)
    requires Run(ws, ops, capacity) && k < |ws| && ws[k].live == map[]
    ensures Whole(ws[k].h, Limit(ws[k].capacity))
       <==> (forall j | 0 <= j < k :: !Leaking(ws[j], ops[j])) && !LeftApart(ws, ops, k)
  {
    EveryRunInOrder(ws, ops, capacity, k);
    WholeIff(ws[k].h, Limit(ws[k].capacity));
    CoalescedIffMended(ws, ops, capacity, k);
    NothingLostIff(ws, ops, capacity, k);
    assert forall x :: Accounted(ws[k], x) <==> FreeAt(ws[k].h, x);
  }

  // ----- two histories

  lemma Grid()
    ensures OnGrid(16) && OnGrid(32) && OnGrid(48)
  {
    GridIff(16);
    GridIff(32);
    GridIff(48);
  }

  lemma OnlyEnd(m: Blocks, x: nat, b: nat)
    requires b in m && b + m[b] == x && forall c | c in m && c + m[c] == x :: c == b
    ensures EndingAt(m, x) == Some(b)
  {
  }

  lemma NoEnd(m: Blocks, x: nat)
    requires forall c | c in m :: c + m[c] != x
    ensures EndingAt(m, x) == None
  {
  }

  /** Freeing a range that touches nothing adds a block. */
  lemma FreedAlone(h: Heap, i: nat, n: nat)
    requires i + n != h.lo && h.hi != i && i + n !in h.blocks && i !in h.blocks
    requires forall c | c in h.blocks :: c + h.blocks[c] != i && c + h.blocks[c] != h.lo
    ensures Dealloc(h, i, n) == h.(blocks := h.blocks[i := n])
  {
    NoEnd(h.blocks, i);
    assert h.blocks - {i + n} == h.blocks;
    var m := Merge(h.blocks, i, n);
    assert m == h.blocks[i := n];
    forall c | c in m
      ensures c + m[c] != h.lo
    {
    }
    NoEnd(m, h.lo);
  }

  /** An exhausted bump region, and a best fit. */
  lemma CutFromBest(h: Heap, n: nat, b: nat)
    requires h.lo == h.hi && n >= ALIGN && IsBestFit(h.blocks, n, b)
    ensures Alloc(h, n) == (Some(b), Cut(h, b, n))
  {
    var h1 := Retire(h);
    assert h1 == h.(lo := ALIGN, hi := ALIGN);
    assert BestFit(h1.blocks, n) == Some(b);
  }

  const ONE: Blocks := map[16 := 16]
  const TWO: Blocks := map[16 := 16, 48 := 48]
  const HIGH: Blocks := map[48 := 48]

  /** What freeing two of four ranges, and cutting the lower again, does to the list. */
  lemma LeakSteps()
    ensures Dealloc(Heap(map[], 112, 112), 16, 16) == Heap(ONE, 112, 112)
    ensures Dealloc(Heap(ONE, 112, 112), 48, 48) == Heap(TWO, 112, 112)
    ensures Alloc(Heap(TWO, 112, 112), 16) == (Some(16), Heap(HIGH, 32, 32))
    ensures Dealloc(Heap(HIGH, 32, 32), 16, 16) == Heap(HIGH, 16, 32)
    ensures Leaks(Heap(HIGH, 16, 32), 32)
  {
    FreedAlone(Heap(map[], 112, 112), 16, 16);
    FreedAlone(Heap(ONE, 112, 112), 48, 48);
    CutFromBest(Heap(TWO, 112, 112), 16, 16);
    assert TWO - {16} == HIGH;
    NoEnd(HIGH, 16);
    assert 48 in HIGH && HIGH[48] >= 32;
  }

  lemma Start() returns (ws: seq<World>, ops: seq<Op>)
    ensures Run(ws, ops, 112) && |ops| == 4
    ensures ws[4] == World(Heap(map[], 112, 112), map[16 := 16, 32 := 16, 48 := 48, 96 := 16], 112)
  {
    Grid();
    ops := [Malloc(16), Malloc(16), Malloc(48), Malloc(16)];
    var w0 := World(New(112), map[], 112);
    assert New(112) == Heap(map[], 16, 112);
    var w1 := Step(w0, ops[0]);
    var w2 := Step(w1, ops[1]);
    var w3 := Step(w2, ops[2]);
    ws := [w0, w1, w2, w3, Step(w3, ops[3])];
  }

  lemma Then(ws: seq<World>, ops: seq<Op>, capacity: nat, op: Op) returns (ws': seq<World>, ops': seq<Op>)
    requires Run(ws, ops, capacity) && Possible(ws[|ops|], op)
    ensures Run(ws', ops', capacity) && |ops'| == |ops| + 1 && ws'[|ops'|] == Step(ws[|ops|], op)
    ensures ops'[|ops|] == op && ws'[|ops|] == ws[|ops|]
  {
    ws', ops' := ws + [Step(ws[|ops|], op)], ops + [op];
  }

  /** The leak is reached by freeing what was cut from a block at the very first index, and then asking
      for more than fits there: those sixteen bytes are neither free nor live ever after. */
  lemma LeakIsReachable() returns (ws: seq<World>, ops: seq<Op>)
    ensures Run(ws, ops, 112) && |ops| == 9 && !Accounted(ws[9], 16)
  {
    Grid();
    LeakSteps();
    ws, ops := Start();
    ws, ops := Then(ws, ops, 112, Release(16));
    ws, ops := Then(ws, ops, 112, Release(48));
    ws, ops := Then(ws, ops, 112, Malloc(16));
    ws, ops := Then(ws, ops, 112, Release(16));
    ws, ops := Then(ws, ops, 112, Malloc(32));
    assert LostIn(ws, ops, 8, 16);
    AccountedIffNotLost(ws, ops, 112, 9, 16);
  }

  const BOTH: Blocks := map[48 := 32, 96 := 48]
  const LAST: Blocks := map[96 := 48]
  const ENDS: Blocks := map[16 := 16, 96 := 48]

  /** Freeing in an order that leaves the bump region between two blocks. */
  lemma UnmergedSteps()
    ensures Dealloc(Heap(map[], 160, 160), 96, 48) == Heap(LAST, 160, 160)
    ensures Dealloc(Heap(LAST, 160, 160), 48, 32) == Heap(BOTH, 160, 160)
    ensures Alloc(Heap(BOTH, 160, 160), 32) == (Some(48), Heap(LAST, 80, 80))
    ensures Dealloc(Heap(LAST, 80, 80), 48, 32) == Heap(LAST, 48, 80)
    ensures Dealloc(Heap(LAST, 48, 80), 16, 16) == Heap(ENDS, 48, 80)
  {
    FreedAlone(Heap(map[], 160, 160), 96, 48);
    FreedAlone(Heap(LAST, 160, 160), 48, 32);
    assert LAST[48 := 32] == BOTH;
    CutFromBest(Heap(BOTH, 160, 160), 32, 48);
    assert BOTH - {48} == LAST;
    NoEnd(LAST, 48);
    FreedAlone(Heap(LAST, 48, 80), 16, 16);
    assert LAST[16 := 16] == ENDS;
  }

  /** Then the block below is not merged, nor ever after. */
  lemma UnmergedRest()
    ensures Dealloc(Heap(ENDS, 48, 80), 32, 16) == Heap(ENDS, 32, 80)
    ensures Dealloc(Heap(ENDS, 32, 80), 80, 16) == Heap(ONE, 32, 144)
    ensures Dealloc(Heap(ONE, 32, 144), 144, 16) == Heap(ONE, 32, 160)
  {
    OnlyEnd(ENDS, 32, 16);
    assert 96 in ENDS && !IsLast(ENDS, 16);
    assert ENDS - {96} == ONE;
  }

  lemma StartWide() returns (ws: seq<World>, ops: seq<Op>)
    ensures Run(ws, ops, 160) && |ops| == 6
    ensures ws[6] == World(Heap(map[], 160, 160), map[16 := 16, 32 := 16, 48 := 32, 80 := 16, 96 := 48, 144 := 16], 160)
  {
    Grid();
    ops := [Malloc(16), Malloc(16), Malloc(32), Malloc(16), Malloc(48), Malloc(16)];
    var w0 := World(New(160), map[], 160);
    assert New(160) == Heap(map[], 16, 160);
    var w1 := Step(w0, ops[0]);
    var w2 := Step(w1, ops[1]);
    var w3 := Step(w2, ops[2]);
    var w4 := Step(w3, ops[3]);
    var w5 := Step(w4, ops[4]);
    ws := [w0, w1, w2, w3, w4, w5, Step(w5, ops[5])];
  }

  lemma TwoBlocksFreed() returns (ws: seq<World>, ops: seq<Op>)
    ensures Run(ws, ops, 160) && |ops| == 8
    ensures ws[8] == World(Heap(BOTH, 160, 160), map[16 := 16, 32 := 16, 80 := 16, 144 := 16], 160)
  {
    UnmergedSteps();
    ws, ops := StartWide();
    ws, ops := Then(ws, ops, 160, Release(96));
    ws, ops := Then(ws, ops, 160, Release(48));
  }

  lemma LowerReused() returns (ws: seq<World>, ops: seq<Op>)
    ensures Run(ws, ops, 160) && |ops| == 9
    ensures ws[9] == World(Heap(LAST, 80, 80), map[16 := 16, 32 := 16, 48 := 32, 80 := 16, 144 := 16], 160)
  {
    UnmergedSteps();
    ws, ops := TwoBlocksFreed();
    ws, ops := Then(ws, ops, 160, Malloc(32));
  }

  lemma BumpBetweenBlocks() returns (ws: seq<World>, ops: seq<Op>)
    ensures Run(ws, ops, 160) && |ops| == 11
    ensures ws[11] == World(Heap(ENDS, 48, 80), map[32 := 16, 80 := 16, 144 := 16], 160)
  {
    Grid();
    UnmergedSteps();
    ws, ops := LowerReused();
    ws, ops := Then(ws, ops, 160, Release(48));
    ws, ops := Then(ws, ops, 160, Release(16));
  }

  /** Everything handed out has been freed, and still the memory is not one region again. */
  lemma TwoRegionsReachable() returns (ws: seq<World>, ops: seq<Op>)
    ensures Run(ws, ops, 160) && |ops| == 14
    ensures ws[14].live == map[] && ws[14].h == Heap(map[16 := 16], 32, 160)
  {
    UnmergedRest();
    ws, ops := BumpBetweenBlocks();
    ws, ops := Then(ws, ops, 160, Release(32));
    ws, ops := Then(ws, ops, 160, Release(80));
    ws, ops := Then(ws, ops, 160, Release(144));
  }
}
