/** The slab allocator of `wasmtime/_slab.py`: one Python list holds both the payloads and,
    in the slots that are free, the links of an intrusive free list.  Nothing in the list says
    which is which: a payload may be an int too, so liveness exists only in the specification. */
module Slabs {

  /** A Python object, as the list may store it.  A float is named by the single-precision number it
      rounds to and by which of the doubles that round to it it is; number 0 is the single itself. */
  datatype Obj =
    | PyNone
    | Int(n: int)
    | Bool(b: bool)
    | Float(near: nat, which: nat)
    | Func(id: nat)
    | Object(id: nat)

  /** The two fields of a `Slab`. */
  datatype Slots = Slots(list: seq<Obj>, next: int)

  function Empty(): Slots {
    Slots([], 0)
  }

  /** Following the links from `next` visits exactly the slots `free`, in order, each once, and
      ends at the current length of the list. */
  ghost predicate Chain(s: Slots, free: seq<nat>) {
    var end := |s.list|;
    && s.next == (if free == [] then end else free[0])
    && (forall k | 0 <= k < |free| :: free[k] < end)
    && (forall j, k | 0 <= j < k < |free| :: free[j] != free[k] && (k == j + 1 ==> s.list[free[j]] == Int(free[k])))
    && (free != [] ==> s.list[free[|free| - 1]] == Int(end))
  }

  /** The slab stands for the finite map `live`: its keys are slots off the chain, holding its
      values, and with the chain they account for the whole list. */
  ghost predicate Rep(s: Slots, live: map<nat, Obj>, free: seq<nat>) {
    && Chain(s, free)
    && (forall i | i in live :: i < |s.list| && s.list[i] == live[i])
    && (forall k | 0 <= k < |free| :: free[k] !in live)
    && |live| + |free| == |s.list|
  }

  ghost predicate Represents(s: Slots, live: map<nat, Obj>) {
    exists free :: Rep(s, live, free)
  }

  /** The cast in `allocate` reads an int: the slot `next` names is past the end or holds a link. */
  predicate CanAllocate(s: Slots) {
    0 <= s.next <= |s.list| && (s.next < |s.list| ==> s.list[s.next].Int?)
  }

  function Allocate(s: Slots, val: Obj): (r: (Slots, nat))
    requires CanAllocate(s)
  {
    var idx := s.next;
    if |s.list| == idx then
      (Slots(s.list + [val], idx + 1), idx)
    else
      (Slots(s.list[idx := val], s.list[idx].n), idx)
  }

  function Deallocate(s: Slots, idx: nat): (r: Slots)
    requires idx < |s.list|
  {
    Slots(s.list[idx := Int(s.next)], idx)
  }

  lemma RepCanAllocate(s: Slots, live: map<nat, Obj>, free: seq<nat>)
    requires Rep(s, live, free)
    ensures CanAllocate(s)
  {
    if |free| > 1 {
      assert s.list[free[0]] == Int(free[1]);
    }
  }

  lemma GrowRefines(s: Slots, live: map<nat, Obj>, val: Obj)
    requires Rep(s, live, [])
    ensures |s.list| !in live
    ensures Rep(Slots(s.list + [val], s.next + 1), live[|s.list| := val], [])
  {
  }

  lemma ReuseKeepsChain(s: Slots, idx: nat, rest: seq<nat>, val: Obj)
    requires Chain(s, [idx] + rest)
    ensures idx < |s.list| && s.list[idx].Int?
    ensures forall k | 0 <= k < |rest| :: rest[k] != idx
    ensures Chain(Slots(s.list[idx := val], s.list[idx].n), rest)
  {
    var free := [idx] + rest;
    assert free[0] == idx;
    assert forall k | 0 <= k < |rest| :: rest[k] == free[k + 1];
    if rest != [] {
      assert s.list[free[0]] == Int(free[1]);
    }
  }

  lemma ReuseRefines(s: Slots, live: map<nat, Obj>, idx: nat, rest: seq<nat>, val: Obj)
    requires Rep(s, live, [idx] + rest)
    ensures idx < |s.list| && s.list[idx].Int? && idx !in live
    ensures Rep(Slots(s.list[idx := val], s.list[idx].n), live[idx := val], rest)
  {
    ReuseKeepsChain(s, idx, rest, val);
    var free := [idx] + rest;
    assert free[0] == idx;
    assert forall k | 0 <= k < |rest| :: rest[k] == free[k + 1];
  }

  /** `allocate` hands out a slot that is not live and changes the map at that slot alone, and
      the list grows only when every slot is live. */
  lemma AllocateRefines(s: Slots, live: map<nat, Obj>, free: seq<nat>, val: Obj) returns (free': seq<nat>)
    requires Rep(s, live, free)
    ensures CanAllocate(s)
    ensures var (s', idx) := Allocate(s, val);
            && idx !in live
            && Rep(s', live[idx := val], free')
            && |s'.list| == if |live| == |s.list| then |s.list| + 1 else |s.list|
  {
    RepCanAllocate(s, live, free);
    if free == [] {
      GrowRefines(s, live, val);
      free' := [];
    } else {
      free' := free[1..];
      assert free == [free[0]] + free';
      ReuseRefines(s, live, free[0], free', val);
    }
  }

  /** Deallocating a live slot removes it from the map and puts it first on the chain. */
  lemma DeallocateRefines(s: Slots, live: map<nat, Obj>, free: seq<nat>, idx: nat) returns (free': seq<nat>)
    requires Rep(s, live, free) && idx in live
    ensures Rep(Deallocate(s, idx), live - {idx}, free')
  {
    free' := [idx] + free;
    assert live.Keys == (live - {idx}).Keys + {idx};
    assert |live.Keys| == |(live - {idx}).Keys| + 1;
  }

  lemma {:induction false} DistinctCount(free: seq<nat>, slots: set<nat>)
    requires forall j, k | 0 <= j < k < |free| :: free[j] != free[k]
    requires forall k | 0 <= k < |free| :: free[k] in slots
    ensures |free| <= |slots|
  {
    if free != [] {
      DistinctCount(free[1..], slots - {free[0]});
    }
  }

  ghost function Range(n: nat): (all: set<nat>)
    ensures |all| == n
    ensures forall i :: i in all <==> 0 <= i < n
  {
    if n == 0 then {} else Range(n - 1) + {n - 1}
  }

  /** A slot is on the chain or live. */
  lemma FreeOrLive(s: Slots, live: map<nat, Obj>, free: seq<nat>, idx: nat)
    requires Rep(s, live, free) && idx < |s.list| && idx !in live
    ensures exists k :: 0 <= k < |free| && free[k] == idx
  {
    if forall k | 0 <= k < |free| :: free[k] != idx {
      var all := Range(|s.list|);
      assert live.Keys <= all;
      assert |all - live.Keys - {idx}| == |s.list| - |live| - 1;
      DistinctCount(free, all - live.Keys - {idx});
    }
  }

  /** Once a free slot `free[k]` is freed again, any chain of the result would retrace the old
      one up to it. */
  lemma {:induction false} RetracesChain(s: Slots, free: seq<nat>, k: nat, free': seq<nat>, j: nat)
    requires Chain(s, free) && k < |free| && j <= k
    requires Chain(Deallocate(s, free[k]), free')
    ensures j + 1 < |free'| && free'[j + 1] == free[j]
  {
    var s' := Deallocate(s, free[k]);
    if j == 0 {
      assert s'.list[free'[0]] == Int(free[0]);
    } else {
      RetracesChain(s, free, k, free', j - 1);
      assert free'[j] == free[j - 1] != free[k];
      assert s'.list[free'[j]] == Int(free[j]);
    }
  }

  lemma DoubleFreeClosesCycle(s: Slots, free: seq<nat>, k: nat, free': seq<nat>)
    requires Chain(s, free) && k < |free|
    ensures !Chain(Deallocate(s, free[k]), free')
  {
    if Chain(Deallocate(s, free[k]), free') {
      RetracesChain(s, free, k, free', k);
      assert false;
    }
  }

  /** Freeing an in-range slot leaves a slab that stands for some map exactly when the slot was
      live: a second free of the same slot closes the chain into a cycle. */
  lemma DeallocateSoundIffLive(s: Slots, live: map<nat, Obj>, idx: nat)
    requires Represents(s, live) && idx < |s.list|
    ensures (exists live' :: Represents(Deallocate(s, idx), live')) <==> idx in live
  {
    var free :| Rep(s, live, free);
    var s' := Deallocate(s, idx);
    if idx in live {
      var free' := DeallocateRefines(s, live, free, idx);
      assert Represents(s', live - {idx});
    } else {
      FreeOrLive(s, live, free, idx);
      var k :| 0 <= k < |free| && free[k] == idx;
      forall live', free'
        ensures !Rep(s', live', free')
      {
        DoubleFreeClosesCycle(s, free, k, free');
      }
    }
  }

  /** Freeing the only slot twice: the chain then leads from that slot to itself. */
  lemma FreedTwiceIsNoMap(val: Obj, live: map<nat, Obj>)
    ensures !Represents(Deallocate(Deallocate(Allocate(Empty(), val).0, 0), 0), live)
  {
    var s := Deallocate(Allocate(Empty(), val).0, 0);
    assert Rep(s, map[], [0]);
    DeallocateSoundIffLive(s, map[], 0);
  }

  // ----- whole runs

  datatype Op = Alloc(val: Obj) | Dealloc(idx: nat)

  /** The slab together with the map its user believes it to be. */
  datatype World = World(slots: Slots, live: map<nat, Obj>)

  /** One call; the user deallocates live slots only. */
  ghost predicate Step(w: World, op: Op, w': World) {
    match op
    case Alloc(val) =>
      && CanAllocate(w.slots)
      && var (s, idx) := Allocate(w.slots, val);
         w' == World(s, w.live[idx := val])
    case Dealloc(idx) =>
      && idx in w.live && idx < |w.slots.list|
      && w' == World(Deallocate(w.slots, idx), w.live - {idx})
  }

  ghost predicate Run(ws: seq<World>, ops: seq<Op>) {
    && |ws| == |ops| + 1
    && ws[0] == World(Empty(), map[])
    && forall i | 0 <= i < |ops| :: Step(ws[i], ops[i], ws[i + 1])
  }

  /** The largest number of entries live at one time. */
  ghost function Peak(ws: seq<World>): (p: nat)
    requires ws != []
  {
    var n := |ws[|ws| - 1].live|;
    if |ws| == 1 then n
    else var p := Peak(ws[..|ws| - 1]); if n > p then n else p
  }

  lemma StepRefines(w: World, op: Op, w': World)
    requires Represents(w.slots, w.live) && Step(w, op, w')
    ensures Represents(w'.slots, w'.live)
    ensures |w'.slots.list| == if |w'.live| > |w.slots.list| then |w'.live| else |w.slots.list|
  {
    var free :| Rep(w.slots, w.live, free);
    match op
    case Alloc(val) => var free' := AllocateRefines(w.slots, w.live, free, val);
    case Dealloc(idx) => var free' := DeallocateRefines(w.slots, w.live, free, idx);
  }

  /** Every state reached by a run stands for the user's map, can serve the next allocation, and
      has used exactly as many slots as were ever live at once. */
  lemma {:induction false} EveryRunRefinesMap(ws: seq<World>, ops: seq<Op>)
    requires Run(ws, ops)
    ensures var w := ws[|ops|];
            && Represents(w.slots, w.live)
            && CanAllocate(w.slots)
            && |w.slots.list| == Peak(ws)
    decreases |ops|
  {
    var w := ws[|ops|];
    if ops == [] {
      assert Rep(Empty(), map[], []);
    } else {
      var n := |ops| - 1;
      EveryRunRefinesMap(ws[..n + 1], ops[..n]);
      assert Step(ws[n], ops[n], w);
      StepRefines(ws[n], ops[n], w);
      assert ws[..|ws| - 1] == ws[..n + 1];
    }
    var free :| Rep(w.slots, w.live, free);
    RepCanAllocate(w.slots, w.live, free);
  }

  /** The `Slab` class itself. */
  class Slab {
    var list: seq<Obj>
    var next: int
    ghost var live: map<nat, Obj>
    ghost var free: seq<nat>

    function State(): Slots
      reads this
    {
      Slots(list, next)
    }

    ghost predicate Valid()
      reads this
    {
      Rep(State(), live, free)
    }

    constructor ()
      ensures Valid() && State() == Empty() && live == map[]
    {
      list, next := [], 0;
      live, free := map[], [];
    }

    /** An index the slab could hand out now. */
    ghost function FreshIndex(): (idx: nat)
      reads this
      requires Valid()
      ensures idx !in live
    {
      next
    }

    method AllocateSlot(val: Obj) returns (idx: nat)
      requires Valid()
      modifies this
      ensures Valid()
      ensures idx !in old(live) && live == old(live)[idx := val]
      ensures CanAllocate(old(State())) && (State(), idx) == Allocate(old(State()), val)
      ensures |list| == if |old(live)| == |old(list)| then |old(list)| + 1 else |old(list)|
    {
      ghost var free' := AllocateRefines(State(), live, free, val);
      idx := next;
      if |list| == idx {
        list := list + [Int(0)];
        next := next + 1;
      } else {
        next := list[idx].n;
      }
      list := list[idx := val];
      live, free := live[idx := val], free';
      assert old(|list| == next) ==> list == old(list) + [val];
    }

    method GetSlot(idx: nat) returns (val: Obj)
      requires Valid() && idx in live
      ensures val == live[idx]
    {
      val := list[idx];
    }

    method DeallocateSlot(idx: nat)
      requires Valid() && idx in live
      modifies this
      ensures Valid() && live == old(live) - {idx}
      ensures idx < |old(list)| && State() == Deallocate(old(State()), idx)
    {
      ghost var free' := DeallocateRefines(State(), live, free, idx);
      list := list[idx := Int(next)];
      next := idx;
      live, free := live - {idx}, free';
    }
  }
}
