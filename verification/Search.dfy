/** The search of `examples/mpk.rs` for the largest pool the machine can build: exponential growth,
    then bisection, keeping only `last`, `next` and `growing`.  No upper bound is stored; it is
    implied by the gap between `next` and `last` being a power of two. */
module Search {
  import opened Options

  const U32_MAX: nat := 0xFFFF_FFFF

  /** The three fields of `ExponentialSearch`. */
  datatype State = State(growing: bool, last: nat, next: nat)

  function Start(): State {
    State(true, 0, 1)
  }

  predicate Done(s: State) {
    s.last == s.next
  }

  /** `record` in checked 32-bit arithmetic; `None` where an operation over- or underflows. */
  function Record(s: State, success: bool): (r: Option<State>) {
    var growing := s.growing && success;
    if s.next < s.last then None else
    var gap := s.next - s.last;
    if growing && gap * 2 > U32_MAX then None else
    if !growing && gap + 1 > U32_MAX then None else
    var diff := if growing then gap * 2 else (gap + 1) / 2;
    if success then
      if s.next + diff > U32_MAX then None else Some(State(growing, s.next, s.next + diff))
    else
      if s.next < diff then None else Some(State(growing, s.last, s.next - diff))
  }

  /** When `record` panics, from any state of 32-bit fields in order: when the next probe would be beyond 32
      bits, or the gap is all of them and not to be doubled. */
  lemma RecordPanicsIff(s: State, success: bool)
    requires s.last <= s.next <= U32_MAX
    ensures var gap := s.next - s.last;
            Record(s, success).None? <==>
            if s.growing && success then s.next + 2 * gap > U32_MAX
            else gap == U32_MAX || (success && s.next + (gap + 1) / 2 > U32_MAX)
  {
  }

  /** And what it does otherwise: an accepted probe becomes the lower bound, a refused one ends growth; the gap
      is doubled, or halved, rounded up after an accepted probe and down after a refused one. */
  lemma RecordGap(s: State, success: bool)
    requires s.last <= s.next <= U32_MAX && Record(s, success).Some?
    ensures var s', gap := Record(s, success).value, s.next - s.last;
            && s'.last == (if success then s.next else s.last)
            && (s'.growing <==> s.growing && success)
            && s'.last <= s'.next <= U32_MAX
            && s'.next - s'.last == if s'.growing then 2 * gap else if success then (gap + 1) / 2 else gap / 2
  {
  }

  function Pow2(k: nat): (p: nat)
    ensures p > 0
  {
    if k == 0 then 1 else 2 * Pow2(k - 1)
  }

  function FloorLog2(n: nat): nat {
    if n < 2 then 0 else 1 + FloorLog2(n / 2)
  }

  lemma {:induction false} FloorLog2Unique(k: nat, n: nat)
    requires Pow2(k) <= n < 2 * Pow2(k)
    ensures FloorLog2(n) == k
  {
    if k > 0 {
      FloorLog2Unique(k - 1, n / 2);
    }
  }

  lemma {:induction false} Pow2Monotone(j: nat, k: nat)
    requires j < k
    ensures 2 * Pow2(j) <= Pow2(k)
  {
    if j + 1 < k {
      Pow2Monotone(j, k - 1);
    }
  }

  lemma Pow2Words()
    ensures Pow2(31) == 0x8000_0000 && Pow2(32) == 0x1_0000_0000
  {
    assert Pow2(8) == 0x100;
    assert Pow2(16) == 0x1_0000;
    assert Pow2(24) == 0x100_0000;
  }

  /** The number of probes a search for the threshold `t` makes.  The last one repeats a probe
      already known to fail exactly when `t` is even and positive. */
  function Probes(t: nat): (n: nat)
    ensures n <= 2 * FloorLog2(t + 1) + 2
  {
    2 * FloorLog2(t + 1) + 1 + if t > 0 && t % 2 == 0 then 1 else 0
  }

  /** The search after `n` probes of an oracle that accepts `1..t` and nothing above.  While
      growing, all `n` probes were accepted.  While shrinking with a gap of `2^m`, the value
      `last + 2 * 2^m` is known to be refused; it collapses to `last + 1` when the last probe at
      gap one is accepted. */
  ghost predicate Searching(s: State, t: nat, n: nat) {
    var k := FloorLog2(t + 1);
    if s.growing then
      && s.last == Pow2(n) - 1 && s.next == Pow2(n + 1) - 1 && s.last <= t
    else
      && s.last <= t
      && (|| (s.next == s.last == t && n == Probes(t))
          || (s.next == s.last + 1 && s.last == t && t % 2 == 0 && t > 0 && n == 2 * k + 1)
          || (n < 2 * k + 1 && Shrinking(s, t, 2 * k - n)))
  }

  ghost predicate Shrinking(s: State, t: nat, m: nat) {
    && s.next == s.last + Pow2(m)
    && s.last <= t < s.last + 2 * Pow2(m)
    && s.last % 2 == 1
  }

  lemma GrowStep(s: State, t: nat, n: nat)
    requires s.growing && Searching(s, t, n) && s.next <= t < U32_MAX
    ensures Record(s, true) == Some(State(true, s.next, Pow2(n + 2) - 1))
    ensures Searching(Record(s, true).value, t, n + 1)
  {
    if n + 1 >= 32 {
      if n + 1 > 32 { Pow2Monotone(32, n + 1); }
      Pow2Words();
      assert false;
    } else {
      if n + 1 < 31 { Pow2Monotone(n + 1, 31); }
      Pow2Words();
    }
  }

  lemma FirstFailure(s: State, t: nat, n: nat)
    requires s.growing && Searching(s, t, n) && t < s.next <= U32_MAX
    ensures Record(s, false).Some? && Searching(Record(s, false).value, t, n + 1)
  {
    FloorLog2Unique(n, t + 1);
    if n > 0 {
      var s' := Record(s, false).value;
      assert Pow2(n) == 2 * Pow2(n - 1);
      assert s'.last + 1 == Pow2(n);
      assert Shrinking(s', t, n - 1);
    }
  }

  lemma ShrinkStep(s: State, t: nat, n: nat, m: nat)
    requires !s.growing && Shrinking(s, t, m) && n + m == 2 * FloorLog2(t + 1) && t < U32_MAX
    requires s.last + 2 * Pow2(m) <= U32_MAX
    ensures var r := Record(s, s.next <= t);
            && r.Some? && Searching(r.value, t, n + 1)
            && !r.value.growing
            && (m > 0 ==> r.value.last + 2 * Pow2(m - 1) <= U32_MAX)
  {
    var s' := Record(s, s.next <= t).value;
    if m > 0 {
      assert Pow2(m) == 2 * Pow2(m - 1);
      assert Shrinking(s', t, m - 1);
    } else {
      assert Pow2(0) == 1;
    }
  }

  // ----- runs

  /** One probe: the size tried, and the bytes mapped if the engine could be built. */
  datatype Probe = Probe(size: nat, built: Option<nat>)

  datatype Pool = Pool(num_memories: nat, mapped_bytes: nat)

  /** The last probe that succeeded, or size 0 with 0 bytes. */
  ghost function LastBuilt(log: seq<Probe>): Pool {
    if log == [] then Pool(0, 0)
    else
      var p := log[|log| - 1];
      if p.built.Some? then Pool(p.size, p.built.value) else LastBuilt(log[..|log| - 1])
  }

  /** That is the one probe that succeeded with none after it succeeding, or 0 and 0 if none did. */
  lemma {:induction false} LastBuiltIs(log: seq<Probe>) returns (k: nat)
    ensures k <= |log| && forall j | k < j < |log| :: log[j].built.None?
    ensures if k < |log| then log[k].built.Some? && LastBuilt(log) == Pool(log[k].size, log[k].built.value)
            else LastBuilt(log) == Pool(0, 0) && forall j | 0 <= j < |log| :: log[j].built.None?
  {
    if log == [] {
      k := 0;
    } else if log[|log| - 1].built.Some? {
      k := |log| - 1;
    } else {
      k := LastBuiltIs(log[..|log| - 1]);
      if k == |log| - 1 {
        k := |log|;
      }
    }
  }

  /** `build` accepts exactly the sizes up to `t`, at whatever time it is asked. */
  ghost predicate Threshold(build: (nat, nat) -> Option<nat>, t: nat) {
    forall k: nat, size: nat :: build(k, size).Some? <==> size <= t
  }

  /** What holds of the search, for a threshold oracle, after `n` probes. */
  ghost predicate OnTrack(s: State, t: nat, n: nat) {
    && Searching(s, t, n)
    && (!s.growing && n < 2 * FloorLog2(t + 1) + 1 ==>
          s.last + 2 * Pow2(2 * FloorLog2(t + 1) - n) <= U32_MAX)
  }

  /** A threshold within reach of 32 bits is never lost and never overflows. */
  lemma ThresholdStep(s: State, t: nat, n: nat)
    requires OnTrack(s, t, n) && !Done(s) && s.next <= U32_MAX && t < U32_MAX
    ensures Record(s, s.next <= t).Some?
    ensures OnTrack(Record(s, s.next <= t).value, t, n + 1)
  {
    var k := FloorLog2(t + 1);
    if s.growing && s.next <= t {
      GrowStep(s, t, n);
    } else if s.growing {
      FloorLog2Unique(n, t + 1);
      FirstFailure(s, t, n);
    } else if n < 2 * k + 1 {
      ShrinkStep(s, t, n, 2 * k - n);
    }
  }

  /** The whole 32-bit range accepted: growth goes on until doubling the gap overflows. */
  lemma BeyondStep(s: State, t: nat, n: nat)
    requires s.growing && Searching(s, t, n) && s.next <= U32_MAX <= t
    ensures Record(s, true).Some? ==> Record(s, true).value.growing && Searching(Record(s, true).value, t, n + 1)
    ensures Record(s, true).None? <==> s.next == U32_MAX
  {
    if n + 1 < 32 {
      if n + 1 < 31 { Pow2Monotone(n + 1, 31); }
      Pow2Words();
    } else {
      if n + 1 > 32 { Pow2Monotone(32, n + 1); }
      Pow2Words();
    }
  }

  class ExponentialSearch {
    var growing: bool
    var last: nat
    var next: nat

    function Fields(): State
      reads this
    {
      State(growing, last, next)
    }

    constructor ()
      ensures Fields() == Start()
    {
      growing, last, next := true, 0, 1;
    }

    /** Returns whether the arithmetic stayed in range; where it does not, the program panics. */
    method RecordOutcome(success: bool) returns (ok: bool)
      modifies this
      ensures ok <==> Record(old(Fields()), success).Some?
      ensures ok ==> Fields() == Record(old(Fields()), success).value
    {
      if !success {
        growing := false;
      }
      if next < last { return false; }
      var diff;
      if growing {
        diff := (next - last) * 2;
        if diff > U32_MAX { return false; }
      } else {
        if next - last + 1 > U32_MAX { return false; }
        diff := (next - last + 1) / 2;
      }
      if success {
        if next + diff > U32_MAX { return false; }
        last := next;
        next := next + diff;
      } else {
        if next < diff { return false; }
        next := next - diff;
      }
      return true;
    }
  }

  /** `probe_engine_size` against an arbitrary machine: `build(k, size)` is what the `k`th attempt,
      at `size` memories, yields.  `None` is the panic on arithmetic overflow; `log` are the attempts made.

      Whatever the machine answers, the loop ends, and a pool it returns is the latest success,
      with that attempt's own measurement, one below a final failed probe.  Against a machine with
      a threshold `t` the result is `t`, after exactly `Probes(t)` attempts, unless `t` covers the
      whole 32-bit range, and then it is the panic. */
  method ProbeEngineSize(build: (nat, nat) -> Option<nat>) returns (pool: Option<Pool>, log: seq<Probe>)
    ensures forall k | 0 <= k < |log| :: log[k].built == build(k, log[k].size)
    ensures pool.Some? ==>
              && log != []
              && pool.value == LastBuilt(log)
              && log[|log| - 1] == Probe(pool.value.num_memories + 1, None)
    ensures forall t: nat | Threshold(build, t) ::
              && (pool.Some? <==> t < U32_MAX)
              && (pool.Some? ==> pool.value.num_memories == t && |log| == Probes(t))
  {
    log := [];
    var search := new ExponentialSearch();
    var mapped_bytes, attempt := 0, 0;
    while search.last != search.next
      invariant fresh(search) && attempt == |log|
      invariant search.last <= search.next <= U32_MAX
      invariant forall k | 0 <= k < |log| :: log[k].built == build(k, log[k].size)
      invariant LastBuilt(log) == Pool(search.last, mapped_bytes)
      invariant Done(search.Fields()) ==> log != [] && log[|log| - 1] == Probe(search.last + 1, None)
      invariant forall t: nat | Threshold(build, t) && t < U32_MAX :: OnTrack(search.Fields(), t, |log|)
      invariant forall t: nat | Threshold(build, t) && t >= U32_MAX ::
                  search.growing && Searching(search.Fields(), t, |log|)
      decreases U32_MAX - search.last, search.next
    {
      ghost var s, n, log0 := search.Fields(), attempt, log;
      var built := build(attempt, search.next);
      forall t: nat | Threshold(build, t)
        ensures t < U32_MAX ==> Record(s, built.Some?).Some? && OnTrack(Record(s, built.Some?).value, t, n + 1)
        ensures t >= U32_MAX && Record(s, built.Some?).Some? ==>
                  Record(s, built.Some?).value.growing && Searching(Record(s, built.Some?).value, t, n + 1)
      {
        if t < U32_MAX { ThresholdStep(s, t, n); } else { BeyondStep(s, t, n); }
      }
      log := log + [Probe(search.next, built)];
      assert log[..n] == log0;
      attempt := attempt + 1;
      var ok;
      match built {
        case Some(bytes) =>
          mapped_bytes := bytes;
          ok := search.RecordOutcome(true);
        case None =>
          ok := search.RecordOutcome(false);
      }
      if !ok {
        return None, log;
      }
    }
    pool := Some(Pool(search.next, mapped_bytes));
  }
}
