/** The handshake of `examples/async.cc` between the main thread, which polls a guest that calls an
    asynchronous `print`, and the printer thread.  They share two promises and, on the main thread,
    the future of the second.  A step is one access to that shared state; either thread may take the
    next one. */
module AsyncPrinter {
  import opened Options

  /** What the guest does: run out of fuel, or call the host's `print`. */
  datatype Action = Yield | Print(v: int)

  /** Where the main thread is.  `Running`, `Asking` and `Getting` are inside
      `wasmtime_call_future_poll`: in the guest, in `print_is_pending`, and in `get_print_result`.
      `Checking` and `Waiting` are in the body of the polling loop. */
  datatype Main = Running | Asking | Getting | Checking | Waiting | Joining | Finished | Crashed

  datatype Printer = Receiving | Printing(v: int) | Signaling | Exited

  datatype State = State(
    main: Main,
    todo: seq<Action>,     // what the guest has still to do
    suspended: bool,       // the guest awaits the continuation of its call
    retrieved: bool,       // `_print_finished.get_future()` has been called
    valid: bool,           // `_print_finished_future.valid()`
    consumed: nat,         // how often that future's result has been taken
    value: Option<int>,    // `_value_to_print`
    success: bool,         // `_print_finished` has been set
    printer: Printer,
    printed: seq<int>,
    reported: nat)         // how often the main thread has reported a yield

  function Init(guest: seq<Action>): State {
    State(Running, guest, false, false, false, 0, None, false, Receiving, [], 0)
  }

  predicate IsPending(s: State) {
    s.valid && !s.success
  }

  /** Polling again resumes the continuation of a suspended guest, or else the guest. */
  function Poll(s: State): State {
    s.(main := if s.suspended then Asking else Running)
  }

  /** `set_value_to_print`: a promise gives out its future, and takes a value, only once. */
  function InvokePrint(s: State, v: int): State {
    if s.retrieved || s.value.Some? then s.(main := Crashed)
    else s.(main := Asking, suspended := true, retrieved := true, valid := true, value := Some(v))
  }

  /** The main thread's next step, or `None` where it blocks or is over. */
  function MainStep(s: State): Option<State> {
    match s.main
    case Running =>
      if s.todo == [] then Some(s.(main := Joining))
      else
        var s1 := s.(todo := s.todo[1..]);
        Some(match s.todo[0]
             case Yield => s1.(main := Checking)
             case Print(v) => InvokePrint(s1, v))
    case Asking => Some(s.(main := if IsPending(s) then Checking else Getting))
    case Getting =>
      if !s.valid then Some(s.(main := Crashed))
      else if !s.success then None
      else Some(s.(main := Running, valid := false, consumed := s.consumed + 1, suspended := false))
    case Checking => Some(if IsPending(s) then s.(main := Waiting) else Poll(s.(reported := s.reported + 1)))
    case Waiting => if s.success then Some(Poll(s)) else None
    case Joining => if s.printer.Exited? then Some(s.(main := Finished)) else None
    case Finished => None
    case Crashed => None
  }

  function PrinterStep(s: State): Option<State> {
    match s.printer
    case Receiving => if s.value.Some? then Some(s.(printer := Printing(s.value.value))) else None
    case Printing(v) => Some(s.(printer := Signaling, printed := s.printed + [v]))
    case Signaling => Some(if s.success then s.(main := Crashed) else s.(success := true, printer := Exited))
    case Exited => None
  }

  ghost predicate Next(s: State, s': State) {
    !s.main.Crashed? && (MainStep(s) == Some(s') || PrinterStep(s) == Some(s'))
  }

  ghost predicate Path(ss: seq<State>) {
    ss != [] && forall i | 0 <= i < |ss| - 1 :: Next(ss[i], ss[i + 1])
  }

  /** Some interleaving takes the program from `s` to `t`. */
  ghost predicate Leads(s: State, t: State) {
    exists ss :: Path(ss) && ss[0] == s && ss[|ss| - 1] == t
  }

  /** Neither thread can move, and the program is not over. */
  ghost predicate Deadlocked(s: State) {
    !s.main.Crashed? && !s.main.Finished? && MainStep(s).None? && PrinterStep(s).None?
  }

  // ----- the invariant

  function Prints(guest: seq<Action>): nat {
    if guest == [] then 0 else (if guest[0].Print? then 1 else 0) + Prints(guest[1..])
  }

  function Yields(guest: seq<Action>): nat {
    if guest == [] then 0 else (if guest[0].Yield? then 1 else 0) + Yields(guest[1..])
  }

  function FirstPrint(guest: seq<Action>): Option<int> {
    if guest == [] then None
    else if guest[0].Print? then Some(guest[0].v)
    else FirstPrint(guest[1..])
  }

  /** The guest is suspended exactly while the future is valid, that is between its call and the one
      time the result is taken, and that is never before the printer has signalled. */
  ghost predicate MainOk(s: State) {
    && s.suspended == s.valid == (s.retrieved && s.consumed == 0)
    && s.consumed <= 1 && (s.consumed == 1 ==> s.success)
    && (s.retrieved <==> s.value.Some?)
    && (s.main.Running? ==> !s.suspended)
    && (s.main.Asking? || s.main.Waiting? ==> s.suspended)
    && (s.main.Getting? ==> s.suspended && s.success)
    && (s.main.Joining? || s.main.Finished? ==> s.todo == [] && !s.suspended)
    && (s.main.Finished? ==> s.printer.Exited?)
  }

  /** What has been printed is what was handed over, once. */
  ghost predicate PrinterOk(s: State) {
    && s.success == s.printer.Exited?
    && (s.printer.Receiving? ==> s.printed == [])
    && (s.printer.Printing? ==> s.printed == [] && s.value == Some(s.printer.v))
    && (s.printer.Signaling? || s.printer.Exited? ==> s.value.Some? && s.printed == [s.value.value])
  }

  /** The calls to `print` are the one made and the ones to come, and the value is the first's. */
  ghost predicate CallsOk(s: State, guest: seq<Action>) {
    && Prints(guest) == Prints(s.todo) + (if s.retrieved then 1 else 0)
    && FirstPrint(guest) == if s.value.Some? then s.value else FirstPrint(s.todo)
  }

  /** The yields reported beyond those the guest has made. */
  ghost function Spurious(s: State, guest: seq<Action>): int {
    s.reported + Yields(s.todo) + (if s.main.Checking? && !s.suspended then 1 else 0) - Yields(guest)
  }

  /** There is at most one, and not before the printer has signalled. */
  ghost predicate YieldsOk(s: State, guest: seq<Action>) {
    && 0 <= Spurious(s, guest) <= 1
    && (Spurious(s, guest) == 1 ==> s.success && !s.main.Waiting? && !(s.main.Checking? && s.suspended))
  }

  ghost predicate Inv(s: State, guest: seq<Action>) {
    if s.main.Crashed? then Prints(guest) > 1
    else MainOk(s) && PrinterOk(s) && CallsOk(s, guest) && YieldsOk(s, guest)
  }

  lemma NextInv(s: State, s': State, guest: seq<Action>)
    requires Inv(s, guest) && Next(s, s')
    ensures Inv(s', guest)
  {
  }

  lemma {:induction false} PathInv(ss: seq<State>, guest: seq<Action>, n: nat)
    requires Path(ss) && Inv(ss[0], guest) && n < |ss|
    ensures Inv(ss[n], guest)
  {
    if n > 0 {
      PathInv(ss, guest, n - 1);
      NextInv(ss[n - 1], ss[n], guest);
    }
  }

  lemma LeadsInv(s: State, t: State, guest: seq<Action>)
    requires Inv(s, guest) && Leads(s, t)
    ensures Inv(t, guest)
  {
    var ss :| Path(ss) && ss[0] == s && ss[|ss| - 1] == t;
    PathInv(ss, guest, |ss| - 1);
  }

  // ----- the program gets somewhere

  /** A bound on the steps left. */
  ghost function StepsLeft(s: State): nat {
    10 * |s.todo|
    + (match s.main
       case Running => 2
       case Asking => if IsPending(s) then 8 else 5
       case Getting => 4
       case Checking => if IsPending(s) then 7 else if s.suspended then 6 else 3
       case Waiting => 6
       case Joining => 1
       case Finished => 0
       case Crashed => 0)
    + 10 * (match s.printer case Receiving => 3 case Printing(_) => 2 case Signaling => 1 case Exited => 0)
  }

  lemma StepsDecrease(s: State, s': State, guest: seq<Action>)
    requires Inv(s, guest) && Next(s, s')
    ensures StepsLeft(s') < StepsLeft(s)
  {
  }

  lemma {:induction false} Descends(ms: seq<nat>, n: nat)
    requires n < |ms| && forall i, j | 0 <= i < j < |ms| && j == i + 1 :: ms[j] < ms[i]
    ensures ms[n] + n <= ms[0]
  {
    if n > 0 {
      Descends(ms, n - 1);
    }
  }

  lemma PathStepDecreases(ss: seq<State>, guest: seq<Action>, i: nat)
    requires Path(ss) && Inv(ss[0], guest) && i + 1 < |ss|
    ensures StepsLeft(ss[i + 1]) < StepsLeft(ss[i])
  {
    PathInv(ss, guest, i);
    StepsDecrease(ss[i], ss[i + 1], guest);
  }

  lemma PathShortens(ss: seq<State>, guest: seq<Action>)
    requires Path(ss) && Inv(ss[0], guest)
    ensures |ss| <= StepsLeft(ss[0]) + 1
  {
    var ms := seq(|ss|, i requires 0 <= i < |ss| => StepsLeft(ss[i]));
    forall i, j | 0 <= i < j < |ms| && j == i + 1
      ensures ms[j] < ms[i]
    {
      PathStepDecreases(ss, guest, i);
    }
    Descends(ms, |ms| - 1);
  }

  /** From any state some interleaving goes on until the program is over or stuck. */
  lemma {:induction false} RunsOut(s: State, guest: seq<Action>) returns (t: State)
    requires Inv(s, guest)
    ensures Leads(s, t) && Inv(t, guest)
    ensures t.main.Crashed? || t.main.Finished? || Deadlocked(t)
    decreases StepsLeft(s)
  {
    if s.main.Crashed? || (MainStep(s).None? && PrinterStep(s).None?) {
      assert Path([s]);
      t := s;
    } else {
      var s' := if MainStep(s).Some? then MainStep(s).value else PrinterStep(s).value;
      StepsDecrease(s, s', guest);
      NextInv(s, s', guest);
      t := RunsOut(s', guest);
      var ss :| Path(ss) && ss[0] == s' && ss[|ss| - 1] == t;
      assert Path([s] + ss) && ([s] + ss)[|ss|] == t;
    }
  }

  /** For a guest that prints once, in every interleaving: nothing throws, the threads never
      deadlock, and the program can always still finish.  The guest goes on past its call only after
      the printer has printed that value and signalled; the result is taken only from a valid, ready
      future, and by the end exactly once. */
  lemma OnePrintIsSafe(guest: seq<Action>, s: State) returns (t: State)
    requires Prints(guest) == 1 && Leads(Init(guest), s)
    ensures !s.main.Crashed? && !Deadlocked(s)
    ensures Prints(s.todo) == 0 && !s.suspended ==>
              s.success && s.value.Some? && s.value == FirstPrint(guest) && s.printed == [s.value.value]
    ensures s.main.Getting? ==> s.valid && s.success && s.consumed == 0
    ensures s.main.Finished? ==> s.consumed == 1
    ensures Leads(s, t) && t.main.Finished?
  {
    LeadsInv(Init(guest), s, guest);
    t := RunsOut(s, guest);
  }

  /** No scheduling runs forever: every interleaving of any guest is at most so long, and for a guest
      that prints once, one that cannot go on has finished. */
  lemma EveryInterleavingEnds(guest: seq<Action>, ss: seq<State>)
    requires Path(ss) && ss[0] == Init(guest)
    ensures |ss| <= 10 * |guest| + 33
    ensures var s := ss[|ss| - 1];
            Prints(guest) == 1 && (forall s' :: !Next(s, s')) ==> s.main.Finished?
  {
    PathShortens(ss, guest);
    var s := ss[|ss| - 1];
    if Prints(guest) == 1 && forall s' :: !Next(s, s') {
      assert Leads(Init(guest), s);
      var t := OnePrintIsSafe(guest, s);
      assert MainStep(s).Some? ==> Next(s, MainStep(s).value);
      assert PrinterStep(s).Some? ==> Next(s, PrinterStep(s).value);
    }
  }

  /** When the program has finished, it has reported every yield of the guest, and possibly one more: if the
      printer signals between the poll and the check after it, the wait for it is taken for a yield. */
  lemma YieldsReported(guest: seq<Action>, s: State)
    requires Prints(guest) == 1 && Leads(Init(guest), s) && s.main.Finished?
    ensures Yields(guest) <= s.reported <= Yields(guest) + 1
  {
    LeadsInv(Init(guest), s, guest);
  }

  lemma LeadsThen(s: State, t: State, u: State)
    requires Leads(s, t) && Next(t, u)
    ensures Leads(s, u)
  {
    var ss :| Path(ss) && ss[0] == s && ss[|ss| - 1] == t;
    var longer := ss + [u];
    forall i | 0 <= i < |longer| - 1
      ensures Next(longer[i], longer[i + 1])
    {
      assert i == |ss| - 1 ==> longer[i] == t && longer[i + 1] == u;
    }
    assert Path(longer);
  }

  lemma MainGoes(s: State, t: State) returns (u: State)
    requires Leads(s, t) && !t.main.Crashed? && MainStep(t).Some?
    ensures Leads(s, u) && u == MainStep(t).value
  {
    u := MainStep(t).value;
    LeadsThen(s, t, u);
  }

  lemma PrinterGoes(s: State, t: State) returns (u: State)
    requires Leads(s, t) && !t.main.Crashed? && PrinterStep(t).Some?
    ensures Leads(s, u) && u == PrinterStep(t).value
  {
    u := PrinterStep(t).value;
    LeadsThen(s, t, u);
  }

  /** Both happen, for a guest that only prints. */
  lemma BothReported(v: int) returns (s: State, t: State)
    ensures Leads(Init([Print(v)]), s) && s.main.Finished? && s.reported == 0
    ensures Leads(Init([Print(v)]), t) && t.main.Finished? && t.reported == 1
  {
    var s0 := Init([Print(v)]);
    assert Path([s0]);
    s := MainGoes(s0, s0);
    s := MainGoes(s0, s);
    t := s;
    s := MainGoes(s0, s);
    s := FinishFrom(s0, s);
    t := FinishFrom(s0, t);
  }

  /** The printer goes first, then the main thread to the end. */
  lemma FinishFrom(s0: State, s: State) returns (t: State)
    requires Leads(s0, s) && s.main in {Checking, Waiting} && s.printer.Receiving? && s.value.Some? && s.todo == []
    requires s.valid && s.suspended && !s.success
    ensures Leads(s0, t) && t.main.Finished?
    ensures t.reported == s.reported + if s.main.Checking? then 1 else 0
  {
    t := PrinterGoes(s0, s);
    t := PrinterGoes(s0, t);
    t := PrinterGoes(s0, t);
    t := MainGoes(s0, t);
    t := MainGoes(s0, t);
    t := MainGoes(s0, t);
    t := MainGoes(s0, t);
    t := MainGoes(s0, t);
  }

  /** And one call is the only number of calls for which that is so: with none, `join` waits for a
      printer that waits for a value; with more, the second asks a promise for its future again. */
  lemma SafeIffOnePrint(guest: seq<Action>)
    ensures (forall s | Leads(Init(guest), s) :: !s.main.Crashed? && !Deadlocked(s)) <==> Prints(guest) == 1
  {
    if Prints(guest) == 1 {
      forall s | Leads(Init(guest), s)
        ensures !s.main.Crashed? && !Deadlocked(s)
      {
        var t := OnePrintIsSafe(guest, s);
      }
    } else {
      var t := RunsOut(Init(guest), guest);
    }
  }
}
