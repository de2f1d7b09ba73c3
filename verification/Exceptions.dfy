/** How `wasmtime/_func.py` carries Python exceptions across WebAssembly frames.  A native callback
    cannot raise, so `trampoline` parks the exception in the global `LAST_EXCEPTION` and returns a
    trap; the `enter_wasm` around the outermost native frame finds the trap (or an error) and
    raises what was parked.  Host and WebAssembly code nest without bound, so the programs here
    are mutually recursive trees, given two meanings: ordinary propagation of exceptions, and the
    slot-and-trap machine. */
module Exceptions {
  import opened Options

  /** What a native trap or error object was made from: `Trap("python exception")`, or something
      WebAssembly or the runtime did itself. */
  datatype Origin = PythonException | Own(code: nat)

  /** Python exception objects.  One raised by a callback may itself be a `WasmtimeError`. */
  datatype Exn =
    | Raisable(id: nat, isWasmtimeError: bool)
    | TrapObject(origin: Origin)
    | WasmtimeErrorObject(origin: Origin)
    | CallerNoLongerValid

  predicate IsWasmtimeError(e: Exn) {
    e.WasmtimeErrorObject? || (e.Raisable? && e.isWasmtimeError)
  }

  /** Whether the native layer reports a host callback's trap through the trap pointer or through
      the returned error. */
  datatype Channel = AsTrap | AsError

  /** Host code.  `UseCaller` needs the context of the `id`th `Caller` ever made, and raises without it;
      `GetExport` asks that `Caller` for an export, which the module has if `defined`, and goes on with
      `present` or, where it gets `None`, with `missing`; `Enter` goes into WebAssembly through
      `enter_wasm`; the `except` clause of `Try` may be for any exceptions. */
  datatype Host =
    | Return
    | Raise(e: Exn)
    | UseCaller(id: nat, rest: Host)
    | GetExport(id: nat, defined: bool, present: Host, missing: Host)
    | Enter(wasm: Wasm, rest: Host)
    | Try(body: Host, catches: Exn -> bool, handler: Host, rest: Host)

  datatype Wasm =
    | Finish
    | OwnTrap(code: nat)
    | OwnError(code: nat)
    | Import(host: Host, channel: Channel, rest: Wasm)

  datatype Outcome = Normal | Raised(e: Exn)

  // ----- ordinary propagation

  /** Exceptions simply unwind host and WebAssembly frames alike, and a `Caller` is usable exactly
      in the dynamic extent of its own callback: `active` are the callbacks running now, `made` is
      how many there have been.  Also returns the new `made`. */
  function DirectHost(h: Host, active: set<nat>, made: nat): (Outcome, nat)
    decreases h
  {
    match h
    case Return => (Normal, made)
    case Raise(e) => (Raised(e), made)
    case UseCaller(id, rest) =>
      if id in active then DirectHost(rest, active, made) else (Raised(CallerNoLongerValid), made)
    case GetExport(id, defined, present, missing) =>
      DirectHost(if id in active && defined then present else missing, active, made)
    case Enter(wasm, rest) =>
      var (o, n) := DirectWasm(wasm, active, made);
      if o.Raised? then (o, n) else DirectHost(rest, active, n)
    case Try(body, catches, handler, rest) =>
      var (o, n) := DirectHost(body, active, made);
      if o.Normal? then DirectHost(rest, active, n)
      else if !catches(o.e) then (o, n)
      else
        var (o', n') := DirectHost(handler, active, n);
        if o'.Raised? then (o', n') else DirectHost(rest, active, n')
  }

  function DirectWasm(w: Wasm, active: set<nat>, made: nat): (Outcome, nat)
    decreases w
  {
    match w
    case Finish => (Normal, made)
    case OwnTrap(code) => (Raised(TrapObject(Own(code))), made)
    case OwnError(code) => (Raised(WasmtimeErrorObject(Own(code))), made)
    case Import(host, _, rest) =>
      var (o, n) := DirectHost(host, active + {made}, made + 1);
      if o.Raised? then (o, n) else DirectWasm(rest, active, n)
  }

  // ----- the slot-and-trap machine

  /** `LAST_EXCEPTION`, and for every `Caller` made so far whether it still has its context. */
  datatype Machine = Machine(slot: Option<Exn>, callers: seq<bool>)

  /** What `wasmtime_func_call` and its kin report. */
  datatype Native = Completed | TrapPointer(origin: Origin) | ErrorPointer(origin: Origin)

  function RunHost(h: Host, m: Machine): (Outcome, Machine)
    decreases h
  {
    match h
    case Return => (Normal, m)
    case Raise(e) => (Raised(e), m)
    case UseCaller(id, rest) =>
      if id < |m.callers| && m.callers[id] then RunHost(rest, m) else (Raised(CallerNoLongerValid), m)
    case GetExport(id, defined, present, missing) =>
      RunHost(if id < |m.callers| && m.callers[id] && defined then present else missing, m)
    case Enter(wasm, rest) =>
      var (native, m1) := RunWasm(wasm, m);
      var (o, m2) := LeaveWasm(native, m1);
      if o.Raised? then (o, m2) else RunHost(rest, m2)
    case Try(body, catches, handler, rest) =>
      var (o, m1) := RunHost(body, m);
      if o.Normal? then RunHost(rest, m1)
      else if !catches(o.e) then (o, m1)
      else
        var (o', m2) := RunHost(handler, m1);
        if o'.Raised? then (o', m2) else RunHost(rest, m2)
  }

  /** WebAssembly frames; a trap from an import unwinds all of them. */
  function RunWasm(w: Wasm, m: Machine): (Native, Machine)
    decreases w
  {
    match w
    case Finish => (Completed, m)
    case OwnTrap(code) => (TrapPointer(Own(code)), m)
    case OwnError(code) => (ErrorPointer(Own(code)), m)
    case Import(host, channel, rest) =>
      var (o, m1) := RunHost(host, m.(callers := m.callers + [true]));
      var (trapped, m2) := LeaveCallback(o, m1, |m.callers|);
      if !trapped then RunWasm(rest, m2)
      else (if channel.AsTrap? then TrapPointer(PythonException) else ErrorPointer(PythonException), m2)
  }

  /** `trampoline` once the Python callback is over: park an exception, invalidate the caller. */
  function LeaveCallback(o: Outcome, m: Machine, id: nat): (bool, Machine) {
    var slot := if o.Raised? then Some(o.e) else m.slot;
    (o.Raised?, Machine(slot, if id < |m.callers| then m.callers[id := false] else m.callers))
  }

  /** `maybe_raise_last_exn`. */
  function MaybeRaise(m: Machine): (Option<Exn>, Machine) {
    (m.slot, m.(slot := None))
  }

  /** `enter_wasm` once the native call is over.  An exception raised for a trap is inside the
      `try`, so if it is a `WasmtimeError` the `except` clause sees it as well. */
  function LeaveWasm(native: Native, m: Machine): (Outcome, Machine) {
    match native
    case Completed => (Normal, m)
    case TrapPointer(origin) =>
      var (parked, m1) := MaybeRaise(m);
      var e := if parked.Some? then parked.value else TrapObject(origin);
      if IsWasmtimeError(e) then ExceptWasmtimeError(e, m1) else (Raised(e), m1)
    case ErrorPointer(origin) => ExceptWasmtimeError(WasmtimeErrorObject(origin), m)
  }

  function ExceptWasmtimeError(e: Exn, m: Machine): (Outcome, Machine) {
    var (parked, m1) := MaybeRaise(m);
    (Raised(if parked.Some? then parked.value else e), m1)
  }

  // ----- the two agree

  ghost function Active(m: Machine): set<nat> {
    set id | 0 <= id < |m.callers| && m.callers[id]
  }

  /** `after` extends the callers of `m` by ones that are all invalid again. */
  ghost predicate Settled(m: Machine, after: Machine) {
    && |m.callers| <= |after.callers|
    && (forall i | 0 <= i < |m.callers| :: after.callers[i] == m.callers[i])
    && (forall i | |m.callers| <= i < |after.callers| :: !after.callers[i])
  }

  lemma SettledActive(m: Machine, after: Machine)
    requires Settled(m, after)
    ensures Active(m) == Active(after)
  {
  }

  /** From an empty slot, host code behaves as under ordinary propagation: the same outcome with the
      same exception object, the same `Caller`s usable at every point, and the slot empty again. */
  lemma {:induction false} HostAgrees(h: Host, m: Machine)
    requires m.slot.None?
    ensures var (o, m') := RunHost(h, m);
            && (o, |m'.callers|) == DirectHost(h, Active(m), |m.callers|)
            && m'.slot.None? && Settled(m, m')
    decreases h
  {
    match h
    case Return =>
    case Raise(e) =>
    case UseCaller(id, rest) =>
      HostAgrees(rest, m);
    case GetExport(id, defined, present, missing) =>
      HostAgrees(present, m);
      HostAgrees(missing, m);
    case Enter(wasm, rest) =>
      WasmAgrees(wasm, m);
      var (native, m1) := RunWasm(wasm, m);
      var (o, m2) := LeaveWasm(native, m1);
      SettledActive(m, m2);
      HostAgrees(rest, m2);
    case Try(body, catches, handler, rest) =>
      HostAgrees(body, m);
      var (o, m1) := RunHost(body, m);
      SettledActive(m, m1);
      HostAgrees(rest, m1);
      HostAgrees(handler, m1);
      var m2 := RunHost(handler, m1).1;
      SettledActive(m, m2);
      HostAgrees(rest, m2);
  }

  /** Between a failing callback and the enclosing `enter_wasm` the slot holds exactly the
      exception that ordinary propagation is unwinding with; otherwise it is empty. */
  ghost predicate Carries(native: Native, slot: Option<Exn>, o: Outcome) {
    match o
    case Normal => native.Completed? && slot.None?
    case Raised(e) =>
      || (slot == Some(e) && !native.Completed? && native.origin.PythonException?)
      || (slot.None? && native.TrapPointer? && e == TrapObject(native.origin))
      || (slot.None? && native.ErrorPointer? && e == WasmtimeErrorObject(native.origin))
  }

  lemma {:induction false} WasmAgrees(w: Wasm, m: Machine)
    requires m.slot.None?
    ensures var (native, m') := RunWasm(w, m);
            var (o, made) := DirectWasm(w, Active(m), |m.callers|);
            && Carries(native, m'.slot, o) && |m'.callers| == made && Settled(m, m')
            && LeaveWasm(native, m') == (o, m'.(slot := None))
    decreases w
  {
    match w
    case Finish =>
    case OwnTrap(code) =>
    case OwnError(code) =>
    case Import(host, channel, rest) =>
      var id := |m.callers|;
      var m0 := m.(callers := m.callers + [true]);
      assert Active(m0) == Active(m) + {id};
      HostAgrees(host, m0);
      var (o, m1) := RunHost(host, m0);
      var (trapped, m2) := LeaveCallback(o, m1, id);
      assert Settled(m, m2);
      SettledActive(m, m2);
      if !trapped {
        WasmAgrees(rest, m2);
      }
  }

  /** A callback that raises is reported by either way the native layer has, with its exception parked. */
  lemma FailingImport(e: Exn, channel: Channel, rest: Wasm, m: Machine)
    ensures var (native, m') := RunWasm(Import(Raise(e), channel, rest), m);
            && native == (match channel
                          case AsTrap => TrapPointer(PythonException)
                          case AsError => ErrorPointer(PythonException))
            && m'.slot == Some(e) && LeaveWasm(native, m').0 == Raised(e)
  {
  }

  ghost predicate AgreeOn(h: Host, m: Machine) {
    RunHost(h, m).0 == DirectHost(h, Active(m), |m.callers|).0
  }

  /** The empty slot is what the encoding rests on: the machine agrees with ordinary propagation on
      all programs exactly when nothing stale is parked. */
  lemma AgreesIffSlotEmpty(m: Machine)
    ensures (forall h :: AgreeOn(h, m)) <==> m.slot.None?
  {
    if m.slot.None? {
      forall h
        ensures AgreeOn(h, m)
      {
        HostAgrees(h, m);
      }
    } else {
      // A program whose own trap differs from the stale exception.
      var stale := m.slot.value;
      var code := if stale.TrapObject? && stale.origin.Own? then stale.origin.code + 1 else 0;
      assert stale != TrapObject(Own(code));
      var h := Enter(OwnTrap(code), Return);
      assert RunHost(h, m).0 == Raised(stale);
      assert DirectWasm(h.wasm, Active(m), |m.callers|).0 == Raised(TrapObject(Own(code)));
      assert DirectHost(h, Active(m), |m.callers|).0 == Raised(TrapObject(Own(code)));
      assert !AgreeOn(h, m);
    }
  }

  // ----- the Python code

  class Interpreter {
    var lastException: Option<Exn>
    var callers: seq<bool>

    function Fields(): Machine
      reads this
    {
      Machine(lastException, callers)
    }

    constructor ()
      ensures Fields() == Machine(None, [])
    {
      lastException, callers := None, [];
    }

    method MaybeRaiseLastExn() returns (raised: Option<Exn>)
      modifies this
      ensures (raised, Fields()) == MaybeRaise(old(Fields()))
    {
      if lastException.None? {
        return None;
      }
      raised := lastException;
      lastException := None;
    }

    /** The body of a callback or of the top-level program. */
    method Execute(h: Host) returns (o: Outcome)
      modifies this
      ensures (o, Fields()) == RunHost(h, old(Fields()))
      decreases h, 1
    {
      match h
      case Return => o := Normal;
      case Raise(e) => o := Raised(e);
      case UseCaller(id, rest) =>
        if id < |callers| && callers[id] {
          o := Execute(rest);
        } else {
          o := Raised(CallerNoLongerValid);
        }
      case GetExport(id, defined, present, missing) =>
        var exported := false;
        if id < |callers| && callers[id] {
          exported := defined;
        }
        if exported {
          o := Execute(present);
        } else {
          o := Execute(missing);
        }
      case Enter(wasm, rest) =>
        o := EnterWasm(wasm);
        if o.Normal? {
          o := Execute(rest);
        }
      case Try(body, catches, handler, rest) =>
        o := Execute(body);
        if o.Raised? && catches(o.e) {
          o := Execute(handler);
        }
        if o.Normal? {
          o := Execute(rest);
        }
    }

    method EnterWasm(wasm: Wasm) returns (o: Outcome)
      modifies this
      ensures var (native, m) := RunWasm(wasm, old(Fields())); (o, Fields()) == LeaveWasm(native, m)
      decreases wasm, 1
    {
      var native := CallNative(wasm);
      match native
      case Completed => return Normal;
      case TrapPointer(origin) =>
        var parked := MaybeRaiseLastExn();
        o := Raised(if parked.Some? then parked.value else TrapObject(origin));
      case ErrorPointer(origin) =>
        o := Raised(WasmtimeErrorObject(origin));
      if IsWasmtimeError(o.e) {
        var parked := MaybeRaiseLastExn();
        if parked.Some? {
          o := Raised(parked.value);
        }
      }
    }

    /** The native frames. */
    method CallNative(wasm: Wasm) returns (native: Native)
      modifies this
      ensures (native, Fields()) == RunWasm(wasm, old(Fields()))
      decreases wasm, 0
    {
      match wasm
      case Finish => native := Completed;
      case OwnTrap(code) => native := TrapPointer(Own(code));
      case OwnError(code) => native := ErrorPointer(Own(code));
      case Import(host, channel, rest) =>
        var trapped := Trampoline(host);
        if trapped {
          native := if channel.AsTrap? then TrapPointer(PythonException) else ErrorPointer(PythonException);
        } else {
          native := CallNative(rest);
        }
    }

    method Trampoline(host: Host) returns (trapped: bool)
      modifies this
      ensures var m := old(Fields());
              var (o, m1) := RunHost(host, m.(callers := m.callers + [true]));
              (trapped, Fields()) == LeaveCallback(o, m1, |m.callers|)
      decreases host, 2
    {
      var id := |callers|;
      callers := callers + [true];
      var o := Execute(host);
      trapped := o.Raised?;
      if o.Raised? {
        lastException := Some(o.e);
      }
      if id < |callers| {
        callers := callers[id := false];
      }
    }

    /** A whole Python program, started with nothing parked. */
    method Program(h: Host) returns (o: Outcome)
      requires lastException.None?
      modifies this
      ensures o == DirectHost(h, Active(old(Fields())), |old(callers)|).0
      ensures lastException.None? && Active(Fields()) == Active(old(Fields()))
    {
      HostAgrees(h, Fields());
      o := Execute(h);
      SettledActive(old(Fields()), Fields());
    }
  }
}
