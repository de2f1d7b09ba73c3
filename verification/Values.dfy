/** The value layer of `wasmtime/_value.py` on top of the slab, and the parameter handling of
    `Func.__call__` in `wasmtime/_func.py`.  A Python object becomes an `externref` by interning it
    in the slab and giving the native store the slab index plus one; the store's garbage collector
    runs the finalizer, which frees the slot, once nothing roots the reference. */
module Values {
  import opened Options
  import opened Slabs

  datatype Result<T> = Ok(value: T) | Err(error: Error)
  datatype Error = TypeError | WasmtimeError | AttributeError | RuntimeError

  datatype ValType = I32 | I64 | F32 | F64 | ExternRef | FuncRef | Other

  /** A `Val` object.  The constructors store a ctypes constant as its kind, `_from_raw` the plain
      integer, and only the former is ever equal to a constant. */
  datatype Val = Val(kind: ValType, plainKind: bool, val: Obj)

  datatype Arg = Wrapped(v: Val) | Native(obj: Obj)

  /** `wasmtime_val_t`.  A null reference has store id zero. */
  datatype Raw =
    | RawI32(n: int)
    | RawI64(n: int)
    | RawF32(near: nat)
    | RawF64(near: nat, which: nat)
    | RawExtern(handle: nat)
    | RawNullExtern
    | RawFunc(id: nat)
    | RawNullFunc
    | RawOther

  /** An externref in the native store: the data pointer it carries and how often it is rooted. */
  datatype Ref = Ref(externId: nat, roots: nat)

  /** What the slab holds, by index, and the references made so far that still exist.  The slab is
      here the map it refines; an allocation is given the index that the slab hands out, of which
      only that it is not live is used.  `owner` records, for the proofs, which reference a slot was
      last interned for. */
  datatype Store = Store(live: map<nat, Obj>, refs: map<nat, Ref>, made: nat, owner: map<nat, nat>)

  // ----- integers

  /** A ctypes `c_int32` field keeps the low 32 bits, signed. */
  function Wrap32(n: int): (r: int)
    ensures -0x8000_0000 <= r < 0x8000_0000
    ensures (r - n) % 0x1_0000_0000 == 0
    ensures -0x8000_0000 <= n < 0x8000_0000 ==> r == n
  {
    (n + 0x8000_0000) % 0x1_0000_0000 - 0x8000_0000
  }

  function Wrap64(n: int): (r: int)
    ensures -0x8000_0000_0000_0000 <= r < 0x8000_0000_0000_0000
    ensures (r - n) % 0x1_0000_0000_0000_0000 == 0
    ensures -0x8000_0000_0000_0000 <= n < 0x8000_0000_0000_0000 ==> r == n
  {
    (n + 0x8000_0000_0000_0000) % 0x1_0000_0000_0000_0000 - 0x8000_0000_0000_0000
  }

  predicate IsInt(o: Obj) {
    o.Int? || o.Bool?
  }

  /** `bool` is a subclass of `int`. */
  function IntOf(o: Obj): int
    requires IsInt(o)
  {
    if o.Int? then o.n else if o.b then 1 else 0
  }

  /** A ctypes `c_float` field rounds to single precision. */
  function Single(o: Obj): (r: Obj)
    requires o.Float?
    ensures r.Float? && (r == o <==> o.which == 0)
  {
    Float(o.near, 0)
  }

  // ----- conversion

  /** `_intern`: slab indices are off by one, since a zero data pointer means null. */
  function Intern(st: Store, obj: Obj, idx: nat): (r: (Store, nat)) {
    (st.(live := st.live[idx := obj]), idx + 1)
  }

  /** `_new_raw`; `idx` is the index the slab hands out if asked, and `nativeOk` is whether
      `wasmtime_externref_new` succeeds. */
  function NewRaw(st: Store, v: Val, idx: nat, nativeOk: bool): (r: (Result<Raw>, Store)) {
    match v.kind
    case I32 => (if IsInt(v.val) then Ok(RawI32(Wrap32(IntOf(v.val)))) else Err(TypeError), st)
    case I64 => (if IsInt(v.val) then Ok(RawI64(Wrap64(IntOf(v.val)))) else Err(TypeError), st)
    case F32 => (if v.val.Float? then Ok(RawF32(v.val.near)) else Err(TypeError), st)
    case F64 => (if v.val.Float? then Ok(RawF64(v.val.near, v.val.which)) else Err(TypeError), st)
    case ExternRef =>
      if v.val == PyNone then (Ok(RawNullExtern), st)
      else
        var (st1, externId) := Intern(st, v.val, idx);
        if !nativeOk then (Err(WasmtimeError), st1)
        else (Ok(RawExtern(st1.made)),
              st1.(refs := st1.refs[st1.made := Ref(externId, 1)],
                   made := st1.made + 1,
                   owner := st1.owner[idx := st1.made]))
    case FuncRef =>
      (if v.val == PyNone then Ok(RawNullFunc)
       else if v.val.Func? then Ok(RawFunc(v.val.id))
       else Err(AttributeError), st)
    case Other => (Err(RuntimeError), st)
  }

  /** The `type` property. */
  function TypeOf(v: Val): Result<ValType> {
    if v.plainKind then Err(AttributeError)
    else if v.kind == Other then Err(RuntimeError)
    else Ok(v.kind)
  }

  /** The `Val` that `_convert_to_raw` lowers; a `Func` is accepted whatever the type asked for. */
  function ToVal(ty: ValType, arg: Arg): Result<Val> {
    match arg
    case Wrapped(v) =>
      var t := TypeOf(v);
      if t.Err? then Err(t.error)
      else if t.value != ty then Err(TypeError)
      else Ok(v)
    case Native(obj) =>
      if ty == ExternRef then Ok(Val(ExternRef, false, obj))
      else if IsInt(obj) then
        if ty == I32 then Ok(Val(I32, false, Int(Wrap32(IntOf(obj)))))
        else if ty == I64 then Ok(Val(I64, false, Int(Wrap64(IntOf(obj)))))
        else Err(TypeError)
      else if obj.Float? then
        if ty == F32 then Ok(Val(F32, false, Single(obj)))
        else if ty == F64 then Ok(Val(F64, false, obj))
        else Err(TypeError)
      else if obj.Func? then Ok(Val(FuncRef, false, obj))
      else if obj == PyNone && ty == FuncRef then Ok(Val(FuncRef, false, obj))
      else Err(TypeError)
  }

  /** `_convert_to_raw`. */
  function ConvertToRaw(st: Store, ty: ValType, arg: Arg, idx: nat, nativeOk: bool): (r: (Result<Raw>, Store)) {
    var v := ToVal(ty, arg);
    if v.Err? then (Err(v.error), st) else NewRaw(st, v.value, idx, nativeOk)
  }

  /** The native side's demand on a value it is handed: a reference in it is still rooted. */
  predicate Usable(st: Store, raw: Raw) {
    raw.RawExtern? ==> raw.handle in st.refs && st.refs[raw.handle].roots > 0
  }

  function WithRoots(st: Store, h: nat, roots: nat): (st': Store)
    requires h in st.refs
  {
    st.(refs := st.refs[h := st.refs[h].(roots := roots)])
  }

  function Unroot(st: Store, raw: Raw): (st': Store) {
    if raw.RawExtern? && Usable(st, raw) then
      WithRoots(st, raw.handle, st.refs[raw.handle].roots - 1)
    else st
  }

  /** `_unintern`: the slot read, which the slab's user must know to be live. */
  function Unintern(st: Store, externId: nat): Obj
    requires externId > 0
  {
    if externId - 1 in st.live then st.live[externId - 1] else PyNone
  }

  /** `_from_raw`. */
  function FromRaw(st: Store, raw: Raw, owned: bool): (r: (Result<Val>, Store))
    requires Usable(st, raw)
  {
    var v :=
      match raw
      case RawI32(n) => Ok(Val(I32, true, Int(n)))
      case RawI64(n) => Ok(Val(I64, true, Int(n)))
      case RawF32(near) => Ok(Val(F32, true, Float(near, 0)))
      case RawF64(near, which) => Ok(Val(F64, true, Float(near, which)))
      case RawExtern(handle) =>
        var externId := st.refs[handle].externId;
        Ok(Val(ExternRef, true, if externId == 0 then PyNone else Unintern(st, externId)))
      case RawNullExtern => Ok(Val(ExternRef, true, PyNone))
      case RawFunc(id) => Ok(Val(FuncRef, true, Func(id)))
      case RawNullFunc => Ok(Val(FuncRef, true, PyNone))
      case RawOther => Err(WasmtimeError);
    (v, if v.Ok? && owned then Unroot(st, raw) else st)
  }

  // ----- what keeps a store consistent

  /** The slab index a data pointer stands for. */
  ghost function Slot(r: Ref): nat {
    if r.externId > 0 then r.externId - 1 else 0
  }

  /** Every reference's data pointer is nonzero, names a live slot, and is nobody else's. */
  ghost predicate Good(st: Store) {
    forall h | h in st.refs ::
      var r := st.refs[h];
      h < st.made && r.externId > 0 && Slot(r) in st.live && Slot(r) in st.owner && st.owner[Slot(r)] == h
  }

  /** `h` is rooted and stands for `obj`. */
  ghost predicate Holds(st: Store, h: nat, obj: Obj) {
    && h in st.refs && st.refs[h].roots > 0
    && st.refs[h].externId > 0 && Unintern(st, st.refs[h].externId) == obj
  }

  /** What a raw value stands for in a store. */
  ghost predicate Stands(st: Store, raw: Raw, obj: Obj) {
    match raw
    case RawI32(n) => obj == Int(n)
    case RawI64(n) => obj == Int(n)
    case RawF32(near) => obj == Float(near, 0)
    case RawF64(near, which) => obj == Float(near, which)
    case RawExtern(h) => Holds(st, h, obj)
    case RawNullExtern => obj == PyNone
    case RawFunc(id) => obj == Func(id)
    case RawNullFunc => obj == PyNone
    case RawOther => false
  }

  /** What should come back from a trip through WebAssembly. */
  function Expected(ty: ValType, arg: Arg): Result<Obj> {
    match arg
    case Wrapped(v) =>
      if v.plainKind then Err(AttributeError)
      else if v.kind == Other then Err(RuntimeError)
      else if v.kind != ty then Err(TypeError)
      else InKind(ty, v.val)
    case Native(obj) =>
      if ty == ExternRef then Ok(obj)
      else if (ty in {I32, I64} && IsInt(obj)) || (ty in {F32, F64} && obj.Float?) then InKind(ty, obj)
      else if obj.Func? || (ty == FuncRef && obj == PyNone) then Ok(obj)
      else Err(TypeError)
  }

  function InKind(ty: ValType, obj: Obj): Result<Obj>
    requires ty != Other
  {
    match ty
    case I32 => if IsInt(obj) then Ok(Int(Wrap32(IntOf(obj)))) else Err(TypeError)
    case I64 => if IsInt(obj) then Ok(Int(Wrap64(IntOf(obj)))) else Err(TypeError)
    case F32 => if obj.Float? then Ok(Single(obj)) else Err(TypeError)
    case F64 => if obj.Float? then Ok(obj) else Err(TypeError)
    case ExternRef => Ok(obj)
    case FuncRef => if obj == PyNone || obj.Func? then Ok(obj) else Err(AttributeError)
  }

  /** Interning an object at a slot that is not live leaves every reference alone and gives the new
      one its object. */
  lemma NewExtern(st: Store, obj: Obj, idx: nat, nativeOk: bool, h: nat, o: Obj)
    requires Good(st) && idx !in st.live && obj != PyNone
    ensures var (r, st') := NewRaw(st, Val(ExternRef, false, obj), idx, nativeOk);
            && Good(st')
            && r == (if nativeOk then Ok(RawExtern(st.made)) else Err(WasmtimeError))
            && (r.Ok? ==> Holds(st', st.made, obj))
            && (Holds(st, h, o) ==> Holds(st', h, o))
  {
    var st' := NewRaw(st, Val(ExternRef, false, obj), idx, nativeOk).1;
    assert st.made !in st.refs;
  }

  /** A boolean is the integer one or zero, at either width. */
  lemma BooleansAreIntegers(ty: ValType, b: bool)
    requires ty in {I32, I64}
    ensures Expected(ty, Native(Bool(b))) == Ok(Int(if b then 1 else 0))
  {
  }

  /** A kind that is not known is refused, whatever the payload. */
  lemma UnknownKindFails(st: Store, v: Val, idx: nat, nativeOk: bool)
    requires v.kind == Other
    ensures NewRaw(st, v, idx, nativeOk) == (Err(RuntimeError), st)
  {
  }

  /** Lowering a `Val` that needs no reference. */
  lemma LowersPlain(st: Store, v: Val, idx: nat, nativeOk: bool)
    requires v.kind != Other && !(v.kind == ExternRef && v.val != PyNone)
    ensures var e := InKind(v.kind, v.val);
            var (r, st') := NewRaw(st, v, idx, nativeOk);
            && st' == st
            && (if e.Err? then r == Err(e.error) else r.Ok? && !r.value.RawExtern? && Stands(st, r.value, e.value))
  {
  }

  /** The type dispatch, for a native value: a `Val` of a constructor, and again with the expected payload. */
  lemma DispatchNative(ty: ValType, obj: Obj)
    ensures var v, e := ToVal(ty, Native(obj)), Expected(ty, Native(obj));
            if v.Err? then e == Err(v.error)
            else v.value.kind != Other && !v.value.plainKind && e == InKind(v.value.kind, v.value.val)
  {
  }

  lemma DispatchWrapped(ty: ValType, v: Val)
    ensures var w, e := ToVal(ty, Wrapped(v)), Expected(ty, Wrapped(v));
            if w.Err? then e == Err(w.error) else w.value.kind != Other && e == InKind(w.value.kind, w.value.val)
  {
  }

  /** The type dispatch: what is lowered has the expected kind and, but for an object to intern, is
      a value standing for the expected object in any store. */
  lemma DispatchAsExpected(st: Store, ty: ValType, arg: Arg, idx: nat, nativeOk: bool)
    ensures var v, e := ToVal(ty, arg), Expected(ty, arg);
            if v.Err? then e == Err(v.error)
            else if v.value.kind == ExternRef && v.value.val != PyNone then e == Ok(v.value.val)
            else
              var (r, st') := NewRaw(st, v.value, idx, nativeOk);
              && st' == st
              && (if e.Err? then r == Err(e.error) else r.Ok? && !r.value.RawExtern? && Stands(st, r.value, e.value))
  {
    match arg
    case Native(obj) => DispatchNative(ty, obj);
    case Wrapped(v) => DispatchWrapped(ty, v);
    var v := ToVal(ty, arg);
    if v.Ok? && !(v.value.kind == ExternRef && v.value.val != PyNone) {
      LowersPlain(st, v.value, idx, nativeOk);
    }
  }

  /** Converting keeps the store good and every held reference as it was, fails exactly when it
      should, and otherwise yields a value standing for the expected object. */
  lemma ConvertKeeps(st: Store, ty: ValType, arg: Arg, idx: nat, nativeOk: bool, h: nat, o: Obj)
    requires Good(st) && idx !in st.live
    ensures var (r, st') := ConvertToRaw(st, ty, arg, idx, nativeOk);
            && Good(st')
            && (Expected(ty, arg).Err? ==> r == Err(Expected(ty, arg).error) && st' == st)
            && (Expected(ty, arg).Ok? && nativeOk ==> r.Ok?)
            && (r.Ok? ==> Expected(ty, arg).Ok? && Stands(st', r.value, Expected(ty, arg).value))
            && (Holds(st, h, o) ==> Holds(st', h, o))
  {
    DispatchAsExpected(st, ty, arg, idx, nativeOk);
    var v := ToVal(ty, arg);
    if v.Ok? && v.value.kind == ExternRef && v.value.val != PyNone {
      NewExtern(st, v.value.val, idx, nativeOk, h, o);
    }
  }

  // ----- what may happen while a value is in native hands

  /** Another object interned at a slot that is not live, a reference rooted once more or once less,
      or an unrooted reference collected, which runs `_externref_finalizer`. */
  datatype Event =
    | Extern(obj: Obj, idx: nat, nativeOk: bool)
    | AddRoot(h: nat)
    | DropRoot(h: nat)
    | Collect(h: nat)

  /** The effect of an event.  Whoever holds a root in `keep` has not given it up, so native code
      drops only the further roots it took itself.  What cannot happen has no effect. */
  function Foreign(st: Store, ev: Event, keep: set<nat>): (st': Store) {
    match ev
    case Extern(obj, idx, nativeOk) =>
      if idx in st.live then st else NewRaw(st, Val(ExternRef, false, obj), idx, nativeOk).1
    case AddRoot(h) =>
      if h in st.refs then WithRoots(st, h, st.refs[h].roots + 1) else st
    case DropRoot(h) =>
      if h in st.refs && st.refs[h].roots > (if h in keep then 1 else 0) then
        WithRoots(st, h, st.refs[h].roots - 1)
      else st
    case Collect(h) =>
      if h in st.refs && st.refs[h].roots == 0 && st.refs[h].externId > 0 then
        st.(live := st.live - {st.refs[h].externId - 1}, refs := st.refs - {h})
      else st
  }

  function ForeignRun(st: Store, evs: seq<Event>, keep: set<nat>): (st': Store)
    decreases |evs|
  {
    if evs == [] then st
    else Foreign(ForeignRun(st, evs[..|evs| - 1], keep), evs[|evs| - 1], keep)
  }

  /** What every event keeps: a good store, and what a kept root stands for. */
  ghost predicate Keeps(st: Store, ev: Event, keep: set<nat>, h: nat, o: Obj) {
    var st' := Foreign(st, ev, keep);
    Good(st') && (h in keep && Holds(st, h, o) ==> Holds(st', h, o))
  }

  lemma ExternKeeps(st: Store, obj: Obj, idx: nat, nativeOk: bool, keep: set<nat>, h: nat, o: Obj)
    requires Good(st)
    ensures Keeps(st, Extern(obj, idx, nativeOk), keep, h, o)
  {
    if idx !in st.live && obj != PyNone {
      NewExtern(st, obj, idx, nativeOk, h, o);
    }
  }

  lemma WithRootsGood(st: Store, h: nat, roots: nat)
    requires Good(st) && h in st.refs
    ensures Good(WithRoots(st, h, roots))
  {
  }

  lemma AddRootKeeps(st: Store, k: nat, keep: set<nat>, h: nat, o: Obj)
    requires Good(st)
    ensures Keeps(st, AddRoot(k), keep, h, o)
  {
    if k in st.refs {
      WithRootsGood(st, k, st.refs[k].roots + 1);
    }
  }

  lemma DropRootKeeps(st: Store, k: nat, keep: set<nat>, h: nat, o: Obj)
    requires Good(st)
    ensures Keeps(st, DropRoot(k), keep, h, o)
  {
    if k in st.refs && st.refs[k].roots > 0 {
      WithRootsGood(st, k, st.refs[k].roots - 1);
    }
  }

  lemma CollectKeeps(st: Store, k: nat, keep: set<nat>, h: nat, o: Obj)
    requires Good(st)
    ensures Keeps(st, Collect(k), keep, h, o)
  {
  }

  lemma ForeignKeeps(st: Store, ev: Event, keep: set<nat>, h: nat, o: Obj)
    requires Good(st)
    ensures Keeps(st, ev, keep, h, o)
  {
    match ev
    case Extern(obj, idx, nativeOk) => ExternKeeps(st, obj, idx, nativeOk, keep, h, o);
    case AddRoot(k) => AddRootKeeps(st, k, keep, h, o);
    case DropRoot(k) => DropRootKeeps(st, k, keep, h, o);
    case Collect(k) => CollectKeeps(st, k, keep, h, o);
  }

  lemma {:induction false} ForeignRunKeeps(st: Store, evs: seq<Event>, keep: set<nat>, h: nat, o: Obj)
    requires Good(st)
    ensures Good(ForeignRun(st, evs, keep))
    ensures h in keep && Holds(st, h, o) ==> Holds(ForeignRun(st, evs, keep), h, o)
    decreases |evs|
  {
    if evs != [] {
      var n := |evs| - 1;
      ForeignRunKeeps(st, evs[..n], keep, h, o);
      ForeignKeeps(ForeignRun(st, evs[..n], keep), evs[n], keep, h, o);
    }
  }

  const INIT := Store(map[], map[], 0, map[])

  /** In every history of interning, rooting and collecting, the data pointers of the references
      that exist are nonzero and pairwise different. */
  lemma EveryRunKeepsIdsApart(evs: seq<Event>, h: nat, h': nat)
    requires var refs := ForeignRun(INIT, evs, {}).refs; h in refs && h' in refs && h != h'
    ensures var refs := ForeignRun(INIT, evs, {}).refs;
            refs[h].externId != 0 && refs[h].externId != refs[h'].externId
  {
    ForeignRunKeeps(INIT, evs, {}, h, PyNone);
  }

  /** A live slot that no reference names. */
  ghost predicate Orphan(st: Store, i: nat) {
    i in st.live && forall h | h in st.refs :: Slot(st.refs[h]) != i
  }

  /** The `j`th event interns an object at `i` and then fails to make a reference for it. */
  ghost predicate FailsAt(st: Store, evs: seq<Event>, keep: set<nat>, j: nat, i: nat)
    requires j < |evs|
  {
    && evs[j].Extern? && evs[j].obj != PyNone && evs[j].idx == i && !evs[j].nativeOk
    && i !in ForeignRun(st, evs[..j], keep).live
  }

  lemma OrphanStep(st: Store, ev: Event, keep: set<nat>, i: nat)
    requires Good(st)
    ensures Orphan(Foreign(st, ev, keep), i) <==>
            || Orphan(st, i)
            || (ev.Extern? && ev.obj != PyNone && ev.idx == i && !ev.nativeOk && i !in st.live)
  {
    var st' := Foreign(st, ev, keep);
    match ev
    case Extern(obj, idx, nativeOk) => ExternOrphans(st, obj, idx, nativeOk, keep, i);
    case AddRoot(h) => RootsOrphans(st, ev, keep, i);
    case DropRoot(h) => RootsOrphans(st, ev, keep, i);
    case Collect(h) => CollectOrphans(st, h, keep, i);
  }

  lemma ExternOrphans(st: Store, obj: Obj, idx: nat, nativeOk: bool, keep: set<nat>, i: nat)
    requires Good(st)
    ensures Orphan(Foreign(st, Extern(obj, idx, nativeOk), keep), i) <==>
            Orphan(st, i) || (obj != PyNone && idx == i && !nativeOk && i !in st.live)
  {
    var st' := Foreign(st, Extern(obj, idx, nativeOk), keep);
    assert forall h | h in st.refs :: h in st'.refs && st'.refs[h] == st.refs[h];
    if idx !in st.live && obj != PyNone && nativeOk {
      assert st.made in st'.refs && Slot(st'.refs[st.made]) == idx;
    }
  }

  lemma RootsOrphans(st: Store, ev: Event, keep: set<nat>, i: nat)
    requires ev.AddRoot? || ev.DropRoot?
    ensures Orphan(Foreign(st, ev, keep), i) <==> Orphan(st, i)
  {
    var st' := Foreign(st, ev, keep);
    assert st'.refs.Keys == st.refs.Keys;
    assert forall h | h in st.refs :: Slot(st'.refs[h]) == Slot(st.refs[h]);
  }

  lemma CollectOrphans(st: Store, h: nat, keep: set<nat>, i: nat)
    requires Good(st)
    ensures Orphan(Foreign(st, Collect(h), keep), i) <==> Orphan(st, i)
  {
    var st' := Foreign(st, Collect(h), keep);
    if st' != st {
      assert forall k | k in st.refs && k != h :: k in st'.refs && st'.refs[k] == st.refs[k];
    }
  }

  /** In every history, a live slot is without a reference, and so never freed, if and only if an object was
      interned there and the native store then refused to make the reference. */
  lemma {:induction false} OrphanIffFailed(evs: seq<Event>, keep: set<nat>, i: nat)
    ensures Orphan(ForeignRun(INIT, evs, keep), i) <==> exists j :: 0 <= j < |evs| && FailsAt(INIT, evs, keep, j, i)
    decreases |evs|
  {
    if evs != [] {
      var n := |evs| - 1;
      var before := evs[..n];
      OrphanIffFailed(before, keep, i);
      ForeignRunKeeps(INIT, before, keep, 0, PyNone);
      OrphanStep(ForeignRun(INIT, before, keep), evs[n], keep, i);
      assert forall j | 0 <= j < n :: before[..j] == evs[..j] && before[j] == evs[j];
      assert forall j | 0 <= j < n :: FailsAt(INIT, before, keep, j, i) <==> FailsAt(INIT, evs, keep, j, i);
      if j :| 0 <= j < |before| && FailsAt(INIT, before, keep, j, i) {
        assert FailsAt(INIT, evs, keep, j, i);
      }
      if FailsAt(INIT, evs, keep, n, i) {
        assert 0 <= n < |evs|;
      }
      if j :| 0 <= j < |evs| && FailsAt(INIT, evs, keep, j, i) {
        assert j < n ==> FailsAt(INIT, before, keep, j, i);
      }
    }
  }

  /** Collecting an unrooted reference frees its slot, and no other. */
  lemma CollectFrees(st: Store, h: nat, keep: set<nat>)
    requires Good(st) && h in st.refs && st.refs[h].roots == 0
    ensures var st', i := Foreign(st, Collect(h), keep), Slot(st.refs[h]);
            && i in st.live && i !in st'.live && |st'.live| == |st.live| - 1
            && (forall j | j in st.live && j != i :: j in st'.live && st'.live[j] == st.live[j])
            && h !in st'.refs
            && (forall k | k in st.refs && k != h :: k in st'.refs && st'.refs[k] == st.refs[k])
  {
    var i := Slot(st.refs[h]);
    assert st.live.Keys == (st.live - {i}).Keys + {i};
    assert |st.live.Keys| == |(st.live - {i}).Keys| + 1;
  }

  /** In every history a live slot belongs to exactly one reference that has not been collected, or is one
      that no reference was ever made for. */
  lemma SlotBelongs(evs: seq<Event>, keep: set<nat>, i: nat) returns (h: nat)
    requires i in ForeignRun(INIT, evs, keep).live
    ensures var st := ForeignRun(INIT, evs, keep);
            || (exists j :: 0 <= j < |evs| && FailsAt(INIT, evs, keep, j, i))
            || (h in st.refs && Slot(st.refs[h]) == i && forall k | k in st.refs && Slot(st.refs[k]) == i :: k == h)
  {
    var st := ForeignRun(INIT, evs, keep);
    ForeignRunKeeps(INIT, evs, keep, 0, PyNone);
    OrphanIffFailed(evs, keep, i);
    h := 0;
    if k :| k in st.refs && Slot(st.refs[k]) == i {
      h := k;
    }
  }

  function Collecting(hs: seq<nat>): (evs: seq<Event>)
    ensures |evs| == |hs|
  {
    seq(|hs|, n requires 0 <= n < |hs| => Collect(hs[n]))
  }

  /** Collecting some unrooted references frees exactly their slots. */
  lemma {:induction false} CollectingFrees(st: Store, hs: seq<nat>, i: nat)
    requires Good(st) && forall h | h in hs :: h in st.refs && st.refs[h].roots == 0
    ensures var st' := ForeignRun(st, Collecting(hs), {});
            && Good(st') && st'.refs == st.refs - (set h | h in hs)
            && (i in st'.live <==> i in st.live && !SlotOfAny(st, hs, i))
    decreases |hs|
  {
    if hs != [] {
      var n := |hs| - 1;
      CollectingFrees(st, hs[..n], i);
      assert Collecting(hs)[..n] == Collecting(hs[..n]) && hs == hs[..n] + [hs[n]];
      CollectOneMore(st, ForeignRun(st, Collecting(hs[..n]), {}), hs[..n], hs[n], i);
    }
  }

  ghost predicate SlotOfAny(st: Store, hs: seq<nat>, i: nat) {
    exists h :: h in hs && h in st.refs && Slot(st.refs[h]) == i
  }

  lemma SlotOfMore(st: Store, hs: seq<nat>, h: nat, i: nat)
    requires h in st.refs
    ensures SlotOfAny(st, hs + [h], i) <==> SlotOfAny(st, hs, i) || Slot(st.refs[h]) == i
  {
    if k :| k in hs && k in st.refs && Slot(st.refs[k]) == i {
      assert k in hs + [h];
    }
    assert h in hs + [h];
  }

  lemma CollectOneMore(st: Store, st1: Store, hs: seq<nat>, h: nat, i: nat)
    requires Good(st1) && st1.refs == st.refs - (set k | k in hs) && h in st.refs && st.refs[h].roots == 0
    requires i in st1.live <==> i in st.live && !SlotOfAny(st, hs, i)
    ensures var st' := Foreign(st1, Collect(h), {});
            && Good(st') && st'.refs == st.refs - (set k | k in hs + [h])
            && (i in st'.live <==> i in st.live && !SlotOfAny(st, hs + [h], i))
  {
    hide Foreign, Good;
    CollectKeeps(st1, h, {}, 0, PyNone);
    SlotOfMore(st, hs, h, i);
    if h in hs {
      assert h !in st1.refs;
      CollectNothing(st1, h);
      assert (set k | k in hs + [h]) == set k | k in hs;
    } else {
      assert h in st1.refs;
      CollectFrees(st1, h, {});
      CollectedRefs(st1, h);
      assert st1.refs - {h} == st.refs - (set k | k in hs + [h]);
    }
  }

  lemma CollectNothing(st: Store, h: nat)
    requires h !in st.refs
    ensures Foreign(st, Collect(h), {}) == st
  {
  }

  lemma CollectedRefs(st: Store, h: nat)
    requires Good(st) && h in st.refs && st.refs[h].roots == 0
    ensures Foreign(st, Collect(h), {}).refs == st.refs - {h}
    ensures Foreign(st, Collect(h), {}).live == st.live - {Slot(st.refs[h])}
  {
  }

  /** So collecting them all leaves only the slots that have been lost. */
  lemma CollectingLeavesOrphans(st: Store, hs: seq<nat>, i: nat)
    requires Good(st) && (forall h | h in st.refs :: st.refs[h].roots == 0) && forall h :: h in hs <==> h in st.refs
    ensures ForeignRun(st, Collecting(hs), {}).refs == map[]
    ensures i in ForeignRun(st, Collecting(hs), {}).live <==> Orphan(st, i)
  {
    CollectingFrees(st, hs, i);
  }

  /** One such event is enough. */
  lemma OrphanIsReachable(obj: Obj)
    requires obj != PyNone
    ensures Orphan(ForeignRun(INIT, [Extern(obj, 0, false)], {}), 0)
  {
    var evs := [Extern(obj, 0, false)];
    assert evs[..0] == [] && ForeignRun(INIT, evs[..0], {}) == INIT;
    assert FailsAt(INIT, evs, {}, 0, 0);
    OrphanIffFailed(evs, {}, 0);
  }

  /** The references a raw value keeps alive. */
  function Handles(raw: Raw): set<nat> {
    if raw.RawExtern? then {raw.handle} else {}
  }

  /** Converting fails exactly when it should, and otherwise, whatever is interned, rooted or
      collected before the value is read back, what comes back is the same object or function,
      null, the float at its precision, or the integer wrapped to its signed width. */
  lemma RoundTrip(st: Store, ty: ValType, arg: Arg, idx: nat, nativeOk: bool, evs: seq<Event>, owned: bool)
    requires Good(st) && idx !in st.live
    ensures var (r, st1) := ConvertToRaw(st, ty, arg, idx, nativeOk);
            && (Expected(ty, arg).Err? ==> r == Err(Expected(ty, arg).error) && st1 == st)
            && (Expected(ty, arg).Ok? && nativeOk ==> r.Ok?)
            && (r.Ok? ==>
                  var st2 := ForeignRun(st1, evs, Handles(r.value));
                  && Expected(ty, arg).Ok?
                  && Usable(st2, r.value)
                  && FromRaw(st2, r.value, owned).0.Ok?
                  && FromRaw(st2, r.value, owned).0.value.val == Expected(ty, arg).value)
  {
    ConvertKeeps(st, ty, arg, idx, nativeOk, 0, PyNone);
    var (r, st1) := ConvertToRaw(st, ty, arg, idx, nativeOk);
    if r.Ok? && r.value.RawExtern? {
      ForeignRunKeeps(st1, evs, Handles(r.value), r.value.handle, Expected(ty, arg).value);
    }
  }

  /** What comes back also has the kind that was sent. */
  lemma KindKept(st: Store, ty: ValType, arg: Arg, idx: nat, nativeOk: bool, st2: Store, owned: bool)
    requires ConvertToRaw(st, ty, arg, idx, nativeOk).0.Ok?
    requires Usable(st2, ConvertToRaw(st, ty, arg, idx, nativeOk).0.value)
    ensures var v := FromRaw(st2, ConvertToRaw(st, ty, arg, idx, nativeOk).0.value, owned).0;
            v.Ok? && ToVal(ty, arg).Ok? && v.value.kind == ToVal(ty, arg).value.kind
  {
  }

  /** Reading a value takes one root from its reference if the caller owns it, and none otherwise. */
  lemma ReadRoots(st: Store, raw: Raw, owned: bool, h: nat)
    requires Usable(st, raw)
    ensures var (v, st') := FromRaw(st, raw, owned);
            && (v.Err? <==> raw == RawOther) && st'.live == st.live
            && Roots(st', h) == Roots(st, h) - (if owned && raw == RawExtern(h) then 1 else 0)
            && (!owned ==> st' == st)
  {
  }

  /** What events do to roots: a reference begins with one, each event adds or takes one, and what is kept is
      never without. */
  lemma EventRoots(st: Store, ev: Event, keep: set<nat>, h: nat)
    requires Good(st)
    ensures var st' := Foreign(st, ev, keep);
            Roots(st', h) ==
            match ev
            case Extern(obj, idx, nativeOk) =>
              if h == st.made && h in st'.refs then 1 else Roots(st, h)
            case AddRoot(k) => if k == h && h in st.refs then Roots(st, h) + 1 else Roots(st, h)
            case DropRoot(k) =>
              if k == h && Roots(st, h) > (if h in keep then 1 else 0) then Roots(st, h) - 1 else Roots(st, h)
            case Collect(k) => Roots(st, h)
  {
  }

  /** Which `Val` objects convert: those of the type asked for, with a payload of that type, that a
      constructor made. */
  lemma WrappedConvertsIff(st: Store, ty: ValType, v: Val, idx: nat, nativeOk: bool)
    ensures ConvertToRaw(st, ty, Wrapped(v), idx, nativeOk).0.Ok? <==>
            && !v.plainKind && v.kind == ty != Other
            && (ty in {I32, I64} ==> IsInt(v.val))
            && (ty in {F32, F64} ==> v.val.Float?)
            && (ty == FuncRef ==> v.val == PyNone || v.val.Func?)
            && (ty == ExternRef ==> v.val == PyNone || nativeOk)
  {
  }

  /** So one that `_from_raw` made never does, at any type, while its `value` converts again to what stands
      for the same object. */
  lemma FromRawNotReusable(st: Store, raw: Raw, owned: bool, ty: ValType, idx: nat, nativeOk: bool)
    requires Usable(st, raw) && FromRaw(st, raw, owned).0.Ok?
    ensures var v := FromRaw(st, raw, owned).0.value;
            && ConvertToRaw(st, ty, Wrapped(v), idx, nativeOk).0 == Err(AttributeError)
            && (InRange(raw) ==> Expected(v.kind, Native(v.val)) == Ok(v.val))
  {
    WrappedConvertsIff(st, ty, FromRaw(st, raw, owned).0.value, idx, nativeOk);
  }

  /** A native value's integer fits its field. */
  predicate InRange(raw: Raw) {
    match raw
    case RawI32(n) => -0x8000_0000 <= n < 0x8000_0000
    case RawI64(n) => -0x8000_0000_0000_0000 <= n < 0x8000_0000_0000_0000
    case _ => true
  }

  // ----- `Func.__call__` and the roots of its parameters

  datatype Param = Param(ty: ValType, arg: Arg, idx: nat, nativeOk: bool)

  datatype Filled = Filled(raws: seq<Raw>, error: Option<Error>, st: Store)

  /** `params_ptr` filled from left to right, up to the first parameter that does not convert. */
  function ConvertAll(st: Store, params: seq<Param>): (f: Filled)
    decreases |params|
  {
    if params == [] then Filled([], None, st)
    else
      var f := ConvertAll(st, params[..|params| - 1]);
      if f.error.Some? then f
      else
        var p := params[|params| - 1];
        var (r, st1) := ConvertToRaw(f.st, p.ty, p.arg, p.idx, p.nativeOk);
        if r.Err? then Filled(f.raws, Some(r.error), st1) else Filled(f.raws + [r.value], None, st1)
  }

  /** Each parameter's index is one the slab could hand out when its turn comes. */
  ghost predicate Allocatable(st: Store, params: seq<Param>) {
    forall n | 0 <= n < |params| :: params[n].idx !in ConvertAll(st, params[..n]).st.live
  }

  function AllHandles(raws: seq<Raw>): set<nat> {
    set raw | raw in raws && raw.RawExtern? :: raw.handle
  }

  function UnrootAll(st: Store, raws: seq<Raw>): (st': Store)
    decreases |raws|
  {
    if raws == [] then st else Unroot(UnrootAll(st, raws[..|raws| - 1]), raws[|raws| - 1])
  }

  /** The references that `params_ptr` holds are new, pairwise different, and rooted once; all others
      are as before. */
  ghost predicate FreshRoots(st: Store, f: Filled) {
    && (forall i | 0 <= i < |f.raws| && f.raws[i].RawExtern? ::
          f.raws[i].handle >= st.made && f.raws[i].handle in f.st.refs && f.st.refs[f.raws[i].handle].roots == 1)
    && (forall i, j | 0 <= i < j < |f.raws| && f.raws[i].RawExtern? && f.raws[j].RawExtern? ::
          f.raws[i].handle != f.raws[j].handle)
    && (forall h | h in st.refs :: h in f.st.refs && f.st.refs[h] == st.refs[h])
    && (forall h | h in f.st.refs && h !in st.refs :: h in AllHandles(f.raws))
    && st.made <= f.st.made
  }

  lemma {:induction false} ConvertAllRoots(st: Store, params: seq<Param>)
    requires Good(st) && Allocatable(st, params)
    ensures Good(ConvertAll(st, params).st) && FreshRoots(st, ConvertAll(st, params))
    decreases |params|
  {
    if params != [] {
      var n := |params| - 1;
      assert forall k | 0 <= k < n :: params[..n][..k] == params[..k];
      ConvertAllRoots(st, params[..n]);
      ConvertLast(st, ConvertAll(st, params[..n]), params[n]);
    }
  }

  /** The first `k` parameters are converted, to what stands for the objects expected, and then either there
      are no more, or the next one does not convert, none after it is tried, and the error is its. */
  ghost predicate ConvertedUpTo(st: Store, params: seq<Param>, f: Filled, k: nat) {
    && Good(f.st) && k == |f.raws| <= |params| && (f.error.None? <==> k == |params|)
    && (forall i | 0 <= i < k :: StandsFor(f.st, f.raws[i], params[i]))
    && (k < |params| ==> f == ConvertAll(st, params[..k + 1]) && f.error == Some(ErrorOf(params[k])))
  }

  lemma {:induction false} ConvertsUpTo(st: Store, params: seq<Param>) returns (k: nat)
    requires Good(st) && Allocatable(st, params)
    ensures ConvertedUpTo(st, params, ConvertAll(st, params), k)
    decreases |params|
  {
    if params == [] {
      k := 0;
    } else {
      hide Allocatable, ConvertAll, Good, StandsFor;
      var n := |params| - 1;
      PrefixAllocatable(st, params, n);
      k := ConvertsUpTo(st, params[..n]);
      var f := ConvertAll(st, params[..n]);
      if f.error.None? {
        k := ConvertedNext(st, params, f);
      } else {
        ConvertStops(st, params);
        assert params[..n][..k + 1] == params[..k + 1];
      }
    }
  }

  lemma ConvertStops(st: Store, params: seq<Param>)
    requires params != [] && ConvertAll(st, params[..|params| - 1]).error.Some?
    ensures ConvertAll(st, params) == ConvertAll(st, params[..|params| - 1])
  {
  }

  lemma PrefixAllocatable(st: Store, params: seq<Param>, n: nat)
    requires Allocatable(st, params) && n < |params|
    ensures Allocatable(st, params[..n]) && params[n].idx !in ConvertAll(st, params[..n]).st.live
  {
    assert forall j | 0 <= j <= n :: params[..n][..j] == params[..j];
  }

  lemma ConvertedNext(st: Store, params: seq<Param>, f: Filled) returns (k: nat)
    requires params != [] && f == ConvertAll(st, params[..|params| - 1]) && f.error.None?
    requires ConvertedUpTo(st, params[..|params| - 1], f, |params| - 1)
    requires params[|params| - 1].idx !in f.st.live
    ensures ConvertedUpTo(st, params, ConvertAll(st, params), k)
  {
    hide ConvertToRaw, ErrorOf, Good, StandsFor;
    var n := |params| - 1;
    var p := params[n];
    assert forall i | 0 <= i < n :: params[..n][i] == params[i];
    ConvertsNext(f, params[..n], p);
    assert params[..n + 1] == params;
    k := if ConvertToRaw(f.st, p.ty, p.arg, p.idx, p.nativeOk).0.Ok? then n + 1 else n;
  }

  ghost predicate StandsFor(st: Store, raw: Raw, p: Param) {
    Expected(p.ty, p.arg).Ok? && Stands(st, raw, Expected(p.ty, p.arg).value)
  }

  /** Why a parameter does not convert: for what it is, or else because no reference can be made. */
  ghost function ErrorOf(p: Param): Error {
    var e := Expected(p.ty, p.arg);
    if e.Err? then e.error else WasmtimeError
  }

  lemma ConvertsNext(f: Filled, params: seq<Param>, p: Param)
    requires Good(f.st) && p.idx !in f.st.live && |f.raws| == |params|
    requires forall i | 0 <= i < |f.raws| :: StandsFor(f.st, f.raws[i], params[i])
    ensures var (r, st1) := ConvertToRaw(f.st, p.ty, p.arg, p.idx, p.nativeOk);
            && Good(st1)
            && (r.Ok? ==> StandsFor(st1, r.value, p)) && (r.Err? ==> r.error == ErrorOf(p))
            && forall i | 0 <= i < |f.raws| :: StandsFor(st1, f.raws[i], params[i])
  {
    var (r, st1) := ConvertToRaw(f.st, p.ty, p.arg, p.idx, p.nativeOk);
    ConvertKeeps(f.st, p.ty, p.arg, p.idx, p.nativeOk, 0, PyNone);
    if r.Err? && Expected(p.ty, p.arg).Ok? {
      ConvertFails(f.st, p.ty, p.arg, p.idx, p.nativeOk);
    }
    forall i | 0 <= i < |f.raws|
      ensures StandsFor(st1, f.raws[i], params[i])
    {
      assert StandsFor(f.st, f.raws[i], params[i]);
      if f.raws[i].RawExtern? {
        var o := Expected(params[i].ty, params[i].arg).value;
        ConvertKeeps(f.st, p.ty, p.arg, p.idx, p.nativeOk, f.raws[i].handle, o);
      }
    }
  }

  lemma ConvertFails(st: Store, ty: ValType, arg: Arg, idx: nat, nativeOk: bool)
    requires Expected(ty, arg).Ok? && ConvertToRaw(st, ty, arg, idx, nativeOk).0.Err?
    ensures ConvertToRaw(st, ty, arg, idx, nativeOk).0 == Err(WasmtimeError) && !nativeOk
  {
    DispatchAsExpected(st, ty, arg, idx, nativeOk);
  }

  lemma ConvertLast(st: Store, f: Filled, p: Param)
    requires Good(f.st) && FreshRoots(st, f) && p.idx !in f.st.live
    ensures var (r, st1) := ConvertToRaw(f.st, p.ty, p.arg, p.idx, p.nativeOk);
            && Good(st1)
            && FreshRoots(st, if r.Err? then Filled(f.raws, Some(r.error), st1)
                              else Filled(f.raws + [r.value], None, st1))
  {
    ConvertKeeps(f.st, p.ty, p.arg, p.idx, p.nativeOk, 0, PyNone);
    ConvertMakes(f.st, p.ty, p.arg, p.idx, p.nativeOk);
    var (r, st1) := ConvertToRaw(f.st, p.ty, p.arg, p.idx, p.nativeOk);
    if r.Ok? {
      ExtendRoots(st, f, r.value, st1, Ref(p.idx + 1, 1));
    }
  }

  /** Converting a value makes at most one reference, the value itself, rooted once. */
  lemma ConvertMakes(st: Store, ty: ValType, arg: Arg, idx: nat, nativeOk: bool)
    ensures var (r, st') := ConvertToRaw(st, ty, arg, idx, nativeOk);
            if r.Ok? && r.value.RawExtern? then
              r.value.handle == st.made && st'.refs == st.refs[st.made := Ref(idx + 1, 1)] && st'.made == st.made + 1
            else
              st'.refs == st.refs && st'.made == st.made
  {
  }

  lemma AppendHandles(raws: seq<Raw>, raw: Raw)
    ensures AllHandles(raws + [raw]) == AllHandles(raws) + Handles(raw)
  {
    assert (raws + [raw])[|raws|] == raw;
  }

  lemma ExtendRoots(st: Store, f: Filled, raw: Raw, st1: Store, ref: Ref)
    requires (forall h | h in f.st.refs :: h < f.st.made) && FreshRoots(st, f) && ref.roots == 1
    requires if raw.RawExtern?
             then raw.handle == f.st.made && st1.refs == f.st.refs[f.st.made := ref] && st1.made == f.st.made + 1
             else st1.refs == f.st.refs && st1.made == f.st.made
    ensures FreshRoots(st, Filled(f.raws + [raw], None, st1))
  {
    var raws := f.raws + [raw];
    AppendHandles(f.raws, raw);
    forall i, j | 0 <= i <= j < |raws| && raws[i].RawExtern? && raws[j].RawExtern?
      ensures raws[i].handle >= st.made && raws[i].handle in st1.refs && st1.refs[raws[i].handle].roots == 1
      ensures i < j ==> raws[i].handle != raws[j].handle
    {
      if i < |f.raws| {
        assert raws[i] == f.raws[i];
      }
      if j < |f.raws| {
        assert raws[j] == f.raws[j];
      }
    }
  }

  /** How often `h` is rooted. */
  ghost function Roots(st: Store, h: nat): int {
    if h in st.refs then st.refs[h].roots else 0
  }

  /** Unrooting distinct rooted references takes exactly one root from each of them and none from
      any other. */
  lemma {:induction false} UnrootAllOnce(st: Store, raws: seq<Raw>, h: nat)
    requires forall i | 0 <= i < |raws| :: Usable(st, raws[i])
    requires forall i, j | 0 <= i < j < |raws| && raws[i].RawExtern? && raws[j].RawExtern? ::
               raws[i].handle != raws[j].handle
    ensures UnrootAll(st, raws).refs.Keys == st.refs.Keys
    ensures Roots(UnrootAll(st, raws), h) == Roots(st, h) - if h in AllHandles(raws) then 1 else 0
    decreases |raws|
  {
    if raws != [] {
      var n := |raws| - 1;
      UnrootAllOnce(st, raws[..n], h);
      assert raws == raws[..n] + [raws[n]];
      AppendHandles(raws[..n], raws[n]);
      if raws[n].RawExtern? {
        UnrootAllOnce(st, raws[..n], raws[n].handle);
        assert raws[n].handle !in AllHandles(raws[..n]);
      }
    }
  }

  // ----- results

  /** What native code puts in a result: a plain value, or a reference, which it roots for the caller. */
  datatype Ret = Plain(raw: Raw) | Reference(h: nat)

  function ReturnOne(st: Store, ret: Ret): (r: (Raw, Store)) {
    match ret
    case Plain(raw) => (if raw.RawExtern? then RawNullExtern else raw, st)
    case Reference(h) =>
      if h in st.refs then (RawExtern(h), WithRoots(st, h, st.refs[h].roots + 1)) else (RawNullExtern, st)
  }

  function ReturnAll(st: Store, rets: seq<Ret>): (r: (seq<Raw>, Store))
    decreases |rets|
  {
    if rets == [] then ([], st)
    else
      var (raws, st1) := ReturnAll(st, rets[..|rets| - 1]);
      var (raw, st2) := ReturnOne(st1, rets[|rets| - 1]);
      (raws + [raw], st2)
  }

  /** The object that a raw value is read as. */
  function ReadBack(st: Store, raw: Raw): Obj {
    match raw
    case RawI32(n) => Int(n)
    case RawI64(n) => Int(n)
    case RawF32(near) => Float(near, 0)
    case RawF64(near, which) => Float(near, which)
    case RawExtern(h) =>
      if h in st.refs && st.refs[h].externId > 0 then Unintern(st, st.refs[h].externId) else PyNone
    case RawFunc(id) => Func(id)
    case _ => PyNone
  }

  datatype Decoded = Decoded(values: seq<Obj>, ok: bool, st: Store)

  /** The loop that reads the results, up to the first one of an unknown kind. */
  function DecodeAll(st: Store, raws: seq<Raw>): (d: Decoded)
    decreases |raws|
  {
    if raws == [] then Decoded([], true, st) else DecodeOne(DecodeAll(st, raws[..|raws| - 1]), raws[|raws| - 1])
  }

  function DecodeOne(d: Decoded, raw: Raw): (d': Decoded) {
    if !d.ok || !Usable(d.st, raw) then d.(ok := false)
    else
      var (v, st1) := FromRaw(d.st, raw, true);
      if v.Err? then Decoded(d.values, false, st1) else Decoded(d.values + [v.value.val], true, st1)
  }

  /** How often `h` occurs in raw values. */
  function CountOf(raws: seq<Raw>, h: nat): nat {
    if raws == [] then 0
    else CountOf(raws[..|raws| - 1], h) + if raws[|raws| - 1] == RawExtern(h) then 1 else 0
  }

  lemma {:induction false} CountAppend(a: seq<Raw>, b: seq<Raw>, h: nat)
    ensures CountOf(a + b, h) == CountOf(a, h) + CountOf(b, h)
    decreases |b|
  {
    if b == [] {
      assert a + b == a;
    } else {
      assert (a + b)[..|a + b| - 1] == a + b[..|b| - 1];
      CountAppend(a, b[..|b| - 1], h);
    }
  }

  lemma CountSplit(raws: seq<Raw>, k: nat, h: nat)
    requires k <= |raws|
    ensures CountOf(raws, h) == CountOf(raws[..k], h) + CountOf(raws[k..], h)
  {
    assert raws == raws[..k] + raws[k..];
    CountAppend(raws[..k], raws[k..], h);
  }

  /** Only roots differ. */
  ghost predicate SameObjects(st: Store, st': Store) {
    && st'.live == st.live && st'.refs.Keys == st.refs.Keys
    && forall h | h in st.refs :: st'.refs[h].externId == st.refs[h].externId
  }

  lemma {:induction false} ReturnAllRoots(st: Store, rets: seq<Ret>, h: nat)
    ensures var (raws, st') := ReturnAll(st, rets);
            && |raws| == |rets| && SameObjects(st, st')
            && Roots(st', h) == Roots(st, h) + CountOf(raws, h)
    decreases |rets|
  {
    if rets != [] {
      ReturnAllRoots(st, rets[..|rets| - 1], h);
      var (raws, st1) := ReturnAll(st, rets[..|rets| - 1]);
      var raw := ReturnOne(st1, rets[|rets| - 1]).0;
      assert (raws + [raw])[..|raws|] == raws;
    }
  }

  lemma {:induction false} UnrootAllSame(st: Store, raws: seq<Raw>)
    ensures SameObjects(st, UnrootAll(st, raws))
    decreases |raws|
  {
    if raws != [] {
      UnrootAllSame(st, raws[..|raws| - 1]);
    }
  }

  /** Every result comes with a root of its own. */
  ghost predicate Enough(st: Store, raws: seq<Raw>) {
    forall h :: CountOf(raws, h) <= Roots(st, h)
  }

  /** `d` is the outcome of reading the first `n` results: it stops at the first of an unknown kind, if any,
      takes one root for each reference before that, and changes nothing else. */
  ghost predicate ReadSoFar(st: Store, raws: seq<Raw>, d: Decoded, n: nat, h: nat)
    requires n <= |raws|
  {
    && SameObjects(st, d.st) && |d.values| <= n
    && (forall i | 0 <= i < |d.values| :: raws[i] != RawOther && d.values[i] == ReadBack(st, raws[i]))
    && (if d.ok then |d.values| == n else |d.values| < n && raws[|d.values|] == RawOther)
    && Roots(d.st, h) == Roots(st, h) - CountOf(raws[..|d.values|], h)
  }

  lemma {:induction false} DecodeAllRoots(st: Store, raws: seq<Raw>, n: nat, h: nat)
    requires Enough(st, raws) && n <= |raws|
    ensures ReadSoFar(st, raws, DecodeAll(st, raws[..n]), n, h)
    decreases n, 0
  {
    if n > 0 {
      DecodeAllRoots(st, raws, n - 1, h);
      assert raws[..n][..n - 1] == raws[..n - 1];
      var d := DecodeAll(st, raws[..n - 1]);
      if d.ok {
        DecodeUsable(st, raws, n - 1);
        DecodeNext(st, d, raws, n - 1, h);
      }
    }
  }

  lemma {:induction false} DecodeUsable(st: Store, raws: seq<Raw>, n: nat)
    requires Enough(st, raws) && n < |raws| && DecodeAll(st, raws[..n]).ok
    ensures Usable(DecodeAll(st, raws[..n]).st, raws[n])
    decreases n, 1
  {
    if raws[n].RawExtern? {
      var h := raws[n].handle;
      DecodeAllRoots(st, raws, n, h);
      assert raws[..n + 1][..n] == raws[..n];
      CountSplit(raws, n + 1, h);
    }
  }

  lemma DecodeNext(st: Store, d: Decoded, raws: seq<Raw>, n: nat, h: nat)
    requires n < |raws| && ReadSoFar(st, raws, d, n, h) && d.ok && Usable(d.st, raws[n])
    ensures ReadSoFar(st, raws, DecodeOne(d, raws[n]), n + 1, h)
  {
    assert raws[..n + 1][..n] == raws[..n];
    ReadOne(st, d.st, raws[n], h);
  }

  lemma ReadOne(st: Store, st0: Store, raw: Raw, h: nat)
    requires SameObjects(st, st0) && Usable(st0, raw)
    ensures var (v, st1) := FromRaw(st0, raw, true);
            && (v.Err? <==> raw == RawOther)
            && (v.Err? ==> st1 == st0)
            && (v.Ok? ==>
                  && SameObjects(st, st1) && v.value.val == ReadBack(st, raw)
                  && Roots(st1, h) == Roots(st0, h) - if raw == RawExtern(h) then 1 else 0)
  {
  }

  // ----- the whole call

  /** `None`, the one result, or a list. */
  datatype Returned = Nothing | One(value: Obj) | List(values: seq<Obj>)

  function Shape(values: seq<Obj>): Returned {
    if |values| == 0 then Nothing else if |values| == 1 then One(values[0]) else List(values)
  }

  /** All the results, whatever their number. */
  function Results(r: Returned): seq<Obj> {
    match r
    case Nothing => []
    case One(value) => [value]
    case List(values) => values
  }

  /** No result is lost or changed, and a list is returned for two or more only. */
  lemma ShapeKeeps(values: seq<Obj>)
    ensures Results(Shape(values)) == values
    ensures (Shape(values).Nothing? <==> |values| == 0) && (Shape(values).One? <==> |values| == 1)
  {
  }

  /** The store when the native call returns. */
  function AfterNative(st: Store, params: seq<Param>, evs: seq<Event>): Store {
    var f := ConvertAll(st, params);
    if f.error.Some? then f.st else ForeignRun(f.st, evs, AllHandles(f.raws))
  }

  /** The `finally` clause and, unless something was raised, the results. */
  function Finish(st: Store, params: seq<Raw>, error: Option<Error>, results: seq<Raw>)
    : (r: (Result<Returned>, Store))
  {
    var st1 := UnrootAll(st, params);
    if error.Some? then (Err(error.value), st1)
    else
      var d := DecodeAll(st1, results);
      (if d.ok then Ok(Shape(d.values)) else Err(WasmtimeError), d.st)
  }

  /** `Func.__call__`: parameters converted; the native call, with whatever it does to the store, if they
      all did; the `finally` clause; and the results read, if the call returned any.  `outcome` is what the
      native call raises. */
  function WholeCall(st: Store, params: seq<Param>, evs: seq<Event>, outcome: Option<Error>, rets: seq<Ret>)
    : (r: (Result<Returned>, Store))
  {
    var f := ConvertAll(st, params);
    var left := AfterNative(st, params, evs);
    if f.error.Some? then Finish(left, f.raws, f.error, [])
    else if outcome.Some? then Finish(left, f.raws, outcome, [])
    else var (raws, st1) := ReturnAll(left, rets); Finish(st1, f.raws, None, raws)
  }

  /** The parameters' references are new, distinct and still rooted when the native call returns. */
  lemma ParamsRooted(st: Store, params: seq<Param>, evs: seq<Event>)
    requires Good(st) && Allocatable(st, params)
    ensures var f := ConvertAll(st, params);
            && FreshRoots(st, f)
            && forall i | 0 <= i < |f.raws| :: Usable(AfterNative(st, params, evs), f.raws[i])
  {
    ConvertAllRoots(st, params);
    var f := ConvertAll(st, params);
    forall i | 0 <= i < |f.raws|
      ensures Usable(AfterNative(st, params, evs), f.raws[i])
    {
      if f.raws[i].RawExtern? && f.error.None? {
        var k := f.raws[i].handle;
        assert k in AllHandles(f.raws);
        ForeignRunKeeps(f.st, evs, AllHandles(f.raws), k, Unintern(f.st, f.st.refs[k].externId));
      }
    }
  }

  /** One root is taken from each parameter's reference, whatever results have been rooted meanwhile. */
  lemma FinallyReleases(st: Store, params: seq<Param>, evs: seq<Event>, rets: seq<Ret>, h: nat)
    requires Good(st) && Allocatable(st, params)
    ensures var f := ConvertAll(st, params);
            var left := AfterNative(st, params, evs);
            var (raws, st1) := ReturnAll(left, rets);
            var st2 := UnrootAll(st1, f.raws);
            && Roots(st2, h) == Roots(left, h) + CountOf(raws, h) - (if h in AllHandles(f.raws) then 1 else 0)
            && (h in AllHandles(f.raws) ==> Roots(left, h) >= 1 && h >= st.made)
            && SameObjects(left, st2)
  {
    var f := ConvertAll(st, params);
    var left := AfterNative(st, params, evs);
    ParamsRooted(st, params, evs);
    var (raws, st1) := ReturnAll(left, rets);
    ReturnAllRoots(left, rets, h);
    forall i | 0 <= i < |f.raws|
      ensures Usable(st1, f.raws[i])
    {
      if f.raws[i].RawExtern? {
        ReturnAllRoots(left, rets, f.raws[i].handle);
      }
    }
    UnrootAllOnce(st1, f.raws, h);
    UnrootAllSame(st1, f.raws);
  }

  lemma ResultsRooted(st: Store, params: seq<Param>, evs: seq<Event>, rets: seq<Ret>)
    requires Good(st) && Allocatable(st, params)
    ensures var (raws, st1) := ReturnAll(AfterNative(st, params, evs), rets);
            Enough(UnrootAll(st1, ConvertAll(st, params).raws), raws)
  {
    var (raws, st1) := ReturnAll(AfterNative(st, params, evs), rets);
    forall h
      ensures CountOf(raws, h) <= Roots(UnrootAll(st1, ConvertAll(st, params).raws), h)
    {
      FinallyReleases(st, params, evs, rets, h);
    }
  }

  /** On every way out of the call each root it created is released exactly once.  If a parameter does not
      convert, all roots are what they were, those of the references made for earlier parameters zero.  If
      the native call raises, it is one root per parameter reference less than the native code left. */
  lemma CallReleasesRoots(st: Store, params: seq<Param>, evs: seq<Event>, outcome: Option<Error>, rets: seq<Ret>,
          h: nat)
    requires Good(st) && Allocatable(st, params)
    requires ConvertAll(st, params).error.Some? || outcome.Some?
    ensures var f := ConvertAll(st, params);
            var (r, end) := WholeCall(st, params, evs, outcome, rets);
            var left := if f.error.Some? then f.st else ForeignRun(f.st, evs, AllHandles(f.raws));
            && r == Err(if f.error.Some? then f.error.value else outcome.value)
            && (f.error.Some? ==> Roots(end, h) == Roots(st, h))
            && Roots(end, h) == Roots(left, h) - (if h in AllHandles(f.raws) then 1 else 0)
            && (h in AllHandles(f.raws) ==> Roots(left, h) >= 1 && h >= st.made)
  {
    ConvertAllRoots(st, params);
    FinallyReleases(st, params, evs, [], h);
  }

  /** If it returns, so is every root that came with a result, and the results are the objects that the
      native code returned.  The `k`th result is the first of an unknown kind, if any is: then the call
      raises, and keeps the roots of the results after it. */
  lemma CallReturns(st: Store, params: seq<Param>, evs: seq<Event>, rets: seq<Ret>, h: nat) returns (k: nat)
    requires Good(st) && Allocatable(st, params) && ConvertAll(st, params).error.None?
    ensures var f := ConvertAll(st, params);
            var (r, end) := WholeCall(st, params, evs, None, rets);
            var left := ForeignRun(f.st, evs, AllHandles(f.raws));
            var raws := ReturnAll(left, rets).0;
            && k <= |raws| == |rets| && (forall i | 0 <= i < k :: raws[i] != RawOther)
            && (k < |raws| ==> raws[k] == RawOther && r == Err(WasmtimeError))
            && (k == |raws| ==> r.Ok? && Results(r.value) == seq(k, i requires 0 <= i < k => ReadBack(left, raws[i])))
            && (r.Ok? ==> (r.value.Nothing? <==> k == 0) && (r.value.One? <==> k == 1))
            && Roots(end, h) == Roots(left, h) - (if h in AllHandles(f.raws) then 1 else 0) + CountOf(raws[k..], h)
  {
    var left := AfterNative(st, params, evs);
    var (raws, st1) := ReturnAll(left, rets);
    ReturnAllRoots(left, rets, h);
    FinallyReleases(st, params, evs, rets, h);
    ResultsRooted(st, params, evs, rets);
    var st2 := UnrootAll(st1, ConvertAll(st, params).raws);
    k := DecodedAre(left, st2, raws, h);
    ShapeKeeps(DecodeAll(st2, raws).values);
  }

  /** A result of an unknown kind before a reference leaves that reference rooted. */
  lemma UnknownKeepsRoot(st: Store, params: seq<Param>, evs: seq<Event>, h: nat)
    requires Good(st) && Allocatable(st, params) && ConvertAll(st, params).error.None?
    requires h in AfterNative(st, params, evs).refs && h !in AllHandles(ConvertAll(st, params).raws)
    ensures var (r, end) := WholeCall(st, params, evs, None, [Plain(RawOther), Reference(h)]);
            r == Err(WasmtimeError) && Roots(end, h) == Roots(AfterNative(st, params, evs), h) + 1
  {
    var left := AfterNative(st, params, evs);
    var rets := [Plain(RawOther), Reference(h)];
    assert rets[..1] == [Plain(RawOther)] && rets[..1][..0] == [];
    assert ReturnAll(left, rets[..1]) == ([] + [RawOther], left);
    var raws := ReturnAll(left, rets).0;
    assert raws == [RawOther, RawExtern(h)];
    var k := CallReturns(st, params, evs, rets, h);
    assert raws[0] == RawOther;
    assert k == 0 && raws[0..] == raws && raws[..1] == [RawOther] && raws[..1][..0] == [];
    assert CountOf(raws[..1], h) == 0;
  }

  lemma DecodedAre(left: Store, st: Store, raws: seq<Raw>, h: nat) returns (k: nat)
    requires SameObjects(left, st) && Enough(st, raws)
    ensures var d := DecodeAll(st, raws);
            && k <= |raws| && (forall i | 0 <= i < k :: raws[i] != RawOther)
            && (d.ok <==> k == |raws|) && (k < |raws| ==> raws[k] == RawOther)
            && d.values == seq(k, i requires 0 <= i < k => ReadBack(left, raws[i]))
            && Roots(d.st, h) == Roots(st, h) - CountOf(raws, h) + CountOf(raws[k..], h)
  {
    DecodeAllRoots(st, raws, |raws|, h);
    assert raws[..|raws|] == raws;
    var d := DecodeAll(st, raws);
    k := |d.values|;
    CountSplit(raws, k, h);
    assert forall i | 0 <= i < k :: ReadBack(left, raws[i]) == ReadBack(st, raws[i]);
  }

  // ----- the Python code

  /** `params` are the parameters tried, with the slab indices used. */
  ghost predicate Tried(params: seq<Param>, tys: seq<ValType>, args: seq<Arg>, oks: seq<bool>) {
    && |params| <= |args| == |tys| == |oks|
    && forall i | 0 <= i < |params| ::
         params[i].ty == tys[i] && params[i].arg == args[i] && params[i].nativeOk == oks[i]
  }

  lemma TriedNext(params: seq<Param>, tys: seq<ValType>, args: seq<Arg>, oks: seq<bool>, p: Param)
    requires Tried(params, tys, args, oks) && |params| < |args|
    requires p == Param(tys[|params|], args[|params|], p.idx, oks[|params|])
    ensures Tried(params + [p], tys, args, oks)
  {
  }

  /** The module's slab and the native store. */
  class Runtime {
    const slab: Slab
    var refs: map<nat, Ref>
    var made: nat
    ghost var owner: map<nat, nat>

    ghost function State(): Store
      reads this, slab
    {
      Store(slab.live, refs, made, owner)
    }

    ghost predicate Valid()
      reads this, slab
    {
      slab.Valid() && Good(State())
    }

    constructor ()
      ensures Valid() && fresh(slab) && State() == INIT
    {
      slab := new Slab();
      refs, made, owner := map[], 0, map[];
    }

    method InternObject(obj: Obj) returns (id: nat)
      requires slab.Valid()
      modifies slab
      ensures slab.Valid() && id > 0 && id - 1 !in old(slab.live)
      ensures (State(), id) == Intern(old(State()), obj, id - 1)
    {
      var idx := slab.AllocateSlot(obj);
      id := idx + 1;
    }

    method UninternObject(id: nat) returns (obj: Obj)
      requires slab.Valid() && id > 0 && id - 1 in slab.live
      ensures obj == Unintern(State(), id)
    {
      obj := slab.GetSlot(id - 1);
    }

    /** Runs when the store collects an unrooted reference. */
    method ExternrefFinalizer(h: nat)
      requires Valid() && h in refs && refs[h].roots == 0
      modifies this, slab
      ensures Valid() && State() == Foreign(old(State()), Collect(h), {})
    {
      CollectKeeps(State(), h, {}, h, PyNone);
      slab.DeallocateSlot(refs[h].externId - 1);
      refs := refs - {h};
    }

    method LowerVal(v: Val, nativeOk: bool) returns (r: Result<Raw>, ghost idx: nat)
      requires slab.Valid()
      modifies this, slab
      ensures slab.Valid() && idx !in old(slab.live)
      ensures (r, State()) == NewRaw(old(State()), v, idx, nativeOk)
    {
      idx := slab.FreshIndex();
      match v.kind {
        case I32 => r := if IsInt(v.val) then Ok(RawI32(Wrap32(IntOf(v.val)))) else Err(TypeError);
        case I64 => r := if IsInt(v.val) then Ok(RawI64(Wrap64(IntOf(v.val)))) else Err(TypeError);
        case F32 => r := if v.val.Float? then Ok(RawF32(v.val.near)) else Err(TypeError);
        case F64 => r := if v.val.Float? then Ok(RawF64(v.val.near, v.val.which)) else Err(TypeError);
        case ExternRef =>
          if v.val == PyNone {
            r := Ok(RawNullExtern);
          } else {
            var externId := InternObject(v.val);
            idx := externId - 1;
            if nativeOk {
              r := Ok(RawExtern(made));
              owner := owner[idx := made];
              refs, made := refs[made := Ref(externId, 1)], made + 1;
            } else {
              r := Err(WasmtimeError);
            }
          }
        case FuncRef =>
          r := if v.val == PyNone then Ok(RawNullFunc)
               else if v.val.Func? then Ok(RawFunc(v.val.id))
               else Err(AttributeError);
        case Other => r := Err(RuntimeError);
      }
    }

    method Lower(ty: ValType, arg: Arg, nativeOk: bool) returns (r: Result<Raw>, ghost idx: nat)
      requires Valid()
      modifies this, slab
      ensures Valid() && idx !in old(slab.live)
      ensures (r, State()) == ConvertToRaw(old(State()), ty, arg, idx, nativeOk)
    {
      var v := ToVal(ty, arg);
      if v.Err? {
        return Err(v.error), slab.FreshIndex();
      }
      r, idx := LowerVal(v.value, nativeOk);
      ConvertKeeps(old(State()), ty, arg, idx, nativeOk, 0, PyNone);
    }

    /** The native store's count of roots for `h`. */
    method SetRoots(h: nat, roots: nat)
      requires Valid() && h in refs
      modifies this
      ensures Valid() && State() == WithRoots(old(State()), h, roots)
    {
      WithRootsGood(State(), h, roots);
      refs := refs[h := refs[h].(roots := roots)];
    }

    method UnrootRaw(raw: Raw)
      requires Valid()
      modifies this
      ensures Valid() && State() == Unroot(old(State()), raw)
    {
      if raw.RawExtern? && raw.handle in refs && refs[raw.handle].roots > 0 {
        SetRoots(raw.handle, refs[raw.handle].roots - 1);
      }
    }

    method Lift(raw: Raw, owned: bool) returns (r: Result<Val>)
      requires Valid() && Usable(State(), raw)
      modifies this
      ensures Valid() && (r, State()) == FromRaw(old(State()), raw, owned)
    {
      match raw {
        case RawI32(n) => r := Ok(Val(I32, true, Int(n)));
        case RawI64(n) => r := Ok(Val(I64, true, Int(n)));
        case RawF32(near) => r := Ok(Val(F32, true, Float(near, 0)));
        case RawF64(near, which) => r := Ok(Val(F64, true, Float(near, which)));
        case RawExtern(handle) =>
          var externId := refs[handle].externId;
          var obj := PyNone;
          if externId != 0 {
            obj := UninternObject(externId);
          }
          r := Ok(Val(ExternRef, true, obj));
        case RawNullExtern => r := Ok(Val(ExternRef, true, PyNone));
        case RawFunc(id) => r := Ok(Val(FuncRef, true, Func(id)));
        case RawNullFunc => r := Ok(Val(FuncRef, true, PyNone));
        case RawOther => return Err(WasmtimeError);
      }
      if owned {
        UnrootRaw(raw);
      }
    }

    method NativeExtern(obj: Obj, nativeOk: bool, ghost keep: set<nat>) returns (ghost idx: nat)
      requires Valid()
      modifies this, slab
      ensures Valid() && State() == Foreign(old(State()), Extern(obj, idx, nativeOk), keep)
    {
      var r;
      r, idx := LowerVal(Val(ExternRef, false, obj), nativeOk);
      ExternKeeps(old(State()), obj, idx, nativeOk, keep, 0, PyNone);
    }

    method NativeRoots(ev: Event, keep: set<nat>)
      requires Valid() && (ev.AddRoot? || ev.DropRoot?)
      modifies this
      ensures Valid() && State() == Foreign(old(State()), ev, keep)
    {
      match ev {
        case AddRoot(h) =>
          if h in refs {
            SetRoots(h, refs[h].roots + 1);
          }
        case DropRoot(h) =>
          if h in refs && refs[h].roots > if h in keep then 1 else 0 {
            SetRoots(h, refs[h].roots - 1);
          }
      }
    }

    method NativeCollect(h: nat, ghost keep: set<nat>)
      requires Valid()
      modifies this, slab
      ensures Valid() && State() == Foreign(old(State()), Collect(h), keep)
    {
      if h in refs && refs[h].roots == 0 {
        ExternrefFinalizer(h);
      }
    }

    /** One thing the native call does.  An event that interns gets the slab's own index. */
    method NativeStep(ev: Event, keep: set<nat>) returns (ghost done: Event)
      requires Valid()
      modifies this, slab
      ensures Valid() && State() == Foreign(old(State()), done, keep)
    {
      done := ev;
      match ev {
        case Extern(obj, _, nativeOk) =>
          ghost var idx := NativeExtern(obj, nativeOk, keep);
          done := Extern(obj, idx, nativeOk);
        case AddRoot(_) => NativeRoots(ev, keep);
        case DropRoot(_) => NativeRoots(ev, keep);
        case Collect(h) => NativeCollect(h, keep);
      }
    }

    /** The native call: whatever it does to the store, as a list of events. */
    method NativeCall(evs: seq<Event>, keep: set<nat>) returns (ghost done: seq<Event>)
      requires Valid()
      modifies this, slab
      ensures Valid() && State() == ForeignRun(old(State()), done, keep)
    {
      done := [];
      for i := 0 to |evs|
        invariant Valid() && State() == ForeignRun(old(State()), done, keep)
      {
        ghost var ev := NativeStep(evs[i], keep);
        assert (done + [ev])[..|done|] == done;
        done := done + [ev];
      }
    }

    /** One parameter converted and stored. */
    method FillParam(paramsPtr: array<Raw>, n: nat, ty: ValType, arg: Arg, ok: bool,
            ghost st: Store, ghost params: seq<Param>)
      returns (error: Option<Error>, ghost p: Param)
      requires Valid() && n < paramsPtr.Length && Allocatable(st, params)
      requires ConvertAll(st, params) == Filled(paramsPtr[..n], None, State())
      modifies this, slab, paramsPtr
      ensures Valid() && p == Param(ty, arg, p.idx, ok) && Allocatable(st, params + [p])
      ensures ConvertAll(st, params + [p]) == Filled(paramsPtr[..if error.None? then n + 1 else n], error, State())
    {
      hide Allocatable, ConvertAll, ConvertToRaw, Good;
      ghost var raws, idx := paramsPtr[..n], 0;
      var r;
      r, idx := Lower(ty, arg, ok);
      p := Param(ty, arg, idx, ok);
      TryNext(st, params, p);
      if r.Err? {
        error := Some(r.error);
        assert paramsPtr[..n] == raws;
      } else {
        error := None;
        paramsPtr[n] := r.value;
        assert paramsPtr[..n + 1] == raws + [r.value];
      }
    }

    /** The loop that converts the parameters, counting those stored. */
    method FillParams(paramsPtr: array<Raw>, tys: seq<ValType>, args: seq<Arg>, oks: seq<bool>)
      returns (paramsSet: nat, error: Option<Error>, ghost params: seq<Param>)
      requires Valid() && |tys| == |args| == |oks| == paramsPtr.Length
      modifies this, slab, paramsPtr
      ensures Valid() && Tried(params, tys, args, oks) && (error.None? ==> paramsSet == |params| == |args|)
      ensures paramsSet <= |args| && Allocatable(old(State()), params)
      ensures ConvertAll(old(State()), params) == Filled(paramsPtr[..paramsSet], error, State())
    {
      params, paramsSet, error := [], 0, None;
      while paramsSet < |args|
        invariant Valid() && Tried(params, tys, args, oks) && paramsSet == |params| && error.None?
        invariant Allocatable(old(State()), params)
        invariant ConvertAll(old(State()), params) == Filled(paramsPtr[..paramsSet], None, State())
      {
        ghost var p;
        error, p := FillParam(paramsPtr, paramsSet, tys[paramsSet], args[paramsSet], oks[paramsSet],
                              old(State()), params);
        TriedNext(params, tys, args, oks, p);
        params := params + [p];
        if error.Some? {
          return;
        }
        paramsSet := paramsSet + 1;
      }
    }

    /** The loop of the `finally` clause. */
    method UnrootParams(paramsPtr: array<Raw>, paramsSet: nat)
      requires Valid() && paramsSet <= paramsPtr.Length
      modifies this
      ensures Valid() && State() == UnrootAll(old(State()), paramsPtr[..paramsSet])
    {
      for i := 0 to paramsSet
        invariant Valid() && State() == UnrootAll(old(State()), paramsPtr[..i])
      {
        assert paramsPtr[..i + 1][..i] == paramsPtr[..i];
        UnrootRaw(paramsPtr[i]);
      }
    }

    method NativeReturnOne(ret: Ret) returns (raw: Raw)
      requires Valid()
      modifies this
      ensures Valid() && (raw, State()) == ReturnOne(old(State()), ret)
    {
      match ret {
        case Plain(r) => raw := if r.RawExtern? then RawNullExtern else r;
        case Reference(h) =>
          if h in refs {
            SetRoots(h, refs[h].roots + 1);
            raw := RawExtern(h);
          } else {
            raw := RawNullExtern;
          }
      }
    }

    /** The native code fills `results_ptr`. */
    method NativeReturn(resultsPtr: array<Raw>, rets: seq<Ret>)
      requires Valid() && resultsPtr.Length == |rets|
      modifies this, resultsPtr
      ensures Valid() && (resultsPtr[..], State()) == ReturnAll(old(State()), rets)
    {
      for i := 0 to |rets|
        invariant Valid() && (resultsPtr[..i], State()) == ReturnAll(old(State()), rets[..i])
      {
        assert rets[..i + 1][..i] == rets[..i];
        ghost var before := resultsPtr[..i];
        var raw := NativeReturnOne(rets[i]);
        resultsPtr[i] := raw;
        assert resultsPtr[..i + 1] == before + [raw];
      }
      assert rets[..|rets|] == rets && resultsPtr[..|rets|] == resultsPtr[..];
    }

    /** The loop that reads the results. */
    method DecodeResults(resultsPtr: array<Raw>) returns (ok: bool, results: seq<Obj>)
      requires Valid() && Enough(State(), resultsPtr[..])
      modifies this
      ensures Valid() && Decoded(results, ok, State()) == DecodeAll(old(State()), resultsPtr[..])
    {
      results, ok := [], true;
      ghost var raws := resultsPtr[..];
      for i := 0 to resultsPtr.Length
        invariant Valid() && ok && Decoded(results, true, State()) == DecodeAll(old(State()), raws[..i])
      {
        assert raws[..i + 1][..i] == raws[..i];
        DecodeUsable(old(State()), raws, i);
        var v := Lift(resultsPtr[i], true);
        if v.Err? {
          DecodeStops(old(State()), raws, i + 1);
          return false, results;
        }
        results := results + [v.value.val];
      }
      assert raws[..|raws|] == raws;
    }

    /** The native call, with what it returns or raises. */
    method Invoke(evs: seq<Event>, keep: set<nat>, outcome: Option<Error>, resultsPtr: array<Raw>, rets: seq<Ret>)
      returns (ghost done: seq<Event>)
      requires Valid() && resultsPtr.Length == |rets|
      modifies this, slab, resultsPtr
      ensures Valid()
      ensures var left := ForeignRun(old(State()), done, keep);
              if outcome.Some? then State() == left else (resultsPtr[..], State()) == ReturnAll(left, rets)
    {
      done := NativeCall(evs, keep);
      if outcome.None? {
        NativeReturn(resultsPtr, rets);
      }
    }

    method FinishCall(paramsPtr: array<Raw>, paramsSet: nat, error: Option<Error>, resultsPtr: array<Raw>)
      returns (r: Result<Returned>)
      requires Valid() && paramsSet <= paramsPtr.Length
      requires error.None? ==> Enough(UnrootAll(State(), paramsPtr[..paramsSet]), resultsPtr[..])
      modifies this
      ensures Valid()
      ensures (r, State()) == Finish(old(State()), paramsPtr[..paramsSet], error, resultsPtr[..])
    {
      UnrootParams(paramsPtr, paramsSet);
      if error.Some? {
        return Err(error.value);
      }
      var ok, results := DecodeResults(resultsPtr);
      r := if ok then Ok(Shape(results)) else Err(WasmtimeError);
    }

    /** `Func.__call__`. */
    method Call(tys: seq<ValType>, args: seq<Arg>, oks: seq<bool>, evs: seq<Event>, outcome: Option<Error>,
            rets: seq<Ret>)
      returns (r: Result<Returned>, ghost params: seq<Param>, ghost done: seq<Event>)
      requires Valid() && |oks| == |args|
      modifies this, slab
      ensures Valid()
      ensures |tys| != |args| ==> r == Err(WasmtimeError) && State() == old(State())
      ensures |tys| == |args| ==>
                && Tried(params, tys, args, oks) && Allocatable(old(State()), params)
                && (ConvertAll(old(State()), params).error.None? ==> |params| == |args|)
                && (r, State()) == WholeCall(old(State()), params, done, outcome, rets)
    {
      params, done := [], [];
      if |args| != |tys| {
        return Err(WasmtimeError), params, done;
      }
      ghost var st := State();
      var paramsPtr := new Raw[|args|](_ => RawI32(0));
      var resultsPtr := new Raw[|rets|](_ => RawI32(0));
      var paramsSet, error;
      paramsSet, error, params := FillParams(paramsPtr, tys, args, oks);
      if error.None? {
        done := Invoke(evs, AllHandles(paramsPtr[..paramsSet]), outcome, resultsPtr, rets);
        error := outcome;
      }
      ResultsRooted(st, params, done, rets);
      r := FinishCall(paramsPtr, paramsSet, error, resultsPtr);
    }
  }

  /** Nothing is read after a result of an unknown kind. */
  lemma {:induction false} DecodeStops(st: Store, raws: seq<Raw>, n: nat)
    requires n <= |raws| && !DecodeAll(st, raws[..n]).ok
    ensures DecodeAll(st, raws) == DecodeAll(st, raws[..n])
    decreases |raws| - n
  {
    if n < |raws| {
      assert raws[..n + 1][..n] == raws[..n];
      DecodeStops(st, raws, n + 1);
    } else {
      assert raws[..n] == raws;
    }
  }

  lemma TryNext(st: Store, params: seq<Param>, p: Param)
    requires Allocatable(st, params) && ConvertAll(st, params).error.None?
    requires p.idx !in ConvertAll(st, params).st.live
    ensures Allocatable(st, params + [p])
    ensures var f := ConvertAll(st, params);
            var (r, st1) := ConvertToRaw(f.st, p.ty, p.arg, p.idx, p.nativeOk);
            ConvertAll(st, params + [p]) ==
            if r.Err? then Filled(f.raws, Some(r.error), st1) else Filled(f.raws + [r.value], None, st1)
  {
    var longer := params + [p];
    assert forall n | 0 <= n <= |params| :: longer[..n] == params[..n];
    assert params[..|params|] == params == longer[..|longer| - 1];
  }
}
