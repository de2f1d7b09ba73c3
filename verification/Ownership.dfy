/** Who frees a native object: `wasmtime/_managed.py` and the type wrappers of `wasmtime/_types.py`.
    A Python wrapper owns its native object, or borrows a part of one through `_owner`; `TagType`
    consumes the function type it is given; the other constructors copy the types they are given. */
module Ownership {
  import opened Options

  /** The `__ptr` attribute of a `Managed`: never set, set, or set to `None`. */
  datatype Field = Unset | Held(p: nat) | Closed

  /** A wrapper and the wrapper it borrows from, if any. */
  datatype Wrapper = Wrapper(field: Field, owner: Option<nat>)

  datatype Result<T> = Ok(value: T) | ValueError

  /** `ptr`. */
  function PtrOf(w: Wrapper): (r: Result<nat>) {
    if w.field.Held? then Ok(w.field.p) else ValueError
  }

  /** `close`: the wrapper afterwards, and the pointer given to the native destructor. */
  function Closing(w: Wrapper): (r: (Wrapper, Option<nat>)) {
    if w.field.Held? then
      (w.(field := Closed), if w.owner.None? then Some(w.field.p) else None)
    else (w, None)
  }

  /** Python wrappers by identity; for every native object ever made, the objects inside it; and how
      often each has been freed. */
  datatype World = World(wrappers: map<nat, Wrapper>, parts: map<nat, set<nat>>, frees: map<nat, nat>)

  const INIT := World(map[], map[], map[])

  /** A new native object with the given parts. */
  function Make(s: World, p: nat, inside: set<nat>): (s': World) {
    s.(parts := s.parts[p := inside], frees := s.frees[p := 0])
  }

  /** The native destructor frees an object with everything inside it. */
  function Delete(s: World, p: nat): (s': World)
    requires p in s.parts
  {
    s.(frees := map q | q in s.frees :: s.frees[q] + if q == p || q in s.parts[p] then 1 else 0)
  }

  function Wrap(s: World, w: nat, wrapper: Wrapper): (s': World) {
    s.(wrappers := s.wrappers[w := wrapper])
  }

  /** The copies made so far by a constructor, the next pointer, and whether it can go on. */
  datatype Copies = Copies(s: World, made: set<nat>, next: nat, ok: bool)

  /** `take_owned_valtype` for each argument in turn: copies are made, with pointers from `c.next` up,
      until one argument is found closed. */
  function CopyAll(c: Copies, args: seq<nat>): (r: Copies)
    requires forall a | a in args :: a in c.s.wrappers
    ensures r.s.wrappers == c.s.wrappers
    decreases |args|
  {
    if args == [] then c
    else if PtrOf(c.s.wrappers[args[0]]) == ValueError then c.(ok := false)
    else CopyAll(Copies(Make(c.s, c.next, {}), c.made + {c.next}, c.next + 1, true), args[1..])
  }

  datatype Op =
    | NewLeaf(w: nat, p: nat)                       // a value type, or a type the runtime returns
    | NewComposite(w: nat, args: seq<nat>, p: nat)  // a function, global or table type
    | Borrow(w: nat, from: nat, p: nat)             // a component of another wrapper's object
    | NewTag(w: nat, from: nat, p: nat)             // a tag type, consuming a function type
    | Close(w: nat)
    | Del(w: nat)                                   // the interpreter drops the last reference

  /** Names are fresh, and wrappers named are alive. */
  ghost predicate Possible(s: World, op: Op) {
    match op
    case NewLeaf(w, p) => w !in s.wrappers && Unused(s, p)
    case NewComposite(w, args, p) => w !in s.wrappers && Unused(s, p) && forall a | a in args :: a in s.wrappers
    case Borrow(w, from, p) =>
      && w !in s.wrappers && from in s.wrappers
      && (s.wrappers[from].field.Held? ==>
            s.wrappers[from].field.p in s.parts && p in s.parts[s.wrappers[from].field.p])
    case NewTag(w, from, p) => w !in s.wrappers && from in s.wrappers && Unused(s, p)
    case Close(w) => w in s.wrappers
    case Del(w) => w in s.wrappers
  }

  /** No native object has the pointer `p` or one above it. */
  ghost predicate Unused(s: World, p: nat) {
    && (forall q | q in s.parts :: q < p)
    && (forall q | q in s.frees :: q < p)
  }

  /** `__init__` of a composite type: copy the arguments, then wrap a new object made of the copies.
      A closed argument raises, and the copies made before it are never wrapped. */
  function Compose(s: World, w: nat, args: seq<nat>, p: nat): (s': World)
    requires forall a | a in args :: a in s.wrappers
  {
    var c := CopyAll(Copies(s, {}, p, true), args);
    if !c.ok then c.s else Wrap(Make(c.s, c.next, c.made), w, Wrapper(Held(c.next), None))
  }

  ghost function Step(s: World, op: Op): (s': World)
    requires Possible(s, op)
  {
    match op
    case NewLeaf(w, p) => Wrap(Make(s, p, {}), w, Wrapper(Held(p), None))
    case NewComposite(w, args, p) => Compose(s, w, args, p)
    case Borrow(w, from, p) =>
      if s.wrappers[from].field.Held? then Wrap(s, w, Wrapper(Held(p), Some(from))) else s
    case NewTag(w, from, p) =>
      var f := s.wrappers[from];
      if !f.field.Held? || f.field.p !in s.parts then s
      else
        var inside := {f.field.p} + s.parts[f.field.p];
        Wrap(Make(Wrap(s, from, f.(field := Closed)), p, inside), w, Wrapper(Held(p), None))
    case Close(w) => CloseIn(s, w)
    case Del(w) => var s1 := CloseIn(s, w); s1.(wrappers := s1.wrappers - {w})
  }

  function CloseIn(s: World, w: nat): (s': World)
    requires w in s.wrappers
  {
    var (wrapper, deleted) := Closing(s.wrappers[w]);
    var s1 := Wrap(s, w, wrapper);
    if deleted.Some? && deleted.value in s.parts then Delete(s1, deleted.value) else s1
  }

  // ----- the ledger: who answers for each native object

  datatype Status = Owned(w: nat) | Freed | Leaked

  /** For every native object, its own or its outermost object's state. */
  type Ledger = map<nat, Status>

  /** `w` is an owning wrapper of `p` or of an object around `p`. */
  ghost predicate Covers(s: World, w: nat, p: nat) {
    && w in s.wrappers && s.wrappers[w].owner.None? && s.wrappers[w].field.Held?
    && var r := s.wrappers[w].field.p;
       r in s.parts && (p == r || p in s.parts[r])
  }

  /** `p` is itself what its owning wrapper holds. */
  ghost predicate Outermost(s: World, l: Ledger, p: nat) {
    p in l && l[p].Owned? && l[p].w in s.wrappers && s.wrappers[l[p].w].field == Held(p)
  }

  /** Freed once or not at all, as the ledger says; answered for by a wrapper that covers it; and
      answered for together with everything inside it. */
  ghost predicate ObjectOk(s: World, l: Ledger, p: nat)
    requires p in l && p in s.parts && p in s.frees
  {
    && s.frees[p] == (if l[p].Freed? then 1 else 0)
    && (l[p].Owned? ==> Covers(s, l[p].w, p))
    && (l[p].Leaked? ==> s.parts[p] == {})
    && (forall q | q in s.parts[p] :: q in l && l[q] == l[p] && !Outermost(s, l, q))
  }

  /** An owning wrapper answers for what it holds; a borrowing one holds something inside an object
      that was not leaked. */
  ghost predicate WrapperOk(s: World, l: Ledger, w: nat)
    requires w in s.wrappers && s.wrappers[w].field.Held?
  {
    var p := s.wrappers[w].field.p;
    && p in l
    && (s.wrappers[w].owner.None? ==> l[p] == Owned(w))
    && (s.wrappers[w].owner.Some? ==> !l[p].Leaked? && !Outermost(s, l, p))
  }

  ghost predicate Inv(s: World, l: Ledger) {
    && l.Keys == s.parts.Keys == s.frees.Keys
    && (forall p | p in l :: ObjectOk(s, l, p))
    && (forall w | w in s.wrappers && s.wrappers[w].field.Held? :: WrapperOk(s, l, w))
  }

  /** Who covers an object answers for it. */
  lemma CoversAnswers(s: World, l: Ledger, w: nat, p: nat)
    requires Inv(s, l) && Covers(s, w, p)
    ensures p in l && l[p] == Owned(w)
  {
    assert WrapperOk(s, l, w) && ObjectOk(s, l, s.wrappers[w].field.p);
  }

  lemma MakeInv(s: World, l: Ledger, p: nat)
    requires Inv(s, l) && Unused(s, p)
    ensures Inv(Make(s, p, {}), l[p := Leaked])
  {
    var s', l' := Make(s, p, {}), l[p := Leaked];
    forall q | q in l'
      ensures q in s'.parts && q in s'.frees && ObjectOk(s', l', q)
    {
      if q != p {
        assert ObjectOk(s, l, q);
      }
    }
    forall v | v in s'.wrappers && s'.wrappers[v].field.Held?
      ensures WrapperOk(s', l', v)
    {
      assert WrapperOk(s, l, v);
    }
  }

  lemma BorrowInv(s: World, l: Ledger, w: nat, from: nat, p: nat)
    requires Inv(s, l) && Possible(s, Borrow(w, from, p))
    ensures Inv(Step(s, Borrow(w, from, p)), l)
  {
    if s.wrappers[from].field.Held? {
      assert WrapperOk(s, l, from);
    }
  }

  /** The ledger with everything `w` answers for handed to `to`. */
  ghost function Handed(l: Ledger, w: nat, to: Status): Ledger {
    map p | p in l :: if l[p] == Owned(w) then to else l[p]
  }

  lemma CloseObject(s: World, l: Ledger, w: nat, p: nat)
    requires Inv(s, l) && w in s.wrappers && p in l
    ensures ObjectOk(CloseIn(s, w), Handed(l, w, Freed), p)
  {
    assert ObjectOk(s, l, p);
    if s.wrappers[w].field.Held? {
      assert WrapperOk(s, l, w);
      assert ObjectOk(s, l, s.wrappers[w].field.p);
    }
  }

  lemma CloseWrapper(s: World, l: Ledger, w: nat, v: nat)
    requires Inv(s, l) && w in s.wrappers && v in CloseIn(s, w).wrappers && CloseIn(s, w).wrappers[v].field.Held?
    ensures WrapperOk(CloseIn(s, w), Handed(l, w, Freed), v)
  {
    assert WrapperOk(s, l, v);
  }

  lemma CloseInv(s: World, l: Ledger, w: nat)
    requires Inv(s, l) && w in s.wrappers
    ensures Inv(CloseIn(s, w), Handed(l, w, Freed))
  {
    forall p | p in l
      ensures ObjectOk(CloseIn(s, w), Handed(l, w, Freed), p)
    {
      CloseObject(s, l, w, p);
    }
    forall v | v in CloseIn(s, w).wrappers && CloseIn(s, w).wrappers[v].field.Held?
      ensures WrapperOk(CloseIn(s, w), Handed(l, w, Freed), v)
    {
      CloseWrapper(s, l, w, v);
    }
  }

  /** Objects that nobody wraps yet, and nothing of which is inside another object. */
  ghost predicate Loose(s: World, l: Ledger, objects: set<nat>) {
    forall p | p in objects :: p in l && l[p].Leaked?
  }

  /** A new object made of loose ones, and the wrapper that owns it. */
  ghost function Adopted(s: World, made: set<nat>, p: nat, w: nat): World {
    Wrap(Make(s, p, made), w, Wrapper(Held(p), None))
  }

  ghost function AdoptedLedger(l: Ledger, made: set<nat>, p: nat, w: nat): Ledger {
    (map q | q in l :: if q in made then Owned(w) else l[q])[p := Owned(w)]
  }

  lemma AdoptObject(s: World, l: Ledger, made: set<nat>, p: nat, w: nat, q: nat)
    requires Inv(s, l) && Unused(s, p) && w !in s.wrappers && Loose(s, l, made) && q in l
    ensures ObjectOk(Adopted(s, made, p, w), AdoptedLedger(l, made, p, w), q)
  {
    assert ObjectOk(s, l, q);
  }

  lemma AdoptInv(s: World, l: Ledger, made: set<nat>, p: nat, w: nat)
    requires Inv(s, l) && Unused(s, p) && w !in s.wrappers && Loose(s, l, made)
    ensures Inv(Adopted(s, made, p, w), AdoptedLedger(l, made, p, w))
  {
    var s', l' := Adopted(s, made, p, w), AdoptedLedger(l, made, p, w);
    forall q | q in l'
      ensures q in s'.parts && q in s'.frees && ObjectOk(s', l', q)
    {
      if q != p {
        AdoptObject(s, l, made, p, w, q);
      }
    }
    forall v | v in s'.wrappers && s'.wrappers[v].field.Held?
      ensures WrapperOk(s', l', v)
    {
      if v != w {
        assert WrapperOk(s, l, v);
      }
    }
  }

  /** The ledger with new loose objects added. */
  ghost function WithLoose(l: Ledger, made: set<nat>): Ledger {
    map p | p in l.Keys + made :: if p in made then Leaked else l[p]
  }

  /** The copies a constructor makes are new and loose, and the books are otherwise untouched. */
  lemma {:induction false} CopyAllInv(c: Copies, l: Ledger, args: seq<nat>)
    requires c.made !! l.Keys && Inv(c.s, WithLoose(l, c.made)) && Unused(c.s, c.next)
    requires forall a | a in args :: a in c.s.wrappers
    ensures var r := CopyAll(c, args);
            r.made !! l.Keys && Inv(r.s, WithLoose(l, r.made)) && Unused(r.s, r.next)
    decreases |args|
  {
    if args != [] && PtrOf(c.s.wrappers[args[0]]).Ok? {
      MakeInv(c.s, WithLoose(l, c.made), c.next);
      assert c.next !in WithLoose(l, c.made);
      assert WithLoose(l, c.made)[c.next := Leaked] == WithLoose(l, c.made + {c.next});
      CopyAllInv(Copies(Make(c.s, c.next, {}), c.made + {c.next}, c.next + 1, true), l, args[1..]);
    }
  }

  // ----- consuming

  /** The ledger once the tag type `op` makes answers for what it consumes. */
  ghost function TagLedger(l: Ledger, op: Op): Ledger
    requires op.NewTag?
  {
    Handed(l, op.from, Owned(op.w))[op.p := Owned(op.w)]
  }

  lemma TagCovers(s: World, l: Ledger, op: Op, q: nat)
    requires Inv(s, l) && op.NewTag? && Possible(s, op)
    requires s.wrappers[op.from].owner.None? && s.wrappers[op.from].field.Held?
    requires q in l && l[q].Owned?
    ensures TagLedger(l, op)[q].Owned? && Covers(Step(s, op), TagLedger(l, op)[q].w, q)
  {
    assert WrapperOk(s, l, op.from) && ObjectOk(s, l, q);
  }

  lemma TagInside(s: World, l: Ledger, op: Op, q: nat, r: nat)
    requires Inv(s, l) && op.NewTag? && Possible(s, op)
    requires s.wrappers[op.from].owner.None? && s.wrappers[op.from].field.Held?
    requires q in l && q in s.parts && r in s.parts[q]
    ensures var l' := TagLedger(l, op);
            r in l' && l'[r] == l'[q] && !Outermost(Step(s, op), l', r)
  {
    assert ObjectOk(s, l, q);
  }

  lemma TagObject(s: World, l: Ledger, op: Op, q: nat)
    requires Inv(s, l) && op.NewTag? && Possible(s, op)
    requires s.wrappers[op.from].owner.None? && s.wrappers[op.from].field.Held?
    requires q in l
    ensures q in Step(s, op).parts && q in Step(s, op).frees && ObjectOk(Step(s, op), TagLedger(l, op), q)
  {
    hide Covers, Outermost;
    var s', l' := Step(s, op), TagLedger(l, op);
    assert WrapperOk(s, l, op.from) && ObjectOk(s, l, q);
    assert s'.parts[q] == s.parts[q] && s'.frees[q] == s.frees[q];
    if l[q].Owned? {
      TagCovers(s, l, op, q);
    }
    forall r | r in s'.parts[q]
      ensures r in l' && l'[r] == l'[q] && !Outermost(s', l', r)
    {
      TagInside(s, l, op, q, r);
    }
  }

  lemma TagWrapper(s: World, l: Ledger, op: Op, v: nat)
    requires Inv(s, l) && op.NewTag? && Possible(s, op)
    requires s.wrappers[op.from].owner.None? && s.wrappers[op.from].field.Held?
    requires v in Step(s, op).wrappers && Step(s, op).wrappers[v].field.Held?
    ensures WrapperOk(Step(s, op), TagLedger(l, op), v)
  {
    assert WrapperOk(s, l, op.from);
    if v != op.w {
      assert WrapperOk(s, l, v);
    }
  }

  lemma TagInv(s: World, l: Ledger, op: Op)
    requires Inv(s, l) && op.NewTag? && Possible(s, op)
    requires s.wrappers[op.from].owner.None? && s.wrappers[op.from].field.Held?
    ensures Inv(Step(s, op), TagLedger(l, op))
  {
    assert WrapperOk(s, l, op.from);
    assert ObjectOk(s, l, s.wrappers[op.from].field.p);
    var s', l' := Step(s, op), TagLedger(l, op);
    forall q | q in l'
      ensures q in s'.parts && q in s'.frees && ObjectOk(s', l', q)
    {
      if q != op.p {
        TagObject(s, l, op, q);
      }
    }
    forall v | v in s'.wrappers && s'.wrappers[v].field.Held?
      ensures WrapperOk(s', l', v)
    {
      TagWrapper(s, l, op, v);
    }
  }

  /** Consuming keeps the books in order exactly when the wrapper consumed owns its object.  What a
      borrowing wrapper holds is still inside an object that is freed, or will be, by another. */
  lemma ConsumeSoundIffOwning(s: World, l: Ledger, op: Op)
    requires Inv(s, l) && op.NewTag? && Possible(s, op) && s.wrappers[op.from].field.Held?
    ensures (exists l' :: Inv(Step(s, op), l')) <==> s.wrappers[op.from].owner.None?
  {
    if s.wrappers[op.from].owner.None? {
      TagInv(s, l, op);
    } else {
      forall l'
        ensures !Inv(Step(s, op), l')
      {
        BorrowedConsumedTwice(s, l, op, l');
      }
    }
  }

  lemma BorrowedConsumedTwice(s: World, l: Ledger, op: Op, l': Ledger)
    requires Inv(s, l) && op.NewTag? && Possible(s, op)
    requires s.wrappers[op.from].field.Held? && s.wrappers[op.from].owner.Some?
    ensures !Inv(Step(s, op), l')
  {
    var s', p := Step(s, op), s.wrappers[op.from].field.p;
    assert WrapperOk(s, l, op.from) && ObjectOk(s, l, p);
    if Inv(s', l') {
      CoversAnswers(s', l', op.w, p);
      assert ObjectOk(s', l', p) && l[p].Owned?;
      CoversAnswers(s', l', l[p].w, p);
    }
  }

  // ----- whole runs

  /** Only owning wrappers are consumed. */
  ghost predicate Legal(s: World, op: Op) {
    Possible(s, op) && (op.NewTag? ==> s.wrappers[op.from].owner.None?)
  }

  ghost predicate Run(ss: seq<World>, ops: seq<Op>) {
    && |ss| == |ops| + 1
    && ss[0] == INIT
    && forall i | 0 <= i < |ops| :: Legal(ss[i], ops[i]) && ss[i + 1] == Step(ss[i], ops[i])
  }

  /** How many arguments come before the first closed one. */
  function HeldPrefix(wrappers: map<nat, Wrapper>, args: seq<nat>): (k: nat)
    requires forall a | a in args :: a in wrappers
    ensures k <= |args|
    ensures forall i | 0 <= i < k :: wrappers[args[i]].field.Held?
    ensures k < |args| ==> !wrappers[args[k]].field.Held?
  {
    if args == [] || !wrappers[args[0]].field.Held? then 0 else 1 + HeldPrefix(wrappers, args[1..])
  }

  function Pointers(p: nat, k: nat): (r: set<nat>)
    ensures forall q :: q in r <==> p <= q < p + k
  {
    if k == 0 then {} else Pointers(p, k - 1) + {p + k - 1}
  }

  /** A constructor copies the arguments before the first closed one, with pointers from `c.next` up. */
  lemma {:induction false} CopyAllMakes(c: Copies, args: seq<nat>)
    requires c.ok && forall a | a in args :: a in c.s.wrappers
    ensures var k := HeldPrefix(c.s.wrappers, args);
            var r := CopyAll(c, args);
            && r.made == c.made + Pointers(c.next, k)
            && (r.ok <==> k == |args|)
    decreases |args|
  {
    if args != [] && c.s.wrappers[args[0]].field.Held? {
      CopyAllMakes(Copies(Make(c.s, c.next, {}), c.made + {c.next}, c.next + 1, true), args[1..]);
    }
  }

  /** The copies lost when a constructor meets a closed argument: those of the arguments before it. */
  ghost function LeakedBy(s: World, op: Op): set<nat>
    requires Possible(s, op)
  {
    if op.NewComposite? && HeldPrefix(s.wrappers, op.args) < |op.args| then
      Pointers(op.p, HeldPrefix(s.wrappers, op.args))
    else {}
  }

  /** Nothing is lost exactly if no argument is closed, or the first one is. */
  lemma LeaksNothingIff(s: World, op: Op)
    requires op.NewComposite? && Possible(s, op)
    ensures LeakedBy(s, op) == {} <==>
            || (forall a | a in op.args :: s.wrappers[a].field.Held?)
            || !s.wrappers[op.args[0]].field.Held?
  {
    var k := HeldPrefix(s.wrappers, op.args);
    if k < |op.args| {
      assert op.args[k] in op.args;
      if k > 0 {
        assert op.p in LeakedBy(s, op);
      }
    }
  }

  ghost function LeakedIn(l: Ledger): set<nat> {
    set p | p in l && l[p].Leaked?
  }

  lemma ComposeInv(s: World, l: Ledger, op: Op) returns (l': Ledger)
    requires Inv(s, l) && op.NewComposite? && Possible(s, op)
    ensures Inv(Step(s, op), l') && LeakedIn(l') == LeakedIn(l) + LeakedBy(s, op)
  {
    var c0 := Copies(s, {}, op.p, true);
    var c := CopyAll(c0, op.args);
    assert WithLoose(l, {}) == l;
    CopyAllInv(c0, l, op.args);
    CopyAllMakes(c0, op.args);
    l' := WithLoose(l, c.made);
    if c.ok {
      AdoptInv(c.s, l', c.made, c.next, op.w);
      assert c.next !in l'.Keys;
      LeakedInAdopted(l, c.made, c.next, op.w);
      l' := AdoptedLedger(l', c.made, c.next, op.w);
    }
  }

  lemma LeakedInAdopted(l: Ledger, made: set<nat>, p: nat, w: nat)
    requires made !! l.Keys && p !in WithLoose(l, made)
    ensures LeakedIn(AdoptedLedger(WithLoose(l, made), made, p, w)) == LeakedIn(l)
  {
  }

  lemma LeakedInHanded(l: Ledger, w: nat, to: Status)
    requires !to.Leaked?
    ensures LeakedIn(Handed(l, w, to)) == LeakedIn(l)
  {
  }

  lemma LeakedInAdded(l: Ledger, p: nat, w: nat)
    requires p !in l
    ensures LeakedIn(l[p := Owned(w)]) == LeakedIn(l)
  {
  }

  /** One step keeps the books in order; objects are leaked by failing constructors alone. */
  lemma StepInv(s: World, l: Ledger, op: Op) returns (l': Ledger)
    requires Inv(s, l) && Legal(s, op)
    ensures Inv(Step(s, op), l') && LeakedIn(l') == LeakedIn(l) + LeakedBy(s, op)
  {
    match op
    case NewLeaf(w, p) =>
      AdoptInv(s, l, {}, p, w);
      l' := l[p := Owned(w)];
      assert AdoptedLedger(l, {}, p, w) == l';
      LeakedInAdded(l, p, w);
    case NewComposite(_, _, _) =>
      l' := ComposeInv(s, l, op);
    case Borrow(w, from, p) =>
      BorrowInv(s, l, w, from, p);
      l' := l;
    case NewTag(w, from, p) =>
      l' := l;
      if s.wrappers[from].field.Held? {
        TagInv(s, l, op);
        LeakedInHanded(l, from, Owned(w));
        LeakedInAdded(Handed(l, from, Owned(w)), p, w);
        l' := Handed(l, from, Owned(w))[p := Owned(w)];
      }
    case Close(w) =>
      CloseInv(s, l, w);
      LeakedInHanded(l, w, Freed);
      l' := Handed(l, w, Freed);
    case Del(w) =>
      CloseInv(s, l, w);
      LeakedInHanded(l, w, Freed);
      l' := Handed(l, w, Freed);
      DropInv(CloseIn(s, w), l', w);
  }

  /** A closed wrapper can go. */
  lemma DropInv(s: World, l: Ledger, w: nat)
    requires Inv(s, l) && w in s.wrappers && !s.wrappers[w].field.Held?
    ensures Inv(s.(wrappers := s.wrappers - {w}), l)
  {
    var s' := s.(wrappers := s.wrappers - {w});
    forall p | p in l
      ensures ObjectOk(s', l, p)
    {
      assert ObjectOk(s, l, p);
    }
    forall v | v in s'.wrappers && s'.wrappers[v].field.Held?
      ensures WrapperOk(s', l, v)
    {
      assert WrapperOk(s, l, v);
    }
  }

  ghost function Leaks(ss: seq<World>, ops: seq<Op>): set<nat>
    requires Run(ss, ops)
    decreases |ops|
  {
    if ops == [] then {}
    else
      var n := |ops| - 1;
      Leaks(ss[..n + 1], ops[..n]) + LeakedBy(ss[n], ops[n])
  }

  lemma {:induction false} RunInv(ss: seq<World>, ops: seq<Op>) returns (l: Ledger)
    requires Run(ss, ops)
    ensures Inv(ss[|ops|], l) && LeakedIn(l) == Leaks(ss, ops)
    decreases |ops|
  {
    if ops == [] {
      l := map[];
    } else {
      var n := |ops| - 1;
      var l0 := RunInv(ss[..n + 1], ops[..n]);
      l := StepInv(ss[n], l0, ops[n]);
    }
  }

  /** After every run that consumes only owning wrappers, an object is freed at most once: not while a
      wrapper owns it or an object around it, and exactly once when none does, the only exceptions
      being the copies lost by a constructor that met a closed argument, which are never freed. */
  lemma {:induction false} EveryRunFreesOnce(ss: seq<World>, ops: seq<Op>, p: nat)
    requires Run(ss, ops) && p in ss[|ops|].parts
    ensures var s := ss[|ops|];
            && p in s.frees
            && s.frees[p] == if p in Leaks(ss, ops) || exists w :: Covers(s, w, p) then 0 else 1
  {
    var s := ss[|ops|];
    var l := RunInv(ss, ops);
    assert ObjectOk(s, l, p);
    if w :| Covers(s, w, p) {
      CoversAnswers(s, l, w, p);
    }
  }

  // ----- dangling borrows

  /** The objects an operation hands to native code that reads them: each argument copied, and the object
      that a part is borrowed from or that is consumed. */
  ghost function Reads(s: World, op: Op): set<nat>
    requires Possible(s, op)
  {
    match op
    case NewComposite(_, args, _) =>
      set i | 0 <= i < HeldPrefix(s.wrappers, args) :: s.wrappers[args[i]].field.p
    case Borrow(_, from, _) => if s.wrappers[from].field.Held? then {s.wrappers[from].field.p} else {}
    case NewTag(_, from, _) => if s.wrappers[from].field.Held? then {s.wrappers[from].field.p} else {}
    case _ => {}
  }

  ghost predicate Gone(s: World, p: nat) {
    p in s.frees && s.frees[p] > 0
  }

  ghost predicate Dangling(s: World, v: nat) {
    v in s.wrappers && s.wrappers[v].field.Held? && Gone(s, s.wrappers[v].field.p)
  }

  ghost predicate Sound(s: World) {
    forall v | v in s.wrappers :: !Dangling(s, v)
  }

  /** An owner is closed while another wrapper still holds its object or a part of it. */
  ghost predicate ClosesEarly(s: World, op: Op) {
    && (op.Close? || op.Del?)
    && exists v :: v in s.wrappers && v != op.w && s.wrappers[v].field.Held? && Covers(s, op.w, s.wrappers[v].field.p)
  }

  lemma {:induction false} CopyAllFrees(c: Copies, args: seq<nat>, p: nat)
    requires (forall a | a in args :: a in c.s.wrappers) && p in c.s.frees && p < c.next
    ensures var r := CopyAll(c, args); p in r.s.frees && r.s.frees[p] == c.s.frees[p] && p < r.next
    decreases |args|
  {
    if args != [] && PtrOf(c.s.wrappers[args[0]]).Ok? {
      CopyAllFrees(Copies(Make(c.s, c.next, {}), c.made + {c.next}, c.next + 1, true), args[1..], p);
    }
  }

  /** An operation frees exactly what the wrapper it closes covers. */
  lemma StepFrees(s: World, op: Op, p: nat)
    requires Possible(s, op) && p in s.frees
    ensures p in Step(s, op).frees
    ensures Step(s, op).frees[p] == s.frees[p] + if (op.Close? || op.Del?) && Covers(s, op.w, p) then 1 else 0
  {
    if op.NewComposite? {
      CopyAllFrees(Copies(s, {}, op.p, true), op.args, p);
    }
  }

  /** No wrapper changes but the one made, consumed or closed, and that one loses at most its pointer. */
  lemma StepKeeps(s: World, op: Op, v: nat)
    requires Possible(s, op) && v in s.wrappers
    ensures v in Step(s, op).wrappers <==> op != Del(v)
    ensures v in Step(s, op).wrappers ==> Step(s, op).wrappers[v].owner == s.wrappers[v].owner
    ensures v in Step(s, op).wrappers && op != Close(v) && !(op.NewTag? && op.from == v) ==>
              Step(s, op).wrappers[v] == s.wrappers[v]
  {
  }

  /** A wrapper that holds something after a step held it before, or is new; and what a new one holds is
      new, or a part of what the wrapper borrowed from holds. */
  lemma HeldAfter(s: World, op: Op, v: nat)
    requires Possible(s, op) && v in Step(s, op).wrappers && Step(s, op).wrappers[v].field.Held?
    ensures var p := Step(s, op).wrappers[v].field.p;
            || (v in s.wrappers && s.wrappers[v].field == Held(p) && ((op.Close? || op.Del?) ==> v != op.w))
            || (p in Step(s, op).frees && Step(s, op).frees[p] == 0)
            || (&& op.Borrow? && s.wrappers[op.from].field.Held?
                && s.wrappers[op.from].field.p in s.parts && p in s.parts[s.wrappers[op.from].field.p])
  {
  }

  lemma StepSound(s: World, l: Ledger, op: Op)
    requires Inv(s, l) && Legal(s, op) && Sound(s) && !ClosesEarly(s, op)
    ensures Sound(Step(s, op))
  {
    forall v | v in Step(s, op).wrappers
      ensures !Dangling(Step(s, op), v)
    {
      if Step(s, op).wrappers[v].field.Held? {
        HeldAfter(s, op, v);
        HeldSound(s, l, op, v);
      }
    }
  }

  lemma HeldSound(s: World, l: Ledger, op: Op, v: nat)
    requires Inv(s, l) && Legal(s, op) && Sound(s) && !ClosesEarly(s, op)
    requires v in Step(s, op).wrappers && Step(s, op).wrappers[v].field.Held?
    ensures !Dangling(Step(s, op), v)
  {
    var p := Step(s, op).wrappers[v].field.p;
    HeldAfter(s, op, v);
    if v in s.wrappers && s.wrappers[v].field == Held(p) && ((op.Close? || op.Del?) ==> v != op.w) {
      assert WrapperOk(s, l, v) && !Dangling(s, v);
      StepFrees(s, op, p);
    } else if op.Borrow? && p in s.frees {
      var q := s.wrappers[op.from].field.p;
      assert WrapperOk(s, l, op.from) && ObjectOk(s, l, q) && !Dangling(s, op.from);
      assert ObjectOk(s, l, p);
      StepFrees(s, op, p);
    }
  }

  lemma EarlyDangles(s: World, l: Ledger, op: Op)
    requires Inv(s, l) && Legal(s, op) && ClosesEarly(s, op)
    ensures !Sound(Step(s, op))
  {
    var v :| v in s.wrappers && v != op.w && s.wrappers[v].field.Held? && Covers(s, op.w, s.wrappers[v].field.p);
    assert WrapperOk(s, l, v);
    StepFrees(s, op, s.wrappers[v].field.p);
    assert Dangling(Step(s, op), v);
  }

  lemma InvAt(ss: seq<World>, ops: seq<Op>, n: nat) returns (l: Ledger)
    requires Run(ss, ops) && n <= |ops|
    ensures Inv(ss[n], l)
  {
    l := RunInv(ss[..n + 1], ops[..n]);
  }

  lemma RunStepSound(ss: seq<World>, ops: seq<Op>, n: nat)
    requires Run(ss, ops) && n < |ops|
    ensures ClosesEarly(ss[n], ops[n]) ==> !Sound(ss[n + 1])
    ensures Sound(ss[n]) && !ClosesEarly(ss[n], ops[n]) ==> Sound(ss[n + 1])
  {
    var l := InvAt(ss, ops, n);
    var s, op := ss[n], ops[n];
    assert Legal(s, op) && ss[n + 1] == Step(s, op);
    if ClosesEarly(s, op) {
      EarlyDangles(s, l, op);
    } else if Sound(s) {
      StepSound(s, l, op);
    }
  }

  /** In a run no wrapper ever holds a freed object if and only if no owner is closed while another wrapper
      still holds its object or a part of it. */
  lemma {:induction false} NeverDanglesIff(ss: seq<World>, ops: seq<Op>, n: nat)
    requires Run(ss, ops) && n <= |ops|
    ensures (forall k | 0 <= k <= n :: Sound(ss[k])) <==> (forall j | 0 <= j < n :: !ClosesEarly(ss[j], ops[j]))
  {
    if n == 0 {
      assert Sound(INIT);
    } else {
      NeverDanglesIff(ss, ops, n - 1);
      RunStepSound(ss, ops, n - 1);
    }
  }

  /** In a sound state no operation reads a freed object. */
  lemma SoundReads(s: World, op: Op, p: nat)
    requires Possible(s, op) && Sound(s) && p in Reads(s, op)
    ensures !Gone(s, p)
  {
    if op.NewComposite? {
      var i :| 0 <= i < HeldPrefix(s.wrappers, op.args) && s.wrappers[op.args[i]].field.p == p;
      assert !Dangling(s, op.args[i]);
    } else {
      assert !Dangling(s, op.from);
    }
  }

  /** In any other, some operation does: a composite type made of the wrapper that dangles. */
  lemma DanglingIsRead(s: World, v: nat, w: nat, p: nat)
    requires Dangling(s, v) && w !in s.wrappers && Unused(s, p)
    ensures Possible(s, NewComposite(w, [v], p))
    ensures s.wrappers[v].field.p in Reads(s, NewComposite(w, [v], p))
    ensures Possible(s, NewTag(w, v, p)) && s.wrappers[v].field.p in Reads(s, NewTag(w, v, p))
  {
    assert [v][0] == v && HeldPrefix(s.wrappers, [v]) == 1;
  }

  /** That takes four calls: a tag type, its own `functype`, and then the tag type is closed. */
  lemma DanglingIsReachable() returns (ss: seq<World>, ops: seq<Op>)
    ensures Run(ss, ops) && |ops| == 4 && Dangling(ss[4], 2)
  {
    ops := [NewLeaf(0, 0), NewTag(1, 0, 1), Borrow(2, 1, 0), Close(1)];
    var s1 := Step(INIT, ops[0]);
    var s2 := Step(s1, ops[1]);
    var s3 := Step(s2, ops[2]);
    ss := [INIT, s1, s2, s3, Step(s3, ops[3])];
    assert Covers(s3, 1, 0);
    StepFrees(s3, ops[3], 0);
  }

  lemma Then(ss: seq<World>, ops: seq<Op>, op: Op) returns (ss': seq<World>, ops': seq<Op>)
    requires Run(ss, ops) && Legal(ss[|ops|], op)
    ensures Run(ss', ops') && ops' == ops + [op] && ss' == ss + [Step(ss[|ops|], op)]
  {
    ss', ops' := ss + [Step(ss[|ops|], op)], ops + [op];
  }

  lemma OneClosed() returns (ss: seq<World>, ops: seq<Op>)
    ensures Run(ss, ops) && |ops| == 3 && Unused(ss[3], 2)
    ensures ss[3].wrappers == map[0 := Wrapper(Held(0), None), 1 := Wrapper(Closed, None)]
  {
    ops := [NewLeaf(0, 0), NewLeaf(1, 1), Close(1)];
    var s1 := Step(INIT, ops[0]);
    var s2 := Step(s1, ops[1]);
    ss := [INIT, s1, s2, Step(s2, ops[2])];
  }

  /** A copy is lost four calls into a run: two types, one of them closed, and a function type of both. */
  lemma LeakIsReachable() returns (ss: seq<World>, ops: seq<Op>)
    ensures Run(ss, ops) && |ops| == 4 && 2 in Leaks(ss, ops)
  {
    var op := NewComposite(2, [0, 1], 2);
    var ss0, ops0 := OneClosed();
    LeaksFirst(ss0[3], op);
    ss, ops := Then(ss0, ops0, op);
    assert ss[..4] == ss0 && ops[..3] == ops0;
  }

  lemma LeaksFirst(s: World, op: Op)
    requires op.NewComposite? && Possible(s, op) && |op.args| == 2
    requires s.wrappers[op.args[0]].field.Held? && !s.wrappers[op.args[1]].field.Held?
    ensures op.p in LeakedBy(s, op)
  {
    assert op.args[1..][0] == op.args[1];
  }

  /** The double free: once a borrowed function type has been consumed, closing the new tag type and
      whoever owned the object before frees it a second time. */
  lemma BorrowedIsFreedTwice(s: World, l: Ledger, op: Op)
    requires Inv(s, l) && op.NewTag? && Possible(s, op)
    requires s.wrappers[op.from].field.Held? && s.wrappers[op.from].owner.Some?
    ensures var p := s.wrappers[op.from].field.p;
            var s1 := CloseIn(Step(s, op), op.w);
            && p in l && p in s1.frees
            && (l[p].Freed? ==> s1.frees[p] == 2)
            && (l[p].Owned? ==> l[p].w in s1.wrappers && p in CloseIn(s1, l[p].w).frees
                                && CloseIn(s1, l[p].w).frees[p] == 2)
            && !l[p].Leaked?
  {
    var p := s.wrappers[op.from].field.p;
    assert WrapperOk(s, l, op.from) && ObjectOk(s, l, p);
    var s1 := Step(s, op);
    assert s1.parts[op.p] == {p} + s.parts[p];
    var s2 := CloseIn(s1, op.w);
    assert s2.frees[p] == s.frees[p] + 1;
  }

  /** Such a state is three calls away: a tag type, and its own `functype`. */
  lemma BorrowedIsReachable() returns (ss: seq<World>, ops: seq<Op>, op: Op)
    ensures Run(ss, ops) && op.NewTag? && Possible(ss[|ops|], op)
    ensures ss[|ops|].wrappers[op.from].field.Held? && ss[|ops|].wrappers[op.from].owner.Some?
  {
    var s1 := Step(INIT, NewLeaf(0, 0));
    var s2 := Step(s1, NewTag(1, 0, 1));
    var s3 := Step(s2, Borrow(2, 1, 0));
    ss, ops, op := [INIT, s1, s2, s3], [NewLeaf(0, 0), NewTag(1, 0, 1), Borrow(2, 1, 0)], NewTag(3, 2, 2);
  }

  /** `Managed` itself.  The guard of `_set_ptr` looks up a name that is never set, so it never
      refuses. */
  class Managed {
    var field: Field
    var owner: Option<nat>

    function Fields(): Wrapper
      reads this
    {
      Wrapper(field, owner)
    }

    constructor ()
      ensures Fields() == Wrapper(Unset, None)
    {
      field, owner := Unset, None;
    }

    method SetPtr(p: nat)
      modifies this`field
      ensures Fields() == old(Fields()).(field := Held(p))
    {
      field := Held(p);
    }

    /** Returns what is passed to the native destructor. */
    method ClosePtr() returns (deleted: Option<nat>)
      modifies this`field
      ensures (Fields(), deleted) == Closing(old(Fields()))
    {
      deleted := None;
      match field {
        case Unset => return;
        case Closed =>
        case Held(p) =>
          if owner.None? {
            deleted := Some(p);
          }
          field := Closed;
      }
    }

    method Ptr() returns (r: Result<nat>)
      ensures r == PtrOf(Fields())
    {
      match field
      case Unset => r := ValueError;
      case Held(p) => r := Ok(p);
      case Closed => r := ValueError;
    }

    /** Takes the pointer without destroying it; after that `close` deletes nothing. */
    method Consume() returns (r: Result<nat>)
      modifies this`field
      ensures r == PtrOf(old(Fields()))
      ensures r.Ok? ==> Fields() == old(Fields()).(field := Closed) && Closing(Fields()) == (Fields(), None)
      ensures r.ValueError? ==> Fields() == old(Fields())
    {
      r := Ptr();
      if r.Ok? {
        field := Closed;
      }
    }
  }

  lemma {:induction false} CopyAllAppend(c: Copies, a: seq<nat>, b: seq<nat>)
    requires c.ok && forall x | x in a + b :: x in c.s.wrappers
    ensures forall x | x in a :: x in c.s.wrappers
    ensures forall x | x in b :: x in c.s.wrappers
    ensures CopyAll(c, a + b) == if CopyAll(c, a).ok then CopyAll(CopyAll(c, a), b) else CopyAll(c, a)
    decreases |a|
  {
    assert forall x | x in a || x in b :: x in a + b;
    if a == [] {
      assert a + b == b;
    } else if PtrOf(c.s.wrappers[a[0]]).Ok? {
      assert (a + b)[1..] == a[1..] + b;
      CopyAllAppend(Copies(Make(c.s, c.next, {}), c.made + {c.next}, c.next + 1, true), a[1..], b);
    }
  }

  /** The Python objects and the native heap behind them. */
  class Bindings {
    var objects: map<nat, Managed>
    var parts: map<nat, set<nat>>
    var frees: map<nat, nat>

    ghost predicate Valid()
      reads this
    {
      forall v, w | v in objects && w in objects && v != w :: objects[v] != objects[w]
    }

    ghost function Wrappers(): (wrappers: map<nat, Wrapper>)
      reads this`objects, objects.Values
      ensures wrappers.Keys == objects.Keys
    {
      map w | w in objects :: objects[w].Fields()
    }

    ghost function State(): World
      reads this, objects.Values
    {
      World(Wrappers(), parts, frees)
    }

    constructor ()
      ensures Valid() && State() == INIT && objects == map[]
    {
      objects, parts, frees := map[], map[], map[];
    }

    method NativeNew(p: nat, inside: set<nat>)
      modifies this`parts, this`frees
      ensures State() == Make(old(State()), p, inside)
    {
      parts, frees := parts[p := inside], frees[p := 0];
    }

    method NativeDelete(p: nat)
      requires p in parts
      modifies this`frees
      ensures State() == Delete(old(State()), p)
    {
      frees := map q | q in frees :: frees[q] + if q == p || q in parts[p] then 1 else 0;
    }

    /** A wrapper around a new native object, as the constructors end. */
    method Adopt(w: nat, p: nat)
      requires Valid()
      modifies this`objects
      ensures Valid() && State() == Wrap(old(State()), w, Wrapper(Held(p), None))
      ensures w in objects && fresh(objects[w]) && objects == old(objects)[w := objects[w]]
    {
      var m := new Managed();
      m.SetPtr(p);
      objects := objects[w := m];
      assert Wrappers() == old(Wrappers())[w := Wrapper(Held(p), None)];
    }

    /** One of the loops of `FuncType.__init__`: each argument is copied into the vector. */
    method FillVector(args: seq<nat>, made: set<nat>, next: nat) returns (ok: bool, made': set<nat>, next': nat)
      requires forall a | a in args :: a in objects
      modifies this`parts, this`frees
      ensures CopyAll(Copies(old(State()), made, next, true), args) == Copies(State(), made', next', ok)
    {
      made', next', ok := made, next, true;
      ghost var whole := CopyAll(Copies(State(), made, next, true), args);
      assert args[0..] == args;
      for i := 0 to |args|
        invariant Wrappers() == old(Wrappers()) && ok
        invariant CopyAll(Copies(State(), made', next', true), args[i..]) == whole
      {
        assert args[i..][0] == args[i] && args[i..][1..] == args[i + 1..];
        var ptr := objects[args[i]].Ptr();
        if ptr.ValueError? {
          return false, made', next';
        }
        NativeNew(next', {});
        made', next' := made' + {next'}, next' + 1;
      }
    }

    /** `FuncType.__init__`. */
    method InitFuncType(w: nat, params: seq<nat>, results: seq<nat>, p: nat) returns (ok: bool)
      requires Valid() && forall a | a in params + results :: a in objects
      modifies this
      ensures Valid() && State() == Compose(old(State()), w, params + results, p)
      ensures ok <==> forall a | a in params + results :: old(objects[a].field).Held?
    {
      ghost var c0 := Copies(State(), {}, p, true);
      CopyAllAppend(c0, params, results);
      CopyAllOkIff(c0, params + results);
      var made, next;
      ok, made, next := FillVector(params, {}, p);
      if ok {
        ok, made, next := FillVector(results, made, next);
      }
      if ok {
        NativeNew(next, made);
        Adopt(w, next);
      }
    }

    /** `TagType.__init__`. */
    method InitTagType(w: nat, from: nat, p: nat) returns (ok: bool)
      requires Valid() && Possible(State(), NewTag(w, from, p))
      requires objects[from].field.Held? ==> objects[from].field.p in parts
      modifies this, objects[from]
      ensures Valid() && State() == Step(old(State()), NewTag(w, from, p))
      ensures ok <==> old(objects[from].field).Held?
    {
      ghost var was := Wrappers();
      var r := objects[from].Consume();
      ok := r.Ok?;
      if ok {
        assert Wrappers() == was[from := was[from].(field := Closed)];
        NativeNew(p, {r.value} + parts[r.value]);
        Adopt(w, p);
      } else {
        assert Wrappers() == was;
      }
    }

    /** `close`, with the destructor. */
    method CloseObject(w: nat)
      requires Valid() && w in objects
      modifies this`frees, objects[w]
      ensures State() == CloseIn(old(State()), w)
    {
      ghost var was := Wrappers();
      var deleted := objects[w].ClosePtr();
      assert Wrappers() == was[w := Closing(was[w]).0];
      if deleted.Some? && deleted.value in parts {
        NativeDelete(deleted.value);
      }
    }
  }

  /** A constructor goes through exactly if no argument is closed. */
  lemma {:induction false} CopyAllOkIff(c: Copies, args: seq<nat>)
    requires c.ok && forall a | a in args :: a in c.s.wrappers
    ensures CopyAll(c, args).ok <==> forall a | a in args :: c.s.wrappers[a].field.Held?
    decreases |args|
  {
    if args != [] && PtrOf(c.s.wrappers[args[0]]).Ok? {
      CopyAllOkIff(Copies(Make(c.s, c.next, {}), c.made + {c.next}, c.next + 1, true), args[1..]);
      assert forall a | a in args :: a == args[0] || a in args[1..];
    }
  }
}
