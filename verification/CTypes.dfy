/** `type_name` of `ci/cbindgen.py`: C declarations, as pycparser gives them, to ctypes expressions.
    The result is kept as a tree; the generated text is its rendering. */
module CTypes {
  import opened Options

  datatype Result<T> = Ok(value: T) | Err

  /** The nodes `type_name` distinguishes.  Structs, unions and enums may be anonymous. */
  datatype CType =
    | TypeDecl(inner: CType)
    | Identifier(names: seq<string>)
    | Tagged(tag: Option<string>)
    | FuncDecl(ret: CType, params: seq<CType>)
    | PtrDecl(inner: CType)
    | ArrayDecl(inner: CType)
    | Unknown

  /** `NoneObject` is Python's `None`, which prints as the name `None` does. */
  datatype PyType =
    | Text(name: string)
    | NoneObject
    | Pointer(inner: PyType)
    | FuncType(types: seq<PyType>)

  function Strip(ty: CType): (t: CType)
    ensures !t.TypeDecl?
    ensures t == ty || t < ty
  {
    if ty.TypeDecl? then Strip(ty.inner) else ty
  }

  predicate Contains(s: string, part: string) {
    part <= s || (s != [] && Contains(s[1..], part))
  }

  /** The name for an identifier; a combination of names other than `unsigned char` fails an
      assertion. */
  function IdentifierName(names: seq<string>, typing: bool): (r: Result<PyType>) {
    if names == ["unsigned", "char"] then Ok(Text(if typing then "int" else "ctypes.c_ubyte"))
    else if |names| != 1 then Err
    else Ok(Text(
      match names[0]
      case "void" => "None"
      case "_Bool" => if typing then "bool" else "ctypes.c_bool"
      case "byte_t" => "ctypes.c_ubyte"
      case "int8_t" => "ctypes.c_int8"
      case "uint8_t" => "ctypes.c_uint8"
      case "int16_t" => "ctypes.c_int16"
      case "uint16_t" => "ctypes.c_uint16"
      case "int32_t" => if typing then "int" else "ctypes.c_int32"
      case "uint32_t" => if typing then "int" else "ctypes.c_uint32"
      case "uint64_t" => if typing then "int" else "ctypes.c_uint64"
      case "int64_t" => if typing then "int" else "ctypes.c_int64"
      case "float32_t" => if typing then "float" else "ctypes.c_float"
      case "float64_t" => if typing then "float" else "ctypes.c_double"
      case "size_t" => if typing then "int" else "ctypes.c_size_t"
      case "ptrdiff_t" => if typing then "int" else "ctypes.c_ssize_t"
      case "char" => "ctypes.c_char"
      case "int" => if typing then "int" else "ctypes.c_int"
      case name =>
        if typing && Contains(name, "callback_t") then "ctypes._Pointer"
        else if typing && (Contains(name, "size") || Contains(name, "pages")) then "int"
        else name))
  }

  predicate IsVoid(t: CType) {
    t.Identifier? && t.names != [] && t.names[0] == "void"
  }

  /** `type_name`.  `ptr` says that the type stands behind a pointer or array already seen. */
  function TypeName(ty: CType, ptr: bool, typing: bool): (r: Result<PyType>)
    decreases ty, ptr
  {
    var t := Strip(ty);
    if ptr && typing then Ok(Text("ctypes._Pointer"))
    else if ptr && t.Identifier? && t.names == [] then Err
    else if ptr && IsVoid(t) then Ok(Text("ctypes.c_void_p"))
    else if ptr && !t.FuncDecl? then
      var inner := TypeName(t, false, typing);
      if inner.Err? then Err else Ok(Pointer(inner.value))
    else
      match t
      case Identifier(names) => IdentifierName(names, typing)
      case Tagged(tag) => Ok(if tag.Some? then Text(tag.value) else NoneObject)
      case FuncDecl(ret, params) =>
        var first := if ret.PtrDecl? then Ok(Text("ctypes.c_size_t")) else TypeName(ret, false, false);
        var rest := TypeNames(params);
        if first.Err? || rest.Err? then Err else Ok(FuncType([first.value] + rest.value))
      case PtrDecl(inner) => TypeName(inner, true, typing)
      case ArrayDecl(inner) => TypeName(inner, true, typing)
      case Unknown => Err
  }

  function TypeNames(tys: seq<CType>): (r: Result<seq<PyType>>)
    ensures r.Ok? ==> |r.value| == |tys|
    decreases tys, false
  {
    if tys == [] then Ok([])
    else
      var first, rest := TypeName(tys[0], false, false), TypeNames(tys[1..]);
      if first.Err? || rest.Err? then Err else Ok([first.value] + rest.value)
  }

  // ----- what the result should be, without a flag

  /** A pointer to a type: `void *` has a name of its own, and ctypes function types are pointers to
      functions already. */
  function PointerTo(pointee: CType, name: PyType): PyType {
    if IsVoid(pointee) then Text("ctypes.c_void_p")
    else if pointee.FuncDecl? then name
    else Pointer(name)
  }

  /** The ctypes expression for a C type, built from those of its parts. */
  function Meaning(ty: CType): (r: Result<PyType>)
    decreases ty, 0
  {
    match ty
    case TypeDecl(inner) => Meaning(inner)
    case Identifier(names) => IdentifierName(names, false)
    case Tagged(tag) => Ok(if tag.Some? then Text(tag.value) else NoneObject)
    case FuncDecl(ret, params) =>
      var first := if ret.PtrDecl? then Ok(Text("ctypes.c_size_t")) else Meaning(ret);
      var rest := Meanings(params);
      if first.Err? || rest.Err? then Err else Ok(FuncType([first.value] + rest.value))
    case PtrDecl(inner) => Behind(inner)
    case ArrayDecl(inner) => Behind(inner)
    case Unknown => Err
  }

  /** Pointers and arrays of a type are the same; `void` needs no name to be pointed at. */
  function Behind(inner: CType): (r: Result<PyType>)
    decreases inner, 1
  {
    if IsVoid(Strip(inner)) then Ok(Text("ctypes.c_void_p"))
    else
      var m := Meaning(inner);
      if m.Err? then Err else Ok(PointerTo(Strip(inner), m.value))
  }

  function Meanings(tys: seq<CType>): (r: Result<seq<PyType>>)
    decreases tys, 0
  {
    if tys == [] then Ok([])
    else
      var first, rest := Meaning(tys[0]), Meanings(tys[1..]);
      if first.Err? || rest.Err? then Err else Ok([first.value] + rest.value)
  }

  lemma {:induction false} MeaningOfStrip(ty: CType)
    ensures Meaning(Strip(ty)) == Meaning(ty)
  {
    if ty.TypeDecl? {
      MeaningOfStrip(ty.inner);
    }
  }

  /** The flag computes the compositional meaning, for every type tree: failing on the same ones. */
  lemma {:induction false} TypeNameIsMeaning(ty: CType, ptr: bool)
    ensures TypeName(ty, ptr, false) == if ptr then Behind(ty) else Meaning(ty)
    decreases ty, ptr
  {
    var t := Strip(ty);
    MeaningOfStrip(ty);
    if ptr && !t.FuncDecl? {
      TypeNameIsMeaning(t, false);
    } else {
      match t
      case FuncDecl(ret, params) =>
        TypeNameIsMeaning(ret, false);
        TypeNamesAreMeanings(params);
      case PtrDecl(inner) => TypeNameIsMeaning(inner, true);
      case ArrayDecl(inner) => TypeNameIsMeaning(inner, true);
      case _ =>
    }
  }

  lemma {:induction false} TypeNamesAreMeanings(tys: seq<CType>)
    ensures TypeNames(tys) == Meanings(tys)
    decreases tys, false
  {
    if tys != [] {
      TypeNameIsMeaning(tys[0], false);
      TypeNamesAreMeanings(tys[1..]);
    }
  }

  // ----- names

  datatype Width = Bits(n: nat) | IntWidth | AddressWidth

  datatype Scalar = Whole(width: Width, signed: bool) | Floating(bits: nat) | Boolean | Character | Nothing

  /** What the C names that are translated specially stand for. */
  function InC(name: string): Option<Scalar> {
    match name
    case "void" => Some(Nothing)
    case "_Bool" => Some(Boolean)
    case "char" => Some(Character)
    case "byte_t" => Some(Whole(Bits(8), false))
    case "int8_t" => Some(Whole(Bits(8), true))
    case "uint8_t" => Some(Whole(Bits(8), false))
    case "int16_t" => Some(Whole(Bits(16), true))
    case "uint16_t" => Some(Whole(Bits(16), false))
    case "int32_t" => Some(Whole(Bits(32), true))
    case "uint32_t" => Some(Whole(Bits(32), false))
    case "int64_t" => Some(Whole(Bits(64), true))
    case "uint64_t" => Some(Whole(Bits(64), false))
    case "int" => Some(Whole(IntWidth, true))
    case "size_t" => Some(Whole(AddressWidth, false))
    case "ptrdiff_t" => Some(Whole(AddressWidth, true))
    case "float32_t" => Some(Floating(32))
    case "float64_t" => Some(Floating(64))
    case _ => None
  }

  /** What the classes of Python's ctypes stand for. */
  function InCtypes(text: string): Option<Scalar> {
    match text
    case "None" => Some(Nothing)
    case "ctypes.c_bool" => Some(Boolean)
    case "ctypes.c_char" => Some(Character)
    case "ctypes.c_ubyte" => Some(Whole(Bits(8), false))
    case "ctypes.c_int8" => Some(Whole(Bits(8), true))
    case "ctypes.c_uint8" => Some(Whole(Bits(8), false))
    case "ctypes.c_int16" => Some(Whole(Bits(16), true))
    case "ctypes.c_uint16" => Some(Whole(Bits(16), false))
    case "ctypes.c_int32" => Some(Whole(Bits(32), true))
    case "ctypes.c_uint32" => Some(Whole(Bits(32), false))
    case "ctypes.c_int64" => Some(Whole(Bits(64), true))
    case "ctypes.c_uint64" => Some(Whole(Bits(64), false))
    case "ctypes.c_int" => Some(Whole(IntWidth, true))
    case "ctypes.c_size_t" => Some(Whole(AddressWidth, false))
    case "ctypes.c_ssize_t" => Some(Whole(AddressWidth, true))
    case "ctypes.c_float" => Some(Floating(32))
    case "ctypes.c_double" => Some(Floating(64))
    case _ => None
  }

  /** The C name for a ctypes class. */
  function Back(text: string): string {
    match text
    case "None" => "void"
    case "ctypes.c_bool" => "_Bool"
    case "ctypes.c_char" => "char"
    case "ctypes.c_ubyte" => "byte_t"
    case "ctypes.c_int8" => "int8_t"
    case "ctypes.c_uint8" => "uint8_t"
    case "ctypes.c_int16" => "int16_t"
    case "ctypes.c_uint16" => "uint16_t"
    case "ctypes.c_int32" => "int32_t"
    case "ctypes.c_uint32" => "uint32_t"
    case "ctypes.c_int64" => "int64_t"
    case "ctypes.c_uint64" => "uint64_t"
    case "ctypes.c_int" => "int"
    case "ctypes.c_size_t" => "size_t"
    case "ctypes.c_ssize_t" => "ptrdiff_t"
    case "ctypes.c_float" => "float32_t"
    case "ctypes.c_double" => "float64_t"
    case name => name
  }

  lemma NamesIff(names: seq<string>, typing: bool)
    ensures IdentifierName(names, typing).Ok? <==> |names| == 1 || names == ["unsigned", "char"]
    ensures IdentifierName(names, typing).Ok? ==> IdentifierName(names, typing).value.Text?
  {
  }

  /** The translation of a name, as text. */
  function Plain(name: string): string {
    var r := IdentifierName([name], false);
    if r.Ok? && r.value.Text? then r.value.name else ""
  }

  /** A fixed-width integer is translated to the ctypes class of the same name. */
  lemma FixedWidthNames(name: string)
    requires name in {"int8_t", "uint8_t", "int16_t", "uint16_t", "int32_t", "uint32_t", "int64_t", "uint64_t"}
    ensures |name| >= 2 && Plain(name) == "ctypes.c_" + name[..|name| - 2]
  {
  }

  /** Every name that is translated specially keeps its width, signedness and kind, and every other name is
      left as it is. */
  lemma ScalarKept(name: string)
    ensures if InC(name).Some? then InCtypes(Plain(name)) == InC(name) else Plain(name) == name
    ensures IdentifierName(["unsigned", "char"], false) == Ok(Text(Plain("byte_t")))
  {
  }

  lemma BackFromScalar(name: string)
    requires InC(name).Some?
    ensures Back(Plain(name)) == name
  {
  }

  lemma BackFromOther(name: string)
    requires name != "None" && (|name| < 7 || name[6] != '.')
    ensures Back(name) == name
  {
  }

  /** The C name can be told from the translation, if it has no dot in it and is not itself `None`. */
  lemma BackFromPlain(name: string)
    requires '.' !in name && name != "None"
    ensures Back(Plain(name)) == name
  {
    hide Back, IdentifierName, InC, InCtypes, Plain;
    ScalarKept(name);
    if InC(name).Some? {
      BackFromScalar(name);
    } else {
      BackFromOther(name);
    }
  }

  /** So different C names, which have no dots, are translated differently, except that `void` and a type
      called `None` are not. */
  lemma NamesKeptApart(a: string, b: string)
    requires '.' !in a && '.' !in b
    ensures Plain(a) == Plain(b) <==> a == b || (a in {"void", "None"} && b in {"void", "None"})
  {
    if a != "None" { BackFromPlain(a); }
    if b != "None" { BackFromPlain(b); }
  }

  // ----- the output for type annotations

  /** `part` occurs somewhere in `s`. */
  ghost predicate Occurs(s: string, part: string) {
    exists i :: 0 <= i <= |s| && part <= s[i..]
  }

  lemma {:induction false} ContainsIff(s: string, part: string)
    ensures Contains(s, part) <==> Occurs(s, part)
  {
    assert s[0..] == s;
    if s != [] {
      ContainsIff(s[1..], part);
      if i :| 0 <= i <= |s[1..]| && part <= s[1..][i..] {
        assert s[1..][i..] == s[i + 1..];
      }
      if i :| 0 < i <= |s| && part <= s[i..] {
        assert s[i..] == s[1..][i - 1..];
      }
    }
  }

  /** The Python type that a scalar is passed as, where that is not the ctypes class itself. */
  function InPython(sc: Scalar): Option<string> {
    match sc
    case Boolean => Some("bool")
    case Floating(_) => Some("float")
    case Whole(width, _) => if width.Bits? && width.n < 32 then None else Some("int")
    case Character => None
    case Nothing => None
  }

  /** Annotations name the Python type for booleans, floats and integers of 32 bits and more, and the class
      that the plain output names for the others; except that `unsigned char` is annotated as an integer. */
  lemma AnnotatedScalars(name: string)
    requires InC(name).Some?
    ensures var python := InPython(InC(name).value);
            IdentifierName([name], true) == Ok(Text(if python.Some? then python.value else Plain(name)))
    ensures IdentifierName(["unsigned", "char"], true) == Ok(Text("int"))
  {
  }

  /** Callbacks are annotated as pointers, sizes and page counts as integers, all else by name. */
  lemma AnnotatedOthers(name: string)
    requires InC(name).None?
    ensures IdentifierName([name], true) ==
            Ok(Text(if Occurs(name, "callback_t") then "ctypes._Pointer"
                    else if Occurs(name, "size") || Occurs(name, "pages") then "int"
                    else name))
  {
    hide Contains, Occurs;
    ContainsIff(name, "callback_t");
    ContainsIff(name, "size");
    ContainsIff(name, "pages");
  }

  /** Every pointer and array is annotated as a pointer, whatever it points at, and everything that is
      neither nor a name as in the plain output. */
  lemma {:induction false} Annotated(ty: CType, ptr: bool)
    ensures var t := Strip(ty);
            TypeName(ty, ptr, true) ==
            if ptr || t.PtrDecl? || t.ArrayDecl? then Ok(Text("ctypes._Pointer"))
            else if t.Identifier? then IdentifierName(t.names, true)
            else Meaning(t)
  {
    var t := Strip(ty);
    MeaningOfStrip(ty);
    TypeNameIsMeaning(t, false);
  }

  // ----- pointer depth

  /** Pointers and arrays around the innermost type, and that type. */
  function Depth(ty: CType): nat {
    match ty
    case TypeDecl(inner) => Depth(inner)
    case PtrDecl(inner) => 1 + Depth(inner)
    case ArrayDecl(inner) => 1 + Depth(inner)
    case _ => 0
  }

  function Core(ty: CType): CType {
    match ty
    case TypeDecl(inner) => Core(inner)
    case PtrDecl(inner) => Core(inner)
    case ArrayDecl(inner) => Core(inner)
    case _ => ty
  }

  function PyDepth(p: PyType): nat {
    if p.Pointer? then 1 + PyDepth(p.inner) else 0
  }

  function PyCore(p: PyType): PyType {
    if p.Pointer? then PyCore(p.inner) else p
  }

  /** One level of pointer is absorbed when the innermost type is a function or `void`; otherwise every
      pointer and array becomes a ctypes pointer. */
  lemma {:induction false} DepthKept(ty: CType)
    requires Meaning(ty).Ok?
    ensures var absorbed := if Depth(ty) > 0 && (Core(ty).FuncDecl? || IsVoid(Core(ty))) then 1 else 0;
            PyDepth(Meaning(ty).value) == Depth(ty) - absorbed
    ensures Core(ty).FuncDecl? <==> PyCore(Meaning(ty).value).FuncType?
    ensures if IsVoid(Core(ty)) && Depth(ty) > 0 then PyCore(Meaning(ty).value) == Text("ctypes.c_void_p")
            else Meaning(Core(ty)) == Ok(PyCore(Meaning(ty).value))
    decreases ty, 0
  {
    StripCore(ty);
    match ty
    case TypeDecl(inner) => DepthKept(inner);
    case PtrDecl(inner) => BehindDepth(inner);
    case ArrayDecl(inner) => BehindDepth(inner);
    case _ =>
  }

  lemma {:induction false} BehindDepth(inner: CType)
    requires Behind(inner).Ok?
    ensures var p := Behind(inner).value;
            var absorbed := if Core(inner).FuncDecl? || IsVoid(Core(inner)) then 1 else 0;
            && PyDepth(p) == 1 + Depth(inner) - absorbed
            && (Core(inner).FuncDecl? <==> PyCore(p).FuncType?)
            && (if IsVoid(Core(inner)) then PyCore(p) == Text("ctypes.c_void_p")
                else Meaning(Core(inner)) == Ok(PyCore(p)))
    decreases inner, 1
  {
    StripCore(inner);
    if !IsVoid(Strip(inner)) {
      DepthKept(inner);
    }
  }

  lemma {:induction false} StripCore(ty: CType)
    ensures Core(Strip(ty)) == Core(ty) && Depth(Strip(ty)) == Depth(ty)
    ensures Depth(ty) == 0 ==> Core(ty) == Strip(ty)
    ensures Depth(ty) > 0 ==> Strip(ty).PtrDecl? || Strip(ty).ArrayDecl?
  {
    if ty.TypeDecl? {
      StripCore(ty.inner);
    }
  }

  // ----- no pointer to nothing

  /** Prints as `None`. */
  predicate PrintsNone(p: PyType) {
    p.NoneObject? || p == Text("None")
  }

  /** The rendering has a pointer to `None` in it. */
  predicate HasPointerToNone(p: PyType) {
    match p
    case Pointer(inner) => PrintsNone(inner) || HasPointerToNone(inner)
    case FuncType(types) => exists i | 0 <= i < |types| :: HasPointerToNone(types[i])
    case _ => false
  }

  /** An anonymous struct, union or enum, or a type that is called `None`. */
  predicate Nameless(t: CType) {
    t == Tagged(None) || t == Tagged(Some("None")) || t == Identifier(["None"])
  }

  /** Something translated points straight at a nameless type.  What a function returns by pointer is
      not translated. */
  predicate PointsAtNameless(ty: CType) {
    match ty
    case TypeDecl(inner) => PointsAtNameless(inner)
    case PtrDecl(inner) => Nameless(Strip(inner)) || PointsAtNameless(inner)
    case ArrayDecl(inner) => Nameless(Strip(inner)) || PointsAtNameless(inner)
    case FuncDecl(ret, params) =>
      || (!ret.PtrDecl? && PointsAtNameless(ret))
      || exists i | 0 <= i < |params| :: PointsAtNameless(params[i])
    case _ => false
  }

  lemma NoneNames(names: seq<string>)
    requires IdentifierName(names, false).Ok?
    ensures PrintsNone(IdentifierName(names, false).value) <==> names == ["void"] || names == ["None"]
  {
    if names != ["unsigned", "char"] {
      assert names == [names[0]];
    }
  }

  lemma {:induction false} PrintsNoneIff(ty: CType)
    requires Meaning(ty).Ok?
    ensures PrintsNone(Meaning(ty).value) <==> Nameless(Strip(ty)) || Strip(ty) == Identifier(["void"])
  {
    MeaningOfStrip(ty);
    match Strip(ty)
    case Identifier(names) => NoneNames(names);
    case PtrDecl(inner) => BehindNotNone(inner);
    case ArrayDecl(inner) => BehindNotNone(inner);
    case _ =>
  }

  lemma BehindNotNone(inner: CType)
    requires Behind(inner).Ok?
    ensures !PrintsNone(Behind(inner).value)
  {
    MeaningOfStrip(inner);
    assert |"ctypes.c_void_p"| != |"None"|;
  }

  /** A pointer to `None` comes out exactly for those types, so `void *` never yields it. */
  lemma {:induction false} PointerToNoneIff(ty: CType)
    requires Meaning(ty).Ok?
    ensures HasPointerToNone(Meaning(ty).value) <==> PointsAtNameless(ty)
    decreases ty, 1
  {
    match ty
    case TypeDecl(inner) => PointerToNoneIff(inner);
    case PtrDecl(inner) => BehindToNoneIff(inner);
    case ArrayDecl(inner) => BehindToNoneIff(inner);
    case FuncDecl(ret, params) =>
      var types := Meaning(ty).value.types;
      if !ret.PtrDecl? { PointerToNoneIff(ret); }
      MeaningsAt(params);
      var rest := Meanings(params).value;
      forall i | 0 <= i < |params|
        ensures HasPointerToNone(types[i + 1]) <==> PointsAtNameless(params[i])
      {
        assert types[i + 1] == rest[i];
        PointerToNoneIff(params[i]);
      }
      assert HasPointerToNone(types[0]) <==> !ret.PtrDecl? && PointsAtNameless(ret);
      if j :| 0 <= j < |types| && HasPointerToNone(types[j]) {
        assert j > 0 ==> PointsAtNameless(params[j - 1]);
      }
      if i :| 0 <= i < |params| && PointsAtNameless(params[i]) {
        assert HasPointerToNone(types[i + 1]);
      }
    case _ =>
  }

  lemma {:induction false} MeaningsAt(tys: seq<CType>)
    requires Meanings(tys).Ok?
    ensures |Meanings(tys).value| == |tys|
    ensures forall i | 0 <= i < |tys| :: Meaning(tys[i]) == Ok(Meanings(tys).value[i])
    decreases |tys|
  {
    if tys != [] {
      MeaningsAt(tys[1..]);
    }
  }

  lemma {:induction false} BehindToNoneIff(inner: CType)
    requires Behind(inner).Ok?
    ensures HasPointerToNone(Behind(inner).value) <==> Nameless(Strip(inner)) || PointsAtNameless(inner)
    decreases inner, 2
  {
    StripPoints(inner);
    if !IsVoid(Strip(inner)) {
      PointerToNoneIff(inner);
      PrintsNoneIff(inner);
    }
  }

  lemma {:induction false} StripPoints(ty: CType)
    ensures PointsAtNameless(Strip(ty)) == PointsAtNameless(ty)
  {
    if ty.TypeDecl? {
      StripPoints(ty.inner);
    }
  }

  /** All of it about `type_name` itself, for the plain (not `typing`) output: with or without a
      pointer around, depth is kept but for the level absorbed, what is innermost is the meaning of the
      innermost C type, and a pointer to `None` comes out exactly for a pointer straight to a nameless
      type. */
  lemma TypeNameFaithful(ty: CType, ptr: bool)
    requires TypeName(ty, ptr, false).Ok?
    ensures var depth := Depth(ty) + if ptr then 1 else 0;
            var absorbed := if depth > 0 && (Core(ty).FuncDecl? || IsVoid(Core(ty))) then 1 else 0;
            && PyDepth(TypeName(ty, ptr, false).value) == depth - absorbed
            && (if IsVoid(Core(ty)) && depth > 0 then PyCore(TypeName(ty, ptr, false).value) == Text("ctypes.c_void_p")
                else Meaning(Core(ty)) == Ok(PyCore(TypeName(ty, ptr, false).value)))
    ensures HasPointerToNone(TypeName(ty, ptr, false).value) <==> PointsAtNameless(if ptr then PtrDecl(ty) else ty)
  {
    var whole := if ptr then PtrDecl(ty) else ty;
    TypeNameIsMeaning(ty, ptr);
    assert Meaning(whole) == TypeName(ty, ptr, false);
    DepthKept(whole);
    PointerToNoneIff(whole);
  }

  /** A pointer to an anonymous struct comes out as one to `None`. */
  lemma AnonymousPointsToNone()
    ensures TypeName(PtrDecl(TypeDecl(Tagged(None))), false, false) == Ok(Pointer(NoneObject))
    ensures HasPointerToNone(Pointer(NoneObject))
  {
    TypeNameIsMeaning(PtrDecl(TypeDecl(Tagged(None))), false);
  }
}
