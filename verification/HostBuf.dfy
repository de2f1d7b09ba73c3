/** The two host-buffer APIs of `benches/compile_time_builtins.rs` over one flat native memory.
    The store's data is a 16-byte header (buffer pointer, buffer length); the buffer itself lies
    elsewhere.  The safe API is a set of closures over the buffer as a slice; the fast one is
    WebAssembly text that loads the header through unsafe intrinsics and adds addresses modulo
    2^64.  Both are proved against one specification on byte sequences. */
module HostBuf {
  import opened Options

  const WORD: nat := 0x1_0000_0000_0000_0000
  const I32: nat := 0x1_0000_0000

  type byte = b: int | 0 <= b < 256
  type u64 = n: int | 0 <= n < WORD
  type u32 = n: int | 0 <= n < I32

  /** `i64.add`. */
  function Add64(a: u64, b: u64): (r: u64)
    ensures r == (a + b) % WORD
  {
    if a + b < WORD then a + b else a + b - WORD
  }

  /** `i32.add`. */
  function Add32(a: u32, b: u32): (r: u32)
    ensures r == (a + b) % I32
  {
    if a + b < I32 then a + b else a + b - I32
  }

  /** A `u8` parameter as lifted from, or a native byte store as given, a core `i32`. */
  function LowByte(value: u32): byte {
    value % 256
  }

  /** `b` increased by `k`, as a `u8`. */
  function Plus(b: byte, k: nat): byte {
    (b + k) % 256
  }

  lemma PlusPlus(b: byte, j: nat, k: nat)
    ensures Plus(Plus(b, j), k) == Plus(b, j + k)
  {
    var q := (b + j) / 256;
    assert b + j == 256 * q + Plus(b, j);
    assert b + j + k == 256 * q + (Plus(b, j) + k);
  }

  function LittleEndian(bytes: seq<byte>): nat {
    if bytes == [] then 0 else bytes[0] + 256 * LittleEndian(bytes[1..])
  }

  function Pow256(k: nat): (p: nat)
  {
    if k == 0 then 1 else 256 * Pow256(k - 1)
  }

  lemma {:induction false} LittleEndianBound(bytes: seq<byte>)
    ensures LittleEndian(bytes) < Pow256(|bytes|)
  {
    if bytes != [] {
      LittleEndianBound(bytes[1..]);
    }
  }

  /** `u64-native-load`. */
  function Load64(mem: seq<byte>, at: nat): (n: u64)
    requires at + 8 <= |mem|
  {
    var bytes := mem[at..at + 8];
    LittleEndianBound(bytes);
    assert Pow256(8) == WORD by { assert Pow256(4) == I32; }
    LittleEndian(bytes)
  }

  /** The low `k` bytes of a word, least significant first. */
  function Bytes(n: nat, k: nat): (bytes: seq<byte>)
    ensures |bytes| == k
  {
    if k == 0 then [] else [n % 256] + Bytes(n / 256, k - 1)
  }

  /** What is written is read back. */
  lemma {:induction false} WordRoundTrip(n: nat, k: nat)
    requires n < Pow256(k)
    ensures LittleEndian(Bytes(n, k)) == n
  {
    if k > 0 {
      WordRoundTrip(n / 256, k - 1);
      assert Bytes(n, k)[1..] == Bytes(n / 256, k - 1);
    }
  }

  method WriteWord(mem: array<byte>, at: nat, n: u64)
    requires at + 8 <= mem.Length
    modifies mem
    ensures Load64(mem[..], at) == n
    ensures forall a | 0 <= a < mem.Length && !(at <= a < at + 8) :: mem[a] == old(mem[a])
  {
    var bytes := Bytes(n, 8);
    for k := 0 to 8
      invariant forall j | 0 <= j < k :: mem[at + j] == bytes[j]
      invariant forall a | 0 <= a < mem.Length && !(at <= a < at + 8) :: mem[a] == old(mem[a])
    {
      mem[at + k] := bytes[k];
    }
    assert mem[..][at..at + 8] == bytes;
    assert Pow256(8) == WORD by { assert Pow256(4) == I32; }
    WordRoundTrip(n, 8);
  }

  // ----- what both APIs promise, on the buffer as a byte sequence

  function ByteAt(buf: seq<byte>, i: u64): Option<byte> {
    if i < |buf| then Some(buf[i]) else None
  }

  /** Every byte of `buf` increased by `k`, modulo 256. */
  function Increased(buf: seq<byte>, k: nat): (r: seq<byte>) {
    seq(|buf|, i requires 0 <= i < |buf| => Plus(buf[i], k))
  }

  lemma IncreasedTwice(buf: seq<byte>, j: nat, k: nat)
    ensures Increased(Increased(buf, j), k) == Increased(buf, j + k)
  {
    forall i | 0 <= i < |buf|
      ensures Increased(Increased(buf, j), k)[i] == Increased(buf, j + k)[i]
    {
      PlusPlus(buf[i], j, k);
    }
  }

  lemma IncreasedByNothing(buf: seq<byte>)
    ensures Increased(buf, 0) == buf
  {
  }

  /** A buffer of zeros ends as the benchmark asserts, every byte `k as u8`. */
  lemma IncreasedZeros(buf: seq<byte>, k: nat)
    requires forall b | b in buf :: b == 0
    ensures forall b | b in Increased(buf, k) :: b == k % 256
  {
    assert forall i | 0 <= i < |buf| :: buf[i] in buf;
  }

  /** The first `n` bytes increased by one, the rest as they were. */
  ghost function IncreasedUpTo(buf: seq<byte>, n: nat): seq<byte>
    requires n <= |buf|
  {
    Increased(buf, 1)[..n] + buf[n..]
  }

  lemma IncreaseNext(buf: seq<byte>, n: nat)
    requires n < |buf|
    ensures IncreasedUpTo(buf, n)[n := Increased(IncreasedUpTo(buf, n), 1)[n]] == IncreasedUpTo(buf, n + 1)
  {
  }

  /** Which implementation of the imported instance a component is linked with. */
  datatype Api = Closures | CompileTimeBuiltins

  class Store {
    /** The native address space, the address of the store's data in it, and the host's largest
        `usize`. */
    const mem: array<byte>
    const base: nat
    const usizeMax: nat

    /** The buffer the store was made with; nothing moves or resizes it. */
    ghost const ptr: u64
    ghost const len: u64

    /** The header is in memory and describes a buffer in memory, apart from the header; an empty
        buffer may have any pointer. */
    ghost predicate Valid()
      reads mem
    {
      && base + 16 <= mem.Length <= usizeMax + 1 <= WORD
      && Load64(mem[..], base) == ptr && Load64(mem[..], base + 8) == len
      && (len > 0 ==> ptr + len <= mem.Length && (ptr + len <= base || base + 16 <= ptr))
    }

    /** `ExposedBuf::get`: the buffer as a slice. */
    ghost function Contents(): (buf: seq<byte>)
      reads mem
      requires Valid()
      ensures |buf| == len
    {
      if len == 0 then [] else mem[ptr..ptr + len]
    }

    /** `ExposedBuf::new`, once the buffer is allocated: its header is written, apart from it. */
    constructor (mem: array<byte>, base: nat, usizeMax: nat, ptr: u64, len: u64)
      requires base + 16 <= mem.Length <= usizeMax + 1 <= WORD
      requires len > 0 ==> ptr + len <= mem.Length && (ptr + len <= base || base + 16 <= ptr)
      modifies mem
      ensures Valid() && this.mem == mem && this.len == len && this.ptr == ptr
      ensures Contents() == if len == 0 then [] else old(mem[ptr..ptr + len])
    {
      this.mem, this.base, this.usizeMax, this.ptr, this.len := mem, base, usizeMax, ptr, len;
      new;
      WriteWord(mem, base, ptr);
      ghost var was := mem[..];
      WriteWord(mem, base + 8, len);
      assert mem[..][base..base + 8] == was[base..base + 8];
    }

    // ----- the closures of `make_linker`

    method HostGet(i: u64) returns (r: Option<byte>)
      requires Valid()
      ensures r == ByteAt(Contents(), i)
    {
      if i > usizeMax { return None; }
      var p, n := Load64(mem[..], base), Load64(mem[..], base + 8);
      if i < n { r := Some(mem[p + i]); } else { r := None; }
    }

    method HostSet(i: u64, x: byte) returns (ok: bool)
      requires Valid()
      modifies mem
      ensures Valid() && ok == (i < |old(Contents())|)
      ensures OnlyByteChanged(old(mem[..]), i, ok)
      ensures Contents() == if ok then old(Contents())[i := x] else old(Contents())
    {
      if i > usizeMax { return false; }
      var p, n := Load64(mem[..], base), Load64(mem[..], base + 8);
      ok := i < n;
      if ok {
        mem[p + i] := x;
      }
      HeaderKept(old(mem[..]));
    }

    method HostLen() returns (n: u64)
      requires Valid()
      ensures n == |Contents()|
    {
      n := Load64(mem[..], base + 8);
    }

    // ----- the WebAssembly text of `COMPILE_TIME_BUILTINS`

    method GetBufPtr() returns (p: u64)
      requires Valid()
      ensures p == ptr
    {
      p := Load64(mem[..], Add64(base, 0));
    }

    method GetBufLen() returns (n: u64)
      requires Valid()
      ensures n == len
    {
      n := Load64(mem[..], Add64(base, 8));
    }

    /** False where the text reaches `unreachable`. */
    method BoundsCheck(i: u64) returns (ok: bool)
      requires Valid()
      ensures ok <==> i < len
    {
      var n := GetBufLen();
      ok := i < n;
    }

    method WatGet(i: u64) returns (r: Option<byte>)
      requires Valid()
      ensures r == ByteAt(Contents(), i)
    {
      var ok := BoundsCheck(i);
      if !ok { return None; }
      var p := GetBufPtr();
      r := Some(mem[Add64(p, i)]);
    }

    method WatSet(i: u64, value: u32) returns (ok: bool)
      requires Valid()
      modifies mem
      ensures Valid() && ok == (i < |old(Contents())|)
      ensures OnlyByteChanged(old(mem[..]), i, ok)
      ensures Contents() == if ok then old(Contents())[i := LowByte(value)] else old(Contents())
    {
      ok := BoundsCheck(i);
      if ok {
        var p := GetBufPtr();
        var a, x := Add64(p, i), LowByte(value);
        assert a == p + i;
        mem[a] := x;
      }
      HeaderKept(old(mem[..]));
    }

    method WatLen() returns (n: u64)
      requires Valid()
      ensures n == |Contents()|
    {
      n := GetBufLen();
    }

    /** Memory is what it was, except possibly at the addressed byte. */
    ghost predicate OnlyByteChanged(was: seq<byte>, i: u64, changed: bool)
      reads mem
    {
      && |was| == mem.Length
      && forall a | 0 <= a < mem.Length && !(changed && a == ptr + i) :: mem[a] == was[a]
    }

    /** The header reads the same in any memory that agrees on its 16 bytes. */
    lemma HeaderKept(was: seq<byte>)
      requires |was| == mem.Length && base + 16 <= mem.Length
      requires forall a | base <= a < base + 16 :: mem[a] == was[a]
      ensures Load64(mem[..], base) == Load64(was, base)
      ensures Load64(mem[..], base + 8) == Load64(was, base + 8)
    {
      assert mem[..][base..base + 8] == was[base..base + 8];
      assert mem[..][base + 8..base + 16] == was[base + 8..base + 16];
    }

    // ----- calls from a component linked with either implementation

    method Get(api: Api, i: u64) returns (r: Option<byte>)
      requires Valid()
      ensures r == ByteAt(Contents(), i)
    {
      match api
      case Closures => r := HostGet(i);
      case CompileTimeBuiltins => r := WatGet(i);
    }

    /** The `u8` parameter is lifted from a core `i32` modulo 256. */
    method Set(api: Api, i: u64, value: u32) returns (ok: bool)
      requires Valid()
      modifies mem
      ensures Valid() && ok == (i < |old(Contents())|)
      ensures OnlyByteChanged(old(mem[..]), i, ok)
      ensures Contents() == if ok then old(Contents())[i := LowByte(value)] else old(Contents())
    {
      match api
      case Closures => ok := HostSet(i, LowByte(value));
      case CompileTimeBuiltins => ok := WatSet(i, LowByte(value));
      assert LowByte(LowByte(value)) == LowByte(value);
    }

    method Len(api: Api) returns (n: u64)
      requires Valid()
      ensures n == |Contents()|
    {
      match api
      case Closures => n := HostLen();
      case CompileTimeBuiltins => n := WatLen();
    }

    ghost predicate OnlyBufferChanged(was: seq<byte>)
      reads mem
    {
      && |was| == mem.Length
      && forall a | 0 <= a < mem.Length && !(ptr <= a < ptr + len) :: mem[a] == was[a]
    }

    /** The body of the guest's loop: one byte loaded, incremented as an `i32` and stored. */
    method IncrementByte(api: Api, i: u64, ghost buf: seq<byte>) returns (ok: bool)
      requires Valid() && i < len == |buf| && Contents() == IncreasedUpTo(buf, i)
      modifies mem
      ensures ok && Valid()
      ensures Contents() == IncreasedUpTo(buf, i + 1)
      ensures OnlyByteChanged(old(mem[..]), i, true)
    {
      var b := Get(api, i);
      if b.None? { return false; }
      ok := Set(api, i, Add32(b.value, 1));
      assert LowByte(Add32(b.value, 1)) == Plus(b.value, 1);
      IncreaseNext(buf, i);
    }

    /** The exported function of `HOST_BUF_API_GUEST_WASM`.  It never traps, ends for every buffer
        length, and adds one to every byte. */
    method GuestMain(api: Api) returns (ok: bool)
      requires Valid()
      modifies mem
      ensures ok && Valid()
      ensures Contents() == Increased(old(Contents()), 1)
      ensures OnlyBufferChanged(old(mem[..]))
    {
      var i: u64 := 0;
      var n := Len(api);
      ghost var buf := Contents();
      while true
        invariant Valid() && len == |buf| == n && i <= n
        invariant Contents() == IncreasedUpTo(buf, i)
        invariant OnlyBufferChanged(old(mem[..]))
        decreases n - i
      {
        if i >= n {
          assert IncreasedUpTo(buf, n) == Increased(buf, 1);
          return true;
        }
        ok := IncrementByte(api, i, buf);
        if !ok { return; }
        i := Add64(i, 1);
      }
    }

    /** The benchmark's loop: `iters` calls add `iters` modulo 256 to every byte. */
    method Bench(api: Api, iters: u64) returns (ok: bool)
      requires Valid()
      modifies mem
      ensures ok && Valid()
      ensures Contents() == Increased(old(Contents()), iters)
    {
      ghost var buf := Contents();
      IncreasedByNothing(buf);
      for k := 0 to iters
        invariant Valid() && Contents() == Increased(buf, k)
      {
        IncreasedTwice(buf, k, 1);
        ok := GuestMain(api);
        if !ok { return; }
      }
      ok := true;
    }
  }
}
