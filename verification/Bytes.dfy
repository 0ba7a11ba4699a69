/** Fixed-width integers and byte strings shared by every module. */
module Bytes {
  const U32_SIZE := 0x1_0000_0000

  datatype Option<T> = None | Some(value: T)

  type Byte = x: int | 0 <= x < 256
  type U16 = x: int | 0 <= x < 0x1_0000
  type U32 = x: int | 0 <= x < U32_SIZE

  /** The numbers 0 to n-1. */
  function UpTo(n: nat): (r: set<nat>)
    ensures forall j :: j in r <==> 0 <= j < n
  {
    if n == 0 then {} else UpTo(n - 1) + {n - 1}
  }

  function Min(x: int, y: int): int {
    if x < y then x else y
  }

  predicate IsInt16(x: int) {
    -0x8000 <= x < 0x8000
  }

  /** Addition of `uint32_t` counters: wraps around. */
  function AddU32(x: U32, y: nat): U32 {
    (x + y) % U32_SIZE
  }

  /** A wrapping counter follows the exact count modulo 2^32. */
  lemma CountU32(exact: nat, n: nat)
    ensures AddU32(exact % U32_SIZE, n) == (exact + n) % U32_SIZE
  {
    assert exact == U32_SIZE * (exact / U32_SIZE) + exact % U32_SIZE;
  }

  /** The low byte of an accumulator does not notice that the accumulator wrapped. */
  lemma LowByteWraps(exact: nat)
    ensures exact % U32_SIZE % 256 == exact % 256
  {
    var q := exact / U32_SIZE;
    assert exact == 256 * (q * 0x100_0000) + exact % U32_SIZE;
  }

  lemma Assoc<T>(a: seq<T>, b: seq<T>, c: seq<T>)
    ensures a + (b + c) == (a + b) + c
  {
  }

  lemma SliceAppend(s: seq<Byte>, t: seq<Byte>, i: nat)
    requires i <= |s|
    ensures (s + t)[i..i + (|s| - i + |t|)] == s[i..] + t
  {
  }

  /** Exact sum of the bytes. */
  function Sum(s: seq<Byte>): nat {
    if s == [] then 0 else Sum(s[..|s| - 1]) + s[|s| - 1]
  }

  /** Little-endian 16-bit word. */
  function LowByte(x: U16): Byte { x % 256 }
  function HighByte(x: U16): Byte { x / 256 }
  function Le16(lo: Byte, hi: Byte): U16 { lo + 256 * hi }

  /** Concatenation of a list of byte strings. */
  function Flatten(parts: seq<seq<Byte>>): seq<Byte> {
    if parts == [] then [] else Flatten(parts[..|parts| - 1]) + parts[|parts| - 1]
  }
}
