/** Fixed-width integers, byte strings and the small types shared by every component. */
module Bytes {
  type byte = x: int | 0 <= x < 0x100
  type u16 = x: int | 0 <= x < 0x1_0000
  type u32 = x: int | 0 <= x < 0x1_0000_0000
  type bytes = seq<byte>

  datatype Option<+T> = None | Some(value: T)

  function Min(a: int, b: int): int {
    if a < b then a else b
  }

  /** An 8-bit counter after one increment. */
  function Next8(x: byte): byte {
    if x == 0xFF then 0 else x + 1
  }

  /** What an 8-bit counter shows after n increments from zero. */
  function Mod8(n: nat): byte {
    n % 0x100
  }

  lemma Mod8Next(n: nat)
    ensures Next8(Mod8(n)) == Mod8(n + 1)
  {
  }

  /** It shows the same again exactly after a multiple of 256. */
  lemma SeqGap(n: nat, gap: nat)
    ensures Mod8(n + gap) == Mod8(n) <==> gap % 0x100 == 0
  {
  }

  /** A 32-bit statistics counter after one increment. */
  function Next32(x: u32): u32 {
    if x == 0xFFFF_FFFF then 0 else x + 1
  }

  /** What a 32-bit counter shows after n increments from zero. */
  function Low32(n: nat): u32 {
    n % 0x1_0000_0000
  }

  lemma Low32Next(n: nat)
    ensures Low32(n + 1) == Next32(Low32(n))
  {
  }

  /** Little-endian 16-bit value at the front of a buffer (sh2_util.c, readu16). */
  function ReadU16(p: bytes): u16
    requires |p| >= 2
  {
    p[0] as int + 0x100 * p[1] as int
  }

  /** Little-endian 32-bit value at the front of a buffer (sh2_util.c, readu32). */
  function ReadU32(p: bytes): u32
    requires |p| >= 4
  {
    p[0] as int + 0x100 * p[1] as int + 0x1_0000 * p[2] as int + 0x100_0000 * p[3] as int
  }

  function Concat<T>(parts: seq<seq<T>>): seq<T> {
    if parts == [] then [] else parts[0] + Concat(parts[1..])
  }

  lemma ConcatAppend<T>(parts: seq<seq<T>>, last: seq<T>)
    ensures Concat(parts + [last]) == Concat(parts) + last
  {
    if parts == [] {
      assert parts + [last] == [last];
    } else {
      assert (parts + [last])[1..] == parts[1..] + [last];
      ConcatAppend(parts[1..], last);
    }
  }
}
