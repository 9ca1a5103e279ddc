/** Machine integers, byte strings and hashes shared by every other module. */
module Primitives {

  datatype Option<+T> = None | Some(value: T)

  datatype Result<+T, +E> = Ok(value: T) | Err(error: E)

  newtype byte = x: int | 0 <= x < 256

  type Bytes = seq<byte>

  const TWO_32: nat := 0x1_0000_0000
  const TWO_64: nat := 0x1_0000_0000_0000_0000

  type u32 = x: int | 0 <= x < TWO_32
  type u64 = x: int | 0 <= x < TWO_64
  type i32 = x: int | -0x8000_0000 <= x < 0x8000_0000

  /** A Rust vector: its length fits a 64-bit `usize`. */
  type Vec<T> = s: seq<T> | |s| < TWO_64 witness []

  type Script = Vec<byte>

  /** A 32-byte SHA-256d value. */
  type Hash = h: Bytes | |h| == 32 witness Zeros(32)

  /** SHA-256d itself is a parameter everywhere: every result holds for every such function. */
  type HashFn = Bytes -> Hash

  function Zeros(n: nat): (b: Bytes)
    ensures |b| == n
  {
    seq(n, _ => 0)
  }

  const ZERO_HASH: Hash := Zeros(32)

  /** Rust's `u32 as i32`. */
  function AsI32(x: u32): (r: i32)
    ensures r % TWO_32 == x
  {
    if x < 0x8000_0000 then x else x - TWO_32
  }

  /** Rust's `i32 as u32`. */
  function AsU32(x: i32): (r: u32)
    ensures AsI32(r) == x
  {
    if x < 0 then x + TWO_32 else x
  }

  function Pow256(k: nat): (p: nat)
    ensures p > 0
  {
    if k == 0 then 1 else 256 * Pow256(k - 1)
  }

  lemma Pow256Values()
    ensures Pow256(2) == 0x1_0000
    ensures Pow256(4) == TWO_32
    ensures Pow256(8) == TWO_64
  {
    assert Pow256(4) == TWO_32;
    assert Pow256(6) == 0x1_0000 * Pow256(4);
    assert Pow256(8) == 0x1_0000 * Pow256(6);
  }

  /** Fixed-width little-endian encoding of the low `width` bytes of `n`. */
  function LittleEndian(n: nat, width: nat): (b: Bytes)
    ensures |b| == width
  {
    if width == 0 then [] else [(n % 256) as byte] + LittleEndian(n / 256, width - 1)
  }

  function FromLittleEndian(b: Bytes): nat {
    if b == [] then 0 else b[0] as nat + 256 * FromLittleEndian(b[1..])
  }

  lemma {:induction false} LittleEndianDecodes(n: nat, width: nat)
    requires n < Pow256(width)
    ensures FromLittleEndian(LittleEndian(n, width)) == n
  {
    if width > 0 {
      LittleEndianDecodes(n / 256, width - 1);
      assert LittleEndian(n, width)[1..] == LittleEndian(n / 256, width - 1);
    }
  }

  lemma {:induction false} LittleEndianEncodes(b: Bytes)
    ensures FromLittleEndian(b) < Pow256(|b|)
    ensures LittleEndian(FromLittleEndian(b), |b|) == b
  {
    if b != [] {
      LittleEndianEncodes(b[1..]);
      var n, high := FromLittleEndian(b), FromLittleEndian(b[1..]);
      assert n == b[0] as nat + 256 * high;
      assert n % 256 == b[0] as nat && n / 256 == high;
      assert b == [b[0]] + b[1..];
    }
  }

  /** The longest proper start of a non-empty sequence. */
  function Init<T>(s: seq<T>): (r: seq<T>)
    requires s != []
  {
    s[..|s| - 1]
  }

  function Last<T>(s: seq<T>): T
    requires s != []
  {
    s[|s| - 1]
  }
}
