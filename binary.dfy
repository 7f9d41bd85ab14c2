/**
 * Little-endian integer encodings, as the `byteorder` crate reads and writes
 * them (`read_i32::<LE>`, `write_i64::<LE>`, ...), and Rust's `as` casts
 * between signed and unsigned 64-bit integers.
 */
module Binary {

  type byte = x: int | 0 <= x < 256

  const TWO_31: int := 0x8000_0000
  const TWO_32: int := 0x1_0000_0000
  const TWO_63: int := 0x8000_0000_0000_0000
  const TWO_64: int := 0x1_0000_0000_0000_0000

  type i32 = x: int | -TWO_31 <= x < TWO_31
  type i64 = x: int | -TWO_63 <= x < TWO_63
  /** `u64`, and also `usize` on the 64-bit targets the tool is built for. */
  type u64 = x: int | 0 <= x < TWO_64

  function Pow256(n: nat): (p: nat)
    ensures p >= 1
  {
    if n == 0 then 1 else 256 * Pow256(n - 1)
  }

  /** The `width` low-order bytes of `x`, least significant first. */
  function EncodeLE(x: nat, width: nat): (r: seq<byte>)
    requires x < Pow256(width)
    ensures |r| == width
  {
    if width == 0 then [] else [(x % 256) as byte] + EncodeLE(x / 256, width - 1)
  }

  /** The unsigned value of a little-endian byte string. */
  function DecodeLE(b: seq<byte>): (x: nat)
    ensures x < Pow256(|b|)
  {
    if b == [] then 0 else b[0] + 256 * DecodeLE(b[1..])
  }

  lemma {:induction false} DecodeEncodeLE(x: nat, width: nat)
    requires x < Pow256(width)
    ensures DecodeLE(EncodeLE(x, width)) == x
  {
    if width > 0 {
      var r := EncodeLE(x, width);
      assert r[1..] == EncodeLE(x / 256, width - 1);
      DecodeEncodeLE(x / 256, width - 1);
    }
  }

  lemma {:induction false} EncodeDecodeLE(b: seq<byte>)
    ensures EncodeLE(DecodeLE(b), |b|) == b
  {
    if b != [] {
      var x := DecodeLE(b);
      assert x % 256 == b[0] && x / 256 == DecodeLE(b[1..]);
      EncodeDecodeLE(b[1..]);
    }
  }

  lemma Pow256Values()
    ensures Pow256(4) == TWO_32 && Pow256(8) == TWO_64
  {
    assert Pow256(2) == 0x1_0000;
    assert Pow256(4) == 0x1_0000 * 0x1_0000 by { assert Pow256(4) == 256 * 256 * Pow256(2); }
    assert Pow256(6) == 0x1_0000 * Pow256(4);
    assert Pow256(8) == 0x1_0000 * Pow256(6);
  }

  /** `write_i32::<LE>`: two's complement in four bytes. */
  function EncodeI32(x: i32): (r: seq<byte>)
    ensures |r| == 4
  {
    Pow256Values();
    EncodeLE(if x < 0 then x + TWO_32 else x, 4)
  }

  /** `read_i32::<LE>` on four bytes. */
  function DecodeI32(b: seq<byte>): i32
    requires |b| == 4
  {
    Pow256Values();
    var u := DecodeLE(b);
    if u >= TWO_31 then u - TWO_32 else u
  }

  /** `write_u64::<LE>`; also `write_i64::<LE>(v as i64)` for a u64 `v`, which emits the same bytes. */
  function EncodeU64(x: u64): (r: seq<byte>)
    ensures |r| == 8
  {
    Pow256Values();
    EncodeLE(x, 8)
  }

  /** `read_i64::<LE>` on eight bytes. */
  function DecodeI64(b: seq<byte>): i64
    requires |b| == 8
  {
    Pow256Values();
    var u := DecodeLE(b);
    if u >= TWO_63 then u - TWO_64 else u
  }

  /** Rust's `x as u64` for an `i64` (reinterprets the two's complement bits). */
  function I64AsU64(x: i64): (r: u64)
    ensures 0 <= x ==> r == x
  {
    if x < 0 then x + TWO_64 else x
  }

  /** Rust's `x as usize` for an `i32` (sign-extends, then reinterprets). */
  function I32AsU64(x: i32): (r: u64)
    ensures 0 <= x ==> r == x
    ensures x < 0 ==> r >= TWO_64 - TWO_31
  {
    if x < 0 then x + TWO_64 else x
  }

  /** Rust's `n as i32` for a `usize`: keeps the low 32 bits, read as two's complement. */
  function UsizeAsI32(n: nat): (r: i32)
    ensures (r - n) % TWO_32 == 0
    ensures n < TWO_31 ==> r == n
  {
    var low := n % TWO_32;
    if low >= TWO_31 then low - TWO_32 else low
  }

  /** Rust's `x as i64` for a `u64`. */
  function U64AsI64(x: u64): (r: i64)
    ensures x < TWO_63 ==> r == x
  {
    if x >= TWO_63 then x - TWO_64 else x
  }

  lemma I32RoundTrip(x: i32)
    ensures DecodeI32(EncodeI32(x)) == x
  {
    Pow256Values();
    DecodeEncodeLE(if x < 0 then x + TWO_32 else x, 4);
  }

  /** Every four bytes are the encoding of the i32 they decode to. */
  lemma I32Canonical(b: seq<byte>)
    requires |b| == 4
    ensures EncodeI32(DecodeI32(b)) == b
  {
    Pow256Values();
    EncodeDecodeLE(b);
  }

  /** Writing a u64 as an i64 and reading the i64 back `as u64` returns the u64. */
  lemma U64RoundTrip(x: u64)
    ensures I64AsU64(DecodeI64(EncodeU64(x))) == x
  {
    Pow256Values();
    DecodeEncodeLE(x, 8);
  }

  lemma CastsAreInverse(x: u64, y: i64)
    ensures I64AsU64(U64AsI64(x)) == x
    ensures U64AsI64(I64AsU64(y)) == y
  {
  }
}
