/** Bytes, Go integer arithmetic and MSB-first bit packing shared by every
    part of the driver: the framebuffer planes, the wire encoders and the
    legacy converter all place pixel x of a row at mask 0x80 >> (x % 8). */
module Bytes {

  type byte = bv8

  /** Go's uint8 where it is a number rather than a bit pattern (a palette or
      colour index). */
  newtype uint8 = x: int | 0 <= x < 256

  datatype Option<T> = None | Some(value: T)

  /** Go's `a / 8` on `int`, which truncates toward zero (Dafny's `/` is
      Euclidean): the byte of column a. It is written by repeated
      subtraction, and specified by the bounds of its remainder, so that no
      proof about a pixel's offset needs nonlinear arithmetic. */
  function Div8(a: int): (q: int)
    ensures a >= 0 ==> 8 * q <= a < 8 * q + 8
    ensures a < 0 ==> a <= 8 * q < a + 8
    decreases if a >= 0 then a else 1 - a
  {
    if 0 <= a < 8 then 0
    else if a >= 8 then 1 + Div8(a - 8)
    else -Div8(-a)
  }

  /** On a column that is not negative, Div8 is Dafny's division. */
  lemma Div8Nonneg(a: int)
    requires a >= 0
    ensures Div8(a) == a / 8 && a % 8 == a - 8 * Div8(a)
  {
  }

  /** `byte(0x80 >> (uint32(x) % 8))`: the MSB-first mask of column x. Converting a
      negative x to uint32 adds a multiple of 2^32, itself a multiple of 8, so the
      Go expression equals Dafny's Euclidean `x % 8`. */
  function Mask(x: int): byte
  {
    0x80 >> (x % 8)
  }

  /** Masks of columns agree exactly when the columns agree modulo 8. */
  lemma MaskDisjoint(x: int, y: int)
    ensures x % 8 == y % 8 ==> Mask(x) == Mask(y)
    ensures x % 8 != y % 8 ==> Mask(x) & Mask(y) == 0
    ensures Mask(x) != 0
  {
    var p, q := x % 8, y % 8;
    assert 0 <= p < 8 && 0 <= q < 8;
    if p == 0 { assert Mask(x) == 0x80; } else if p == 1 { assert Mask(x) == 0x40; }
    else if p == 2 { assert Mask(x) == 0x20; } else if p == 3 { assert Mask(x) == 0x10; }
    else if p == 4 { assert Mask(x) == 0x08; } else if p == 5 { assert Mask(x) == 0x04; }
    else if p == 6 { assert Mask(x) == 0x02; } else { assert Mask(x) == 0x01; }
    if q == 0 { assert Mask(y) == 0x80; } else if q == 1 { assert Mask(y) == 0x40; }
    else if q == 2 { assert Mask(y) == 0x20; } else if q == 3 { assert Mask(y) == 0x10; }
    else if q == 4 { assert Mask(y) == 0x08; } else if q == 5 { assert Mask(y) == 0x04; }
    else if q == 6 { assert Mask(y) == 0x02; } else { assert Mask(y) == 0x01; }
  }

  /** The byte that holds the pixels lo .. hi-1 of a row-major stream f, each at
      the mask of its own position: the shape every encoder of the driver emits. */
  function Bits(f: nat -> bool, lo: nat, hi: nat): byte
    decreases hi
  {
    if hi <= lo then 0 else Bits(f, lo, hi - 1) | (if f(hi - 1) then Mask(hi - 1) else 0)
  }

  /** Byte i of a densely packed stream, with its first k pixels filled in. */
  function Pack(f: nat -> bool, i: nat, k: nat): byte
  {
    Bits(f, 8 * i, 8 * i + k)
  }

  /** Adding the next pixel sets exactly its own bit. */
  lemma BitsStep(f: nat -> bool, lo: nat, hi: nat)
    requires lo <= hi
    ensures Bits(f, lo, hi + 1) == Bits(f, lo, hi) | (if f(hi) then Mask(hi) else 0)
  {
  }

  /** A position whose column is not among lo .. hi-1 is clear. */
  lemma {:induction false} BitsOutside(f: nat -> bool, lo: nat, hi: nat, x: int)
    requires forall m :: lo <= m < hi ==> m % 8 != x % 8
    ensures Bits(f, lo, hi) & Mask(x) == 0
  {
    if hi > lo {
      BitsOutside(f, lo, hi - 1, x);
      MaskDisjoint(hi - 1, x);
    }
  }

  /** Inside a window of at most 8 consecutive pixels, each pixel's bit reads back. */
  lemma {:induction false} BitsInside(f: nat -> bool, lo: nat, hi: nat, m: nat)
    requires lo <= m < hi <= lo + 8
    ensures (Bits(f, lo, hi) & Mask(m) != 0) == f(m)
  {
    MaskDisjoint(m, m);
    if m == hi - 1 {
      BitsOutside(f, lo, hi - 1, m);
    } else {
      BitsInside(f, lo, hi - 1, m);
      MaskDisjoint(hi - 1, m);
    }
  }

  /** Packing is exact: bit j of byte i of the packed stream is pixel 8*i + j. */
  lemma PackAt(f: nat -> bool, i: nat, j: nat)
    requires j < 8
    ensures (Pack(f, i, 8) & Mask(j) != 0) == f(8 * i + j)
  {
    assert (8 * i + j) % 8 == j;
    BitsInside(f, 8 * i, 8 * i + 8, 8 * i + j);
  }

  /** `Repeat(v, n)`: bytes.Repeat([]byte{v}, n). */
  function Repeat(v: byte, n: nat): seq<byte>
  {
    seq(n, _ => v)
  }

  /** Bytewise subset: every bit set in h is set in b. */
  predicate Within(h: byte, b: byte)
  {
    h & !b == 0
  }
}
