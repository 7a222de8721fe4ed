/** Go's fixed-width integers: 8-bit bytes, 32-bit words, and the bit operators the
    VarInt loops use.  A word is kept as its unsigned value; `ToInt32` reads it as
    two's complement. */
module Bits {
  type byte = x: int | 0 <= x < 256
  type int32 = x: int | -0x8000_0000 <= x < 0x8000_0000
  type uint32 = x: int | 0 <= x < 0x1_0000_0000

  const TWO32: nat := 0x1_0000_0000

  function ToUint32(v: int32): uint32 {
    if v < 0 then v + TWO32 else v
  }

  function ToInt32(u: uint32): int32 {
    if u < 0x8000_0000 then u else u - TWO32
  }

  // Go's conversion `int32(n)`: keep the low 32 bits.
  function Truncate32(n: int): int32 {
    ToInt32(n % TWO32)
  }

  function Pow2(k: nat): (p: nat)
    ensures p >= 1
  {
    if k == 0 then 1 else 2 * Pow2(k - 1)
  }

  // `a | b`, `a & b` and `a &^ b`, bit by bit.
  function Or(a: nat, b: nat): nat {
    if a == 0 && b == 0 then 0
    else (if a % 2 == 1 || b % 2 == 1 then 1 else 0) + 2 * Or(a / 2, b / 2)
  }

  function And(a: nat, b: nat): nat {
    if a == 0 || b == 0 then 0
    else (if a % 2 == 1 && b % 2 == 1 then 1 else 0) + 2 * And(a / 2, b / 2)
  }

  function AndNot(a: nat, b: nat): nat {
    if a == 0 then 0
    else (if a % 2 == 1 && b % 2 == 0 then 1 else 0) + 2 * AndNot(a / 2, b / 2)
  }

  // `v << s` on a 32-bit word: bits shifted past bit 31 are lost.
  function Shl32(v: nat, s: nat): uint32 {
    v * Pow2(s) % TWO32
  }

  function Shr(v: nat, s: nat): int {
    v / Pow2(s)
  }

  lemma {:induction false} OrDisjoint(a: nat, c: nat, k: nat)
    requires a < Pow2(k)
    ensures Or(a, c * Pow2(k)) == a + c * Pow2(k)
  {
    if k == 0 {
      OrZero(c);
    } else {
      var p := Pow2(k - 1);
      assert c * Pow2(k) == 2 * (c * p);
      OrDisjoint(a / 2, c, k - 1);
    }
  }

  lemma {:induction false} OrZero(c: nat)
    ensures Or(0, c) == c
  {
    if c != 0 {
      OrZero(c / 2);
    }
  }

  // `b & 0x80` looks at the top bit of a byte.
  lemma TopBit(b: byte)
    ensures And(b, 128) == 0 <==> b < 128
  {
    assert Pow2(7) == 2 * Pow2(6) == 4 * Pow2(5) == 8 * Pow2(4) && Pow2(4) == 2 * Pow2(3) == 16;
    AndTop(b, 7);
  }

  lemma {:induction false} AndTop(a: nat, k: nat)
    requires a < 2 * Pow2(k)
    ensures And(a, Pow2(k)) == if a < Pow2(k) then 0 else Pow2(k)
  {
    if k == 0 {
      assert a == 0 || And(a, 1) == 1 + 2 * And(0, 0);
    } else if a != 0 {
      AndTop(a / 2, k - 1);
    }
  }

  // Masks of the form 2^k - 1 take the remainder modulo 2^k.
  lemma {:induction false} MaskIsRemainder(a: nat, k: nat)
    ensures And(a, Pow2(k) - 1) == a % Pow2(k)
    ensures AndNot(a, Pow2(k) - 1) == a - a % Pow2(k)
  {
    if k == 0 {
      AndNotZero(a);
    } else if a != 0 {
      var p := Pow2(k - 1);
      MaskIsRemainder(a / 2, k - 1);
      assert (Pow2(k) - 1) / 2 == p - 1;
      RemainderHalves(a, p);
    }
  }

  // `u & (2^k - 1) | 2^k`
  lemma MarkAbove(u: nat, k: nat)
    ensures Or(And(u, Pow2(k) - 1), Pow2(k)) == u % Pow2(k) + Pow2(k)
  {
    MaskIsRemainder(u, k);
    OrDisjoint(u % Pow2(k), 1, k);
  }

  lemma RemainderHalves(a: nat, p: nat)
    requires p > 0
    ensures a % (2 * p) == 2 * (a / 2 % p) + a % 2
  {
    var q, r := a / 2 / p, a / 2 % p;
    assert a == (2 * p) * q + (2 * r + a % 2);
    DivModUnique(a, 2 * p, q, 2 * r + a % 2);
  }

  lemma DivModUnique(a: nat, d: nat, q: nat, r: nat)
    requires d > 0 && a == d * q + r && r < d
    ensures a / d == q && a % d == r
  {
    var q', r' := a / d, a % d;
    assert a == d * q' + r' && r' < d;
    if q > q' {
      MultipleAtLeast(d, q, q');
    } else if q < q' {
      MultipleAtLeast(d, q', q);
    }
  }

  lemma {:induction false} MultipleAtLeast(d: nat, x: nat, y: nat)
    requires x > y
    ensures d * x >= d * y + d
  {
    if x > y + 1 {
      MultipleAtLeast(d, x - 1, y);
    }
    assert d * x == d * (x - 1) + d;
  }

  lemma {:induction false} AndNotZero(a: nat)
    ensures AndNot(a, 0) == a
  {
    if a != 0 {
      AndNotZero(a / 2);
    }
  }
}
