/**
 Bitwise operators of the C++ sources, defined digit by digit on unbounded naturals, and the
 facts that turn them into arithmetic: or-ing into cleared low bits is addition, masking with
 2^k - 1 is a remainder.  Unsigned 32-bit shifts drop what leaves the word.
 */
module Bits {

  const WORD: int := 0x1_0000_0000

  type Word = x: int | 0 <= x < WORD

  type Byte = b: int | 0 <= b < 256

  function Pow2(k: nat): (p: nat)
    ensures 1 <= p
  {
    if k == 0 then 1 else 2 * Pow2(k - 1)
  }

  function Or(x: nat, y: nat): nat
    decreases x + y
  {
    if x == 0 && y == 0 then 0
    else (if x % 2 == 1 || y % 2 == 1 then 1 else 0) + 2 * Or(x / 2, y / 2)
  }

  function And(x: nat, y: nat): nat
    decreases x + y
  {
    if x == 0 && y == 0 then 0
    else (if x % 2 == 1 && y % 2 == 1 then 1 else 0) + 2 * And(x / 2, y / 2)
  }

  /** x << k on an unsigned 32-bit word. */
  function Shl(x: Word, k: nat): Word {
    (x * Pow2(k)) % WORD
  }

  /** x >> k on an unsigned word. */
  function Shr(x: nat, k: nat): nat {
    hide Pow2;
    x / Pow2(k)
  }

  lemma {:induction false} OrZero(x: nat)
    ensures Or(x, 0) == x
  {
    if x != 0 {
      OrZero(x / 2);
    }
  }

  lemma {:induction false} OrDisjoint(x: nat, y: nat, k: nat)
    requires y < Pow2(k)
    ensures Or(x * Pow2(k), y) == x * Pow2(k) + y
    decreases k
  {
    if k == 0 {
      OrZero(x);
    } else {
      var p := Pow2(k - 1);
      var z := x * p;
      assert x * Pow2(k) == 2 * z;
      assert (2 * z) / 2 == z && (2 * z) % 2 == 0;
      OrDisjoint(x, y / 2, k - 1);
    }
  }

  lemma {:induction false} AndMask(x: nat, k: nat)
    ensures And(x, Pow2(k) - 1) == x % Pow2(k)
    decreases k, x
  {
    if k == 0 {
      AndZero(x);
    } else {
      var p := Pow2(k - 1);
      assert Pow2(k) == 2 * p;
      hide Pow2, And;
      AndMask(x / 2, k - 1);
      AndOddMask(x, p - 1, Pow2(k) - 1);
      HalfMod(x, p, Pow2(k));
    }
  }

  lemma AndOddMask(x: nat, m: nat, mask: nat)
    requires mask == 2 * m + 1
    ensures And(x, mask) == x % 2 + 2 * And(x / 2, m)
  {
  }

  lemma {:induction false} AndZero(x: nat)
    ensures And(x, 0) == 0
  {
    if x != 0 {
      AndZero(x / 2);
    }
  }

  /** The remainder by 2p, split into the lowest bit and the remainder of the rest by p. */
  lemma HalfMod(x: nat, p: nat, m: nat)
    requires 0 < p && m == 2 * p
    ensures x % m == x % 2 + 2 * ((x / 2) % p)
  {
    var h, b := x / 2, x % 2;
    var q, r := h / p, h % p;
    assert h == q * p + r;
    assert x == 2 * h + b;
    var low := b + 2 * r;
    assert 0 <= low < m;
    assert x == q * m + low by {
      assert 2 * (q * p) == q * (2 * p);
    }
    DivModUnique(x, m, q, low);
  }

  lemma DivModUnique(x: int, m: int, q: int, r: int)
    requires 0 <= r < m
    requires x == q * m + r
    ensures x / m == q && x % m == r
  {
    var q' := x / m;
    if q < q' {
      MulMonotone(q + 1, q', m);
    } else if q' < q {
      MulMonotone(q' + 1, q, m);
    }
  }

  lemma MulMonotone(a: int, b: int, m: nat)
    requires a <= b
    ensures a * m <= b * m
  {
    assert b * m - a * m == (b - a) * m;
  }

  /** The powers the sources shift by. */
  lemma SmallPowers()
    ensures Pow2(2) == 4 && Pow2(4) == 16 && Pow2(6) == 64 && Pow2(8) == 256
    ensures Pow2(12) == 4096 && Pow2(16) == 65536 && Pow2(18) == 262144 && Pow2(24) == 0x100_0000
  {
    assert Pow2(2) == 4;
    assert Pow2(4) == 16;
    assert Pow2(6) == 64;
    assert Pow2(8) == 256;
    assert Pow2(10) == 1024;
    assert Pow2(12) == 4096;
    assert Pow2(14) == 16384;
    assert Pow2(16) == 65536;
    assert Pow2(18) == 262144;
    assert Pow2(20) == 1048576;
    assert Pow2(22) == 4194304;
  }
}
