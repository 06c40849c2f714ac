/**
 * Unsigned machine words as naturals: bytes, right shift, and the two or operations bit
 * by bit from the least significant end.
 */
module Words {

  type Byte = x: int | 0 <= x < 256

  function Shr(x: nat, k: nat): nat {
    if k == 0 then x else Shr(x / 2, k - 1)
  }

  function Shl(x: nat, k: nat): nat {
    if k == 0 then x else 2 * Shl(x, k - 1)
  }

  /** The `k` low bits of `x`. */
  function Mask(x: nat, k: nat): (m: nat)
    ensures m <= x
  {
    if k == 0 then 0 else 2 * Mask(x / 2, k - 1) + x % 2
  }

  function Xor(x: nat, y: nat): nat
    decreases x + y
  {
    if x == 0 && y == 0 then 0
    else 2 * Xor(x / 2, y / 2) + (if x % 2 != y % 2 then 1 else 0)
  }

  function Or(x: nat, y: nat): nat
    decreases x + y
  {
    if x == 0 && y == 0 then 0
    else 2 * Or(x / 2, y / 2) + (if x % 2 == 1 || y % 2 == 1 then 1 else 0)
  }

  lemma {:induction false} OrZero(x: nat)
    ensures Or(x, 0) == x
  {
    if x > 0 { OrZero(x / 2); }
  }

  /** One unfolding that also covers the zero case. */
  lemma XorBit(x: nat, y: nat)
    ensures Xor(x, y) / 2 == Xor(x / 2, y / 2)
    ensures Xor(x, y) % 2 == if x % 2 != y % 2 then 1 else 0
  {
  }

  lemma {:induction false} XorZero(x: nat)
    ensures Xor(x, 0) == x
  {
    if x > 0 { XorZero(x / 2); }
  }

  lemma {:induction false} XorSelf(x: nat)
    ensures Xor(x, x) == 0
  {
    if x > 0 { XorSelf(x / 2); }
  }

  lemma {:induction false} XorComm(x: nat, y: nat)
    ensures Xor(x, y) == Xor(y, x)
    decreases x + y
  {
    if x + y > 0 { XorComm(x / 2, y / 2); }
  }

  lemma {:induction false} XorAssoc(x: nat, y: nat, z: nat)
    ensures Xor(Xor(x, y), z) == Xor(x, Xor(y, z))
    decreases x + y + z
  {
    if x + y + z > 0 {
      XorAssoc(x / 2, y / 2, z / 2);
      XorBit(x, y);
      XorBit(y, z);
      XorBit(Xor(x, y), z);
      XorBit(x, Xor(y, z));
    }
  }

  lemma XorUndo(x: nat, y: nat)
    ensures Xor(x, Xor(x, y)) == y
  {
    XorAssoc(x, x, y);
    XorSelf(x);
    XorComm(0, y);
    XorZero(y);
  }

  /** Words over the same mask differ when the words do. */
  lemma XorCancel(x: nat, y: nat, z: nat)
    requires Xor(x, y) == Xor(x, z)
    ensures y == z
  {
    XorUndo(x, y);
    XorUndo(x, z);
  }

  // ---------- high and low parts do not mix ----------

  /** One bit more: `p`, `q` and `r` are the high parts, already in place. */
  lemma XorDouble(p: nat, q: nat, r: nat, u: nat, v: nat, h: nat)
    requires Xor(u / 2, v / 2) < h
    requires Xor(p + u / 2, q + v / 2) == r + Xor(u / 2, v / 2)
    ensures Xor(u, v) < 2 * h
    ensures Xor(2 * p + u, 2 * q + v) == 2 * r + Xor(u, v)
  {
    hide Xor;
    var x, y := 2 * p + u, 2 * q + v;
    assert x / 2 == p + u / 2 && x % 2 == u % 2;
    assert y / 2 == q + v / 2 && y % 2 == v % 2;
    XorBit(u, v);
    XorBit(x, y);
  }

  /** Five bits more. */
  lemma XorTimes32(p: nat, q: nat, r: nat, u: nat, v: nat, h: nat)
    requires Xor(u / 32, v / 32) < h
    requires Xor(p + u / 32, q + v / 32) == r + Xor(u / 32, v / 32)
    ensures Xor(u, v) < 32 * h
    ensures Xor(32 * p + u, 32 * q + v) == 32 * r + Xor(u, v)
  {
    hide Xor;
    assert u / 16 / 2 == u / 32 && u / 8 / 2 == u / 16 && u / 4 / 2 == u / 8 && u / 2 / 2 == u / 4;
    assert v / 16 / 2 == v / 32 && v / 8 / 2 == v / 16 && v / 4 / 2 == v / 8 && v / 2 / 2 == v / 4;
    XorDouble(p, q, r, u / 16, v / 16, h);
    XorDouble(2 * p, 2 * q, 2 * r, u / 8, v / 8, 2 * h);
    XorDouble(4 * p, 4 * q, 4 * r, u / 4, v / 4, 4 * h);
    XorDouble(8 * p, 8 * q, 8 * r, u / 2, v / 2, 8 * h);
    XorDouble(16 * p, 16 * q, 16 * r, u, v, 16 * h);
  }

  lemma Xor32(x: nat, y: nat, u: nat, v: nat)
    requires u < 32 && v < 32
    ensures Xor(u, v) < 32
    ensures Xor(32 * x + u, 32 * y + v) == 32 * Xor(x, y) + Xor(u, v)
  {
    hide Xor;
    XorSelf(0);
    XorTimes32(x, y, Xor(x, y), u, v, 1);
  }

  /** The same with 25 low bits. */
  lemma XorSplit25(x: nat, y: nat, u: nat, v: nat)
    requires u < 0x200_0000 && v < 0x200_0000
    ensures Xor(u, v) < 0x200_0000
    ensures Xor(0x200_0000 * x + u, 0x200_0000 * y + v) == 0x200_0000 * Xor(x, y) + Xor(u, v)
  {
    hide Xor;
    XorSelf(0);
    var z := Xor(x, y);
    XorTimes32(x, y, z, u / 0x10_0000, v / 0x10_0000, 1);
    XorTimes32(0x20 * x, 0x20 * y, 0x20 * z, u / 0x8000, v / 0x8000, 0x20);
    XorTimes32(0x400 * x, 0x400 * y, 0x400 * z, u / 0x400, v / 0x400, 0x400);
    XorTimes32(0x8000 * x, 0x8000 * y, 0x8000 * z, u / 0x20, v / 0x20, 0x8000);
    XorTimes32(0x10_0000 * x, 0x10_0000 * y, 0x10_0000 * z, u, v, 0x10_0000);
  }

  lemma XorMod32(x: nat, y: nat)
    ensures Xor(x, y) % 32 == Xor(x % 32, y % 32)
  {
    hide Xor;
    Xor32(x / 32, y / 32, x % 32, y % 32);
  }

  /** Bit `j` of `x`. */
  predicate Bit(x: nat, j: nat) {
    Shr(x, j) % 2 == 1
  }

  lemma {:induction false} ShrZero(k: nat)
    ensures Shr(0, k) == 0
  {
    if k > 0 { ShrZero(k - 1); }
  }

  lemma {:induction false} XorBits(x: nat, y: nat, j: nat)
    ensures Bit(Xor(x, y), j) == (Bit(x, j) != Bit(y, j))
  {
    XorBit(x, y);
    if j > 0 { XorBits(x / 2, y / 2, j - 1); }
  }

  /** Numbers with the same five low bits agree modulo 32. */
  lemma FiveBits(x: nat, y: nat)
    ensures x % 32 == y % 32 <==> forall j :: 0 <= j < 5 ==> Bit(x, j) == Bit(y, j)
  {
    FirstBits(x);
    FirstBits(y);
    LowFive(x, y);
    assert (forall j :: 0 <= j < 5 ==> Bit(x, j) == Bit(y, j)) <==>
           Bit(x, 0) == Bit(y, 0) && Bit(x, 1) == Bit(y, 1) && Bit(x, 2) == Bit(y, 2) &&
           Bit(x, 3) == Bit(y, 3) && Bit(x, 4) == Bit(y, 4);
  }

  lemma FirstBits(x: nat)
    ensures Bit(x, 0) == (x % 2 == 1) && Bit(x, 1) == (x / 2 % 2 == 1) && Bit(x, 2) == (x / 4 % 2 == 1)
    ensures Bit(x, 3) == (x / 8 % 2 == 1) && Bit(x, 4) == (x / 16 % 2 == 1)
  {
    assert Shr(x, 0) == x;
    hide Shr;
    ShrStep(x, 0);
    ShrStep(x, 1);
    ShrStep(x, 2);
    ShrStep(x, 3);
    HalfOfHalf(x);
  }

  lemma HalfOfHalf(x: nat)
    ensures x / 2 / 2 == x / 4 && x / 4 / 2 == x / 8 && x / 8 / 2 == x / 16
  {
  }

  lemma {:induction false} ShrStep(x: nat, k: nat)
    ensures Shr(x, k + 1) == Shr(x, k) / 2
  {
    if k > 0 { ShrStep(x / 2, k - 1); }
  }

  lemma LowFive(x: nat, y: nat)
    ensures x % 32 == y % 32 <==>
            (x % 2 == y % 2 && x / 2 % 2 == y / 2 % 2 && x / 4 % 2 == y / 4 % 2 &&
             x / 8 % 2 == y / 8 % 2 && x / 16 % 2 == y / 16 % 2)
  {
    Mod32(x);
    Mod32(y);
    Binary(x % 2, x / 2 % 2, x / 4 % 2, x / 8 % 2, x / 16 % 2, y % 2, y / 2 % 2, y / 4 % 2, y / 8 % 2, y / 16 % 2);
  }

  lemma Binary(a: nat, b: nat, c: nat, d: nat, e: nat, a': nat, b': nat, c': nat, d': nat, e': nat)
    requires a < 2 && b < 2 && c < 2 && d < 2 && e < 2 && a' < 2 && b' < 2 && c' < 2 && d' < 2 && e' < 2
    ensures a + 2 * b + 4 * c + 8 * d + 16 * e == a' + 2 * b' + 4 * c' + 8 * d' + 16 * e'
            <==> (a == a' && b == b' && c == c' && d == d' && e == e')
  {
  }

  lemma Mod32(x: nat)
    ensures x % 32 == x % 2 + 2 * (x / 2 % 2) + 4 * (x / 4 % 2) + 8 * (x / 8 % 2) + 16 * (x / 16 % 2)
  {
    var a, b, c, d := x / 2, x / 4, x / 8, x / 16;
    assert x == 2 * a + x % 2;
    assert b == a / 2 && a == 2 * b + a % 2;
    assert c == b / 2 && b == 2 * c + b % 2;
    assert d == c / 2 && c == 2 * d + c % 2;
    assert x / 32 == d / 2 && d == 2 * (x / 32) + d % 2;
  }

  /** Thirty-bit words stay thirty bits wide. */
  lemma XorBound30(x: nat, y: nat)
    requires x < 0x4000_0000 && y < 0x4000_0000
    ensures Xor(x, y) < 0x4000_0000
  {
    hide Xor;
    var q, r, s, t := x / 0x200_0000, y / 0x200_0000, x % 0x200_0000, y % 0x200_0000;
    Xor32(0, 0, q, r);
    XorSplit25(q, r, s, t);
  }

  lemma DivModUnique(x: nat, m: nat, q: nat, r: nat)
    requires x == q * m + r && r < m
    ensures x / m == q && x % m == r
  {
    var q', r' := x / m, x % m;
    assert x == q' * m + r';
    if q' < q {
      MulMonotone(q' + 1, q, m);
    } else if q < q' {
      MulMonotone(q + 1, q', m);
    }
  }

  lemma MulMonotone(a: nat, b: nat, m: nat)
    requires a <= b
    ensures a * m <= b * m
  {
  }
}
