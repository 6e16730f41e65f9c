/**
 Bitwise and on natural numbers, and masking by a power of two.
 */
module Bits {

  function And(a: nat, b: nat): nat
    decreases a, b
  {
    if a == 0 || b == 0 then 0 else 2 * And(a / 2, b / 2) + (if a % 2 == 1 && b % 2 == 1 then 1 else 0)
  }

  function Power2(n: nat): (p: nat)
    ensures p > 0
  {
    if n == 0 then 1 else 2 * Power2(n - 1)
  }

  /** Halving shifts both operands. */
  lemma AndHalves(a: nat, b: nat)
    ensures And(a, b) == 2 * And(a / 2, b / 2) + if a % 2 == 1 && b % 2 == 1 then 1 else 0
  {
  }

  lemma DivUnique(v: nat, d: nat, q: nat, r: nat)
    requires d > 0 && v == d * q + r && r < d
    ensures v % d == r && v / d == q
  {
    var q', r' := v / d, v % d;
    assert v == d * q' + r' && 0 <= r' < d;
    Scaled(d, q, q');
    Scaled(d, q', q);
  }

  lemma Scaled(d: nat, a: nat, b: nat)
    ensures a < b ==> d * a + d <= d * b
  {
    if a < b { assert d * (a + 1) <= d * b; }
  }

  /** The remainder by twice `m`, from the remainder of the half. */
  lemma ModDouble(v: nat, m: nat)
    requires m > 0
    ensures v % (2 * m) == 2 * (v / 2 % m) + v % 2 && v / (2 * m) == v / 2 / m
  {
    var h := v / 2;
    var q, r := h / m, h % m;
    assert h == m * q + r;
    assert v == 2 * h + v % 2;
    assert 2 * (m * q) == (2 * m) * q;
    DivUnique(v, 2 * m, q, 2 * r + v % 2);
  }

  /** Masking by a power of two less one is the remainder. */
  lemma {:induction false} MaskIsMod(v: nat, n: nat)
    ensures And(v, Power2(n) - 1) == v % Power2(n)
    decreases n
  {
    if n > 0 {
      var m := Power2(n - 1);
      MaskIsMod(v / 2, n - 1);
      ModDouble(v, m);
      assert (2 * m - 1) / 2 == m - 1 && (2 * m - 1) % 2 == 1;
      AndHalves(v, 2 * m - 1);
    }
  }

  /** Stepping to the next slot of a table of a power of two: the mask wraps from the last to the first. */
  lemma MaskWraps(v: nat, n: nat)
    requires v < Power2(n)
    ensures And(v + 1, Power2(n) - 1) == if v + 1 == Power2(n) then 0 else v + 1
  {
    MaskIsMod(v + 1, n);
    if v + 1 == Power2(n) { DivUnique(v + 1, Power2(n), 1, 0); } else { DivUnique(v + 1, Power2(n), 0, v + 1); }
  }

  // ------------------------------------------------------------------ shifts

  function Shl(v: nat, n: nat): nat
    decreases n, v
  {
    if n == 0 then v else 2 * Shl(v, n - 1)
  }

  function Shr(v: nat, n: nat): nat
    decreases n, v
  {
    if n == 0 then v else Shr(v / 2, n - 1)
  }

  lemma {:induction false} ShrIsDiv(v: nat, n: nat)
    ensures Shr(v, n) == v / Power2(n)
    decreases n
  {
    if n > 0 {
      ShrIsDiv(v / 2, n - 1);
      ModDouble(v, Power2(n - 1));
    }
  }

  lemma {:induction false} ShlIsTimes(v: nat, n: nat)
    ensures Shl(v, n) == v * Power2(n)
  {
    if n > 0 { ShlIsTimes(v, n - 1); }
  }

  lemma {:induction false} ShlInjective(x: nat, y: nat, n: nat)
    ensures Shl(x, n) == Shl(y, n) <==> x == y
  {
    if n > 0 { ShlInjective(x, y, n - 1); }
  }

  /** A mask whose low `n` bits are clear drops them ... */
  lemma {:induction false} AndAbove(a: nat, h: nat, n: nat)
    ensures And(a, Shl(h, n)) == Shl(And(Shr(a, n), h), n)
    decreases n
  {
    if n > 0 {
      AndAbove(a / 2, h, n - 1);
      AndDoubled(a, Shl(h, n - 1));
    }
  }

  lemma AndDoubled(a: nat, c: nat)
    ensures And(a, 2 * c) == 2 * And(a / 2, c)
  {
  }

  /** `x` followed by the low `n` bits of `a`. */
  function Joined(x: nat, a: nat, n: nat): nat
    decreases n, a, x
  {
    if n == 0 then x else 2 * Joined(x, a / 2, n - 1) + a % 2
  }

  /** `h` followed by `n` ones. */
  function OnesBelow(h: nat, n: nat): nat
    decreases n, h
  {
    if n == 0 then h else 2 * OnesBelow(h, n - 1) + 1
  }

  /** ... and one whose low `n` bits are set keeps them. */
  lemma {:induction false} AndBelow(a: nat, h: nat, n: nat)
    ensures And(a, OnesBelow(h, n)) == Joined(And(Shr(a, n), h), a, n)
    decreases n
  {
    if n > 0 {
      AndBelow(a / 2, h, n - 1);
      AndHalves(a, 2 * OnesBelow(h, n - 1) + 1);
    }
  }

  /** Two joined numbers are equal when both parts are. */
  lemma {:induction false} JoinedEqual(x: nat, a: nat, y: nat, b: nat, n: nat)
    ensures Joined(x, a, n) == Joined(y, b, n) <==> x == y && a % Power2(n) == b % Power2(n)
    decreases n
  {
    if n == 0 {
      assert a % 1 == 0 && b % 1 == 0;
    } else {
      JoinedEqual(x, a / 2, y, b / 2, n - 1);
      ModDouble(a, Power2(n - 1));
      ModDouble(b, Power2(n - 1));
    }
  }

  /** Comparing under a mask of `width` ones from bit `lo` up compares that field. */
  lemma {:induction false} FieldIs(a: nat, lo: nat, width: nat, value: nat)
    ensures And(a, Shl(Power2(width) - 1, lo)) == Shl(value, lo) <==> a / Power2(lo) % Power2(width) == value
  {
    var ones := Power2(width) - 1;
    AndAbove(a, ones, lo);
    ShrIsDiv(a, lo);
    MaskIsMod(Shr(a, lo), width);
    ShlInjective(And(Shr(a, lo), ones), value, lo);
  }

  lemma EvenMask(a: nat, mask: nat)
    requires mask % 2 == 0
    ensures And(a, mask) % 2 == 0
  {
    AndHalves(a, mask);
  }

  // The same with powers and masks given as numbers.

  lemma FieldBy(a: nat, lo: nat, d: nat, width: nat, p: nat, value: nat, mask: nat, bits: nat)
    requires d == Power2(lo) && p == Power2(width) && mask == (p - 1) * d && bits == value * d
    ensures And(a, mask) == bits <==> a / d % p == value
  {
    ShlIsTimes(p - 1, lo);
    ShlIsTimes(value, lo);
    FieldIs(a, lo, width, value);
  }

  /** The same for the topmost field, whose value is `q`. */
  lemma TopFieldBy(a: nat, lo: nat, d: nat, width: nat, p: nat, value: nat, mask: nat, bits: nat, q: nat)
    requires d == Power2(lo) && p == Power2(width) && mask == (p - 1) * d && bits == value * d
    requires q == a / d && q < p
    ensures And(a, mask) == bits <==> q == value
  {
    ModBelow(q, p);
    FieldBy(a, lo, d, width, p, value, mask, bits);
  }

  lemma ModBelow(v: nat, p: nat)
    requires v < p
    ensures v % p == v
  {
    DivUnique(v, p, 0, v);
  }

  /** A mask that is a multiple of `d` compares the quotient `q`. */
  lemma ScaledMask(a: nat, lo: nat, d: nat, m: nat, value: nat, q: nat)
    requires d == Power2(lo) && q == a / d
    ensures And(a, m * d) == value * d <==> And(q, m) == value
  {
    ShlIsTimes(m, lo);
    ShlIsTimes(value, lo);
    AndAbove(a, m, lo);
    ShrIsDiv(a, lo);
    ShlInjective(And(q, m), value, lo);
  }

  /** An odd mask against an even value. */
  lemma OddMask(a: nat, m: nat, value: nat)
    ensures And(a, 2 * m + 1) == 2 * value <==> a % 2 == 0 && And(a / 2, m) == value
  {
    AndHalves(a, 2 * m + 1);
  }

  lemma Powers()
    ensures Power2(1) == 2 && Power2(2) == 4 && Power2(3) == 8 && Power2(4) == 16 && Power2(5) == 32 && Power2(6) == 64
    ensures Power2(8) == 0x100 && Power2(11) == 0x800 && Power2(15) == 0x8000 && Power2(19) == 0x8_0000
    ensures Power2(24) == 0x100_0000 && Power2(25) == 0x200_0000 && Power2(26) == 0x400_0000
  {
    assert Power2(6) == 64;
    assert Power2(11) == 0x800;
    assert Power2(15) == 0x8000;
    assert Power2(19) == 0x8_0000;
    assert Power2(24) == 0x100_0000;
  }

  lemma ShrBy(v: nat, n: nat, d: nat)
    requires d == Power2(n)
    ensures Shr(v, n) == v / d
  {
    ShrIsDiv(v, n);
  }

  lemma MaskBy(v: nat, n: nat, d: nat)
    requires d == Power2(n)
    ensures And(v, d - 1) == v % d
  {
    MaskIsMod(v, n);
  }

  lemma JoinedBy(x: nat, a: nat, y: nat, b: nat, n: nat, d: nat)
    requires d == Power2(n)
    ensures Joined(x, a, n) == Joined(y, b, n) <==> x == y && a % d == b % d
  {
    JoinedEqual(x, a, y, b, n);
  }
}
