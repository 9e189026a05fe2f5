/**
 Python's unbounded non-negative integers, seen bit by bit.

 Every operator is written as a recursion on halves, so that `a ^ b`, `v >> k`,
 `v << k` and `v & ((1 << w) - 1)` keep their meaning at any width.
 */
module Bits {

  function Pow2(n: nat): (r: nat)
    ensures r >= 1
  {
    if n == 0 then 1 else 2 * Pow2(n - 1)
  }

  /** The lowest bit of `a ^ b`. */
  function Parity(a: nat, b: nat): nat
  {
    if a % 2 == b % 2 then 0 else 1
  }

  /** `a ^ b` */
  function Xor(a: nat, b: nat): nat
    decreases a + b
  {
    if a == 0 then b
    else if b == 0 then a
    else 2 * Xor(a / 2, b / 2) + Parity(a, b)
  }

  /** `v >> k` */
  function Shr(v: nat, k: nat): nat
  {
    if k == 0 then v else Shr(v / 2, k - 1)
  }

  /** `v << k` */
  function Shl(v: nat, k: nat): nat
  {
    if k == 0 then v else 2 * Shl(v, k - 1)
  }

  /** `v & ((1 << w) - 1)` */
  function Low(v: nat, w: nat): nat
  {
    if w == 0 then 0 else v % 2 + 2 * Low(v / 2, w - 1)
  }

  /** The lowest `w` bits of `v` in the opposite order. */
  function Reflect(v: nat, w: nat): nat
  {
    if w == 0 then 0 else 2 * Reflect(v, w - 1) + Shr(v, w - 1) % 2
  }

  // ---- exclusive or -----------------------------------------------------

  lemma {:induction false} XorHalves(a: nat, b: nat)
    ensures Xor(a, b) / 2 == Xor(a / 2, b / 2)
    ensures Xor(a, b) % 2 == Parity(a, b)
  {
    if a != 0 && b != 0 {
      assert Xor(a, b) == 2 * Xor(a / 2, b / 2) + Parity(a, b);
    }
  }

  /** Nothing else has these halves. */
  lemma XorFromHalves(a: nat, b: nat, r: nat)
    requires r / 2 == Xor(a / 2, b / 2) && r % 2 == Parity(a, b)
    ensures Xor(a, b) == r
  {
    XorHalves(a, b);
  }

  lemma XorComm(a: nat, b: nat)
    ensures Xor(a, b) == Xor(b, a)
    decreases a + b
  {
    if a != 0 && b != 0 { XorComm(a / 2, b / 2); }
  }

  lemma XorZero(a: nat)
    ensures Xor(a, 0) == a && Xor(0, a) == a
  {}

  lemma XorSelf(a: nat)
    ensures Xor(a, a) == 0
  {}

  lemma {:induction false} XorAssoc(a: nat, b: nat, c: nat)
    ensures Xor(Xor(a, b), c) == Xor(a, Xor(b, c))
    decreases a + b + c
  {
    if a != 0 && b != 0 && c != 0 {
      XorAssoc(a / 2, b / 2, c / 2);
      XorHalves(a, b);
      XorHalves(b, c);
      XorHalves(Xor(a, b), c);
      XorFromHalves(a, Xor(b, c), Xor(Xor(a, b), c));
    }
  }

  /** Exclusive or with a fixed operand undoes itself. */
  lemma XorCancel(a: nat, b: nat)
    ensures Xor(Xor(a, b), b) == a
    ensures Xor(b, Xor(b, a)) == a
  {
    hide *;
    XorAssoc(a, b, b);
    XorAssoc(b, b, a);
    XorSelf(b);
    XorZero(a);
  }

  lemma XorZeroIff(a: nat, b: nat)
    ensures Xor(a, b) == 0 <==> a == b
  {
    XorSelf(a);
    if Xor(a, b) == 0 { XorCancel(a, b); }
  }

  /** Two sums regrouped: (a^b)^(c^d) is (a^c)^(b^d). */
  lemma XorSwap(a: nat, b: nat, c: nat, d: nat)
    ensures Xor(Xor(a, b), Xor(c, d)) == Xor(Xor(a, c), Xor(b, d))
  {
    hide Xor;
    XorAssoc(a, b, Xor(c, d));
    XorAssoc(b, c, d);
    XorComm(b, c);
    XorAssoc(c, b, d);
    XorAssoc(a, c, Xor(b, d));
  }

  lemma XorBound(a: nat, b: nat, w: nat)
    requires a < Pow2(w) && b < Pow2(w)
    ensures Xor(a, b) < Pow2(w)
  {
    if w > 0 {
      XorBound(a / 2, b / 2, w - 1);
      XorHalves(a, b);
    }
  }

  lemma XorAppend(a: nat, b: nat, x: nat, y: nat)
    requires x < 2 && y < 2
    ensures Xor(2 * a + x, 2 * b + y) == 2 * Xor(a, b) + Parity(x, y)
  {
    var p, q := 2 * a + x, 2 * b + y;
    assert p / 2 == a && p % 2 == x && q / 2 == b && q % 2 == y;
    XorHalves(p, q);
  }

  lemma XorDouble(a: nat, b: nat)
    ensures Xor(2 * a, 2 * b) == 2 * Xor(a, b)
  {
    XorHalves(2 * a, 2 * b);
  }

  // ---- shifts and masks ---------------------------------------------------

  lemma LowBound(v: nat, w: nat)
    ensures Low(v, w) < Pow2(w)
  {}

  lemma LowFits(v: nat, w: nat)
    requires v < Pow2(w)
    ensures Low(v, w) == v
  {}

  lemma ShrFits(v: nat, w: nat)
    requires v < Pow2(w)
    ensures Shr(v, w) == 0
  {}

  lemma LowHalves(v: nat, w: nat)
    requires w > 0
    ensures Low(v, w) / 2 == Low(v / 2, w - 1)
    ensures Low(v, w) % 2 == v % 2
  {}

  lemma {:induction false} XorLow(a: nat, b: nat, w: nat)
    ensures Low(Xor(a, b), w) == Xor(Low(a, w), Low(b, w))
    decreases w
  {
    if w > 0 {
      XorHalves(a, b);
      XorLow(a / 2, b / 2, w - 1);
      LowHalves(a, w);
      LowHalves(b, w);
      LowHalves(Xor(a, b), w);
      XorFromHalves(Low(a, w), Low(b, w), Low(Xor(a, b), w));
    }
  }

  lemma XorShr(a: nat, b: nat, k: nat)
    ensures Shr(Xor(a, b), k) == Xor(Shr(a, k), Shr(b, k))
    decreases k
  {
    if k > 0 {
      XorHalves(a, b);
      XorShr(a / 2, b / 2, k - 1);
    }
  }

  lemma XorShl(a: nat, b: nat, k: nat)
    ensures Shl(Xor(a, b), k) == Xor(Shl(a, k), Shl(b, k))
  {
    if k > 0 {
      XorShl(a, b, k - 1);
      XorDouble(Shl(a, k - 1), Shl(b, k - 1));
    }
  }

  lemma ShlInside(v: nat, k: nat)
    ensures Shl(2 * v, k) == 2 * Shl(v, k)
  {}

  lemma ShlAdd(v: nat, j: nat, k: nat)
    ensures Shl(Shl(v, j), k) == Shl(v, j + k)
  {}

  lemma ShlBound(v: nat, n: nat, k: nat)
    requires v < Pow2(n)
    ensures Shl(v, k) < Pow2(n + k)
  {
    if k > 0 { ShlBound(v, n, k - 1); }
  }

  lemma ShlZero(k: nat)
    ensures Shl(0, k) == 0
  {}

  lemma ShrShl(v: nat, k: nat)
    ensures Shr(Shl(v, k), k) == v
    decreases k
  {
    if k > 0 { assert Shl(v, k) / 2 == Shl(v, k - 1); }
  }

  lemma ShrSnoc(v: nat, k: nat)
    ensures Shr(v, k + 1) == Shr(v, k) / 2
    decreases k
  {
    if k > 0 { ShrSnoc(v / 2, k - 1); }
  }

  lemma ShrBound(v: nat, n: nat, k: nat)
    requires v < Pow2(n + k)
    ensures Shr(v, k) < Pow2(n)
    decreases k
  {
    if k > 0 { ShrBound(v / 2, n, k - 1); }
  }

  /** What shift and mask mean: quotient and remainder by a power of two. */
  lemma {:induction false} ShrIsDivision(v: nat, k: nat)
    ensures v == Pow2(k) * Shr(v, k) + Low(v, k) && Low(v, k) < Pow2(k)
    decreases k
  {
    hide Xor;
    LowBound(v, k);
    if k > 0 {
      ShrIsDivision(v / 2, k - 1);
      var h := Pow2(k - 1) * Shr(v / 2, k - 1);
      assert Pow2(k) * Shr(v, k) == 2 * h by {
        assert Pow2(k) == 2 * Pow2(k - 1);
        assert (2 * Pow2(k - 1)) * Shr(v / 2, k - 1) == 2 * (Pow2(k - 1) * Shr(v / 2, k - 1));
      }
    }
  }

  /** A number is its high part shifted up, with its low part underneath. */
  lemma SplitAt(v: nat, k: nat)
    ensures v == Xor(Shl(Shr(v, k), k), Low(v, k))
    decreases k
  {
    hide Xor;
    XorZero(v);
    if k > 0 {
      SplitAt(v / 2, k - 1);
      LowHalves(v, k);
      var high := Shl(Shr(v / 2, k - 1), k - 1);
      assert Shl(Shr(v, k), k) == 2 * high;
      XorFromHalves(2 * high, Low(v, k), v);
    }
  }

  // ---- reflection ---------------------------------------------------------

  lemma LowHalf(v: nat, w: nat)
    ensures Low(2 * v, w + 1) == 2 * Low(v, w)
  {}

  lemma ReflectBound(v: nat, w: nat)
    ensures Reflect(v, w) < Pow2(w)
  {}

  lemma ShlOne(k: nat)
    ensures Shl(1, k) == Pow2(k)
  {}

  /** The lowest bit goes to the top. */
  lemma {:induction false} ReflectFront(v: nat, w: nat)
    ensures Reflect(v, w + 1) == Shl(v % 2, w) + Reflect(v / 2, w)
    decreases w
  {
    if w > 0 { ReflectFront(v, w - 1); }
  }

  lemma ReflectDouble(v: nat, w: nat)
    ensures Reflect(2 * v, w + 1) == Reflect(v, w)
  {
    ReflectFront(2 * v, w);
    ShlZero(w);
  }

  lemma {:induction false} ReflectLow(v: nat, w: nat, n: nat)
    requires w <= n
    ensures Reflect(Low(v, n), w) == Reflect(v, w)
    decreases w
  {
    if w > 0 {
      ReflectLow(v, w - 1, n);
      ShrLow(v, w - 1, n);
    }
  }

  /** A mask leaves the bits under it alone. */
  lemma ShrLow(v: nat, k: nat, n: nat)
    requires k < n
    ensures Shr(Low(v, n), k) % 2 == Shr(v, k) % 2
    decreases k
  {
    LowHalves(v, n);
    if k > 0 { ShrLow(v / 2, k - 1, n - 1); }
  }

  lemma BitOfXor(a: nat, b: nat, k: nat)
    ensures Shr(Xor(a, b), k) % 2 == Parity(Shr(a, k), Shr(b, k))
  {
    hide Xor, Shr;
    XorShr(a, b, k);
    XorHalves(Shr(a, k), Shr(b, k));
  }

  lemma ParityOfBits(x: nat, y: nat)
    ensures Parity(x % 2, y % 2) == Parity(x, y)
  {}

  lemma {:induction false} ReflectXor(a: nat, b: nat, w: nat)
    ensures Reflect(Xor(a, b), w) == Xor(Reflect(a, w), Reflect(b, w))
    decreases w
  {
    hide Xor, Shr, Parity;
    XorZero(0);
    if w > 0 {
      ReflectXor(a, b, w - 1);
      BitOfXor(a, b, w - 1);
      ParityOfBits(Shr(a, w - 1), Shr(b, w - 1));
      XorAppend(Reflect(a, w - 1), Reflect(b, w - 1), Shr(a, w - 1) % 2, Shr(b, w - 1) % 2);
    }
  }

  lemma LowSnoc(v: nat, w: nat)
    ensures Low(v, w + 1) == Shl(Shr(v, w) % 2, w) + Low(v, w)
    decreases w
  {
    if w > 0 { LowSnoc(v / 2, w - 1); }
  }

  lemma {:induction false} ReflectTwice(v: nat, w: nat)
    ensures Reflect(Reflect(v, w), w) == Low(v, w)
    decreases w
  {
    hide Shl, Shr;
    if w > 0 {
      ReflectTwice(v, w - 1);
      ReflectFront(Reflect(v, w), w - 1);
      LowSnoc(v, w - 1);
    }
  }

  lemma TopBit(b: nat, lo: nat, k: nat)
    requires b < 2 && lo < Pow2(k)
    ensures Shr(Shl(b, k) + lo, k) == b
    ensures Low(Shl(b, k) + lo, k) == lo
    decreases k
  {
    if k > 0 {
      TopBit(b, lo / 2, k - 1);
      assert (Shl(b, k) + lo) / 2 == Shl(b, k - 1) + lo / 2;
    }
  }

  lemma ReflectInjective(a: nat, b: nat, w: nat)
    requires a < Pow2(w) && b < Pow2(w)
    ensures Reflect(a, w) == Reflect(b, w) <==> a == b
  {
    ReflectTwice(a, w);
    ReflectTwice(b, w);
    LowFits(a, w);
    LowFits(b, w);
  }

  lemma ReflectZero(w: nat)
    ensures Reflect(0, w) == 0
  {
    if w > 0 { ReflectZero(w - 1); ShrBeyond(0, 0, w - 1); }
  }

  /** A short number lands at the top of a wide reflection. */
  lemma {:induction false} ReflectWide(v: nat, n: nat, w: nat)
    requires n <= w && v < Pow2(n)
    ensures Reflect(v, w) == Shl(Reflect(v, n), w - n)
    decreases w
  {
    if w > n {
      ReflectWide(v, n, w - 1);
      ShrBeyond(v, n, w - 1);
    }
  }

  lemma ShrBeyond(v: nat, n: nat, k: nat)
    requires n <= k && v < Pow2(n)
    ensures Shr(v, k) == 0
    decreases k
  {
    if k > 0 {
      if n > 0 { ShrBeyond(v / 2, n - 1, k - 1); } else { ShrBeyond(0, 0, k - 1); }
    }
  }
}
