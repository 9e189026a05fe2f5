/**
 What the CRC means: a polynomial remainder over GF(2), a code that detects every
 short burst, and a trailer test that only the right trailer passes.
 */
module CrcAlgebra {
  import opened Bits
  import opened Bytes
  import opened Words
  import opened CrcEngine

  // ---- remainder --------------------------------------------------------------

  /** Carry-less product: polynomial multiplication over GF(2). */
  function Clmul(q: nat, p: nat): nat
  {
    if q == 0 then 0 else Xor(2 * Clmul(q / 2, p), if q % 2 == 1 then p else 0)
  }

  /** The generator polynomial with its implicit leading term. */
  function Generator(m: CrcModel): nat
  {
    Pow2(m.width) + m.poly
  }

  /** r is what is left of the polynomial a after taking out multiples of p. */
  ghost predicate Leaves(a: nat, p: nat, r: nat)
  {
    exists q: nat :: a == Xor(Clmul(q, p), r)
  }

  /** init * x^n + message * x^width, for a message of n bits. */
  function Dividend(init: nat, bits: seq<bit>, w: nat): nat
  {
    Xor(Shl(init, |bits|), Shl(Val(bits), w))
  }

  lemma GeneratorIsSum(m: CrcModel)
    requires m.Valid()
    ensures Generator(m) == Xor(Shl(1, m.width), m.poly)
    ensures Pow2(m.width) <= Generator(m) < Pow2(m.width + 1)
  {
    ShlOne(m.width);
    TopBit(1, m.poly, m.width);
    SplitAt(Generator(m), m.width);
  }

  /** Shifting in one bit is multiplying by x and taking out the generator at most once. */
  lemma StepDivides(m: CrcModel, v: nat, b: bit)
    requires m.Valid() && v < Pow2(m.width)
    ensures Xor(2 * v, Shl(b, m.width))
         == Xor(if Shr(v, m.width - 1) % 2 == b then 0 else Generator(m),
                Step(v, b, m.poly, m.width))
  {
    hide Xor, Low, Shl, Generator, Reflect;
    var w := m.width;
    var top, low := Shr(v, w - 1), Low(2 * v, w);
    ShrBound(v, 1, w - 1);
    assert Pow2(1) == 2;
    CarryOut(v, b, w);
    if top == b {
      ShlZero(w);
    } else {
      GeneratorIsSum(m);
      DropTwice(Shl(1, w), m.poly, low);
    }
  }

  lemma CarryOut(v: nat, b: bit, w: nat)
    requires w > 0 && Shr(v, w - 1) < 2
    ensures Xor(2 * v, Shl(b, w)) == Xor(Shl(Parity(Shr(v, w - 1), b), w), Low(2 * v, w))
  {
    hide Low, Shl;
    var top := Shr(v, w - 1);
    AddAtTop(2 * v, b, w);
    assert Shr(2 * v, w) == top;
    assert Xor(top, b) == Parity(top, b);
  }

  lemma DropTwice(a: nat, p: nat, low: nat)
    ensures Xor(a, low) == Xor(Xor(a, p), Xor(low, p))
  {
    XorSwap(a, p, low, p);
    XorSelf(p);
    XorComm(Xor(a, low), 0);
  }

  lemma {:induction false} FeedRemainder(m: CrcModel, bits: seq<bit>)
    requires m.Valid()
    ensures Leaves(Dividend(m.init, bits, m.width), Generator(m), Feed(m.init, bits, m.poly, m.width))
  {
    var w, p := m.width, Generator(m);
    if bits == [] {
      ShlZero(w);
      XorComm(m.init, 0);
      assert Dividend(m.init, bits, w) == Xor(Clmul(0, p), m.init);
    } else {
      var k := |bits| - 1;
      var front, b := bits[..k], bits[k];
      FeedRemainder(m, front);
      var reg := Feed(m.init, front, m.poly, w);
      FeedBound(m.init, front, m.poly, w);
      var q: nat :| Dividend(m.init, front, w) == Xor(Clmul(q, p), reg);
      var t := if Shr(reg, w - 1) % 2 == b then 0 else 1;
      var out := if t == 1 then p else 0;
      var next := Feed(m.init, bits, m.poly, w);
      calc {
        Dividend(m.init, bits, w);
        { DividendNext(m.init, front, b, w); assert front + [b] == bits; }
        Xor(2 * Dividend(m.init, front, w), Shl(b, w));
        { XorDouble(Clmul(q, p), reg); }
        Xor(Xor(2 * Clmul(q, p), 2 * reg), Shl(b, w));
        { XorAssoc(2 * Clmul(q, p), 2 * reg, Shl(b, w)); StepDivides(m, reg, b); }
        Xor(2 * Clmul(q, p), Xor(out, next));
        { XorAssoc(2 * Clmul(q, p), out, next); ClmulNext(q, t, p); }
        Xor(Clmul(2 * q + t, p), next);
      }
    }
  }

  lemma ClmulNext(q: nat, t: nat, p: nat)
    requires t < 2
    ensures Clmul(2 * q + t, p) == Xor(2 * Clmul(q, p), if t == 1 then p else 0)
  {
    assert (2 * q + t) / 2 == q;
  }

  lemma DividendNext(init: nat, front: seq<bit>, b: bit, w: nat)
    ensures Dividend(init, front + [b], w) == Xor(2 * Dividend(init, front, w), Shl(b, w))
  {
    assert (front + [b])[..|front|] == front;
    var i, v := Shl(init, |front|), Shl(Val(front), w);
    assert Shl(Val(front + [b]), w) == Xor(2 * v, Shl(b, w)) by { PlaceNext(Val(front), b, w); }
    XorDouble(i, v);
    XorAssoc(2 * i, 2 * v, Shl(b, w));
  }

  /** For every model and message the register is init*x^n + M*x^width reduced by the generator. */
  lemma RegisterIsRemainder(m: CrcModel, data: bytes)
    requires m.Valid()
    ensures Register(m, data) < Pow2(m.width)
    ensures Leaves(Dividend(m.init, MessageBits(data, m.refin), m.width),
                   Generator(m), Register(m, data))
  {
    RegisterBound(m, data);
    FeedRemainder(m, MessageBits(data, m.refin));
  }

  lemma {:induction false} ClmulLinear(a: nat, b: nat, p: nat)
    ensures Clmul(Xor(a, b), p) == Xor(Clmul(a, p), Clmul(b, p))
    decreases a + b
  {
    if a == 0 {
    } else if b == 0 {
      XorComm(Clmul(a, p), 0);
      XorComm(a, 0);
    } else {
      ClmulLinear(a / 2, b / 2, p);
      XorHalves(a, b);
      var x, y := Clmul(a / 2, p), Clmul(b / 2, p);
      var s := if a % 2 == 1 then p else 0;
      var t := if b % 2 == 1 then p else 0;
      XorSwap(2 * x, s, 2 * y, t);
      XorDouble(x, y);
      XorSelf(p);
      XorComm(p, 0);
      ClmulNext(Xor(a / 2, b / 2), Parity(a, b), p);
    }
  }

  lemma XorHigh(a: nat, b: nat, n: nat)
    requires a >= Pow2(n) && b < Pow2(n)
    ensures Xor(a, b) >= Pow2(n)
  {
    if Xor(a, b) < Pow2(n) {
      XorBound(Xor(a, b), b, n);
      XorCancel(a, b);
    }
  }

  lemma {:induction false} ClmulHigh(q: nat, p: nat, w: nat)
    requires Pow2(w) <= p < Pow2(w + 1) && q > 0
    ensures Clmul(q, p) >= Pow2(w)
  {
    if q == 1 {
      assert Clmul(1, p) == Xor(0, p);
    } else {
      ClmulHigh(q / 2, p, w);
      XorHigh(2 * Clmul(q / 2, p), if q % 2 == 1 then p else 0, w + 1);
    }
  }

  /** A remainder below x^width is unique, so the register is the only one there is. */
  lemma RemainderUnique(m: CrcModel, a: nat, r: nat, s: nat)
    requires m.Valid() && r < Pow2(m.width) && s < Pow2(m.width)
    requires Leaves(a, Generator(m), r) && Leaves(a, Generator(m), s)
    ensures r == s
  {
    var p := Generator(m);
    var q: nat :| a == Xor(Clmul(q, p), r);
    var t: nat :| a == Xor(Clmul(t, p), s);
    var c, d := Clmul(q, p), Clmul(t, p);
    XorSelf(a);
    XorSwap(c, r, d, s);
    XorZeroIff(Xor(c, d), Xor(r, s));
    ClmulLinear(q, t, p);
    XorBound(r, s, m.width);
    GeneratorIsSum(m);
    if Xor(q, t) > 0 { ClmulHigh(Xor(q, t), p, m.width); }
    XorZeroIff(r, s);
  }

  // ---- bursts -----------------------------------------------------------------

  lemma ShiftUpKernel(v: nat, poly: nat, w: nat)
    requires w > 0 && poly < Pow2(w) && poly % 2 == 1 && v < Pow2(w)
    requires ShiftUp(v, poly, w) == 0
    ensures v == 0
  {
    hide Xor, ShiftUp, Shl;
    ShiftUpSum(v, poly, w);
    var f := if Shr(v, w - 1) % 2 == 1 then poly else 0;
    XorZeroIff(Low(2 * v, w), f);
    LowHalf(v, w - 1);
    SplitAt(v, w - 1);
    ShrBound(v, 1, w - 1);
    assert Pow2(1) == 2;
    ShlZero(w - 1);
  }

  lemma ShiftUpInjective(a: nat, b: nat, poly: nat, w: nat)
    requires w > 0 && poly < Pow2(w) && poly % 2 == 1 && a < Pow2(w) && b < Pow2(w)
    ensures ShiftUp(a, poly, w) == ShiftUp(b, poly, w) <==> a == b
  {
    if ShiftUp(a, poly, w) == ShiftUp(b, poly, w) {
      ShiftUpLinear(a, b, poly, w);
      XorSelf(ShiftUp(a, poly, w));
      XorBound(a, b, w);
      ShiftUpKernel(Xor(a, b), poly, w);
      XorZeroIff(a, b);
    }
  }

  lemma ShiftUpsBound(v: nat, k: nat, poly: nat, w: nat)
    requires w > 0 && poly < Pow2(w) && v < Pow2(w)
    ensures ShiftUps(v, k, poly, w) < Pow2(w)
  {
    if k > 0 { ShiftUpSum(ShiftUps(v, k - 1, poly, w), poly, w); }
  }

  lemma {:induction false} ShiftUpsInjective(a: nat, b: nat, k: nat, poly: nat, w: nat)
    requires w > 0 && poly < Pow2(w) && poly % 2 == 1 && a < Pow2(w) && b < Pow2(w)
    ensures ShiftUps(a, k, poly, w) == ShiftUps(b, k, poly, w) <==> a == b
  {
    if k > 0 {
      ShiftUpsInjective(a, b, k - 1, poly, w);
      ShiftUpsBound(a, k - 1, poly, w);
      ShiftUpsBound(b, k - 1, poly, w);
      ShiftUpInjective(ShiftUps(a, k - 1, poly, w), ShiftUps(b, k - 1, poly, w), poly, w);
    }
  }

  lemma XorSameRight(a: nat, b: nat, c: nat)
    ensures Xor(a, c) == Xor(b, c) <==> a == b
    ensures Xor(c, a) == Xor(c, b) <==> a == b
  {
    XorCancel(a, c);
    XorCancel(b, c);
  }

  lemma PlacedBitBound(b: bit, w: nat)
    requires w > 0
    ensures Shl(b, w - 1) < Pow2(w)
  {
    ShlBound(b, 1, w - 1);
  }

  /** Different registers stay different whatever is fed next. */
  lemma {:induction false} FeedInjective(u: nat, v: nat, bits: seq<bit>, poly: nat, w: nat)
    requires w > 0 && poly < Pow2(w) && poly % 2 == 1 && u < Pow2(w) && v < Pow2(w)
    ensures Feed(u, bits, poly, w) == Feed(v, bits, poly, w) <==> u == v
  {
    if bits != [] {
      var k := |bits| - 1;
      var x, y := Feed(u, bits[..k], poly, w), Feed(v, bits[..k], poly, w);
      var s := Shl(bits[k], w - 1);
      FeedInjective(u, v, bits[..k], poly, w);
      FeedBound(u, bits[..k], poly, w);
      FeedBound(v, bits[..k], poly, w);
      StepIsShift(x, bits[k], poly, w);
      StepIsShift(y, bits[k], poly, w);
      PlacedBitBound(bits[k], w);
      XorBound(x, s, w);
      XorBound(y, s, w);
      ShiftUpInjective(Xor(x, s), Xor(y, s), poly, w);
      XorSameRight(x, y, s);
    }
  }

  lemma {:induction false} ValInjective(x: seq<bit>, y: seq<bit>)
    requires |x| == |y|
    ensures Val(x) == Val(y) <==> x == y
  {
    if x != [] {
      ValInjective(x[..|x| - 1], y[..|y| - 1]);
      LastSplit(x);
      LastSplit(y);
    }
  }

  lemma ShlInjective(a: nat, b: nat, k: nat)
    ensures Shl(a, k) == Shl(b, k) <==> a == b
  {
    ShrShl(a, k);
    ShrShl(b, k);
  }

  /** At most `width` different bits leave different registers. */
  lemma ShortFeedInjective(v: nat, x: seq<bit>, y: seq<bit>, poly: nat, w: nat)
    requires w > 0 && poly < Pow2(w) && poly % 2 == 1 && v < Pow2(w) && |x| == |y| <= w
    ensures Feed(v, x, poly, w) == Feed(v, y, poly, w) <==> x == y
  {
    hide *;
    var k := |x|;
    var a, b := Shl(Val(x), w - k), Shl(Val(y), w - k);
    FeedIsShifts(v, x, poly, w);
    FeedIsShifts(v, y, poly, w);
    ValBound(x);
    ValBound(y);
    ShlBound(Val(x), k, w - k);
    ShlBound(Val(y), k, w - k);
    XorBound(v, a, w);
    XorBound(v, b, w);
    ShiftUpsInjective(Xor(v, a), Xor(v, b), k, poly, w);
    XorSameRight(a, b, v);
    ShlInjective(Val(x), Val(y), w - k);
    ValInjective(x, y);
  }

  lemma OutputInjective(m: CrcModel, r: nat, s: nat, reflected: bool)
    requires r < Pow2(m.width) && s < Pow2(m.width)
    ensures Output(m, r, reflected) == Output(m, s, reflected) <==> r == s
  {
    var w := m.width;
    var x := if reflected then Reflect(r, w) else r;
    var y := if reflected then Reflect(s, w) else s;
    ReflectBound(r, w);
    ReflectBound(s, w);
    ReflectInjective(r, s, w);
    XorLow(x, m.xorout, w);
    XorLow(y, m.xorout, w);
    LowFits(x, w);
    LowFits(y, w);
    XorSameRight(x, y, Low(m.xorout, w));
  }

  lemma {:induction false} MessageBitsInjective(a: bytes, b: bytes, refin: bool)
    requires |a| == |b|
    ensures MessageBits(a, refin) == MessageBits(b, refin) <==> a == b
  {
    if a != [] && MessageBits(a, refin) == MessageBits(b, refin) {
      var n := |a| - 1;
      var fa, fb := MessageBits(a[..n], refin), MessageBits(b[..n], refin);
      assert fa == MessageBits(a, refin)[..8 * n] && fb == MessageBits(b, refin)[..8 * n];
      assert ByteBits(a[n], refin) == MessageBits(a, refin)[8 * n..];
      assert ByteBits(b[n], refin) == MessageBits(b, refin)[8 * n..];
      MessageBitsInjective(a[..n], b[..n], refin);
      ByteVal(a[n]);
      ByteVal(b[n]);
      assert Pow2(8) == 256;
      ReflectInjective(a[n], b[n], 8);
      LastSplit(a);
      LastSplit(b);
    }
  }

  /** Outside the window of `k` bits from `i` the two bit strings agree. */
  ghost predicate AgreeOutside(x: seq<bit>, y: seq<bit>, i: nat, k: nat)
    requires |x| == |y|
  {
    forall j :: 0 <= j < |x| && !(i <= j < i + k) ==> x[j] == y[j]
  }

  lemma SameEndsInjective(v: nat, pre: seq<bit>, x: seq<bit>, y: seq<bit>, post: seq<bit>,
                          poly: nat, w: nat)
    requires w > 0 && poly < Pow2(w) && poly % 2 == 1 && v < Pow2(w) && |x| == |y| <= w
    ensures Feed(v, pre + x + post, poly, w) == Feed(v, pre + y + post, poly, w) <==> x == y
  {
    var u := Feed(v, pre, poly, w);
    FeedBound(v, pre, poly, w);
    FeedAppend(v, pre + x, post, poly, w);
    FeedAppend(v, pre + y, post, poly, w);
    FeedAppend(v, pre, x, poly, w);
    FeedAppend(v, pre, y, poly, w);
    ShortFeedInjective(u, x, y, poly, w);
    FeedBound(u, x, poly, w);
    FeedBound(u, y, poly, w);
    FeedInjective(Feed(u, x, poly, w), Feed(u, y, poly, w), post, poly, w);
  }

  lemma AroundWindow(x: seq<bit>, y: seq<bit>, i: nat, k: nat)
    returns (pre: seq<bit>, mx: seq<bit>, my: seq<bit>, post: seq<bit>)
    requires |x| == |y| && i + k <= |x| && AgreeOutside(x, y, i, k)
    ensures x == pre + mx + post && y == pre + my + post
    ensures |mx| == |my| == k
  {
    pre, mx, my, post := x[..i], x[i..i + k], y[i..i + k], x[i + k..];
    assert y[..i] == pre && y[i + k..] == post;
  }

  /**
   Every burst of at most `width` bits, in the order bits enter the register, is
   detected by `_compute` for an odd polynomial, on whichever path it takes.
   */
  lemma {:induction false} BurstDetected(m: CrcModel, a: bytes, b: bytes, i: nat, k: nat)
    requires m.Valid() && m.poly % 2 == 1
    requires |a| == |b| && a != b && k <= m.width && i + k <= 8 * |a|
    requires AgreeOutside(MessageBits(a, m.refin), MessageBits(b, m.refin), i, k)
    ensures Output(m, Register(m, a), Reflects(m)) != Output(m, Register(m, b), Reflects(m))
    ensures Crc(m, a) != Crc(m, b)
  {
    var x, y := MessageBits(a, m.refin), MessageBits(b, m.refin);
    MessageBitsInjective(a, b, m.refin);
    var pre, mx, my, post := AroundWindow(x, y, i, k);
    SameEndsInjective(m.init, pre, mx, my, post, m.poly, m.width);
    RegisterBound(m, a);
    RegisterBound(m, b);
    OutputInjective(m, Register(m, a), Register(m, b), Reflects(m));
    OutputInjective(m, Register(m, a), Register(m, b), m.refout);
  }

  // ---- trailers ---------------------------------------------------------------

  lemma {:induction false} ValAppend(a: seq<bit>, b: seq<bit>)
    ensures Val(a + b) == Shl(Val(a), |b|) + Val(b)
  {
    if b == [] {
      assert a + b == a;
    } else {
      ValAppend(a, b[..|b| - 1]);
      assert (a + b)[..|a + b| - 1] == a + b[..|b| - 1];
    }
  }

  lemma ShlNone(v: nat)
    ensures Shl(v, 0) == v
  {}

  lemma ShlByte(v: nat)
    ensures Shl(v, 8) == 256 * v
  {
    assert Shl(v, 8) == 2 * Shl(v, 7);
    assert Shl(v, 7) == 2 * Shl(v, 6);
    assert Shl(v, 6) == 2 * Shl(v, 5);
    assert Shl(v, 5) == 2 * Shl(v, 4);
    assert Shl(v, 4) == 2 * Shl(v, 3);
    assert Shl(v, 3) == 2 * Shl(v, 2);
    assert Shl(v, 2) == 2 * Shl(v, 1);
    assert Shl(v, 1) == 2 * Shl(v, 0);
  }

  lemma {:induction false} PlainTrailerValue(t: bytes)
    ensures Val(MessageBits(t, false)) == FromBig(t)
  {
    if t != [] {
      var n := |t| - 1;
      PlainTrailerValue(t[..n]);
      ValAppend(MessageBits(t[..n], false), ByteBits(t[n], false));
      ByteVal(t[n]);
      ShlByte(FromBig(t[..n]));
    }
  }

  lemma {:induction false} ReflectJoin(lo: nat, hi: nat, n: nat, k: nat)
    requires lo < Pow2(n)
    ensures Reflect(Xor(Shl(hi, n), lo), n + k) == Shl(Reflect(lo, n), k) + Reflect(hi, k)
    decreases k
  {
    var x := Xor(Shl(hi, n), lo);
    if k == 0 {
      XorLow(Shl(hi, n), lo, n);
      LowOfShl(hi, n);
      LowFits(lo, n);
      ReflectLow(x, n, n);
    } else {
      ReflectJoin(lo, hi, n, k - 1);
      assert Shr(x, n + k - 1) == Shr(hi, k - 1) by {
        XorShr(Shl(hi, n), lo, n);
        ShrShl(hi, n);
        ShrFits(lo, n);
        XorComm(hi, 0);
        ShrAdd(x, n, k - 1);
      }
    }
  }

  lemma ShrAdd(v: nat, j: nat, k: nat)
    ensures Shr(Shr(v, j), k) == Shr(v, j + k)
    decreases j
  {
    if j > 0 { ShrAdd(v / 2, j - 1, k); }
  }

  lemma {:induction false} LittleSnoc(t: bytes, b: byte)
    ensures FromLittle(t + [b]) == Xor(Shl(b, 8 * |t|), FromLittle(t))
    decreases |t|
  {
    hide Xor, Low, Shl;
    if t == [] {
      assert (t + [b])[1..] == [];
      XorZero(b);
      assert FromLittle(t + [b]) == b + 256 * FromLittle([]);
      assert Shl(b, 0) == b by { ShlNone(b); }
    } else {
      LittleSnoc(t[1..], b);
      assert (t + [b])[1..] == t[1..] + [b];
      var rest, s := FromLittle(t[1..]), Shl(b, 8 * (|t| - 1));
      ShlByte(Xor(s, rest));
      XorShl(s, rest, 8);
      ShlByte(rest);
      ShlAdd(b, 8 * (|t| - 1), 8);
      LowOfShl(s, 8);
      LowSum(t[0], Shl(s, 8), rest);
    }
  }

  /** A byte slips under a sum of numbers shifted up by eight. */
  lemma LowSum(b: byte, high: nat, rest: nat)
    requires Low(high, 8) == 0
    ensures b + Xor(high, 256 * rest) == Xor(high, b + 256 * rest)
  {
    hide Xor, Shl, Shr;
    var y := Shl(rest, 8);
    ShlByte(rest);
    LowOfShl(rest, 8);
    AddIsXor(y, b);
    XorLow(high, y, 8);
    XorZero(0);
    AddIsXor(Xor(high, y), b);
    XorAssoc(high, y, b);
  }

  lemma AddIsXor(y: nat, b: byte)
    requires Low(y, 8) == 0
    ensures y + b == Xor(y, b)
  {
    assert Pow2(8) == 256;
    ByteSum(y, b, 8);
  }

  lemma ByteSum(y: nat, b: nat, k: nat)
    requires Low(y, k) == 0 && b < Pow2(k)
    ensures y + b == Xor(y, b)
    decreases k
  {
    if k > 0 {
      ByteSum(y / 2, b / 2, k - 1);
      XorFromHalves(y, b, y + b);
    } else {
      XorComm(y, 0);
    }
  }

  lemma ReflectNone(v: nat)
    ensures Reflect(v, 0) == 0
  {}

  lemma {:induction false} ReflectedTrailerValue(t: bytes)
    ensures Val(MessageBits(t, true)) == Reflect(FromLittle(t), 8 * |t|)
    decreases |t|
  {
    hide Xor, Shl, Shr, Low, Reflect, Pow2;
    ReflectNone(FromLittle(t));
    if t != [] {
      var n := |t| - 1;
      var front := t[..n];
      ReflectedTrailerValue(front);
      ValAppend(MessageBits(front, true), ByteBits(t[n], true));
      ByteVal(t[n]);
      LittleSnoc(front, t[n]);
      assert front + [t[n]] == t;
      LittleRoundTrip(front, 0);
      ReflectJoin(FromLittle(front), t[n], 8 * n, 8);
    }
  }

  /** The trailer a sender appends: the CRC, in the byte order the register consumes. */
  function Trailer(m: CrcModel, payload: bytes): bytes
    requires m.Valid()
  {
    if m.refin then ToLittle(Crc(m, payload), m.width / 8)
    else ToBig(Crc(m, payload), m.width / 8)
  }

  /** The CRC of any payload followed by its own trailer. */
  function Residue(m: CrcModel): nat
    requires m.Valid()
  {
    Output(m, ShiftUps(if m.refin then Reflect(m.xorout, m.width) else m.xorout,
                       m.width, m.poly, m.width), m.refout)
  }

  lemma OutputFits(m: CrcModel, reg: nat, reflected: bool)
    requires reg < Pow2(m.width) && m.xorout < Pow2(m.width)
    ensures Output(m, reg, reflected)
         == Xor(if reflected then Reflect(reg, m.width) else reg, m.xorout)
    ensures Output(m, reg, reflected) < Pow2(m.width)
  {
    ReflectBound(reg, m.width);
    XorBound(if reflected then Reflect(reg, m.width) else reg, m.xorout, m.width);
    LowFits(Xor(if reflected then Reflect(reg, m.width) else reg, m.xorout), m.width);
  }

  /** What a trailer adds to the register is a fixed constant exactly for the right trailer. */
  lemma TrailerMeetsRegister(m: CrcModel, payload: bytes, t: bytes)
    requires m.Valid() && m.xorout < Pow2(m.width)
    requires m.refin == m.refout && m.width == 8 * |t|
    ensures Xor(Register(m, payload), Val(MessageBits(t, m.refin)))
         == (if m.refin then Reflect(m.xorout, m.width) else m.xorout)
       <==> t == Trailer(m, payload)
  {
    var w, r, c := m.width, Register(m, payload), Crc(m, payload);
    RegisterBound(m, payload);
    OutputFits(m, r, m.refout);
    if m.refin {
      LittleRoundTrip(t, c);
      ReflectedTrailerValue(t);
      ReflectInjective(FromLittle(t), c, w);
      ReflectXor(Reflect(r, w), m.xorout, w);
      ReflectTwice(r, w);
      LowFits(r, w);
      var v, x := Reflect(FromLittle(t), w), Reflect(m.xorout, w);
      XorCancel(v, r);
      XorCancel(x, r);
    } else {
      BigRoundTrip(t, c);
      PlainTrailerValue(t);
      XorCancel(FromBig(t), r);
      XorCancel(m.xorout, r);
    }
  }

  /**
   For an odd polynomial and a whole number of bytes, the CRC over payload and
   trailer is the model's residue exactly when the trailer is the payload's own.
   */
  lemma TrailerCheck(m: CrcModel, payload: bytes, t: bytes)
    requires m.Valid() && m.xorout < Pow2(m.width) && m.poly % 2 == 1
    requires m.refin == m.refout && m.width == 8 * |t|
    ensures Crc(m, payload + t) == Residue(m) <==> t == Trailer(m, payload)
    ensures m.xorout == 0 ==> Residue(m) == 0
  {
    var w, r := m.width, Register(m, payload);
    var bits := MessageBits(t, m.refin);
    var x := if m.refin then Reflect(m.xorout, w) else m.xorout;
    RegisterBound(m, payload);
    RegisterBound(m, payload + t);
    MessageBitsAppend(payload, t, m.refin);
    FeedAppend(m.init, MessageBits(payload, m.refin), bits, m.poly, w);
    FeedIsShifts(r, bits, m.poly, w);
    var met := Xor(r, Val(bits));
    assert Shl(Val(bits), 0) == Val(bits);
    ValBound(bits);
    XorBound(r, Val(bits), w);
    ReflectBound(m.xorout, w);
    ShiftUpsInjective(met, x, w, m.poly, w);
    ShiftUpsBound(x, w, m.poly, w);
    OutputInjective(m, Register(m, payload + t), ShiftUps(x, w, m.poly, w), m.refout);
    TrailerMeetsRegister(m, payload, t);
    if m.xorout == 0 {
      ReflectZero(w);
      ShiftUpsZero(w, m.poly, w);
      LowBound(0, w);
      LowFits(0, w);
    }
  }

  lemma ShiftUpsZero(k: nat, poly: nat, w: nat)
    requires w > 0
    ensures ShiftUps(0, k, poly, w) == 0
  {
    if k > 0 {
      ShiftUpsZero(k - 1, poly, w);
      ShrBeyond(0, 0, w - 1);
      LowFits(0, w);
    }
  }

  /** The catalogue's `crc16-modbus`. */
  const MODBUS := CrcModel(16, 0x8005, 0xFFFF, true, true, 0)

  /** The trailer test a Modbus listener makes is "the CRC of the whole frame is zero". */
  lemma ModbusTrailer(frame: bytes)
    requires |frame| >= 2
    ensures MODBUS.Valid()
    ensures Crc(MODBUS, frame) == 0
       <==> frame[|frame| - 2..] == ToLittle(Crc(MODBUS, frame[..|frame| - 2]), 2)
  {
    ModbusValid();
    var n := |frame| - 2;
    assert frame == frame[..n] + frame[n..];
    TrailerCheck(MODBUS, frame[..n], frame[n..]);
  }

  lemma ModbusValid()
    ensures MODBUS.Valid()
  {
    assert Pow2(8) == 256;
    PowByte(1);
  }

  // ---- the two table loops mirror each other -----------------------------------

  /** The register of the reflected loop after each byte, by table entries alone. */
  function ReflectedFold(poly: nat, w: nat, init: nat, data: bytes): nat
    requires w >= 8
  {
    if data == [] then Reflect(init, w) else
      var v := ReflectedFold(poly, w, init, data[..|data| - 1]);
      Xor(Entry(Low(Xor(v, data[|data| - 1]), 8), poly, w, true), Shr(v, 8))
  }

  /** The register of the plain loop after each byte, by table entries alone. */
  function PlainFold(poly: nat, w: nat, init: nat, data: bytes): nat
    requires w >= 8
  {
    if data == [] then init else
      var v := PlainFold(poly, w, init, data[..|data| - 1]);
      Xor(Entry(Low(Xor(Shr(v, w - 8), data[|data| - 1]), 8), poly, w, false), Low(Shl(v, 8), w))
  }

  function ReverseBits(data: bytes): (r: bytes)
    ensures |r| == |data|
  {
    assert Pow2(8) == 256;
    seq(|data|, i requires 0 <= i < |data| => ReverseByte(data[i]))
  }

  function ReverseByte(b: byte): byte
  {
    assert Pow2(8) == 256;
    ReflectBound(b, 8);
    Reflect(b, 8)
  }

  /** After every byte the reflected register is the mirror image of the plain one. */
  lemma {:induction false} FoldsMirror(poly: nat, w: nat, init: nat, data: bytes)
    requires w >= 8 && poly < Pow2(w) && init < Pow2(w)
    ensures PlainFold(poly, w, init, ReverseBits(data)) < Pow2(w)
    ensures ReflectedFold(poly, w, init, data)
         == Reflect(PlainFold(poly, w, init, ReverseBits(data)), w)
  {
    hide Xor, Low, Shr, Shl, ShiftUps, ShiftDowns, Feed, Step, Reflect;
    if data != [] {
      var n := |data| - 1;
      var b, rb := data[n], ReverseByte(data[n]);
      FoldsMirror(poly, w, init, data[..n]);
      assert ReverseBits(data)[..n] == ReverseBits(data[..n]);
      var v := PlainFold(poly, w, init, ReverseBits(data[..n]));
      assert ByteBits(b, true) == ByteBits(rb, false);
      PlainByte(v, rb, poly, w);
      MirrorByte(v, b, poly, w);
      ReflectedByte(Reflect(v, w), b, Reflect(poly, w));
      FeedBound(v, ByteBits(b, true), poly, w);
      assert Pow2(8) == 256;
      LowFits(Xor(Shr(v, w - 8), rb), 8);
    }
  }

  // ---- where the sub-byte path leaves the model ---------------------------------

  /** The register from which `ShiftUp` reaches t, for an odd polynomial. */
  function ShiftBack(t: nat, poly: nat, w: nat): nat
    requires w > 0
  {
    if t % 2 == 1 then Xor(t, poly) / 2 + Pow2(w - 1) else t / 2
  }

  lemma ShiftBackUndone(t: nat, poly: nat, w: nat)
    requires w > 0 && t < Pow2(w) && poly < Pow2(w) && poly % 2 == 1
    ensures ShiftBack(t, poly, w) < Pow2(w)
    ensures ShiftUp(ShiftBack(t, poly, w), poly, w) == t
  {
    hide Xor, ShiftUp, Low, Shr;
    ShlOne(w - 1);
    ShlZero(w - 1);
    if t % 2 == 1 {
      var even := Xor(t, poly);
      XorBound(t, poly, w);
      XorHalves(t, poly);
      UnshiftedTo(1, even / 2, poly, w);
      XorCancel(t, poly);
    } else {
      UnshiftedTo(0, t / 2, poly, w);
      XorZero(t);
    }
  }

  lemma UnshiftedTo(b: nat, half: nat, poly: nat, w: nat)
    requires w > 0 && poly < Pow2(w) && b < 2 && half < Pow2(w - 1)
    ensures ShiftUp(Shl(b, w - 1) + half, poly, w) == Xor(2 * half, if b == 1 then poly else 0)
  {
    var v := Shl(b, w - 1) + half;
    TopBit(b, half, w - 1);
    ShiftUpSum(v, poly, w);
    LowHalf(v, w - 1);
  }

  lemma {:induction false} ShiftsReach(t: nat, k: nat, poly: nat, w: nat) returns (v: nat)
    requires w > 0 && t < Pow2(w) && poly < Pow2(w) && poly % 2 == 1
    ensures v < Pow2(w) && ShiftUps(v, k, poly, w) == t
    decreases k
  {
    v := t;
    if k > 0 {
      ShiftBackUndone(t, poly, w);
      v := ShiftsReach(ShiftBack(t, poly, w), k - 1, poly, w);
    }
  }

  lemma OneByte(b: byte, refin: bool)
    ensures MessageBits([b], refin) == ByteBits(b, refin)
  {
    assert [b][..0] == [];
  }

  /** The byte whose bits enter the register as the number y. */
  lemma ByteFor(y: nat, refin: bool) returns (b: byte)
    requires y < 256
    ensures ByteBits(b, refin) == NatBits(y, 8)
  {
    hide NatBits;
    assert Pow2(8) == 256;
    ReflectBound(y, 8);
    ReflectTwice(y, 8);
    LowFits(y, 8);
    b := if refin then Reflect(y, 8) else y;
  }

  /** One byte takes a sub-byte register to `width` shifts of any value. */
  lemma ByteShifts(m: CrcModel, v: nat) returns (b: byte)
    requires m.Valid() && m.width < 8 && v < Pow2(m.width)
    ensures Register(m, [b]) == ShiftUps(v, m.width, m.poly, m.width)
  {
    hide Xor, Low, Shr, Shl, ShiftUps, Feed, Step, Reflect, NatBits, MessageBits, Val;
    var w := m.width;
    var zeros := NatBits(0, 8 - w);
    var u := Feed(m.init, zeros, m.poly, w);
    FeedBound(m.init, zeros, m.poly, w);
    var y := Xor(u, v);
    XorBound(u, v, w);
    assert y < 256 by { PowMonotone(w, 8); assert Pow2(8) == 256; }
    b := ByteFor(y, m.refin);
    var bits := NatBits(y, w);
    OneByte(b, m.refin);
    PaddedBits(y, w, 8 - w);
    FeedAppend(m.init, zeros, bits, m.poly, w);
    FeedIsShifts(u, bits, m.poly, w);
    ValOfNatBits(y, w);
    LowFits(y, w);
    ShlNone(y);
    XorCancel(v, u);
  }

  /** With an odd polynomial that is anywhere. */
  lemma ByteReaches(m: CrcModel, t: nat) returns (b: byte)
    requires m.Valid() && m.width < 8 && m.poly % 2 == 1 && t < Pow2(m.width)
    ensures Register(m, [b]) == t
  {
    hide ShiftUps, Register;
    var v := ShiftsReach(t, m.width, m.poly, m.width);
    b := ByteShifts(m, v);
  }

  lemma {:induction false} PaddedBits(y: nat, w: nat, k: nat)
    requires y < Pow2(w)
    ensures NatBits(y, w + k) == NatBits(0, k) + NatBits(y, w)
    decreases w
  {
    if w == 0 {
      assert NatBits(0, k) + [] == NatBits(0, k);
    } else {
      PaddedBits(y / 2, w - 1, k);
    }
  }

  lemma {:induction false} ShiftUpsAdd(v: nat, a: nat, b: nat, poly: nat, w: nat)
    requires w > 0
    ensures ShiftUps(v, a + b, poly, w) == ShiftUps(ShiftUps(v, a, poly, w), b, poly, w)
    decreases b
  {
    if b > 0 { ShiftUpsAdd(v, a, b - 1, poly, w); }
  }

  /** An even number that is its own mirror image has no top bit, so a shift doubles it. */
  lemma EvenMirrorDoubles(p: nat, poly: nat, w: nat)
    requires w > 0 && p % 2 == 0 && Reflect(p, w) == p
    ensures 2 * p < Pow2(w) && ShiftUp(p, poly, w) == 2 * p
  {
    ReflectFront(p, w - 1);
    ShlZero(w - 1);
    ReflectBound(p / 2, w - 1);
    ShrBeyond(p, w - 1, w - 1);
    LowFits(2 * p, w);
  }

  /** Shifting an even polynomial, it stops being its own mirror image before `width` shifts. */
  lemma {:induction false} Crooked(p: nat, k: nat, poly: nat, w: nat) returns (n: nat)
    requires w > 0 && p == ShiftUps(poly, k, poly, w)
    requires Pow2(k) < p < Pow2(w) && p % 2 == 0
    ensures n < w && Reflect(ShiftUps(poly, n, poly, w), w) != ShiftUps(poly, n, poly, w)
    decreases Pow2(w) - p
  {
    if k >= w { PowMonotone(w, k); }
    if Reflect(p, w) != p {
      n := k;
    } else {
      EvenMirrorDoubles(p, poly, w);
      n := Crooked(2 * p, k + 1, poly, w);
    }
  }

  /** The bit that reaches the top after w - 1 - k shifts becomes the polynomial, shifted k times. */
  lemma BitBecomesPoly(k: nat, poly: nat, w: nat)
    requires k < w && poly < Pow2(w)
    ensures ShiftUps(Pow2(k), w, poly, w) == ShiftUps(poly, k, poly, w)
  {
    hide ShiftUps;
    var a := w - 1 - k;
    PowGrows(k);
    ShiftUpsOfSmall(Pow2(k), a, poly, w);
    ShlOne(k);
    ShlAdd(1, k, a);
    ShlOne(w - 1);
    ShiftUpsAdd(Pow2(k), a, k + 1, poly, w);
    ShiftUpsAdd(Pow2(w - 1), 1, k, poly, w);
    TopBecomesPoly(poly, w);
  }

  lemma TopBecomesPoly(poly: nat, w: nat)
    requires w > 0 && poly < Pow2(w)
    ensures ShiftUps(Pow2(w - 1), 1, poly, w) == poly
  {
    hide ShiftUp;
    assert ShiftUps(Pow2(w - 1), 0, poly, w) == Pow2(w - 1);
    ShlOne(w - 1);
    ShlZero(w - 1);
    UnshiftedTo(1, 0, poly, w);
    XorComm(0, poly);
    XorZero(poly);
  }

  /** Some byte leaves a sub-byte register that is not its own mirror image, unless the polynomial is 0. */
  lemma CrookedRegister(m: CrcModel) returns (b: byte)
    requires m.Valid() && 2 <= m.width < 8 && m.poly > 0
    ensures Reflect(Register(m, [b]), m.width) != Register(m, [b])
  {
    hide Register, ShiftUps;
    var w := m.width;
    if m.poly % 2 == 1 {
      assert Pow2(1) == 2;
      PowMonotone(1, w);
      b := ByteReaches(m, 1);
      OneIsCrooked(w);
    } else {
      NoShift(m.poly, w);
      var k := Crooked(m.poly, 0, m.poly, w);
      BitBecomesPoly(k, m.poly, w);
      PowMonotone(k, w - 1);
      PowGrows(w - 1);
      b := ByteShifts(m, Pow2(k));
    }
  }

  lemma NoShift(poly: nat, w: nat)
    requires w > 0
    ensures ShiftUps(poly, 0, poly, w) == poly && Pow2(0) == 1
  {}

  lemma OneIsCrooked(w: nat)
    requires w >= 2
    ensures Reflect(1, w) != 1
  {
    ReflectFront(1, w - 1);
    ReflectZero(w - 1);
    ShlOne(w - 1);
    PowMonotone(1, w - 1);
    assert Pow2(1) == 2;
  }

  /** With polynomial 0 a register only shifts, and a byte shifts it out. */
  lemma {:induction false} ZeroPolyShifts(v: nat, bits: seq<bit>, w: nat)
    requires w > 0
    ensures Feed(v, bits, 0, w) == if bits == [] then v else Low(Shl(v, |bits|), w)
  {
    hide Low, Xor, Shr;
    if bits != [] {
      var front := bits[..|bits| - 1];
      ZeroPolyShifts(v, front, w);
      var u := Feed(v, front, 0, w);
      XorComm(Low(2 * u, w), 0);
      XorZero(Low(2 * u, w));
      if front != [] { LowDouble(Shl(v, |front|), w); } else { ShlNone(v); }
    }
  }

  lemma LowDouble(v: nat, w: nat)
    requires w > 0
    ensures Low(2 * Low(v, w), w) == Low(2 * v, w)
  {
    LowHalf(Low(v, w), w - 1);
    LowHalf(v, w - 1);
    LowTwice(v, w, w - 1);
  }

  lemma {:induction false} LowTwice(v: nat, n: nat, w: nat)
    requires w <= n
    ensures Low(Low(v, n), w) == Low(v, w)
    decreases w
  {
    if w > 0 { LowTwice(v / 2, n - 1, w - 1); }
  }

  lemma {:induction false} LowOfShlZero(v: nat, n: nat, w: nat)
    requires w <= n
    ensures Low(Shl(v, n), w) == 0
    decreases w
  {
    if w > 0 { LowOfShlZero(v, n - 1, w - 1); }
  }

  lemma ZeroPolyRegister(m: CrcModel, data: bytes)
    requires m.Valid() && m.width < 8 && m.poly == 0 && data != []
    ensures Register(m, data) == 0
  {
    hide Feed, Low, Shl, MessageBits;
    var bits := MessageBits(data, m.refin);
    ZeroPolyShifts(m.init, bits, m.width);
    LowOfShlZero(m.init, |bits|, m.width);
  }

  /** A register read mirrored gives the same result exactly when it is its own mirror image. */
  lemma MirrorShows(m: CrcModel, data: bytes)
    requires m.Valid() && m.width < 8 && m.refin && !m.refout
    ensures Output(m, Register(m, data), Reflects(m)) == Crc(m, data)
       <==> Reflect(Register(m, data), m.width) == Register(m, data)
  {
    hide Register;
    var r := Register(m, data);
    RegisterBound(m, data);
    ReflectBound(r, m.width);
    OutputInjective(m, Reflect(r, m.width), r, false);
  }

  /**
   `_compute` follows the Rocksoft model on every message, except that a width from two to
   seven with refin and without refout reflects a register the model does not; with the
   polynomial 0 even that does not show if the initial register is its own mirror image.
   */
  lemma {:induction false} ComputeFollowsModel(m: CrcModel)
    requires m.Valid()
    ensures (forall data: bytes :: Output(m, Register(m, data), Reflects(m)) == Crc(m, data))
       <==> || m.width >= 8 || m.width == 1 || (m.refin ==> m.refout)
            || (m.poly == 0 && Reflect(m.init, m.width) == m.init)
  {
    hide Register, Output;
    if m.width < 8 && m.refin && !m.refout {
      if m.width == 1 {
        forall data: bytes ensures Output(m, Register(m, data), Reflects(m)) == Crc(m, data) {
          OneBitMirror(m, data);
          MirrorShows(m, data);
        }
      } else if m.poly > 0 {
        var b := CrookedRegister(m);
        MirrorShows(m, [b]);
      } else {
        NothingFed(m);
        MirrorShows(m, []);
        ReflectZero(m.width);
        forall data: bytes | data != [] ensures Output(m, Register(m, data), Reflects(m)) == Crc(m, data) {
          ZeroPolyRegister(m, data);
          MirrorShows(m, data);
        }
      }
    }
  }

  lemma OneBitMirror(m: CrcModel, data: bytes)
    requires m.Valid() && m.width == 1
    ensures Reflect(Register(m, data), 1) == Register(m, data)
  {
    RegisterBound(m, data);
    assert Pow2(1) == 2;
  }

  lemma NothingFed(m: CrcModel)
    requires m.Valid()
    ensures Register(m, []) == m.init
  {}
}
