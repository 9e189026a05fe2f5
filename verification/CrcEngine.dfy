/**
 The CRC engine of fielddeck/analysis/crc.py: the table builder, the two
 table-driven byte loops and the bit loop for widths below eight, each proved
 to compute the bit-serial register of the Rocksoft model.
 */
module CrcEngine {
  import opened Bits
  import opened Bytes

  type bit = n: nat | n < 2

  datatype CrcModel = CrcModel(
    width: nat, poly: nat, init: nat, refin: bool, refout: bool, xorout: nat)
  {
    /** A Rocksoft parameter set: the polynomial and the initial register have `width` bits. */
    predicate Valid()
    {
      width > 0 && poly < Pow2(width) && init < Pow2(width)
    }
  }

  // ---- the bit-serial reference --------------------------------------------

  /** One message bit enters at the top of the register. */
  function Step(v: nat, b: bit, poly: nat, w: nat): nat
    requires w > 0
  {
    var shifted := Low(2 * v, w);
    if Shr(v, w - 1) % 2 == b then shifted else Xor(shifted, poly)
  }

  function Feed(v: nat, bits: seq<bit>, poly: nat, w: nat): nat
    requires w > 0
  {
    if bits == [] then v
    else Step(Feed(v, bits[..|bits| - 1], poly, w), bits[|bits| - 1], poly, w)
  }

  /** The `k` lowest bits of `v`, highest first. */
  function NatBits(v: nat, k: nat): (r: seq<bit>)
    ensures |r| == k
  {
    if k == 0 then [] else NatBits(v / 2, k - 1) + [v % 2]
  }

  /** The bits of a message in the order they enter the register. */
  function MessageBits(data: bytes, refin: bool): (r: seq<bit>)
    ensures |r| == 8 * |data|
  {
    if data == [] then [] else
      MessageBits(data[..|data| - 1], refin) + ByteBits(data[|data| - 1], refin)
  }

  function ByteBits(b: byte, refin: bool): (r: seq<bit>)
    ensures |r| == 8
  {
    NatBits(if refin then Reflect(b, 8) else b, 8)
  }

  function Register(m: CrcModel, data: bytes): nat
    requires m.Valid()
  {
    Feed(m.init, MessageBits(data, m.refin), m.poly, m.width)
  }

  /** What leaves the register: reflected on demand, then masked with `xorout`. */
  function Output(m: CrcModel, reg: nat, reflected: bool): nat
  {
    Low(Xor(if reflected then Reflect(reg, m.width) else reg, m.xorout), m.width)
  }

  /** The CRC of the Rocksoft model. */
  function Crc(m: CrcModel, data: bytes): nat
    requires m.Valid()
  {
    Output(m, Register(m, data), m.refout)
  }

  // ---- the two mirrored register shifts ------------------------------------

  /** One zero bit through the register, highest bit first. */
  function ShiftUp(v: nat, poly: nat, w: nat): nat
    requires w > 0
  {
    if Shr(v, w - 1) % 2 == 1 then Low(Xor(2 * v, poly), w) else Low(2 * v, w)
  }

  /** The mirror image, lowest bit first, with the polynomial already reflected. */
  function ShiftDown(v: nat, polyR: nat): nat
  {
    Xor(v / 2, if v % 2 == 1 then polyR else 0)
  }

  function ShiftUps(v: nat, k: nat, poly: nat, w: nat): nat
    requires w > 0
  {
    if k == 0 then v else ShiftUp(ShiftUps(v, k - 1, poly, w), poly, w)
  }

  function ShiftDowns(v: nat, k: nat, polyR: nat): nat
  {
    if k == 0 then v else ShiftDown(ShiftDowns(v, k - 1, polyR), polyR)
  }

  lemma StepBound(v: nat, b: bit, poly: nat, w: nat)
    requires w > 0 && poly < Pow2(w)
    ensures Step(v, b, poly, w) < Pow2(w)
  {
    LowBound(2 * v, w);
    XorBound(Low(2 * v, w), poly, w);
  }

  lemma FeedBound(v: nat, bits: seq<bit>, poly: nat, w: nat)
    requires w > 0 && poly < Pow2(w) && v < Pow2(w)
    ensures Feed(v, bits, poly, w) < Pow2(w)
  {
    if bits != [] {
      StepBound(Feed(v, bits[..|bits| - 1], poly, w), bits[|bits| - 1], poly, w);
    }
  }

  lemma {:induction false} FeedAppend(v: nat, a: seq<bit>, b: seq<bit>, poly: nat, w: nat)
    requires w > 0
    ensures Feed(v, a + b, poly, w) == Feed(Feed(v, a, poly, w), b, poly, w)
  {
    if b == [] {
      assert a + b == a;
    } else {
      var n := |b| - 1;
      FeedAppend(v, a, b[..n], poly, w);
      assert (a + b)[..|a + b| - 1] == a + b[..n];
    }
  }

  lemma {:induction false} MessageBitsAppend(a: bytes, b: bytes, refin: bool)
    ensures MessageBits(a + b, refin) == MessageBits(a, refin) + MessageBits(b, refin)
  {
    if b == [] {
      assert a + b == a;
    } else {
      var n := |b| - 1;
      MessageBitsAppend(a, b[..n], refin);
      assert (a + b)[..|a + b| - 1] == a + b[..n];
      Associate(MessageBits(a, refin), MessageBits(b[..n], refin), ByteBits(b[n], refin));
    }
  }

  lemma RegisterSnoc(m: CrcModel, data: bytes, b: byte)
    requires m.Valid()
    ensures Register(m, data + [b])
         == Feed(Register(m, data), ByteBits(b, m.refin), m.poly, m.width)
  {
    assert (data + [b])[..|data|] == data;
    FeedAppend(m.init, MessageBits(data, m.refin), ByteBits(b, m.refin), m.poly, m.width);
  }

  lemma RegisterBound(m: CrcModel, data: bytes)
    requires m.Valid()
    ensures Register(m, data) < Pow2(m.width)
  {
    FeedBound(m.init, MessageBits(data, m.refin), m.poly, m.width);
  }

  lemma {:induction false} NatBitsAt(v: nat, k: nat, i: nat)
    requires i < k
    ensures NatBits(v, k)[i] == Shr(v, k - 1 - i) % 2
    decreases k
  {
    if i < k - 1 {
      NatBitsAt(v / 2, k - 1, i);
      assert Shr(v, k - 1 - i) == Shr(v / 2, k - 2 - i);
    }
  }

  // ---- linearity ------------------------------------------------------------

  /** Whether the highest of the `w` register bits is set. */
  predicate Top(v: nat, w: nat)
    requires w > 0
  {
    Shr(v, w - 1) % 2 == 1
  }

  /** What `ShiftUp` adds when the top bit falls out. */
  function Reduction(v: nat, poly: nat, w: nat): nat
    requires w > 0
  {
    if Top(v, w) then poly else 0
  }

  /** `ShiftUp` with the reduction written as a sum. */
  lemma ShiftUpSum(v: nat, poly: nat, w: nat)
    requires w > 0 && poly < Pow2(w)
    ensures ShiftUp(v, poly, w) == Xor(Low(2 * v, w), Reduction(v, poly, w))
    ensures ShiftUp(v, poly, w) < Pow2(w)
  {
    hide Xor, Low;
    XorLow(2 * v, poly, w);
    LowFits(poly, w);
    LowBound(2 * v, w);
    XorBound(Low(2 * v, w), poly, w);
    XorZero(Low(2 * v, w));
  }

  lemma TopOfXor(a: nat, b: nat, w: nat)
    requires w > 0
    ensures Top(Xor(a, b), w) <==> Top(a, w) != Top(b, w)
  {
    hide Xor, Shr;
    BitOfXor(a, b, w - 1);
  }

  lemma ReductionLinear(a: nat, b: nat, poly: nat, w: nat)
    requires w > 0
    ensures Reduction(Xor(a, b), poly, w) == Xor(Reduction(a, poly, w), Reduction(b, poly, w))
  {
    hide Xor, Shr, Top;
    TopOfXor(a, b, w);
    XorSelf(poly);
    XorZero(poly);
    XorZero(0);
  }

  lemma ShiftUpLinear(a: nat, b: nat, poly: nat, w: nat)
    requires w > 0 && poly < Pow2(w)
    ensures ShiftUp(Xor(a, b), poly, w) == Xor(ShiftUp(a, poly, w), ShiftUp(b, poly, w))
  {
    hide *;
    ShiftUpSum(a, poly, w);
    ShiftUpSum(b, poly, w);
    ShiftUpSum(Xor(a, b), poly, w);
    XorDouble(a, b);
    XorLow(2 * a, 2 * b, w);
    ReductionLinear(a, b, poly, w);
    XorSwap(Low(2 * a, w), Reduction(a, poly, w), Low(2 * b, w), Reduction(b, poly, w));
  }

  lemma {:induction false} ShiftUpsLinear(a: nat, b: nat, k: nat, poly: nat, w: nat)
    requires w > 0 && poly < Pow2(w)
    ensures ShiftUps(Xor(a, b), k, poly, w) == Xor(ShiftUps(a, k, poly, w), ShiftUps(b, k, poly, w))
  {
    if k > 0 {
      ShiftUpsLinear(a, b, k - 1, poly, w);
      ShiftUpLinear(ShiftUps(a, k - 1, poly, w), ShiftUps(b, k - 1, poly, w), poly, w);
    }
  }

  lemma ShiftDownLinear(a: nat, b: nat, polyR: nat)
    ensures ShiftDown(Xor(a, b), polyR) == Xor(ShiftDown(a, polyR), ShiftDown(b, polyR))
  {
    XorHalves(a, b);
    var fa := if a % 2 == 1 then polyR else 0;
    var fb := if b % 2 == 1 then polyR else 0;
    XorSwap(a / 2, fa, b / 2, fb);
    XorSelf(polyR);
    XorComm(polyR, 0);
  }

  lemma {:induction false} ShiftDownsLinear(a: nat, b: nat, k: nat, polyR: nat)
    ensures ShiftDowns(Xor(a, b), k, polyR) == Xor(ShiftDowns(a, k, polyR), ShiftDowns(b, k, polyR))
  {
    if k > 0 {
      ShiftDownsLinear(a, b, k - 1, polyR);
      ShiftDownLinear(ShiftDowns(a, k - 1, polyR), ShiftDowns(b, k - 1, polyR), polyR);
    }
  }

  /** Multiples of 2^k fall through k downward shifts untouched. */
  lemma {:induction false} ShiftDownsOfShl(v: nat, j: nat, k: nat, polyR: nat)
    ensures ShiftDowns(Shl(v, j + k), k, polyR) == Shl(v, j)
    decreases k
  {
    if k > 0 {
      ShiftDownsOfShl(v, j + 1, k - 1, polyR);
      var s := Shl(v, j);
      assert Shl(v, j + 1) == 2 * s;
      XorComm(s, 0);
    }
  }

  /** Numbers with k free bits at the top only move up. */
  lemma {:induction false} ShiftUpsOfSmall(v: nat, k: nat, poly: nat, w: nat)
    requires w > 0 && k <= w && v < Pow2(w - k)
    ensures ShiftUps(v, k, poly, w) == Shl(v, k)
  {
    if k > 0 {
      PowGrows(w - k);
      ShiftUpsOfSmall(v, k - 1, poly, w);
      var s := Shl(v, k - 1);
      ShlBound(v, w - k, k - 1);
      ShrBeyond(s, w - 1, w - 1);
      LowFits(2 * s, w);
    }
  }

  lemma PowGrows(n: nat)
    ensures Pow2(n) < Pow2(n + 1)
  {}

  // ---- a byte at a time -----------------------------------------------------

  function Val(bits: seq<bit>): nat
  {
    if bits == [] then 0 else 2 * Val(bits[..|bits| - 1]) + bits[|bits| - 1]
  }

  lemma {:induction false} ValOfNatBits(v: nat, k: nat)
    ensures Val(NatBits(v, k)) == Low(v, k)
  {
    if k > 0 {
      ValOfNatBits(v / 2, k - 1);
      assert NatBits(v, k)[..k - 1] == NatBits(v / 2, k - 1);
    }
  }

  lemma ValBound(bits: seq<bit>)
    ensures Val(bits) < Pow2(|bits|)
  {}

  lemma StepIsShift(v: nat, b: bit, poly: nat, w: nat)
    requires w > 0 && poly < Pow2(w)
    ensures Step(v, b, poly, w) == ShiftUp(Xor(v, Shl(b, w - 1)), poly, w)
  {
    hide Xor, Low, Shr, Shl, ShiftUp;
    var s := Shl(b, w - 1);
    ShiftUpSum(Xor(v, s), poly, w);
    TopOfXor(v, s, w);
    ShrShl(b, w - 1);
    XorDouble(v, s);
    XorLow(2 * v, 2 * s, w);
    DoubledTop(b, w);
    XorZero(Low(2 * v, w));
  }

  lemma DoubledTop(b: bit, w: nat)
    requires w > 0
    ensures Low(2 * Shl(b, w - 1), w) == 0
  {
    LowOfShl(b, w);
  }

  lemma LowOfShl(v: nat, k: nat)
    ensures Low(Shl(v, k), k) == 0
  {
    if k > 0 { assert Shl(v, k) / 2 == Shl(v, k - 1); }
  }

  /** Feeding k bits is adding them under the top of the register and shifting k times. */
  lemma {:induction false} FeedIsShifts(v: nat, bits: seq<bit>, poly: nat, w: nat)
    requires w > 0 && poly < Pow2(w) && |bits| <= w
    ensures Feed(v, bits, poly, w)
         == ShiftUps(Xor(v, Shl(Val(bits), w - |bits|)), |bits|, poly, w)
    decreases |bits|
  {
    hide Xor, Low, Shr, Shl, ShiftUp, Step, Pow2;
    if bits == [] {
      ShlZero(w);
      XorZero(v);
    } else {
      var k := |bits| - 1;
      var front, b := bits[..k], bits[k];
      var x, y := Shl(Val(front), w - k), Shl(b, w - 1 - k);
      var fed := ShiftUps(Xor(v, x), k, poly, w);
      calc {
        Feed(v, bits, poly, w);
        { FeedIsShifts(v, front, poly, w); }
        Step(fed, b, poly, w);
        { StepIsShift(fed, b, poly, w); }
        ShiftUp(Xor(fed, Shl(b, w - 1)), poly, w);
        { PlacedBitRises(b, k, poly, w); }
        ShiftUp(Xor(fed, ShiftUps(y, k, poly, w)), poly, w);
        { ShiftUpsLinear(Xor(v, x), y, k, poly, w); }
        ShiftUps(Xor(Xor(v, x), y), k + 1, poly, w);
        { XorAssoc(v, x, y); PlaceNext(Val(front), b, w - 1 - k); }
        ShiftUps(Xor(v, Shl(Val(bits), w - |bits|)), k + 1, poly, w);
      }
    }
  }

  lemma PlacedBitRises(b: bit, k: nat, poly: nat, w: nat)
    requires k < w
    ensures ShiftUps(Shl(b, w - 1 - k), k, poly, w) == Shl(b, w - 1)
  {
    ShlBound(b, 1, w - 1 - k);
    ShiftUpsOfSmall(Shl(b, w - 1 - k), k, poly, w);
    ShlAdd(b, w - 1 - k, k);
  }

  lemma PlaceNext(v: nat, b: bit, k: nat)
    ensures Xor(Shl(v, k + 1), Shl(b, k)) == Shl(2 * v + b, k)
  {
    XorAppend(v, 0, 0, b);
    XorComm(v, 0);
    XorShl(2 * v, b, k);
    ShlInside(v, k);
  }

  lemma ByteVal(b: byte)
    ensures Val(ByteBits(b, false)) == b
    ensures Val(ByteBits(b, true)) == Reflect(b, 8)
  {
    assert Pow2(8) == 256;
    ValOfNatBits(b, 8);
    LowFits(b, 8);
    ReflectBound(b, 8);
    ValOfNatBits(Reflect(b, 8), 8);
    LowFits(Reflect(b, 8), 8);
  }

  /** The plain table update is eight bit-serial steps. */
  lemma PlainByte(v: nat, b: byte, poly: nat, w: nat)
    requires w >= 8 && poly < Pow2(w) && v < Pow2(w)
    ensures Xor(Shr(v, w - 8), b) < 256
    ensures Feed(v, ByteBits(b, false), poly, w)
         == Xor(ShiftUps(Low(Shl(Xor(Shr(v, w - 8), b), w - 8), w), 8, poly, w), Low(Shl(v, 8), w))
  {
    hide Xor, Low, Shr, Shl, ShiftUp, Feed, Step, Reflect;
    var k := w - 8;
    var index, low := Xor(Shr(v, k), b), Low(v, k);
    var top := Shl(index, k);
    assert index < 256 by {
      assert Pow2(8) == 256;
      ShrBound(v, 8, k);
      XorBound(Shr(v, k), b, 8);
    }
    assert Low(top, w) == top by {
      assert Pow2(8) == 256;
      ShlBound(index, 8, k);
      LowFits(top, w);
    }
    assert Feed(v, ByteBits(b, false), poly, w) == ShiftUps(Xor(top, low), 8, poly, w) by {
      FeedIsShifts(v, ByteBits(b, false), poly, w);
      ByteVal(b);
      AddAtTop(v, b, k);
    }
    ShiftUpsLinear(top, low, 8, poly, w);
    assert ShiftUps(low, 8, poly, w) == Low(Shl(v, 8), w) by {
      LowBound(v, k);
      ShiftUpsOfSmall(low, 8, poly, w);
      ShlLow(v, 8, k);
    }
  }

  lemma AddAtTop(v: nat, b: nat, k: nat)
    ensures Xor(v, Shl(b, k)) == Xor(Shl(Xor(Shr(v, k), b), k), Low(v, k))
  {
    var high, low, s := Shl(Shr(v, k), k), Low(v, k), Shl(b, k);
    SplitAt(v, k);
    XorShl(Shr(v, k), b, k);
    XorComm(high, low);
    XorAssoc(low, high, s);
    XorComm(low, Xor(high, s));
  }

  lemma ShlLow(v: nat, k: nat, n: nat)
    ensures Shl(Low(v, n), k) == Low(Shl(v, k), n + k)
  {
    if k > 0 {
      ShlLow(v, k - 1, n);
      LowHalf(Shl(v, k - 1), n + k - 1);
    }
  }

  /** One reflected shift is the reflection of one plain shift. */
  lemma ShiftMirror(v: nat, poly: nat, w: nat)
    requires w > 0 && poly < Pow2(w)
    ensures Reflect(ShiftUp(v, poly, w), w) == ShiftDown(Reflect(v, w), Reflect(poly, w))
  {
    hide Xor, Low, Shr;
    var top := Shr(v, w - 1) % 2;
    ShiftUpSum(v, poly, w);
    ReflectXor(Low(2 * v, w), if top == 1 then poly else 0, w);
    ReflectZero(w);
    ReflectLow(2 * v, w, w);
    ReflectDouble(v, w - 1);
    assert Reflect(v, w) / 2 == Reflect(v, w - 1) && Reflect(v, w) % 2 == top;
  }

  lemma {:induction false} ShiftsMirror(v: nat, k: nat, poly: nat, w: nat)
    requires w > 0 && poly < Pow2(w)
    ensures Reflect(ShiftUps(v, k, poly, w), w) == ShiftDowns(Reflect(v, w), k, Reflect(poly, w))
  {
    if k > 0 {
      ShiftsMirror(v, k - 1, poly, w);
      ShiftMirror(ShiftUps(v, k - 1, poly, w), poly, w);
    }
  }

  /** The reflected register absorbs a byte at its bottom, then shifts eight times. */
  lemma MirrorByte(v: nat, b: byte, poly: nat, w: nat)
    requires w >= 8 && poly < Pow2(w)
    ensures Reflect(Feed(v, ByteBits(b, true), poly, w), w)
         == ShiftDowns(Xor(Reflect(v, w), b), 8, Reflect(poly, w))
  {
    hide Xor, Low, Shr, Shl, ShiftUp, ShiftDown, Feed, Step;
    assert Pow2(8) == 256;
    var placed := Shl(Reflect(b, 8), w - 8);
    FeedIsShifts(v, ByteBits(b, true), poly, w);
    ByteVal(b);
    ShiftsMirror(Xor(v, placed), 8, poly, w);
    ReflectXor(v, placed, w);
    assert Reflect(placed, w) == b by {
      ReflectWide(b, 8, w);
      ReflectTwice(b, w);
      PowMonotone(8, w);
      LowFits(b, w);
    }
  }

  lemma PowMonotone(a: nat, b: nat)
    requires a <= b
    ensures Pow2(a) <= Pow2(b)
  {}

  /** The reflected table update is the same eight shifts. */
  lemma ReflectedByte(v: nat, b: byte, polyR: nat)
    ensures Low(Xor(v, b), 8) < 256
    ensures ShiftDowns(Xor(v, b), 8, polyR)
         == Xor(ShiftDowns(Low(Xor(v, b), 8), 8, polyR), Shr(v, 8))
  {
    assert Pow2(8) == 256;
    var x := Xor(v, b);
    LowBound(x, 8);
    SplitAt(x, 8);
    XorComm(Shl(Shr(x, 8), 8), Low(x, 8));
    ShiftDownsLinear(Low(x, 8), Shl(Shr(x, 8), 8), 8, polyR);
    ShiftDownsOfShl(Shr(x, 8), 0, 8, polyR);
    XorShr(v, b, 8);
    ShrFits(b, 8);
    XorComm(Shr(v, 8), 0);
  }

  lemma ShiftDownBound(v: nat, polyR: nat, w: nat)
    requires v < Pow2(w) && polyR < Pow2(w)
    ensures ShiftDown(v, polyR) < Pow2(w)
  {
    XorBound(v / 2, polyR, w);
    XorBound(v / 2, 0, w);
  }

  // ---- the code ---------------------------------------------------------------

  /** `_reflect` */
  method ReflectValue(value: nat, width: nat) returns (out: nat)
    ensures out == Reflect(value, width)
  {
    out := 0;
    var rest := value;
    for i := 0 to width
      invariant out == Reflect(value, i)
      invariant rest == Shr(value, i)
    {
      ShrSnoc(value, i);
      out := 2 * out + rest % 2;
      rest := rest / 2;
    }
  }

  /** The entry at `index` of the byte-wise lookup table. */
  function Entry(index: nat, poly: nat, width: nat, refin: bool): nat
    requires width >= 8
  {
    if refin then ShiftDowns(index, 8, Reflect(poly, width))
    else ShiftUps(Low(Shl(index, width - 8), width), 8, poly, width)
  }

  /** `_table` */
  method BuildTable(poly: nat, width: nat, refin: bool) returns (table: seq<nat>)
    requires width >= 8 && poly < Pow2(width)
    ensures |table| == 256
    ensures forall i :: 0 <= i < 256 ==> table[i] == Entry(i, poly, width, refin)
  {
    table := [];
    assert Pow2(8) == 256;
    PowMonotone(8, width);
    if refin {
      var polyR := ReflectValue(poly, width);
      ReflectBound(poly, width);
      for index := 0 to 256
        invariant |table| == index
        invariant forall i :: 0 <= i < index ==> table[i] == Entry(i, poly, width, refin)
      {
        var value: nat := index;
        for k := 0 to 8
          invariant value == ShiftDowns(index, k, polyR) && value < Pow2(width)
        {
          ShiftDownBound(value, polyR, width);
          value := Xor(value / 2, if value % 2 == 1 then polyR else 0);
        }
        LowFits(value, width);
        table := table + [Low(value, width)];
      }
    } else {
      for index := 0 to 256
        invariant |table| == index
        invariant forall i :: 0 <= i < index ==> table[i] == Entry(i, poly, width, refin)
      {
        var value: nat := Low(Shl(index, width - 8), width);
        ghost var first := value;
        LowBound(Shl(index, width - 8), width);
        for k := 0 to 8
          invariant value == ShiftUps(first, k, poly, width) && value < Pow2(width)
        {
          ShiftUpSum(value, poly, width);
          value := if Shr(value, width - 1) % 2 == 1 then Low(Xor(2 * value, poly), width)
          else Low(2 * value, width);
        }
        LowFits(value, width);
        table := table + [Low(value, width)];
      }
    }
  }

  /** `_compute` for widths below eight: one bit at a time. */
  method ComputeBitwise(m: CrcModel, data: bytes) returns (value: nat)
    requires m.Valid()
    ensures value == Register(m, data)
  {
    hide Xor, Low, Shr, Reflect;
    value := m.init;
    for i := 0 to |data|
      invariant value == Register(m, data[..i])
    {
      var current: nat := data[i];
      if m.refin { current := ReflectValue(data[i], 8); }
      ghost var before, bits := value, ByteBits(data[i], m.refin);
      for k := 0 to 8
        invariant value == Feed(before, bits[..k], m.poly, m.width)
      {
        var top := Shr(value, m.width - 1) % 2;
        var inbit := Shr(current, 7 - k) % 2;
        NatBitsAt(current, 8, k);
        assert bits[..k + 1][..k] == bits[..k];
        XorZero(Low(2 * value, m.width));
        value := Xor(Low(2 * value, m.width), if top != inbit then m.poly else 0);
      }
      assert bits[..8] == bits;
      RegisterSnoc(m, data[..i], data[i]);
      assert data[..i + 1] == data[..i] + [data[i]];
    }
    assert data[..|data|] == data;
  }

  /** `_compute`, the loop over a table built from the lowest bit up. */
  method ComputeReflected(m: CrcModel, data: bytes) returns (value: nat)
    requires m.Valid() && m.width >= 8 && m.refin
    ensures value == Reflect(Register(m, data), m.width)
  {
    var table := BuildTable(m.poly, m.width, true);
    value := ReflectValue(m.init, m.width);
    for i := 0 to |data|
      invariant value == Reflect(Register(m, data[..i]), m.width)
    {
      RegisterSnoc(m, data[..i], data[i]);
      assert data[..i + 1] == data[..i] + [data[i]];
      MirrorByte(Register(m, data[..i]), data[i], m.poly, m.width);
      ReflectedByte(value, data[i], Reflect(m.poly, m.width));
      value := Xor(table[Low(Xor(value, data[i]), 8)], Shr(value, 8));
    }
    assert data[..|data|] == data;
    ReflectBound(Register(m, data), m.width);
    LowFits(value, m.width);
    value := Low(value, m.width);
  }

  /** `_compute`, the loop over a table built from the highest bit down. */
  method ComputePlain(m: CrcModel, data: bytes) returns (value: nat)
    requires m.Valid() && m.width >= 8 && !m.refin
    ensures value == Register(m, data)
  {
    hide Xor, Low, Shr, Shl, ShiftUp, ShiftUps, Step, Reflect;
    var table := BuildTable(m.poly, m.width, false);
    value := m.init;
    var shift := m.width - 8;
    for i := 0 to |data|
      invariant value == Register(m, data[..i])
    {
      RegisterSnoc(m, data[..i], data[i]);
      assert data[..i + 1] == data[..i] + [data[i]];
      RegisterBound(m, data[..i]);
      PlainByte(value, data[i], m.poly, m.width);
      LowFits(Xor(Shr(value, shift), data[i]), 8);
      value := Xor(table[Low(Xor(Shr(value, shift), data[i]), 8)], Low(Shl(value, 8), m.width));
    }
    assert data[..|data|] == data;
  }

  /** Whether `_compute` reflects what leaves the register. */
  predicate Reflects(m: CrcModel)
  {
    if m.width < 8 then m.refin || m.refout else m.refout
  }

  /**
   `_compute`: every path hands the bit-serial register to the same output stage.
   The sub-byte path reflects it whenever either flag is set.
   */
  method Compute(m: CrcModel, data: bytes) returns (crc: nat)
    requires m.Valid()
    ensures crc == Output(m, Register(m, data), Reflects(m))
    ensures m.width >= 8 || (m.refin ==> m.refout) ==> crc == Crc(m, data)
  {
    var value;
    RegisterBound(m, data);
    if m.width < 8 {
      value := ComputeBitwise(m, data);
      if m.refout != m.refin || m.refout { value := ReflectValue(value, m.width); }
    } else if m.refin {
      value := ComputeReflected(m, data);
      if !m.refout {
        value := ReflectValue(value, m.width);
        ReflectTwice(Register(m, data), m.width);
        LowFits(Register(m, data), m.width);
      }
    } else {
      value := ComputePlain(m, data);
      if m.refout { value := ReflectValue(value, m.width); }
    }
    crc := Low(Xor(value, m.xorout), m.width);
  }
}
