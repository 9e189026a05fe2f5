/**
 The mirrored CRC register in a 32-bit machine word, one message bit at a time, and the
 proof that it is the register of CrcEngine.
 */
module CrcWords {
  import opened Bits
  import opened Bytes
  import opened CrcEngine

  // ---- machine words as numbers -----------------------------------------------------------------

  function Bit(v: bv32): (b: bit)
  {
    if v & 1 == 1 then 1 else 0
  }

  function Half(v: bv32): bv32
  {
    v >> 1
  }

  function Mixed(a: bv32, b: bv32): bv32
  {
    a ^ b
  }

  function Lowest(v: bv32): bv32
  {
    v & 1
  }

  /** The number that the k lowest bits of v make. */
  function Value(v: bv32, k: nat): nat
  {
    if k == 0 then 0 else Bit(v) + 2 * Value(Half(v), k - 1)
  }

  /** Nothing but zeros above the k lowest bits. */
  predicate Clean(v: bv32, k: nat)
  {
    if k == 0 then v == 0 else Clean(Half(v), k - 1)
  }

  lemma MixedParts(a: bv32, b: bv32)
    ensures Half(Mixed(a, b)) == Mixed(Half(a), Half(b))
    ensures Bit(Mixed(a, b)) == if Bit(a) == Bit(b) then 0 else 1
  {}

  lemma LowestParts(v: bv32)
    ensures Half(Lowest(v)) == 0 && Bit(Lowest(v)) == Bit(v)
  {}

  lemma ZeroParts()
    ensures Half(0) == 0 && Bit(0) == 0 && Mixed(0, 0) == 0
  {}

  lemma {:induction false} ValueMixed(a: bv32, b: bv32, k: nat)
    ensures Value(Mixed(a, b), k) == Xor(Value(a, k), Value(b, k))
    decreases k
  {
    hide Bit, Half, Mixed, Xor;
    if k > 0 {
      ValueMixed(Half(a), Half(b), k - 1);
      MixedParts(a, b);
      XorFromHalves(Value(a, k), Value(b, k), Value(Mixed(a, b), k));
    } else {
      XorZero(0);
    }
  }

  lemma {:induction false} CleanMixed(a: bv32, b: bv32, k: nat)
    requires Clean(a, k) && Clean(b, k)
    ensures Clean(Mixed(a, b), k)
    decreases k
  {
    hide Bit, Half, Mixed;
    if k > 0 {
      MixedParts(a, b);
      CleanMixed(Half(a), Half(b), k - 1);
    } else {
      ZeroParts();
    }
  }

  lemma {:induction false} CleanWider(v: bv32, k: nat)
    requires Clean(v, k)
    ensures Clean(v, k + 1) && Value(v, k + 1) == Value(v, k)
    decreases k
  {
    hide Bit, Half;
    if k == 0 {
      ZeroParts();
    } else {
      CleanWider(Half(v), k - 1);
    }
  }

  /** Halving a clean word halves its value. */
  lemma Halved(v: bv32, k: nat)
    requires Clean(v, k) && k > 0
    ensures Clean(Half(v), k) && Value(Half(v), k) == Value(v, k) / 2 && Value(v, k) % 2 == Bit(v)
  {
    hide Bit, Half;
    CleanWider(Half(v), k - 1);
  }

  // ---- the register -----------------------------------------------------------------------------

  /** The lowest bit of c enters at the bottom. */
  function Down(v: bv32, c: bv32, p: bv32): bv32
  {
    var x := Mixed(v, Lowest(c));
    if Bit(x) == 1 then Mixed(Half(x), p) else Half(x)
  }

  /** The k lowest bits of c, lowest first. */
  function Upwards(v: bv32, c: bv32, k: nat, p: bv32): bv32
    decreases k
  {
    if k == 0 then v else Upwards(Down(v, c, p), Half(c), k - 1, p)
  }

  /** The k lowest bits of c, highest first. */
  function Downwards(v: bv32, c: bv32, k: nat, p: bv32): bv32
    decreases k
  {
    if k == 0 then v else Down(Downwards(v, Half(c), k - 1, p), c, p)
  }

  /** The word holds the mirror image of the register. */
  ghost predicate Mirrors(v: bv32, reg: nat, w: nat)
  {
    reg < Pow2(w) && Clean(v, w) && Value(v, w) == Reflect(reg, w)
  }

  lemma BitAtBottom(b: bit, w: nat)
    requires w > 0
    ensures Reflect(Shl(b, w - 1), w) == b && Shl(b, w - 1) < Pow2(w)
  {
    ShlBound(b, 1, w - 1);
    ReflectFront(b, 0);
    ReflectWide(b, 1, w);
    ReflectTwice(b, w);
    PowMonotone(1, w);
    LowFits(b, w);
    assert Reflect(b, 1) == b;
  }

  /** A bit on its own. */
  lemma SoleBit(c: bv32, w: nat)
    requires w > 0
    ensures Clean(Lowest(c), w) && Value(Lowest(c), w) == Bit(c)
  {
    hide Bit, Half, Lowest;
    LowestParts(c);
    ZeroClean(w - 1);
  }

  lemma {:induction false} ZeroClean(k: nat)
    ensures Clean(0, k) && Value(0, k) == 0
  {
    hide Bit, Half;
    if k > 0 {
      ZeroParts();
      ZeroClean(k - 1);
    }
  }

  /** One step of the word is one mirrored shift. */
  lemma DownIsShift(v: bv32, c: bv32, p: bv32, w: nat)
    requires w > 0 && Clean(v, w) && Clean(p, w)
    ensures Clean(Down(v, c, p), w)
    ensures Value(Down(v, c, p), w) == ShiftDown(Xor(Value(v, w), Bit(c)), Value(p, w))
  {
    hide Value, Clean, Bit, Half, Mixed, Lowest, Xor;
    var x := Mixed(v, Lowest(c));
    SoleBit(c, w);
    ValueMixed(v, Lowest(c), w);
    CleanMixed(v, Lowest(c), w);
    Halved(x, w);
    ValueMixed(Half(x), p, w);
    CleanMixed(Half(x), p, w);
    XorZero(Value(x, w) / 2);
  }

  lemma DownIsStep(v: bv32, reg: nat, c: bv32, p: bv32, poly: nat, w: nat)
    requires w > 0 && Mirrors(v, reg, w) && Mirrors(p, poly, w)
    ensures Mirrors(Down(v, c, p), Step(reg, Bit(c), poly, w), w)
  {
    hide Xor, Shl, Shr, Low, Reflect, ShiftUp, ShiftDown, Step, Value, Clean, Bit, Half, Mixed, Lowest, Down;
    var b := Bit(c);
    var s := Shl(b, w - 1);
    StepBound(reg, b, poly, w);
    StepIsShift(reg, b, poly, w);
    ShiftMirror(Xor(reg, s), poly, w);
    ReflectXor(reg, s, w);
    BitAtBottom(b, w);
    DownIsShift(v, c, p, w);
  }

  lemma ValueOnce(v: bv32, k: nat)
    requires k > 0
    ensures Value(v, k) / 2 == Value(Half(v), k - 1) && Value(v, k) % 2 == Bit(v)
  {
    hide Bit, Half;
  }

  lemma {:induction false} DownwardsIsFeed(v: bv32, reg: nat, c: bv32, k: nat, p: bv32, poly: nat, w: nat)
    requires w > 0 && Mirrors(v, reg, w) && Mirrors(p, poly, w)
    ensures Mirrors(Downwards(v, c, k, p), Feed(reg, NatBits(Value(c, k), k), poly, w), w)
    decreases k
  {
    hide Mirrors, Down, Step, Value, Bit, Half;
    if k > 0 {
      ValueOnce(c, k);
      var bits, front := NatBits(Value(c, k), k), NatBits(Value(Half(c), k - 1), k - 1);
      assert bits[..k - 1] == front && bits[k - 1] == Bit(c);
      DownwardsIsFeed(v, reg, Half(c), k - 1, p, poly, w);
      DownIsStep(Downwards(v, Half(c), k - 1, p), Feed(reg, front, poly, w), c, p, poly, w);
    }
  }

  lemma {:induction false} NatBitsFront(b: bit, r: nat, k: nat)
    requires r < Pow2(k)
    ensures NatBits(Shl(b, k) + r, k + 1) == [b] + NatBits(r, k)
    decreases k
  {
    if k > 0 {
      assert (Shl(b, k) + r) / 2 == Shl(b, k - 1) + r / 2 && (Shl(b, k) + r) % 2 == r % 2;
      NatBitsFront(b, r / 2, k - 1);
    } else {
      assert NatBits(b, 1) == NatBits(b / 2, 0) + [b % 2];
    }
  }

  lemma {:induction false} UpwardsIsFeed(v: bv32, reg: nat, c: bv32, k: nat, p: bv32, poly: nat, w: nat)
    requires w > 0 && Mirrors(v, reg, w) && Mirrors(p, poly, w)
    ensures Mirrors(Upwards(v, c, k, p), Feed(reg, NatBits(Reflect(Value(c, k), k), k), poly, w), w)
    decreases k
  {
    hide Mirrors, Down, Step, Value, Bit, Half, Reflect, Feed;
    if k > 0 {
      var b, value := Bit(c), Value(Half(c), k - 1);
      var rest := Reflect(value, k - 1);
      ValueOnce(c, k);
      ReflectFront(Value(c, k), k - 1);
      ReflectBound(value, k - 1);
      NatBitsFront(b, rest, k - 1);
      DownIsStep(v, reg, c, p, poly, w);
      UpwardsIsFeed(Down(v, c, p), Step(reg, b, poly, w), Half(c), k - 1, p, poly, w);
      FeedAppend(reg, [b], NatBits(rest, k - 1), poly, w);
      FeedOne(reg, b, poly, w);
    } else {
      FeedNothing(reg, poly, w);
    }
  }

  lemma FeedNothing(reg: nat, poly: nat, w: nat)
    requires w > 0
    ensures Feed(reg, [], poly, w) == reg
  {}

  lemma FeedOne(reg: nat, b: bit, poly: nat, w: nat)
    requires w > 0
    ensures Feed(reg, [b], poly, w) == Step(reg, b, poly, w)
  {
    assert [b][..0] == [];
    assert Feed(reg, [], poly, w) == reg;
  }

  function Octets(v: bv32, words: seq<bv32>, refin: bool, p: bv32): bv32
  {
    if words == [] then v else
      var front, c := Octets(v, words[..|words| - 1], refin, p), words[|words| - 1];
      if refin then Upwards(front, c, 8, p) else Downwards(front, c, 8, p)
  }

  ghost predicate Same(words: seq<bv32>, data: bytes)
  {
    |words| == |data| && forall i :: 0 <= i < |data| ==> Value(words[i], 8) == data[i]
  }

  /** The word that has taken in these bytes mirrors the register that has. */
  lemma {:induction false} OctetsIsRegister(v: bv32, words: seq<bv32>, p: bv32, m: CrcModel, data: bytes)
    requires m.Valid() && Mirrors(v, m.init, m.width) && Mirrors(p, m.poly, m.width) && Same(words, data)
    ensures Mirrors(Octets(v, words, m.refin, p), Register(m, data), m.width)
    decreases |words|
  {
    hide Mirrors, Value, Upwards, Downwards, Register, Reflect;
    if words == [] {
      NothingRegistered(m);
    } else {
      var n := |words| - 1;
      var front, c, b := Octets(v, words[..n], m.refin, p), words[n], data[n];
      OctetsIsRegister(v, words[..n], p, m, data[..n]);
      assert data == data[..n] + [b] && Value(c, 8) == b;
      RegisterSnoc(m, data[..n], b);
      if m.refin {
        UpwardsIsFeed(front, Register(m, data[..n]), c, 8, p, m.poly, m.width);
      } else {
        DownwardsIsFeed(front, Register(m, data[..n]), c, 8, p, m.poly, m.width);
      }
    }
  }

  lemma NothingRegistered(m: CrcModel)
    requires m.Valid()
    ensures Register(m, []) == m.init
  {}

  /** The number that the k lowest bits of v make when they are read the other way round. */
  function Mirror(v: bv32, k: nat): nat
  {
    if k == 0 then 0 else (if Bit(v) == 1 then Pow2(k - 1) else 0) + Mirror(Half(v), k - 1)
  }

  lemma {:induction false} MirrorIsReflect(v: bv32, k: nat)
    ensures Mirror(v, k) == Reflect(Value(v, k), k)
    decreases k
  {
    hide Bit, Half, Reflect, Value;
    if k > 0 {
      MirrorIsReflect(Half(v), k - 1);
      ValueOnce(v, k);
      ReflectFront(Value(v, k), k - 1);
      ShlOne(k - 1);
      ShlZero(k - 1);
    } else {
      NothingMirrored(v);
    }
  }

  lemma NothingMirrored(v: bv32)
    ensures Reflect(Value(v, 0), 0) == 0
  {}
}
