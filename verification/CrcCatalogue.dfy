/** The catalogue of fielddeck/analysis/crc.py, and the check value that each of its entries carries. */
module CrcCatalogue {
  import opened Bits
  import opened Bytes
  import opened CrcEngine
  import opened CrcAlgebra
  import opened CrcWords

  datatype Entry = Entry(name: string, model: CrcModel, check: nat)

  const CRC8 := Entry("crc8", CrcModel(8, 0x07, 0x00, false, false, 0x00), 0xF4)
  const CRC8_MAXIM := Entry("crc8-maxim", CrcModel(8, 0x31, 0x00, true, true, 0x00), 0xA1)
  const CRC8_SAE_J1850 := Entry("crc8-sae-j1850", CrcModel(8, 0x1D, 0xFF, false, false, 0xFF), 0x4B)
  const CRC8_AUTOSAR := Entry("crc8-autosar", CrcModel(8, 0x2F, 0xFF, false, false, 0xFF), 0xDF)
  const CRC16_MODBUS := Entry("crc16-modbus", CrcModel(16, 0x8005, 0xFFFF, true, true, 0x0000), 0x4B37)
  const CRC16_CCITT_FALSE := Entry("crc16-ccitt-false", CrcModel(16, 0x1021, 0xFFFF, false, false, 0x0000), 0x29B1)
  const CRC16_XMODEM := Entry("crc16-xmodem", CrcModel(16, 0x1021, 0x0000, false, false, 0x0000), 0x31C3)
  const CRC16_KERMIT := Entry("crc16-kermit", CrcModel(16, 0x1021, 0x0000, true, true, 0x0000), 0x2189)
  const CRC16_ARC := Entry("crc16-arc", CrcModel(16, 0x8005, 0x0000, true, true, 0x0000), 0xBB3D)
  const CRC16_MAXIM := Entry("crc16-maxim", CrcModel(16, 0x8005, 0x0000, true, true, 0xFFFF), 0x44C2)
  const CRC16_USB := Entry("crc16-usb", CrcModel(16, 0x8005, 0xFFFF, true, true, 0xFFFF), 0xB4C8)
  const CRC16_DNP := Entry("crc16-dnp", CrcModel(16, 0x3D65, 0x0000, true, true, 0xFFFF), 0xEA82)
  const CRC16_MCRF4XX := Entry("crc16-mcrf4xx", CrcModel(16, 0x1021, 0xFFFF, true, true, 0x0000), 0x6F91)
  const CRC32 := Entry("crc32", CrcModel(32, 0x04C11DB7, 0xFFFFFFFF, true, true, 0xFFFFFFFF), 0xCBF43926)
  const CRC32C := Entry("crc32c", CrcModel(32, 0x1EDC6F41, 0xFFFFFFFF, true, true, 0xFFFFFFFF), 0xE3069283)
  const CRC32_BZIP2 := Entry("crc32-bzip2", CrcModel(32, 0x04C11DB7, 0xFFFFFFFF, false, false, 0xFFFFFFFF), 0xFC891918)
  const CRC32_MPEG2 := Entry("crc32-mpeg2", CrcModel(32, 0x04C11DB7, 0xFFFFFFFF, false, false, 0x00000000), 0x0376E6E7)
  const CRC16_T10_DIF := Entry("crc16-t10-dif", CrcModel(16, 0x8BB7, 0x0000, false, false, 0x0000), 0xD0DB)
  const CRC16_PROFIBUS := Entry("crc16-profibus", CrcModel(16, 0x1DCF, 0xFFFF, false, false, 0xFFFF), 0xA819)
  const CRC5_USB := Entry("crc5-usb", CrcModel(5, 0x05, 0x1F, true, true, 0x1F), 0x19)

  const CATALOGUE: seq<Entry> := [
    CRC8, CRC8_MAXIM, CRC8_SAE_J1850, CRC8_AUTOSAR, CRC16_MODBUS, CRC16_CCITT_FALSE, CRC16_XMODEM,
    CRC16_KERMIT, CRC16_ARC, CRC16_MAXIM, CRC16_USB, CRC16_DNP, CRC16_MCRF4XX, CRC32, CRC32C, CRC32_BZIP2,
    CRC32_MPEG2, CRC16_T10_DIF, CRC16_PROFIBUS, CRC5_USB
  ]

  /** `b"123456789"` */
  const DIGITS: bytes := [49, 50, 51, 52, 53, 54, 55, 56, 57]

  ghost predicate Holds(e: Entry)
  {
    e.model.Valid() && Crc(e.model, DIGITS) == e.check
  }

  // ---- words worked out ---------------------------------------------------------------------------

  /** What is above 4, 8 and 16 bits of a word. */
  function Above4(v: bv32): bv32 { v >> 4 }
  function Above8(v: bv32): bv32 { v >> 8 }
  function Above16(v: bv32): bv32 { v >> 16 }

  function Four(v: bv32): nat
  {
    (if v & 1 != 0 then 1 else 0) + (if v & 2 != 0 then 2 else 0)
    + (if v & 4 != 0 then 4 else 0) + (if v & 8 != 0 then 8 else 0)
  }

  function TurnedFour(v: bv32): nat
  {
    (if v & 1 != 0 then 8 else 0) + (if v & 2 != 0 then 4 else 0)
    + (if v & 4 != 0 then 2 else 0) + (if v & 8 != 0 then 1 else 0)
  }

  lemma FourBits(v: bv32)
    ensures Bit(v) == (if v & 1 != 0 then 1 else 0) && Bit(Half(v)) == (if v & 2 != 0 then 1 else 0)
    ensures Bit(Half(Half(v))) == if v & 4 != 0 then 1 else 0
    ensures Bit(Half(Half(Half(v)))) == if v & 8 != 0 then 1 else 0
  {}

  lemma Shifts(v: bv32)
    ensures Half(Half(Half(Half(v)))) == Above4(v)
  {}

  lemma AboveTwice(v: bv32)
    ensures Above4(Above4(v)) == Above8(v) && Above8(Above8(v)) == Above16(v) && Above16(Above16(v)) == 0
  {}

  lemma Once(v: bv32, k: nat)
    requires k > 0
    ensures Value(v, k) == Bit(v) + 2 * Value(Half(v), k - 1) && Clean(v, k) == Clean(Half(v), k - 1)
    ensures Mirror(v, k) == (if Bit(v) == 1 then Pow2(k - 1) else 0) + Mirror(Half(v), k - 1)
  {
    hide Bit, Half;
  }

  lemma FourUp(v: bv32, k: nat)
    requires k >= 4
    ensures Value(v, k) == Four(v) + 16 * Value(Above4(v), k - 4) && Clean(v, k) == Clean(Above4(v), k - 4)
  {
    hide Bit, Half, Value, Clean, Mirror, Above4;
    Shifts(v);
    FourBits(v);
    Once(v, k);
    Once(Half(v), k - 1);
    Once(Half(Half(v)), k - 2);
    Once(Half(Half(Half(v))), k - 3);
  }

  lemma FourTurned(v: bv32, k: nat)
    requires k >= 4
    ensures Mirror(v, k) == Pow2(k - 4) * TurnedFour(v) + Mirror(Above4(v), k - 4)
  {
    hide Bit, Half, Value, Clean, Mirror, Above4;
    Shifts(v);
    FourBits(v);
    Once(v, k);
    Once(Half(v), k - 1);
    Once(Half(Half(v)), k - 2);
    Once(Half(Half(Half(v))), k - 3);
    assert Pow2(k - 1) == 2 * Pow2(k - 2) && Pow2(k - 2) == 2 * Pow2(k - 3) && Pow2(k - 3) == 2 * Pow2(k - 4);
    Weigh(Pow2(k - 4), Bit(v), Bit(Half(v)), Bit(Half(Half(v))), Bit(Half(Half(Half(v)))));
  }

  lemma Weigh(p: nat, a: bit, b: bit, c: bit, d: bit)
    ensures p * (8 * a + 4 * b + 2 * c + d)
         == (if a == 1 then 8 * p else 0) + (if b == 1 then 4 * p else 0) + (if c == 1 then 2 * p else 0)
            + (if d == 1 then p else 0)
  {}

  lemma PowFour(k: nat)
    ensures Pow2(k + 4) == 16 * Pow2(k)
  {
    assert Pow2(k + 4) == 2 * Pow2(k + 3) && Pow2(k + 3) == 2 * Pow2(k + 2) && Pow2(k + 2) == 2 * Pow2(k + 1);
  }

  /** A weight, and the part above. */
  lemma Spread(p: nat, q: nat, n: nat, high: nat, low: nat)
    requires q == n * p
    ensures q * high + p * low == p * (n * high + low)
  {}

  function Eight(v: bv32): nat { Four(v) + 16 * Four(Above4(v)) }
  function Sixteen(v: bv32): nat { Eight(v) + 256 * Eight(Above8(v)) }
  function TurnedEight(v: bv32): nat { 16 * TurnedFour(v) + TurnedFour(Above4(v)) }
  function TurnedSixteen(v: bv32): nat { 256 * TurnedEight(v) + TurnedEight(Above8(v)) }

  lemma EightIs(v: bv32, k: nat)
    requires k >= 8
    ensures Value(v, k) == Eight(v) + 256 * Value(Above8(v), k - 8) && Clean(v, k) == Clean(Above8(v), k - 8)
    ensures Mirror(v, k) == Pow2(k - 8) * TurnedEight(v) + Mirror(Above8(v), k - 8)
    ensures Pow2(k) == 256 * Pow2(k - 8)
  {
    hide Value, Clean, Mirror, Above4, Above8, Above16, Four, TurnedFour, Pow2;
    AboveTwice(v);
    FourUp(v, k);
    FourUp(Above4(v), k - 4);
    FourTurned(v, k);
    FourTurned(Above4(v), k - 4);
    PowFour(k - 8);
    PowFour(k - 4);
    Spread(Pow2(k - 8), Pow2(k - 4), 16, TurnedFour(v), TurnedFour(Above4(v)));
  }

  lemma SixteenIs(v: bv32, k: nat)
    requires k >= 16
    ensures Value(v, k) == Sixteen(v) + 65536 * Value(Above16(v), k - 16) && Clean(v, k) == Clean(Above16(v), k - 16)
    ensures Mirror(v, k) == Pow2(k - 16) * TurnedSixteen(v) + Mirror(Above16(v), k - 16)
    ensures Pow2(k) == 65536 * Pow2(k - 16)
  {
    hide Value, Clean, Mirror, Above4, Above8, Above16, Eight, TurnedEight, Pow2;
    AboveTwice(v);
    EightIs(v, k);
    EightIs(Above8(v), k - 8);
    Spread(Pow2(k - 16), Pow2(k - 8), 256, TurnedEight(v), TurnedEight(Above8(v)));
  }

  /** The widths of the catalogue. */
  predicate Known(w: nat)
  {
    w == 5 || w == 8 || w == 16 || w == 32
  }

  function Number(v: bv32, w: nat): nat
    requires Known(w)
  {
    if w == 5 then Four(v) + (if v & 16 != 0 then 16 else 0)
    else if w == 8 then Four(v) + 16 * Four(v >> 4)
    else if w == 16 then Four(v) + 16 * Four(v >> 4) + 256 * Four(v >> 8) + 4096 * Four(v >> 12)
    else
      Four(v) + 16 * Four(v >> 4) + 256 * Four(v >> 8) + 4096 * Four(v >> 12)
      + 65536 * Four(v >> 16) + 1048576 * Four(v >> 20) + 16777216 * Four(v >> 24) + 268435456 * Four(v >> 28)
  }

  /** The number that the w lowest bits make when they are read the other way round. */
  function Turned(v: bv32, w: nat): nat
    requires Known(w)
  {
    if w == 5 then 2 * TurnedFour(v) + (if v & 16 != 0 then 1 else 0)
    else if w == 8 then 16 * TurnedFour(v) + TurnedFour(v >> 4)
    else if w == 16 then
      4096 * TurnedFour(v) + 256 * TurnedFour(v >> 4) + 16 * TurnedFour(v >> 8) + TurnedFour(v >> 12)
    else
      268435456 * TurnedFour(v) + 16777216 * TurnedFour(v >> 4) + 1048576 * TurnedFour(v >> 8)
      + 65536 * TurnedFour(v >> 12) + 4096 * TurnedFour(v >> 16) + 256 * TurnedFour(v >> 20)
      + 16 * TurnedFour(v >> 24) + TurnedFour(v >> 28)
  }

  predicate Fits(v: bv32, w: nat)
    requires Known(w)
  {
    if w == 5 then v >> 5 == 0 else if w == 8 then v >> 8 == 0 else if w == 16 then v >> 16 == 0 else true
  }

  lemma Places(v: bv32)
    ensures v >> 4 == Above4(v) && v >> 8 == Above8(v) && v >> 12 == Above4(Above8(v)) && v >> 16 == Above16(v)
  {}

  lemma HighPlaces(v: bv32)
    ensures v >> 20 == Above4(Above16(v)) && v >> 24 == Above8(Above16(v)) && v >> 28 == Above4(Above8(Above16(v)))
  {}

  lemma FifthPlace(v: bv32)
    ensures v >> 5 == Half(Above4(v))
  {}

  lemma FifthBit(v: bv32)
    ensures Bit(Above4(v)) == if v & 16 != 0 then 1 else 0
  {}

  lemma InSteps(v: bv32)
    ensures Number(v, 5) == Four(v) + 16 * Bit(Above4(v)) && Number(v, 8) == Eight(v) && Number(v, 16) == Sixteen(v)
    ensures Number(v, 32) == Sixteen(v) + 65536 * Sixteen(Above16(v))
    ensures Turned(v, 5) == 2 * TurnedFour(v) + Bit(Above4(v)) && Turned(v, 8) == TurnedEight(v)
    ensures Turned(v, 16) == TurnedSixteen(v) && Turned(v, 32) == 65536 * TurnedSixteen(v) + TurnedSixteen(Above16(v))
    ensures Fits(v, 5) == (Half(Above4(v)) == 0) && Fits(v, 8) == (Above8(v) == 0) && Fits(v, 16) == (Above16(v) == 0)
    ensures Fits(v, 32)
  {
    hide Four, TurnedFour, Above4, Above8, Above16, Bit, Half;
    Places(v);
    HighPlaces(v);
    FifthPlace(v);
    FifthBit(v);
  }

  lemma Empty(v: bv32)
    ensures Value(v, 0) == 0 && Mirror(v, 0) == 0 && Clean(v, 0) == (v == 0) && Pow2(0) == 1 && Pow2(1) == 2
  {}

  lemma WorkedOut(v: bv32, w: nat)
    requires Known(w)
    ensures Value(v, w) == Number(v, w) && Mirror(v, w) == Turned(v, w) && Clean(v, w) == Fits(v, w)
  {
    hide Value, Mirror, Clean, Bit, Half, Four, Eight, Sixteen, TurnedFour, TurnedEight, TurnedSixteen, Pow2,
         Above4, Above8, Above16, Number, Turned, Fits;
    InSteps(v);
    if w == 5 {
      FourUp(v, 5);
      FourTurned(v, 5);
      Once(Above4(v), 1);
      Empty(Half(Above4(v)));
    } else if w == 8 {
      EightIs(v, 8);
      Empty(Above8(v));
    } else {
      SixteenIs(v, w);
      if w == 32 { SixteenIs(Above16(v), 16); }
      AboveTwice(v);
      Empty(if w == 16 then Above16(v) else 0);
    }
  }

  // ---- nine digits --------------------------------------------------------------------------------

  /** One bit through the register. */
  function Quick(v: bv32, c: bv32, p: bv32): bv32
  {
    var x := v ^ c;
    if x & 1 == 1 then (x >> 1) ^ p else x >> 1
  }

  lemma MixedIs(v: bv32, c: bv32)
    ensures Mixed(v, c) == v ^ c
  {}

  lemma HalfIs(v: bv32)
    ensures Half(v) == v >> 1
  {}

  lemma BitIs(v: bv32)
    ensures Bit(v) == 1 <==> v & 1 == 1
  {}

  lemma QuickMixes(v: bv32, c: bv32, p: bv32)
    ensures var x := Mixed(v, c); Quick(v, c, p) == if Bit(x) == 1 then Mixed(Half(x), p) else Half(x)
  {
    hide Bit, Half, Mixed;
    var x := v ^ c;
    MixedIs(v, c);
    BitIs(x);
    HalfIs(x);
    MixedIs(Half(x), p);
  }

  lemma QuickIs(v: bv32, c: bv32, p: bv32)
    ensures Quick(v, Lowest(c), p) == Down(v, c, p)
  {
    hide Bit, Half, Mixed, Lowest, Quick;
    QuickMixes(v, Lowest(c), p);
  }

  /** One byte through the register. */
  function Digit(v: bv32, c: bv32, refin: bool, p: bv32): bv32
  {
    if refin then
      Quick(Quick(Quick(Quick(Quick(Quick(Quick(Quick(v, c & 1, p), (c >> 1) & 1, p), (c >> 2) & 1, p),
                                    (c >> 3) & 1, p), (c >> 4) & 1, p), (c >> 5) & 1, p), (c >> 6) & 1, p),
            (c >> 7) & 1, p)
    else
      Quick(Quick(Quick(Quick(Quick(Quick(Quick(Quick(v, (c >> 7) & 1, p), (c >> 6) & 1, p), (c >> 5) & 1, p),
                                    (c >> 4) & 1, p), (c >> 3) & 1, p), (c >> 2) & 1, p), (c >> 1) & 1, p),
            c & 1, p)
  }

  lemma Bits8(c: bv32)
    ensures c & 1 == Lowest(c) && (c >> 1) & 1 == Lowest(Half(c)) && (c >> 2) & 1 == Lowest(Half(Half(c)))
    ensures (c >> 3) & 1 == Lowest(Half(Half(Half(c)))) && (c >> 4) & 1 == Lowest(Half(Half(Half(Half(c)))))
    ensures (c >> 5) & 1 == Lowest(Half(Half(Half(Half(Half(c))))))
    ensures (c >> 6) & 1 == Lowest(Half(Half(Half(Half(Half(Half(c)))))))
    ensures (c >> 7) & 1 == Lowest(Half(Half(Half(Half(Half(Half(Half(c))))))))
  {}

  lemma DigitIs(v: bv32, c: bv32, refin: bool, p: bv32)
    ensures Digit(v, c, refin, p) == if refin then Upwards(v, c, 8, p) else Downwards(v, c, 8, p)
  {
    hide Upwards, Downwards, Digit;
    if refin { UpwardsIs(v, c, p); } else { DownwardsIs(v, c, p); }
  }

  lemma UpwardsIs(v: bv32, c: bv32, p: bv32)
    ensures Digit(v, c, true, p) == Upwards(v, c, 8, p)
  {
    hide Down, Half, Lowest, Quick;
    Bits8(c);
    var c1, v1 := Half(c), Down(v, c, p);
    var c2, v2 := Half(c1), Down(v1, c1, p);
    var c3, v3 := Half(c2), Down(v2, c2, p);
    var c4, v4 := Half(c3), Down(v3, c3, p);
    var c5, v5 := Half(c4), Down(v4, c4, p);
    var c6, v6 := Half(c5), Down(v5, c5, p);
    var c7, v7 := Half(c6), Down(v6, c6, p);
    QuickIs(v, c, p);
    QuickIs(v1, c1, p);
    QuickIs(v2, c2, p);
    QuickIs(v3, c3, p);
    QuickIs(v4, c4, p);
    QuickIs(v5, c5, p);
    QuickIs(v6, c6, p);
    QuickIs(v7, c7, p);
  }

  lemma DownwardsIs(v: bv32, c: bv32, p: bv32)
    ensures Digit(v, c, false, p) == Downwards(v, c, 8, p)
  {
    hide Down, Half, Lowest, Quick;
    Bits8(c);
    var c1 := Half(c);
    var c2 := Half(c1);
    var c3 := Half(c2);
    var c4 := Half(c3);
    var c5 := Half(c4);
    var c6 := Half(c5);
    var c7 := Half(c6);
    var v7 := Down(v, c7, p);
    var v6 := Down(v7, c6, p);
    var v5 := Down(v6, c5, p);
    var v4 := Down(v5, c4, p);
    var v3 := Down(v4, c3, p);
    var v2 := Down(v3, c2, p);
    var v1 := Down(v2, c1, p);
    QuickIs(v, c7, p);
    QuickIs(v7, c6, p);
    QuickIs(v6, c5, p);
    QuickIs(v5, c4, p);
    QuickIs(v4, c3, p);
    QuickIs(v3, c2, p);
    QuickIs(v2, c1, p);
    QuickIs(v1, c, p);
  }

  /** The nine digits, one after the other. */
  function Nine(v: bv32, refin: bool, p: bv32): bv32
  {
    var v1 := Digit(v, 49, refin, p);
    var v2 := Digit(v1, 50, refin, p);
    var v3 := Digit(v2, 51, refin, p);
    var v4 := Digit(v3, 52, refin, p);
    var v5 := Digit(v4, 53, refin, p);
    var v6 := Digit(v5, 54, refin, p);
    var v7 := Digit(v6, 55, refin, p);
    var v8 := Digit(v7, 56, refin, p);
    Digit(v8, 57, refin, p)
  }

  const WORDS: seq<bv32> := [49, 50, 51, 52, 53, 54, 55, 56, 57]

  lemma OctetsSnoc(v: bv32, words: seq<bv32>, c: bv32, refin: bool, p: bv32)
    ensures Octets(v, words + [c], refin, p) == Digit(Octets(v, words, refin, p), c, refin, p)
  {
    hide Digit, Upwards, Downwards;
    DigitIs(Octets(v, words, refin, p), c, refin, p);
    assert (words + [c])[..|words|] == words;
  }

  lemma NineIs(v: bv32, refin: bool, p: bv32)
    ensures Octets(v, WORDS, refin, p) == Nine(v, refin, p)
  {
    hide Octets, Digit;
    NoOctets(v, refin, p);
    OctetsSnoc(v, [], 49, refin, p);
    OctetsSnoc(v, [49], 50, refin, p);
    OctetsSnoc(v, [49, 50], 51, refin, p);
    OctetsSnoc(v, [49, 50, 51], 52, refin, p);
    OctetsSnoc(v, [49, 50, 51, 52], 53, refin, p);
    OctetsSnoc(v, [49, 50, 51, 52, 53], 54, refin, p);
    OctetsSnoc(v, [49, 50, 51, 52, 53, 54], 55, refin, p);
    OctetsSnoc(v, [49, 50, 51, 52, 53, 54, 55], 56, refin, p);
    OctetsSnoc(v, [49, 50, 51, 52, 53, 54, 55, 56], 57, refin, p);
    assert [] + [49 as bv32] == [49] && [49 as bv32] + [50] == [49, 50];
    assert [49 as bv32, 50] + [51] == [49, 50, 51] && [49 as bv32, 50, 51] + [52] == [49, 50, 51, 52];
    assert [49 as bv32, 50, 51, 52] + [53] == [49, 50, 51, 52, 53];
    assert [49 as bv32, 50, 51, 52, 53] + [54] == [49, 50, 51, 52, 53, 54];
    assert [49 as bv32, 50, 51, 52, 53, 54] + [55] == [49, 50, 51, 52, 53, 54, 55];
    assert [49 as bv32, 50, 51, 52, 53, 54, 55] + [56] == [49, 50, 51, 52, 53, 54, 55, 56];
    assert [49 as bv32, 50, 51, 52, 53, 54, 55, 56] + [57] == WORDS;
  }

  lemma NoOctets(v: bv32, refin: bool, p: bv32)
    ensures Octets(v, [], refin, p) == v
  {}

  lemma DigitsAreWords()
    ensures Same(WORDS, DIGITS)
  {
    hide Value;
    forall i | 0 <= i < 9 ensures Value(WORDS[i], 8) == DIGITS[i] {
      WorkedOut(WORDS[i], 8);
    }
  }

  // ---- check values -------------------------------------------------------------------------------

  /** A word that mirrors a number of w bits. */
  predicate Turns(v: bv32, n: nat, w: nat)
    requires Known(w)
  {
    Fits(v, w) && Turned(v, w) == n
  }

  lemma TurnsMirrors(v: bv32, n: nat, w: nat)
    requires Known(w) && Turns(v, n, w)
    ensures Mirrors(v, n, w)
  {
    hide Value, Mirror, Clean, Reflect, Number, Turned, Fits;
    WorkedOut(v, w);
    MirrorIsReflect(v, w);
    ReflectBound(Value(v, w), w);
    ReflectTwice(Value(v, w), w);
    ValueBelow(v, w);
    LowFits(Value(v, w), w);
  }

  lemma {:induction false} ValueBelow(v: bv32, k: nat)
    ensures Value(v, k) < Pow2(k)
    decreases k
  {
    hide Bit, Half;
    if k > 0 { ValueBelow(Half(v), k - 1); }
  }

  /** What the output stage makes of the word that is left, given the word to mix in. */
  lemma OutputIs(m: CrcModel, reg: nat, v: bv32, x: bv32)
    requires Known(m.width) && Mirrors(v, reg, m.width)
    requires m.xorout == if m.refout then Number(x, m.width) else Turned(x, m.width)
    ensures var out := Mixed(v, x);
            Output(m, reg, m.refout) == if m.refout then Number(out, m.width) else Turned(out, m.width)
  {
    hide Value, Mirror, Clean, Reflect, Number, Turned, Fits, Xor, Mixed, Low;
    var w, out := m.width, Mixed(v, x);
    WorkedOut(x, w);
    WorkedOut(out, w);
    ValueMixed(v, x, w);
    ValueBelow(out, w);
    if m.refout {
      LowFits(Value(out, w), w);
    } else {
      MirrorIsReflect(x, w);
      MirrorIsReflect(out, w);
      ReflectXor(Value(v, w), Value(x, w), w);
      ReflectTwice(reg, w);
      LowFits(reg, w);
      ReflectBound(Value(out, w), w);
      LowFits(Reflect(Value(out, w), w), w);
    }
  }

  /** The number a word stands for on its way out. */
  function Shown(v: bv32, refout: bool, w: nat): nat
    requires Known(w)
  {
    if refout then Number(v, w) else Turned(v, w)
  }

  /** An entry holds if the machine word says so. */
  lemma Worked(e: Entry, p: bv32, init: bv32, x: bv32)
    requires var m := e.model;
             && Known(m.width) && Turns(p, m.poly, m.width) && Turns(init, m.init, m.width)
             && m.xorout == Shown(x, m.refout, m.width)
             && e.check == Shown(Mixed(Nine(init, m.refin, p), x), m.refout, m.width)
    ensures Holds(e)
  {
    hide Turns, Mirrors, Number, Turned, Octets, Nine, Mixed, Register, Output, Same;
    var m := e.model;
    TurnsMirrors(p, m.poly, m.width);
    TurnsMirrors(init, m.init, m.width);
    assert m.Valid() by { MirrorsFit(p, m.poly, m.width); MirrorsFit(init, m.init, m.width); }
    DigitsAreWords();
    OctetsIsRegister(init, WORDS, p, m, DIGITS);
    NineIs(init, m.refin, p);
    OutputIs(m, Register(m, DIGITS), Nine(init, m.refin, p), x);
  }

  lemma MirrorsFit(v: bv32, n: nat, w: nat)
    requires Mirrors(v, n, w)
    ensures n < Pow2(w)
  {}

  // ---- the words worked out -----------------------------------------------------------------------

  /** A run through the nine digits, by the words in between. */
  lemma Trail(refin: bool, p: bv32, v0: bv32, v1: bv32, v2: bv32, v3: bv32, v4: bv32, v5: bv32, v6: bv32,
              v7: bv32, v8: bv32, v9: bv32)
    requires Digit(v0, 49, refin, p) == v1 && Digit(v1, 50, refin, p) == v2 && Digit(v2, 51, refin, p) == v3
    requires Digit(v3, 52, refin, p) == v4 && Digit(v4, 53, refin, p) == v5 && Digit(v5, 54, refin, p) == v6
    requires Digit(v6, 55, refin, p) == v7 && Digit(v7, 56, refin, p) == v8 && Digit(v8, 57, refin, p) == v9
    ensures Nine(v0, refin, p) == v9
  {
    hide Digit;
  }

  lemma Crc8Words()
    ensures Turns(0xE0, 0x07, 8) && Turns(0x00, 0x00, 8)
    ensures Shown(0x00, false, 8) == 0x00
    ensures Mixed(0x2F, 0x00) == 0x2F && Shown(0x2F, false, 8) == 0xF4
  {}

  lemma Crc8()
    ensures Holds(CRC8)
  {
    hide Nine, Turns, Shown;
    Trail(false, 0xE0, 0x00, 0xE9, 0x4E, 0x03, 0x43, 0xD3, 0xBF, 0x1E, 0xE3, 0x2F);
    Crc8Words();
    Worked(CRC8, 0xE0, 0x00, 0x00);
  }

  lemma Crc8MaximWords()
    ensures Turns(0x8C, 0x31, 8) && Turns(0x00, 0x00, 8)
    ensures Shown(0x00, true, 8) == 0x00
    ensures Mixed(0xA1, 0x00) == 0xA1 && Shown(0xA1, true, 8) == 0xA1
  {}

  lemma Crc8Maxim()
    ensures Holds(CRC8_MAXIM)
  {
    hide Nine, Turns, Shown;
    Trail(true, 0x8C, 0x00, 0xE0, 0xEB, 0x95, 0xF1, 0xAB, 0xEC, 0x77, 0x07, 0xA1);
    Crc8MaximWords();
    Worked(CRC8_MAXIM, 0x8C, 0x00, 0x00);
  }

  lemma Crc8SaeJ1850Words()
    ensures Turns(0xB8, 0x1D, 8) && Turns(0xFF, 0xFF, 8)
    ensures Shown(0xFF, false, 8) == 0xFF
    ensures Mixed(0x2D, 0xFF) == 0xD2 && Shown(0xD2, false, 8) == 0x4B
  {}

  lemma Crc8SaeJ1850()
    ensures Holds(CRC8_SAE_J1850)
  {
    hide Nine, Turns, Shown;
    Trail(false, 0xB8, 0xFF, 0xC9, 0x3D, 0xB9, 0x2A, 0x91, 0xEB, 0x4D, 0x2F, 0x2D);
    Crc8SaeJ1850Words();
    Worked(CRC8_SAE_J1850, 0xB8, 0xFF, 0xFF);
  }

  lemma Crc8AutosarWords()
    ensures Turns(0xF4, 0x2F, 8) && Turns(0xFF, 0xFF, 8)
    ensures Shown(0xFF, false, 8) == 0xFF
    ensures Mixed(0x04, 0xFF) == 0xFB && Shown(0xFB, false, 8) == 0xDF
  {}

  lemma Crc8Autosar()
    ensures Holds(CRC8_AUTOSAR)
  {
    hide Nine, Turns, Shown;
    Trail(false, 0xF4, 0xFF, 0x0D, 0xBD, 0x6A, 0xD3, 0xB6, 0x76, 0x0C, 0xEA, 0x04);
    Crc8AutosarWords();
    Worked(CRC8_AUTOSAR, 0xF4, 0xFF, 0xFF);
  }

  lemma Crc16ModbusWords()
    ensures Turns(0xA001, 0x8005, 16) && Turns(0xFFFF, 0xFFFF, 16)
    ensures Shown(0x0000, true, 16) == 0x0000
    ensures Mixed(0x4B37, 0x0000) == 0x4B37 && Shown(0x4B37, true, 16) == 0x4B37
  {}

  lemma Crc16Modbus()
    ensures Holds(CRC16_MODBUS)
  {
    hide Nine, Turns, Shown;
    Trail(true, 0xA001, 0xFFFF, 0x947E, 0xF595, 0x7A75, 0x30BA, 0xA471, 0x32E4, 0x9D73, 0x37DD, 0x4B37);
    Crc16ModbusWords();
    Worked(CRC16_MODBUS, 0xA001, 0xFFFF, 0x0000);
  }

  lemma Crc16CcittFalseWords()
    ensures Turns(0x8408, 0x1021, 16) && Turns(0xFFFF, 0xFFFF, 16)
    ensures Shown(0x0000, false, 16) == 0x0000
    ensures Mixed(0x8D94, 0x0000) == 0x8D94 && Shown(0x8D94, false, 16) == 0x29B1
  {}

  lemma Crc16CcittFalse()
    ensures Holds(CRC16_CCITT_FALSE)
  {
    hide Nine, Turns, Shown;
    Trail(false, 0x8408, 0xFFFF, 0x41E3, 0x5DBC, 0x73DA, 0x92CA, 0x06A2, 0x2F74, 0x18EE, 0xD485, 0x8D94);
    Crc16CcittFalseWords();
    Worked(CRC16_CCITT_FALSE, 0x8408, 0xFFFF, 0x0000);
  }

  lemma Crc16XmodemWords()
    ensures Turns(0x8408, 0x1021, 16) && Turns(0x0000, 0x0000, 16)
    ensures Shown(0x0000, false, 16) == 0x0000
    ensures Mixed(0xC38C, 0x0000) == 0xC38C && Shown(0xC38C, false, 16) == 0x31C3
  {}

  lemma Crc16Xmodem()
    ensures Holds(CRC16_XMODEM)
  {
    hide Nine, Turns, Shown;
    Trail(false, 0x8408, 0x0000, 0x4E64, 0xAD04, 0x4AE9, 0x91EB, 0x362A, 0x2704, 0x6B61, 0xA809, 0xC38C);
    Crc16XmodemWords();
    Worked(CRC16_XMODEM, 0x8408, 0x0000, 0x0000);
  }

  lemma Crc16KermitWords()
    ensures Turns(0x8408, 0x1021, 16) && Turns(0x0000, 0x0000, 16)
    ensures Shown(0x0000, true, 16) == 0x0000
    ensures Mixed(0x2189, 0x0000) == 0x2189 && Shown(0x2189, true, 16) == 0x2189
  {}

  lemma Crc16Kermit()
    ensures Holds(CRC16_KERMIT)
  {
    hide Nine, Turns, Shown;
    Trail(true, 0x8408, 0x0000, 0x200A, 0xBDEB, 0x5A78, 0x8832, 0x7437, 0x11FD, 0x6947, 0x8B19, 0x2189);
    Crc16KermitWords();
    Worked(CRC16_KERMIT, 0x8408, 0x0000, 0x0000);
  }

  lemma Crc16ArcWords()
    ensures Turns(0xA001, 0x8005, 16) && Turns(0x0000, 0x0000, 16)
    ensures Shown(0x0000, true, 16) == 0x0000
    ensures Mixed(0xBB3D, 0x0000) == 0xBB3D && Shown(0xBB3D, true, 16) == 0xBB3D
  {}

  lemma Crc16Arc()
    ensures Holds(CRC16_ARC)
  {
    hide Nine, Turns, Shown;
    Trail(true, 0xA001, 0x0000, 0xD4C1, 0x4594, 0xBA04, 0x14BA, 0xA455, 0x29E4, 0x9D68, 0x3C9D, 0xBB3D);
    Crc16ArcWords();
    Worked(CRC16_ARC, 0xA001, 0x0000, 0x0000);
  }

  lemma Crc16MaximWords()
    ensures Turns(0xA001, 0x8005, 16) && Turns(0x0000, 0x0000, 16)
    ensures Shown(0xFFFF, true, 16) == 0xFFFF
    ensures Mixed(0xBB3D, 0xFFFF) == 0x44C2 && Shown(0x44C2, true, 16) == 0x44C2
  {}

  lemma Crc16Maxim()
    ensures Holds(CRC16_MAXIM)
  {
    hide Nine, Turns, Shown;
    Trail(true, 0xA001, 0x0000, 0xD4C1, 0x4594, 0xBA04, 0x14BA, 0xA455, 0x29E4, 0x9D68, 0x3C9D, 0xBB3D);
    Crc16MaximWords();
    Worked(CRC16_MAXIM, 0xA001, 0x0000, 0xFFFF);
  }

  lemma Crc16UsbWords()
    ensures Turns(0xA001, 0x8005, 16) && Turns(0xFFFF, 0xFFFF, 16)
    ensures Shown(0xFFFF, true, 16) == 0xFFFF
    ensures Mixed(0x4B37, 0xFFFF) == 0xB4C8 && Shown(0xB4C8, true, 16) == 0xB4C8
  {}

  lemma Crc16Usb()
    ensures Holds(CRC16_USB)
  {
    hide Nine, Turns, Shown;
    Trail(true, 0xA001, 0xFFFF, 0x947E, 0xF595, 0x7A75, 0x30BA, 0xA471, 0x32E4, 0x9D73, 0x37DD, 0x4B37);
    Crc16UsbWords();
    Worked(CRC16_USB, 0xA001, 0xFFFF, 0xFFFF);
  }

  lemma Crc16DnpWords()
    ensures Turns(0xA6BC, 0x3D65, 16) && Turns(0x0000, 0x0000, 16)
    ensures Shown(0xFFFF, true, 16) == 0xFFFF
    ensures Mixed(0x157D, 0xFFFF) == 0xEA82 && Shown(0xEA82, true, 16) == 0xEA82
  {}

  lemma Crc16Dnp()
    ensures Holds(CRC16_DNP)
  {
    hide Nine, Turns, Shown;
    Trail(true, 0xA6BC, 0x0000, 0xAD9A, 0x7037, 0xD908, 0xBDEC, 0x8EE3, 0xA821, 0x0707, 0xE7D0, 0x157D);
    Crc16DnpWords();
    Worked(CRC16_DNP, 0xA6BC, 0x0000, 0xFFFF);
  }

  lemma Crc16Mcrf4xxWords()
    ensures Turns(0x8408, 0x1021, 16) && Turns(0xFFFF, 0xFFFF, 16)
    ensures Shown(0x0000, true, 16) == 0x0000
    ensures Mixed(0x6F91, 0x0000) == 0x6F91 && Shown(0x6F91, true, 16) == 0x6F91
  {}

  lemma Crc16Mcrf4xx()
    ensures Holds(CRC16_MCRF4XX)
  {
    hide Nine, Turns, Shown;
    Trail(true, 0x8408, 0xFFFF, 0x2F8D, 0x4D53, 0x634B, 0x8B13, 0x44BF, 0x198D, 0x1AC8, 0xF795, 0x6F91);
    Crc16Mcrf4xxWords();
    Worked(CRC16_MCRF4XX, 0x8408, 0xFFFF, 0x0000);
  }

  lemma Crc32Words()
    ensures Turns(0xEDB88320, 0x04C11DB7, 32) && Turns(0xFFFFFFFF, 0xFFFFFFFF, 32)
    ensures Shown(0xFFFFFFFF, true, 32) == 0xFFFFFFFF
    ensures Mixed(0x340BC6D9, 0xFFFFFFFF) == 0xCBF43926 && Shown(0xCBF43926, true, 32) == 0xCBF43926
  {}

  lemma Crc32()
    ensures Holds(CRC32)
  {
    hide Nine, Turns, Shown;
    Trail(true, 0xEDB88320, 0xFFFFFFFF, 0x7C231048, 0xB0ACBB32, 0x77B79C2D, 0x641C1F5C, 0x340AC5E3, 0xF68D2C9E,
          0xAFFC9660, 0x651F2550, 0x340BC6D9);
    Crc32Words();
    Worked(CRC32, 0xEDB88320, 0xFFFFFFFF, 0xFFFFFFFF);
  }

  lemma Crc32cWords()
    ensures Turns(0x82F63B78, 0x1EDC6F41, 32) && Turns(0xFFFFFFFF, 0xFFFFFFFF, 32)
    ensures Shown(0xFFFFFFFF, true, 32) == 0xFFFFFFFF
    ensures Mixed(0x1CF96D7C, 0xFFFFFFFF) == 0xE3069283 && Shown(0xE3069283, true, 32) == 0xE3069283
  {}

  lemma Crc32c()
    ensures Holds(CRC32C)
  {
    hide Nine, Turns, Shown;
    Trail(true, 0x82F63B78, 0xFFFFFFFF, 0x6F0A661C, 0x8CAA3B9F, 0xEF84D04D, 0x09C50B11, 0xE72EDCCA, 0xBECA8E79,
          0xEDBD6815, 0x9F787F65, 0x1CF96D7C);
    Crc32cWords();
    Worked(CRC32C, 0x82F63B78, 0xFFFFFFFF, 0xFFFFFFFF);
  }

  lemma Crc32Bzip2Words()
    ensures Turns(0xEDB88320, 0x04C11DB7, 32) && Turns(0xFFFFFFFF, 0xFFFFFFFF, 32)
    ensures Shown(0xFFFFFFFF, false, 32) == 0xFFFFFFFF
    ensures Mixed(0xE7676EC0, 0xFFFFFFFF) == 0x1898913F && Shown(0x1898913F, false, 32) == 0xFC891918
  {}

  lemma Crc32Bzip2()
    ensures Holds(CRC32_BZIP2)
  {
    hide Nine, Turns, Shown;
    Trail(false, 0xEDB88320, 0xFFFFFFFF, 0xC9F3DF79, 0x567A37FC, 0x268F4A9B, 0x5523A965, 0xE2ED59BD,
          0xF1360F1B, 0x232851B0, 0xDF43C792, 0xE7676EC0);
    Crc32Bzip2Words();
    Worked(CRC32_BZIP2, 0xEDB88320, 0xFFFFFFFF, 0xFFFFFFFF);
  }

  lemma Crc32Mpeg2Words()
    ensures Turns(0xEDB88320, 0x04C11DB7, 32) && Turns(0xFFFFFFFF, 0xFFFFFFFF, 32)
    ensures Shown(0x00000000, false, 32) == 0x00000000
    ensures Mixed(0xE7676EC0, 0x00000000) == 0xE7676EC0 && Shown(0xE7676EC0, false, 32) == 0x0376E6E7
  {}

  lemma Crc32Mpeg2()
    ensures Holds(CRC32_MPEG2)
  {
    hide Nine, Turns, Shown;
    Trail(false, 0xEDB88320, 0xFFFFFFFF, 0xC9F3DF79, 0x567A37FC, 0x268F4A9B, 0x5523A965, 0xE2ED59BD,
          0xF1360F1B, 0x232851B0, 0xDF43C792, 0xE7676EC0);
    Crc32Mpeg2Words();
    Worked(CRC32_MPEG2, 0xEDB88320, 0xFFFFFFFF, 0x00000000);
  }

  lemma Crc16T10DifWords()
    ensures Turns(0xEDD1, 0x8BB7, 16) && Turns(0x0000, 0x0000, 16)
    ensures Shown(0x0000, false, 16) == 0x0000
    ensures Mixed(0xDB0B, 0x0000) == 0xDB0B && Shown(0xDB0B, false, 16) == 0xD0DB
  {}

  lemma Crc16T10Dif()
    ensures Holds(CRC16_T10_DIF)
  {
    hide Nine, Turns, Shown;
    Trail(false, 0xEDD1, 0x0000, 0x076E, 0x6151, 0x37A4, 0x5ECC, 0x3B2A, 0x038C, 0x3B77, 0xC422, 0xDB0B);
    Crc16T10DifWords();
    Worked(CRC16_T10_DIF, 0xEDD1, 0x0000, 0x0000);
  }

  lemma Crc16ProfibusWords()
    ensures Turns(0xF3B8, 0x1DCF, 16) && Turns(0xFFFF, 0xFFFF, 16)
    ensures Shown(0xFFFF, false, 16) == 0xFFFF
    ensures Mixed(0x67EA, 0xFFFF) == 0x9815 && Shown(0x9815, false, 16) == 0xA819
  {}

  lemma Crc16Profibus()
    ensures Holds(CRC16_PROFIBUS)
  {
    hide Nine, Turns, Shown;
    Trail(false, 0xF3B8, 0xFFFF, 0xB45C, 0x1EC3, 0x9E82, 0x0BF6, 0x2E67, 0x134B, 0xAD5A, 0x41CC, 0x67EA);
    Crc16ProfibusWords();
    Worked(CRC16_PROFIBUS, 0xF3B8, 0xFFFF, 0xFFFF);
  }

  lemma Crc5UsbWords()
    ensures Turns(0x14, 0x05, 5) && Turns(0x1F, 0x1F, 5)
    ensures Shown(0x1F, true, 5) == 0x1F
    ensures Mixed(0x06, 0x1F) == 0x19 && Shown(0x19, true, 5) == 0x19
  {}

  lemma Crc5Usb()
    ensures Holds(CRC5_USB)
  {
    hide Nine, Turns, Shown;
    Trail(true, 0x14, 0x1F, 0x03, 0x1D, 0x03, 0x10, 0x1A, 0x1F, 0x0E, 0x1E, 0x06);
    Crc5UsbWords();
    Worked(CRC5_USB, 0x14, 0x1F, 0x1F);
  }

  /** Every entry's check value is the CRC of the nine digits. */
  lemma {:induction false} EveryCheckValue(e: Entry)
    requires e in CATALOGUE
    ensures Holds(e)
  {
    hide Holds;
    Crc8(); Crc8Maxim(); Crc8SaeJ1850(); Crc8Autosar(); Crc16Modbus();
    Crc16CcittFalse(); Crc16Xmodem(); Crc16Kermit(); Crc16Arc(); Crc16Maxim();
    Crc16Usb(); Crc16Dnp(); Crc16Mcrf4xx(); Crc32(); Crc32c();
    Crc32Bzip2(); Crc32Mpeg2(); Crc16T10Dif(); Crc16Profibus(); Crc5Usb();
  }

  /** The polynomial is odd, and bits leave in the order they enter. */
  predicate Odd(e: Entry)
  {
    e.model.poly % 2 == 1 && e.model.refin == e.model.refout
  }

  lemma OddOnes()
    ensures Odd(CRC8) && Odd(CRC8_MAXIM) && Odd(CRC8_SAE_J1850) && Odd(CRC8_AUTOSAR)
    ensures Odd(CRC16_MODBUS) && Odd(CRC16_CCITT_FALSE) && Odd(CRC16_XMODEM) && Odd(CRC16_KERMIT)
    ensures Odd(CRC16_ARC) && Odd(CRC16_MAXIM) && Odd(CRC16_USB) && Odd(CRC16_DNP)
    ensures Odd(CRC16_MCRF4XX) && Odd(CRC32) && Odd(CRC32C) && Odd(CRC32_BZIP2)
    ensures Odd(CRC32_MPEG2) && Odd(CRC16_T10_DIF) && Odd(CRC16_PROFIBUS) && Odd(CRC5_USB)
  {}

  /** What holds of odd models, and of models whose bits leave as they enter, holds of every entry. */
  lemma {:induction false} CatalogueIsOdd(e: Entry)
    requires e in CATALOGUE
    ensures e.model.poly % 2 == 1 && e.model.refin == e.model.refout
  {
    assert Odd(e) by { InCatalogue(e); }
  }

  lemma InCatalogue(e: Entry)
    requires e in CATALOGUE
    ensures Odd(e)
  {
    hide Odd;
    OddOnes();
  }

  /** The Modbus listener's CRC is the entry of that name. */
  lemma ModbusIsListed()
    ensures MODBUS == CRC16_MODBUS.model && MODBUS.Valid() && Crc(MODBUS, DIGITS) == 0x4B37
  {
    hide Crc;
    Crc16Modbus();
  }
}
