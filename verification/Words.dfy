/** Numbers as byte strings: `int.from_bytes` and `int.to_bytes` in both orders. */
module Words {
  import opened Bits
  import opened Bytes

  /** `int.from_bytes(data, "big")` */
  function FromBig(data: bytes): nat
  {
    if data == [] then 0 else FromBig(data[..|data| - 1]) * 256 + data[|data| - 1]
  }

  /** `int.from_bytes(data, "little")` */
  function FromLittle(data: bytes): nat
  {
    if data == [] then 0 else data[0] + 256 * FromLittle(data[1..])
  }

  /** `value.to_bytes(n, "little")` */
  function ToLittle(value: nat, n: nat): (r: bytes)
    ensures |r| == n
  {
    if n == 0 then [] else [value % 256] + ToLittle(value / 256, n - 1)
  }

  /** `value.to_bytes(n, "big")` */
  function ToBig(value: nat, n: nat): (r: bytes)
    ensures |r| == n
  {
    if n == 0 then [] else ToBig(value / 256, n - 1) + [value % 256]
  }

  lemma PowByte(n: nat)
    ensures Pow2(8 * n + 8) == 256 * Pow2(8 * n)
  {
    var k := 8 * n;
    assert Pow2(k + 8) == 2 * Pow2(k + 7);
    assert Pow2(k + 7) == 2 * Pow2(k + 6);
    assert Pow2(k + 6) == 2 * Pow2(k + 5);
    assert Pow2(k + 5) == 2 * Pow2(k + 4);
    assert Pow2(k + 4) == 2 * Pow2(k + 3);
    assert Pow2(k + 3) == 2 * Pow2(k + 2);
    assert Pow2(k + 2) == 2 * Pow2(k + 1);
  }

  lemma {:induction false} LittleRoundTrip(t: bytes, value: nat)
    requires value < Pow2(8 * |t|)
    ensures FromLittle(t) == value <==> t == ToLittle(value, |t|)
    ensures FromLittle(t) < Pow2(8 * |t|)
    decreases |t|
  {
    if t != [] {
      PowByte(|t| - 1);
      LittleRoundTrip(t[1..], value / 256);
      assert t == [t[0]] + t[1..];
      var r := ToLittle(value, |t|);
      assert r[0] == value % 256 && r[1..] == ToLittle(value / 256, |t| - 1);
    }
  }

  lemma {:induction false} BigRoundTrip(t: bytes, value: nat)
    requires value < Pow2(8 * |t|)
    ensures FromBig(t) == value <==> t == ToBig(value, |t|)
    ensures FromBig(t) < Pow2(8 * |t|)
    decreases |t|
  {
    if t != [] {
      var n := |t| - 1;
      PowByte(n);
      BigRoundTrip(t[..n], value / 256);
      assert t == t[..n] + [t[n]];
      var r := ToBig(value, |t|);
      assert r[n] == value % 256 && r[..n] == ToBig(value / 256, n);
    }
  }
}
