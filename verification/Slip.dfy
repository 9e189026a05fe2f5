/** SLIP (RFC 1055), as fielddeck/analysis/convert.py escapes and unescapes it. */
module Slip {
  import opened Bytes
  import opened Delimiter

  const END: byte := 0xC0
  const ESC: byte := 0xDB
  const ESC_END: byte := 0xDC
  const ESC_ESC: byte := 0xDD

  datatype Fault =
    | DanglingEscape(offset: nat)
    | InvalidEscape(offset: nat, following: byte)
    | UnescapedEnd(offset: nat)

  function EscapeByte(b: byte): bytes
  {
    if b == END then [ESC, ESC_END] else if b == ESC then [ESC, ESC_ESC] else [b]
  }

  function Escaped(data: bytes): bytes
  {
    if data == [] then [] else EscapeByte(data[0]) + Escaped(data[1..])
  }

  function Encoded(data: bytes, leadingEnd: bool): bytes
  {
    (if leadingEnd then [END] else []) + Escaped(data) + [END]
  }

  /** `slip_encode` */
  method Encode(data: bytes, leadingEnd: bool) returns (out: bytes)
    ensures out == Encoded(data, leadingEnd)
  {
    out := [];
    if leadingEnd { out := out + [END]; }
    ghost var lead := out;
    for i := 0 to |data|
      invariant out == lead + Escaped(data[..i])
    {
      EscapedSnoc(data[..i], data[i]);
      Prefix(data, i);
      Associate(lead, Escaped(data[..i]), EscapeByte(data[i]));
      if data[i] == END {
        out := out + [ESC, ESC_END];
      } else if data[i] == ESC {
        out := out + [ESC, ESC_ESC];
      } else {
        out := out + [data[i]];
      }
    }
    assert data[..|data|] == data;
    out := out + [END];
  }

  lemma {:induction false} EscapedSnoc(data: bytes, b: byte)
    ensures Escaped(data + [b]) == Escaped(data) + EscapeByte(b)
  {
    if data == [] {
      assert ([] + [b])[1..] == [];
      assert EscapeByte(b) + [] == EscapeByte(b);
    } else {
      EscapedSnoc(data[1..], b);
      assert (data + [b])[0] == data[0] && (data + [b])[1..] == data[1..] + [b];
      Associate(EscapeByte(data[0]), Escaped(data[1..]), EscapeByte(b));
    }
  }

  function StripLeft(frame: bytes): (r: bytes)
    ensures |r| <= |frame|
  {
    if frame != [] && frame[0] == END then StripLeft(frame[1..]) else frame
  }

  function StripRight(frame: bytes): (r: bytes)
    ensures |r| <= |frame|
  {
    if frame != [] && frame[|frame| - 1] == END then StripRight(frame[..|frame| - 1]) else frame
  }

  /** `frame.strip(b"\xc0")` */
  function Strip(frame: bytes): bytes
  {
    StripRight(StripLeft(frame))
  }

  function UnescapeFrom(body: bytes, index: nat): Result<bytes, Fault>
    requires index <= |body|
    decreases |body| - index
  {
    if index == |body| then Ok([])
    else if body[index] == ESC then
      if index + 1 == |body| then Err(DanglingEscape(index))
      else if body[index + 1] == ESC_END then Prepend(END, UnescapeFrom(body, index + 2))
      else if body[index + 1] == ESC_ESC then Prepend(ESC, UnescapeFrom(body, index + 2))
      else Err(InvalidEscape(index, body[index + 1]))
    else if body[index] == END then Err(UnescapedEnd(index))
    else Prepend(body[index], UnescapeFrom(body, index + 1))
  }

  function Prepend(b: byte, r: Result<bytes, Fault>): Result<bytes, Fault>
  {
    match r
    case Err(e) => Err(e)
    case Ok(tail) => Ok([b] + tail)
  }

  function Decoded(frame: bytes): Result<bytes, Fault>
  {
    UnescapeFrom(Strip(frame), 0)
  }

  ghost function Then(out: bytes, r: Result<bytes, Fault>): Result<bytes, Fault>
  {
    match r
    case Err(e) => Err(e)
    case Ok(tail) => Ok(out + tail)
  }

  lemma ThenPrepend(out: bytes, b: byte, r: Result<bytes, Fault>)
    ensures Then(out, Prepend(b, r)) == Then(out + [b], r)
  {
    if r.Ok? { Associate(out, [b], r.value); }
  }

  /** `slip_decode` */
  method Decode(frame: bytes) returns (r: Result<bytes, Fault>)
    ensures r == Decoded(frame)
  {
    var body := Strip(frame);
    var out: bytes := [];
    var index := 0;
    ghost var whole := UnescapeFrom(body, 0);
    assert whole.Ok? ==> [] + whole.value == whole.value;
    while index < |body|
      invariant index <= |body|
      invariant Decoded(frame) == Then(out, UnescapeFrom(body, index))
    {
      var b := body[index];
      if b == ESC {
        if index + 1 >= |body| { return Err(DanglingEscape(index)); }
        var following := body[index + 1];
        if following == ESC_END {
          ThenPrepend(out, END, UnescapeFrom(body, index + 2));
          out := out + [END];
        } else if following == ESC_ESC {
          ThenPrepend(out, ESC, UnescapeFrom(body, index + 2));
          out := out + [ESC];
        } else {
          return Err(InvalidEscape(index, following));
        }
        index := index + 2;
        continue;
      }
      if b == END { return Err(UnescapedEnd(index)); }
      ThenPrepend(out, b, UnescapeFrom(body, index + 1));
      out := out + [b];
      index := index + 1;
    }
    assert out + [] == out;
    r := Ok(out);
  }

  // ---- round trips --------------------------------------------------------------

  lemma {:induction false} EscapedFree(data: bytes)
    ensures Free(Escaped(data), END)
    ensures |data| <= |Escaped(data)| <= 2 * |data|
  {
    if data != [] { EscapedFree(data[1..]); }
  }

  lemma StripNothing(body: bytes)
    requires Free(body, END)
    ensures Strip(body) == body && Strip(body + [END]) == body && Strip([END] + body + [END]) == body
  {
    assert StripRight(body) == body && StripLeft(body) == body;
    assert (body + [END])[..|body|] == body;
    assert StripRight(body + [END]) == body;
    var none: bytes := [];
    if body == [] {
      assert (body + [END])[1..] == none;
    }
    assert ([END] + body + [END])[1..] == body + [END];
  }

  /** Unescaping reads only what stands from `index` on. */
  lemma {:induction false} UnescapeEscaped(prefix: bytes, data: bytes)
    ensures UnescapeFrom(prefix + Escaped(data), |prefix|) == Ok(data)
    decreases |data|
  {
    var body := prefix + Escaped(data);
    if data != [] {
      var piece := EscapeByte(data[0]);
      Associate(prefix, piece, Escaped(data[1..]));
      UnescapeEscaped(prefix + piece, data[1..]);
      assert forall k :: 0 <= k < |piece| ==> body[|prefix| + k] == piece[k];
      assert [data[0]] + data[1..] == data;
    }
  }

  /** Decoding undoes encoding, with or without the leading END. */
  lemma RoundTrip(data: bytes, leadingEnd: bool)
    ensures Decoded(Encoded(data, leadingEnd)) == Ok(data)
    ensures Decoded(Escaped(data)) == Ok(data)
  {
    hide Escaped, Strip, UnescapeFrom, Free;
    EscapedFree(data);
    StripNothing(Escaped(data));
    assert [] + Escaped(data) + [END] == Escaped(data) + [END];
    UnescapeEscaped([], data);
    assert [] + Escaped(data) == Escaped(data);
  }

  lemma {:induction false} EscapeUnescaped(body: bytes, index: nat)
    requires index <= |body| && UnescapeFrom(body, index).Ok?
    ensures Escaped(UnescapeFrom(body, index).value) == body[index..]
    decreases |body| - index
  {
    if index < |body| {
      var step := if body[index] == ESC then 2 else 1;
      EscapeUnescaped(body, index + step);
      var rest := UnescapeFrom(body, index + step).value;
      var data := UnescapeFrom(body, index).value;
      assert data[1..] == rest;
      assert body[index..] == EscapeByte(data[0]) + body[index + step..];
    }
  }

  /** Encoding a decoded frame gives the frame without its own ENDs, between two new ones. */
  lemma Reencode(frame: bytes)
    requires Decoded(frame).Ok?
    ensures Encoded(Decoded(frame).value, true) == [END] + Strip(frame) + [END]
  {
    EscapeUnescaped(Strip(frame), 0);
    assert Strip(frame)[0..] == Strip(frame);
  }

  // ---- a stream of packets --------------------------------------------------------

  function Stream(packets: seq<bytes>): bytes
  {
    if packets == [] then [] else
      Stream(packets[..|packets| - 1]) + Encoded(packets[|packets| - 1], true)
  }

  function EscapedAll(packets: seq<bytes>): (r: seq<bytes>)
    ensures |r| == |packets|
    ensures forall k :: 0 <= k < |r| ==> r[k] == Escaped(packets[k])
  {
    seq(|packets|, k requires 0 <= k < |packets| => Escaped(packets[k]))
  }

  /** One packet: its leading END closes whatever came before, its last END closes itself. */
  lemma PacketSplits(prefix: bytes, p: bytes)
    ensures Kept(prefix + Encoded(p, true), END, false)
         == Kept(prefix + [END], END, false) + (if p == [] then [] else [Escaped(p)])
    ensures Tail(prefix + Encoded(p, true), END) == []
  {
    hide Escaped, Runs, Tail, NonEmpty, Free;
    EscapedFree(p);
    var e := Escaped(p);
    var first := prefix + [END];
    Snoc(prefix, END, END);
    CloseRun(first, e, END);
    assert [] + e == e;
    assert prefix + Encoded(p, true) == first + e + [END] by { Regroup(prefix, e); }
    NonEmptySnoc(Runs(first, END), e);
  }

  lemma Regroup(prefix: bytes, e: bytes)
    ensures prefix + ([END] + e + [END]) == prefix + [END] + e + [END]
  {}

  /**
   After any noise, splitting on END and decoding the last frames recovers every
   non-empty packet, in order, and leaves nothing over.
   */
  lemma {:induction false} StreamResynchronises(noise: bytes, packets: seq<bytes>)
    requires packets != []
    ensures Kept(noise + Stream(packets), END, false)
         == Kept(noise + [END], END, false) + EscapedAll(NonEmpty(packets))
    ensures Tail(noise + Stream(packets), END) == []
    ensures forall k :: 0 <= k < |NonEmpty(packets)| ==>
              Decoded(EscapedAll(NonEmpty(packets))[k]) == Ok(NonEmpty(packets)[k])
    decreases |packets|
  {
    hide Runs, Tail, NonEmpty, Escaped, UnescapeFrom, Strip;
    var front, p := packets[..|packets| - 1], packets[|packets| - 1];
    LastSplit(packets);
    NonEmptySnoc(front, p);
    var sent := noise + Stream(front);
    Associate(noise, Stream(front), Encoded(p, true));
    PacketSplits(sent, p);
    var base := Kept(noise + [END], END, false);
    assert Kept(sent + [END], END, false) == base + EscapedAll(NonEmpty(front)) by {
      if front == [] {
        assert sent == noise;
        NonEmptyAll(front);
        assert base + [] == base;
      } else {
        StreamResynchronises(noise, front);
        Snoc(sent, END, END);
        NonEmptySnoc(Runs(sent, END), []);
      }
    }
    EscapedAllSnoc(NonEmpty(front), p);
    Associate(base, EscapedAll(NonEmpty(front)), if p == [] then [] else [Escaped(p)]);
    forall k | 0 <= k < |NonEmpty(packets)|
      ensures Decoded(EscapedAll(NonEmpty(packets))[k]) == Ok(NonEmpty(packets)[k])
    {
      RoundTrip(NonEmpty(packets)[k], true);
    }
  }

  lemma EscapedAllSnoc(packets: seq<bytes>, p: bytes)
    ensures EscapedAll(packets + (if p == [] then [] else [p]))
         == EscapedAll(packets) + (if p == [] then [] else [Escaped(p)])
  {}

  // ---- the codes of RFC 1055 ----------------------------------------------------------------------

  lemma {:induction false} EscapedAppend(a: bytes, b: bytes)
    ensures Escaped(a + b) == Escaped(a) + Escaped(b)
  {
    if a == [] {
      assert a + b == b;
    } else {
      EscapedAppend(a[1..], b);
      assert (a + b)[0] == a[0] && (a + b)[1..] == a[1..] + b;
      Associate(EscapeByte(a[0]), Escaped(a[1..]), Escaped(b));
    }
  }

  /** 192 goes out as 219 220, 219 as 219 221, every other byte as itself; 192 closes the packet. */
  lemma {:induction false} CodesOnTheWire(a: bytes, b: byte, c: bytes)
    ensures Encoded(a + [b] + c, true) ==
            [192] + Escaped(a) + (if b == 192 then [219, 220] else if b == 219 then [219, 221] else [b])
            + Escaped(c) + [192]
    ensures Encoded(a, false) == Escaped(a) + [192] && Escaped([]) == []
  {
    EscapedAppend(a + [b], c);
    EscapedAppend(a, [b]);
    assert [b][1..] == [];
    assert EscapeByte(b) + [] == EscapeByte(b);
    Regroup3([END], Escaped(a), EscapeByte(b), Escaped(c), [END]);
    assert [] + Escaped(a) == Escaped(a);
  }

  lemma Regroup3(p: bytes, a: bytes, b: bytes, c: bytes, q: bytes)
    ensures p + (a + b + c) + q == p + a + b + c + q
  {}

  lemma {:induction false} StripsLeft(ends: bytes, frame: bytes)
    requires forall i :: 0 <= i < |ends| ==> ends[i] == 192
    ensures StripLeft(ends + frame) == StripLeft(frame)
  {
    if ends == [] {
      assert ends + frame == frame;
    } else {
      assert (ends + frame)[1..] == ends[1..] + frame;
      StripsLeft(ends[1..], frame);
    }
  }

  lemma {:induction false} StripsRight(frame: bytes, ends: bytes)
    requires forall i :: 0 <= i < |ends| ==> ends[i] == 192
    ensures StripRight(frame + ends) == StripRight(frame)
  {
    if ends == [] {
      assert frame + ends == frame;
    } else {
      var n := |ends| - 1;
      assert (frame + ends)[..|frame + ends| - 1] == frame + ends[..n];
      StripsRight(frame, ends[..n]);
    }
  }

  lemma {:induction false} OnlyEndsGo(frame: bytes)
    requires frame != [] ==> frame[0] != 192 && frame[|frame| - 1] != 192
    ensures StripLeft(frame) == frame && StripRight(frame) == frame
  {}

  /** Any number of END bytes on either side of a frame is dropped, and nothing else. */
  lemma {:induction false} EndsAreStripped(before: bytes, body: bytes, behind: bytes)
    requires forall i :: 0 <= i < |before| ==> before[i] == 192
    requires forall i :: 0 <= i < |behind| ==> behind[i] == 192
    requires body != [] ==> body[0] != 192 && body[|body| - 1] != 192
    ensures Strip(before + body + behind) == body
    ensures Decoded(before + body + behind) == UnescapeFrom(body, 0)
  {
    hide StripLeft, StripRight;
    Associate(before, body, behind);
    StripsLeft(before, body + behind);
    OnlyEndsGo(body);
    if body == [] {
      assert body + behind == behind + [];
      StripsLeft(behind, []);
    } else {
      FirstStays(body + behind);
      StripsRight(body, behind);
    }
  }

  lemma FirstStays(frame: bytes)
    requires frame != [] && frame[0] != 192
    ensures StripLeft(frame) == frame
  {}
}
