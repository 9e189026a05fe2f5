/**
 Consistent Overhead Byte Stuffing (Cheshire and Baker), as fielddeck/analysis/convert.py
 encodes and decodes it.
 */
module Cobs {
  import opened Bytes
  import Delimiter

  /** Why `cobs_decode` refuses a block, and where. */
  datatype Fault =
    | EmptyBlock
    | ZeroCode(offset: nat)
    | Truncated(offset: nat)
    | ZeroInData(offset: nat)

  predicate ZeroFree(data: bytes)
  {
    forall i :: 0 <= i < |data| ==> data[i] != 0
  }

  /** How many bytes precede the first zero, at most 254. */
  function Run(data: bytes): (n: nat)
    ensures n <= |data| && n <= 254
    ensures forall i :: 0 <= i < n ==> data[i] != 0
    ensures n < 254 && n < |data| ==> data[n] == 0
  {
    RunFrom(data, 0)
  }

  function RunFrom(data: bytes, n: nat): (r: nat)
    requires n <= |data| && n <= 254 && forall i :: 0 <= i < n ==> data[i] != 0
    ensures n <= r <= |data| && r <= 254
    ensures forall i :: 0 <= i < r ==> data[i] != 0
    ensures r < 254 && r < |data| ==> data[r] == 0
    decreases 254 - n
  {
    if n == 254 || n == |data| || data[n] == 0 then n else RunFrom(data, n + 1)
  }

  /** A code byte and the bytes it covers. */
  function Group(chunk: bytes): (r: bytes)
    requires |chunk| <= 254
  {
    var code: byte := |chunk| + 1;
    [code] + chunk
  }

  /** The groups for `data`; `owed` says that an empty tail still needs its code byte. */
  function Groups(data: bytes, owed: bool): bytes
    decreases |data|
  {
    var n := Run(data);
    if n == 254 then Group(data[..254]) + Groups(data[254..], false)
    else if n < |data| then Group(data[..n]) + Groups(data[n + 1..], true)
    else if data == [] && !owed then []
    else Group(data)
  }

  function Encoded(data: bytes): bytes
  {
    Groups(data, true)
  }

  /** `cobs_encode` */
  method Encode(data: bytes) returns (out: bytes)
    ensures out == Encoded(data)
  {
    hide Groups, Run;
    out := [];
    var blockStart := 0;
    var needsFinalBlock := true;
    for index := 0 to |data|
      invariant blockStart <= index && index - blockStart < 254
      invariant ZeroFree(data[blockStart..index])
      invariant Encoded(data) == out + Groups(data[blockStart..], needsFinalBlock)
    {
      var b := data[index];
      if b == 0 {
        var group := Group(data[blockStart..index]);
        CutAtZero(data, blockStart, index);
        GroupsZero(data[blockStart..index], data[index + 1..], needsFinalBlock);
        Associate(out, group, Groups(data[index + 1..], true));
        out := out + group;
        blockStart := index + 1;
        needsFinalBlock := true;
      } else if index - blockStart == 0xFD {
        CutAtFull(data, blockStart, index);
        var group := Group(data[blockStart..index + 1]);
        GroupsFull(data[blockStart..index + 1], data[index + 1..], needsFinalBlock);
        Associate(out, group, Groups(data[index + 1..], false));
        out := out + group;
        blockStart := index + 1;
        needsFinalBlock := false;
      } else {
        ZeroFreeSnoc(data, blockStart, index);
      }
    }
    assert data[blockStart..|data|] == data[blockStart..];
    GroupsLast(data[blockStart..], needsFinalBlock);
    if blockStart != |data| || needsFinalBlock {
      out := out + Group(data[blockStart..]);
    }
  }

  lemma ZeroFreeSnoc(data: bytes, start: nat, index: nat)
    requires start <= index < |data| && data[index] != 0 && ZeroFree(data[start..index])
    ensures ZeroFree(data[start..index + 1])
  {
    var before, after := data[start..index], data[start..index + 1];
    forall i | 0 <= i < |after| ensures after[i] != 0 {
      assert i < |before| ==> after[i] == before[i];
    }
  }

  lemma CutAtZero(data: bytes, start: nat, index: nat)
    requires start <= index < |data| && data[index] == 0
    ensures data[start..] == data[start..index] + [0] + data[index + 1..]
  {}

  lemma CutAtFull(data: bytes, start: nat, index: nat)
    requires start <= index < |data| && data[index] != 0 && ZeroFree(data[start..index])
    ensures data[start..] == data[start..index + 1] + data[index + 1..]
    ensures ZeroFree(data[start..index + 1])
  {
    ZeroFreeSnoc(data, start, index);
  }

  lemma RunIs(data: bytes, n: nat)
    requires n <= |data| && n <= 254 && forall i :: 0 <= i < n ==> data[i] != 0
    requires n == 254 || n == |data| || data[n] == 0
    ensures Run(data) == n
  {}

  /** The three shapes `Groups` takes, told by what the data is made of. */
  lemma GroupsFull(chunk: bytes, tail: bytes, owed: bool)
    requires |chunk| == 254 && ZeroFree(chunk)
    ensures Groups(chunk + tail, owed) == Group(chunk) + Groups(tail, false)
  {
    var data := chunk + tail;
    assert data[..254] == chunk && data[254..] == tail;
    RunIs(data, 254);
  }

  lemma GroupsZero(chunk: bytes, tail: bytes, owed: bool)
    requires |chunk| < 254 && ZeroFree(chunk)
    ensures Groups(chunk + [0] + tail, owed) == Group(chunk) + Groups(tail, true)
  {
    var data, n := chunk + [0] + tail, |chunk|;
    assert data[..n] == chunk && data[n] == 0 && data[n + 1..] == tail;
    RunIs(data, n);
  }

  lemma GroupsLast(chunk: bytes, owed: bool)
    requires |chunk| < 254 && ZeroFree(chunk)
    ensures Groups(chunk, owed) == if chunk == [] && !owed then [] else Group(chunk)
  {
    assert chunk[..|chunk|] == chunk;
    RunIs(chunk, |chunk|);
  }

  /** Decode the groups of `block` from `index` on. */
  function DecodeFrom(block: bytes, index: nat): (r: Result<bytes, Fault>)
    requires index <= |block|
    decreases |block| - index
  {
    if index == |block| then Ok([]) else
      var code := block[index];
      if code == 0 then Err(ZeroCode(index))
      else if index + code > |block| then Err(Truncated(index))
      else
        var chunk := block[index + 1..index + code];
        if !ZeroFree(chunk) then Err(ZeroInData(index))
        else
          match DecodeFrom(block, index + code)
          case Err(e) => Err(e)
          case Ok(tail) =>
            Ok(chunk + (if code != 255 && index + code < |block| then [0] else []) + tail)
  }

  function Unterminated(encoded: bytes): bytes
  {
    if encoded != [] && encoded[|encoded| - 1] == 0 then encoded[..|encoded| - 1] else encoded
  }

  function Decoded(encoded: bytes): Result<bytes, Fault>
  {
    var block := Unterminated(encoded);
    if block == [] then Err(EmptyBlock) else DecodeFrom(block, 0)
  }

  /** `cobs_decode` */
  method Decode(encoded: bytes) returns (r: Result<bytes, Fault>)
    ensures r == Decoded(encoded)
  {
    var block := if encoded != [] && encoded[|encoded| - 1] == 0
    then encoded[..|encoded| - 1] else encoded;
    if block == [] { return Err(EmptyBlock); }
    var out: bytes := [];
    var index := 0;
    ghost var whole := DecodeFrom(block, 0);
    assert whole.Ok? ==> [] + whole.value == whole.value;
    while index < |block|
      invariant index <= |block|
      invariant Decoded(encoded) == Then(out, DecodeFrom(block, index))
    {
      var code := block[index];
      if code == 0 { return Err(ZeroCode(index)); }
      var end := if index + code <= |block| then index + code else |block|;
      var chunk := block[index + 1..end];
      if |chunk| != code - 1 { return Err(Truncated(index)); }
      var zero := HasZero(chunk);
      if zero { return Err(ZeroInData(index)); }
      ghost var before := out;
      out := out + chunk;
      index := index + code;
      if code != 0xFF && index < |block| { out := out + [0]; }
      ghost var tail := DecodeFrom(block, index);
      if tail.Ok? {
        Reassemble(before, chunk, if code != 255 && index < |block| then [0] else [], tail.value);
      }
    }
    assert out + [] == out;
    r := Ok(out);
  }

  lemma Reassemble(out: bytes, chunk: bytes, zero: bytes, tail: bytes)
    ensures out + (chunk + zero + tail) == (out + chunk) + zero + tail
    ensures (out + chunk) + [] + tail == (out + chunk) + tail
  {}

  method HasZero(chunk: bytes) returns (found: bool)
    ensures found <==> !ZeroFree(chunk)
  {
    found := false;
    for i := 0 to |chunk|
      invariant found <==> !ZeroFree(chunk[..i])
    {
      if chunk[i] == 0 { found := true; }
      assert chunk[..i + 1] == chunk[..i] + [chunk[i]];
    }
    assert chunk[..|chunk|] == chunk;
  }

  ghost function Then(out: bytes, r: Result<bytes, Fault>): Result<bytes, Fault>
  {
    match r
    case Err(e) => Err(e)
    case Ok(tail) => Ok(out + tail)
  }

  // ---- the encoding is zero free and short ---------------------------------------

  /** How `Groups` takes data apart: a run, what follows it, and the tail still to do. */
  lemma CutAtRun(data: bytes) returns (chunk: bytes, tail: bytes)
    ensures ZeroFree(chunk)
    ensures |chunk| == 254 ==> data == chunk + tail
    ensures |chunk| < |data| && |chunk| < 254 ==> data == chunk + [0] + tail
    ensures |chunk| <= |data| && (|chunk| == |data| || |tail| < |data|)
    ensures |chunk| <= 254 && (|chunk| == |data| ==> chunk == data)
    ensures |chunk| > 0 ==> |tail| < |data|
  {
    var n := Run(data);
    chunk := data[..n];
    tail := if n == 254 then data[254..] else if n < |data| then data[n + 1..] else [];
  }

  lemma {:induction false} GroupsZeroFree(data: bytes, owed: bool)
    ensures ZeroFree(Groups(data, owed))
    decreases |data|
  {
    hide Run, Groups;
    var chunk, tail := CutAtRun(data);
    if |chunk| == 254 {
      GroupsFull(chunk, tail, owed);
      GroupsZeroFree(tail, false);
    } else if |chunk| < |data| {
      GroupsZero(chunk, tail, owed);
      GroupsZeroFree(tail, true);
    } else {
      GroupsLast(chunk, owed);
    }
  }

  /** One code byte for every 254 bytes or part of them, and one for an empty tail that owes it. */
  lemma {:induction false} GroupsLength(data: bytes, owed: bool)
    ensures |data| <= |Groups(data, owed)|
    ensures |Groups(data, owed)| <= |data| + (if data == [] && owed then 1 else (|data| + 253) / 254)
    ensures owed || data != [] ==> |Groups(data, owed)| > 0
    decreases |data|
  {
    var n := Run(data);
    if n == 254 {
      GroupsLength(data[254..], false);
    } else if n < |data| {
      GroupsLength(data[n + 1..], true);
    }
  }

  /** No zero byte, and at most one byte of overhead per 254, but at least one byte. */
  lemma EncodingBounds(data: bytes)
    ensures ZeroFree(Encoded(data))
    ensures 0 < |Encoded(data)|
         <= |data| + (if data == [] then 1 else (|data| + 253) / 254)
  {
    GroupsZeroFree(data, true);
    GroupsLength(data, true);
  }

  // ---- decoding undoes encoding ----------------------------------------------------

  /** What is decoded from `index` on only depends on what stands from `index` on. */
  lemma {:induction false} DecodeSuffix(prefix: bytes, block: bytes, index: nat)
    requires index <= |block|
    ensures DecodeFrom(prefix + block, |prefix| + index).Ok? == DecodeFrom(block, index).Ok?
    ensures DecodeFrom(block, index).Ok? ==>
              DecodeFrom(prefix + block, |prefix| + index) == DecodeFrom(block, index)
    decreases |block| - index
  {
    if index < |block| {
      var code := block[index];
      assert (prefix + block)[|prefix| + index] == code;
      if code != 0 && index + code <= |block| {
        assert (prefix + block)[|prefix| + index + 1..|prefix| + index + code]
            == block[index + 1..index + code];
        DecodeSuffix(prefix, block, index + code);
      }
    }
  }

  /** A group at the front: its data, the zero it stands for, and the rest. */
  lemma DecodeGroup(chunk: bytes, rest: bytes)
    requires |chunk| <= 254 && ZeroFree(chunk)
    ensures DecodeFrom(Group(chunk) + rest, 0).Ok? == DecodeFrom(rest, 0).Ok?
    ensures DecodeFrom(rest, 0).Ok? ==>
              (DecodeFrom(Group(chunk) + rest, 0)
               == Ok(chunk + (if |chunk| < 254 && rest != [] then [0] else [])
                     + DecodeFrom(rest, 0).value))
  {
    var group := Group(chunk);
    assert (group + rest)[1..|chunk| + 1] == chunk;
    DecodeSuffix(group, rest, 0);
  }

  lemma NothingDecodes()
    ensures DecodeFrom([], 0) == Ok([])
  {}

  lemma {:induction false} GroupsDecode(data: bytes, owed: bool)
    ensures DecodeFrom(Groups(data, owed), 0) == Ok(data)
    decreases |data|
  {
    hide Run, Groups, DecodeFrom;
    var chunk, tail := CutAtRun(data);
    if |chunk| == 254 {
      GroupsFull(chunk, tail, owed);
      GroupsDecode(tail, false);
      DecodeGroup(chunk, Groups(tail, false));
      assert chunk + [] + tail == data;
    } else if |chunk| < |data| {
      GroupsZero(chunk, tail, owed);
      GroupsDecode(tail, true);
      GroupsLength(tail, true);
      DecodeGroup(chunk, Groups(tail, true));
    } else {
      assert chunk == data;
      GroupsLast(data, owed);
      NothingDecodes();
      DecodeGroup(data, []);
      assert Group(data) + [] == Group(data);
      assert data + [] + [] == data;
    }
  }

  /** Decoding undoes encoding, with or without the delimiter. */
  lemma RoundTrip(data: bytes)
    ensures Decoded(Encoded(data)) == Ok(data)
    ensures Decoded(Encoded(data) + [0]) == Ok(data)
  {
    EncodingBounds(data);
    GroupsDecode(data, true);
    var e := Encoded(data);
    assert e[|e| - 1] != 0;
    assert (e + [0])[..|e|] == e;
  }

  // ---- which blocks are canonical --------------------------------------------------

  /** The groups of `block` end in a full run followed by a lone 0x01. */
  predicate EndsInFullRunAndOne(block: bytes)
    decreases |block|
  {
    block != [] && 0 < block[0] < |block| &&
    var rest := block[block[0]..];
    (block[0] == 255 && rest == [1]) || EndsInFullRunAndOne(rest)
  }

  /** One step of a successful decode: a group, and the rest of the block. */
  lemma DecodeOpens(block: bytes) returns (chunk: bytes, rest: bytes)
    requires block != [] && DecodeFrom(block, 0).Ok?
    ensures |chunk| <= 254 && ZeroFree(chunk) && block == Group(chunk) + rest
    ensures block[0] == |chunk| + 1 && rest == block[block[0]..]
    ensures DecodeFrom(rest, 0).Ok?
    ensures DecodeFrom(block, 0)
         == Ok(chunk + (if |chunk| < 254 && rest != [] then [0] else [])
               + DecodeFrom(rest, 0).value)
  {
    var code := block[0];
    chunk, rest := block[1..code], block[code..];
    assert block == Group(chunk) + rest;
    DecodeGroup(chunk, rest);
  }

  lemma OneDecodesToNothing()
    ensures DecodeFrom([1], 0) == Ok([])
  {
    var none: bytes := [];
    NothingDecodes();
    DecodeGroup(none, none);
    assert Group(none) + none == [1];
    assert none + none + none == none;
  }

  /** Encoding again gives the block back, without its last byte in the one redundant case. */
  lemma {:induction false} GroupsCanonical(block: bytes, owed: bool)
    requires DecodeFrom(block, 0).Ok?
    requires block == [] ==> !owed
    requires block == [1] ==> owed
    ensures Groups(DecodeFrom(block, 0).value, owed)
         == if EndsInFullRunAndOne(block) then block[..|block| - 1] else block
    decreases |block|
  {
    hide Run, Groups, DecodeFrom, ZeroFree;
    if block == [] {
      NothingDecodes();
      GroupsLast([], owed);
    } else {
      var chunk, rest := DecodeOpens(block);
      var tail := DecodeFrom(rest, 0).value;
      if |chunk| == 254 {
        assert chunk + [] + tail == chunk + tail;
        GroupsFull(chunk, tail, owed);
        if rest == [1] {
          OneDecodesToNothing();
          GroupsLast([], false);
          assert block[..|block| - 1] == Group(chunk) + [];
        } else {
          GroupsCanonical(rest, false);
          DropLast(Group(chunk), rest);
        }
      } else if rest == [] {
        NothingDecodes();
        assert chunk + [] + [] == chunk;
        GroupsLast(chunk, owed);
        assert Group(chunk) + [] == Group(chunk);
      } else {
        GroupsZero(chunk, tail, owed);
        GroupsCanonical(rest, true);
        DropLast(Group(chunk), rest);
      }
    }
  }

  lemma DropLast(a: bytes, b: bytes)
    ensures b != [] ==> (a + b)[..|a + b| - 1] == a + b[..|b| - 1]
  {}

  /**
   Encoding what a block decoded to gives the block back, except exactly when it ends
   in a full run followed by a lone 0x01; then that 0x01 is dropped.
   */
  lemma {:induction false} Reencode(block: bytes)
    requires block != [] && block[|block| - 1] != 0 && Decoded(block).Ok?
    ensures Encoded(Decoded(block).value) == block <==> !EndsInFullRunAndOne(block)
    ensures EndsInFullRunAndOne(block) ==>
              Encoded(Decoded(block).value) == block[..|block| - 1] && block[|block| - 1] == 1
  {
    assert Decoded(block) == DecodeFrom(block, 0);
    GroupsCanonical(block, true);
    if EndsInFullRunAndOne(block) { RedundantLast(block); }
  }

  lemma {:induction false} RedundantLast(block: bytes)
    requires EndsInFullRunAndOne(block)
    ensures |block| > 0 && block[|block| - 1] == 1
    decreases |block|
  {
    var rest := block[block[0]..];
    if !(block[0] == 255 && rest == [1]) { RedundantLast(rest); }
    assert rest[|rest| - 1] == block[|block| - 1];
  }

  /** Two different blocks decode to the same bytes only through that redundancy. */
  lemma {:induction false} DecodeInjective(a: bytes, b: bytes)
    requires a != [] && a[|a| - 1] != 0 && b != [] && b[|b| - 1] != 0
    requires Decoded(a).Ok? && Decoded(a) == Decoded(b)
    ensures a == b || a == b + [1] || b == a + [1]
    ensures EndsInFullRunAndOne(a) == EndsInFullRunAndOne(b) ==> a == b
  {
    Reencode(a);
    Reencode(b);
    LastSplit(a);
    LastSplit(b);
  }

  // ---- a stream of packets ----------------------------------------------------------

  function EncodedAll(packets: seq<bytes>): (r: seq<bytes>)
    ensures |r| == |packets|
    ensures forall k :: 0 <= k < |r| ==> r[k] == Encoded(packets[k])
  {
    seq(|packets|, k requires 0 <= k < |packets| => Encoded(packets[k]))
  }

  /** Each packet encoded and closed by its delimiter. */
  function Stream(packets: seq<bytes>): bytes
  {
    Delimiter.Joined(EncodedAll(packets), 0)
  }

  /**
   After any noise that a zero byte ends, the last frames of the split decode to
   exactly the packets sent, empty ones included, and nothing is left over.
   */
  lemma StreamResynchronises(noise: bytes, packets: seq<bytes>)
    ensures Delimiter.Kept(noise + [0] + Stream(packets), 0, false)
         == Delimiter.Kept(noise + [0], 0, false) + EncodedAll(packets)
    ensures Delimiter.Tail(noise + [0] + Stream(packets), 0) == []
    ensures forall k :: 0 <= k < |packets| ==> Decoded(EncodedAll(packets)[k]) == Ok(packets[k])
  {
    hide Encoded, Decoded, Delimiter.Runs, Delimiter.Tail, Delimiter.NonEmpty;
    var sent := EncodedAll(packets);
    forall k | 0 <= k < |packets|
      ensures sent[k] != [] && ZeroFree(sent[k]) && Decoded(sent[k]) == Ok(packets[k])
    {
      EncodingBounds(packets[k]);
      RoundTrip(packets[k]);
    }
    assert Delimiter.AllFree(sent, 0);
    Delimiter.Snoc(noise, 0, 0);
    Delimiter.SplitJoined(noise + [0], sent, 0);
    Delimiter.NonEmptyAppend(Delimiter.Runs(noise + [0], 0), sent);
    Delimiter.NonEmptyAll(sent);
  }
}
