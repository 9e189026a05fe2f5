/** `split_on_delimiter` of fielddeck/analysis/framing.py. */
module Delimiter {
  import opened Bytes

  datatype Segmentation = Segmentation(
    frames: seq<bytes>, offsets: seq<nat>, residue: nat, total: nat)

  predicate Free(data: bytes, d: byte)
  {
    forall i :: 0 <= i < |data| ==> data[i] != d
  }

  /** Every run that a delimiter ended, empty ones included. */
  function Runs(data: bytes, d: byte): seq<bytes>
  {
    if data == [] then [] else
      var last := |data| - 1;
      if data[last] == d then Runs(data[..last], d) + [Tail(data[..last], d)]
      else Runs(data[..last], d)
  }

  /** What follows the last delimiter. */
  function Tail(data: bytes, d: byte): (r: bytes)
    ensures |r| <= |data|
  {
    if data == [] then [] else
      var last := |data| - 1;
      if data[last] == d then [] else Tail(data[..last], d) + [data[last]]
  }

  function NonEmpty(runs: seq<bytes>): seq<bytes>
  {
    if runs == [] then [] else
      var last := |runs| - 1;
      NonEmpty(runs[..last]) + (if runs[last] == [] then [] else [runs[last]])
  }

  function Kept(data: bytes, d: byte, keepEmpty: bool): seq<bytes>
  {
    if keepEmpty then Runs(data, d) else NonEmpty(Runs(data, d))
  }

  lemma Snoc(data: bytes, b: byte, d: byte)
    ensures Runs(data + [b], d) == if b == d then Runs(data, d) + [Tail(data, d)] else Runs(data, d)
    ensures Tail(data + [b], d) == if b == d then [] else Tail(data, d) + [b]
  {
    assert (data + [b])[..|data|] == data;
  }

  lemma NonEmptySnoc(runs: seq<bytes>, run: bytes)
    ensures NonEmpty(runs + [run]) == NonEmpty(runs) + (if run == [] then [] else [run])
  {
    assert (runs + [run])[..|runs|] == runs;
  }

  lemma KeptSnoc(data: bytes, b: byte, d: byte, keepEmpty: bool)
    ensures Kept(data + [b], d, keepEmpty)
         == if b == d && (keepEmpty || Tail(data, d) != []) then Kept(data, d, keepEmpty) + [Tail(data, d)]
            else Kept(data, d, keepEmpty)
    ensures Tail(data + [b], d) == if b == d then [] else Tail(data, d) + [b]
  {
    hide Runs, Tail, NonEmpty;
    Snoc(data, b, d);
    NonEmptySnoc(Runs(data, d), Tail(data, d));
  }

  lemma NothingSplit(d: byte, keepEmpty: bool)
    ensures Kept([], d, keepEmpty) == [] && Tail([], d) == []
    ensures forall data: bytes :: Placed(data, d, [], [], 0)
  {}

  lemma PlacedWiden(data: bytes, d: byte, frames: seq<bytes>, offsets: seq<nat>, a: nat, b: nat)
    requires Placed(data, d, frames, offsets, a) && a <= b
    ensures Placed(data, d, frames, offsets, b)
  {}

  /** The frame at `offset` is cut out of `data` and ended by a delimiter. */
  ghost predicate Cut(data: bytes, d: byte, frame: bytes, offset: nat)
  {
    offset + |frame| < |data| && data[offset..offset + |frame|] == frame
    && data[offset + |frame|] == d
  }

  /** The frames stand in order, apart, and before `limit`. */
  ghost predicate Placed(data: bytes, d: byte, frames: seq<bytes>, offsets: seq<nat>, limit: nat)
  {
    && |offsets| == |frames|
    && (forall k :: 0 <= k < |frames| ==>
                      Cut(data, d, frames[k], offsets[k]) && offsets[k] + |frames[k]| < limit)
    && (forall k :: 0 <= k < |frames| - 1 ==> offsets[k] + |frames[k]| < offsets[k + 1])
  }

  lemma PlacedSnoc(data: bytes, d: byte, frames: seq<bytes>, offsets: seq<nat>, start: nat, index: nat)
    requires Placed(data, d, frames, offsets, start)
    requires start <= index < |data| && data[index] == d
    ensures Placed(data, d, frames, offsets, index + 1)
    ensures Placed(data, d, frames + [data[start..index]], offsets + [start], index + 1)
  {
    assert start + |data[start..index]| == index;
  }

  method Split(data: bytes, delimiter: byte, keepEmpty: bool) returns (s: Segmentation)
    ensures s.frames == Kept(data, delimiter, keepEmpty)
    ensures s.residue == |Tail(data, delimiter)| && s.total == |data|
    ensures Placed(data, delimiter, s.frames, s.offsets, |data| + 1)
  {
    hide Runs, Tail, NonEmpty, Kept, Placed;
    NothingSplit(delimiter, keepEmpty);
    var frames: seq<bytes>, offsets: seq<nat> := [], [];
    var start := 0;
    for index := 0 to |data|
      invariant start <= index
      invariant data[start..index] == Tail(data[..index], delimiter)
      invariant frames == Kept(data[..index], delimiter, keepEmpty)
      invariant Placed(data, delimiter, frames, offsets, start)
    {
      Prefix(data, index);
      KeptSnoc(data[..index], data[index], delimiter, keepEmpty);
      if data[index] != delimiter {
        RunGrows(data, start, index);
        continue;
      }
      var chunk := data[start..index];
      PlacedSnoc(data, delimiter, frames, offsets, start, index);
      if chunk != [] || keepEmpty {
        frames := frames + [chunk];
        offsets := offsets + [start];
      }
      start := index + 1;
    }
    assert data[..|data|] == data;
    PlacedWiden(data, delimiter, frames, offsets, start, |data| + 1);
    s := Segmentation(frames, offsets, |data| - start, |data|);
  }

  lemma Prefix(data: bytes, index: nat)
    requires index < |data|
    ensures data[..index + 1] == data[..index] + [data[index]]
  {}

  lemma RunGrows(data: bytes, start: nat, index: nat)
    requires start <= index < |data|
    ensures data[start..index + 1] == data[start..index] + [data[index]]
  {}

  // ---- what the runs are ------------------------------------------------------

  /** Every run followed by one delimiter. */
  function Joined(runs: seq<bytes>, d: byte): bytes
  {
    if runs == [] then [] else
      Joined(runs[..|runs| - 1], d) + runs[|runs| - 1] + [d]
  }

  ghost predicate AllFree(runs: seq<bytes>, d: byte)
  {
    forall k :: 0 <= k < |runs| ==> Free(runs[k], d)
  }

  lemma TailFree(data: bytes, d: byte)
    ensures Free(Tail(data, d), d)
  {}

  /** No byte is lost: the runs, each with its delimiter, and the tail are the data. */
  lemma {:induction false} RunsJoin(data: bytes, d: byte)
    ensures Joined(Runs(data, d), d) + Tail(data, d) == data
    ensures AllFree(Runs(data, d), d)
  {
    if data != [] {
      var front, b := data[..|data| - 1], data[|data| - 1];
      LastSplit(data);
      RunsJoin(front, d);
      TailFree(front, d);
      var runs, tail := Runs(front, d), Tail(front, d);
      if b == d {
        assert (runs + [tail])[..|runs|] == runs;
        assert Joined(runs + [tail], d) == front + [b];
        assert Joined(runs + [tail], d) + [] == front + [b];
      } else {
        Associate(Joined(runs, d), tail, [b]);
      }
    }
  }

  lemma {:induction false} TailAppend(data: bytes, free: bytes, d: byte)
    requires Free(free, d)
    ensures Runs(data + free, d) == Runs(data, d)
    ensures Tail(data + free, d) == Tail(data, d) + free
  {
    if free == [] {
      assert data + free == data;
    } else {
      var front, b := free[..|free| - 1], free[|free| - 1];
      LastSplit(free);
      TailAppend(data, front, d);
      Associate(data, front, [b]);
      Associate(Tail(data, d), front, [b]);
      Snoc(data + front, b, d);
    }
  }

  /** Closing a run adds it and leaves nothing open. */
  lemma CloseRun(data: bytes, free: bytes, d: byte)
    requires Free(free, d)
    ensures Runs(data + free + [d], d) == Runs(data, d) + [Tail(data, d) + free]
    ensures Tail(data + free + [d], d) == []
  {
    TailAppend(data, free, d);
    Snoc(data + free, d, d);
  }

  /** The split of runs put on the wire gives the runs back, whatever was there before. */
  lemma {:induction false} SplitJoined(prefix: bytes, runs: seq<bytes>, d: byte)
    requires AllFree(runs, d) && Tail(prefix, d) == []
    ensures Runs(prefix + Joined(runs, d), d) == Runs(prefix, d) + runs
    ensures Tail(prefix + Joined(runs, d), d) == []
  {
    hide Runs, Tail, Free;
    if runs == [] {
      assert prefix + Joined(runs, d) == prefix;
    } else {
      var front, run := runs[..|runs| - 1], runs[|runs| - 1];
      LastSplit(runs);
      SplitJoined(prefix, front, d);
      var sent := prefix + Joined(front, d);
      CloseRun(sent, run, d);
      assert sent + run + [d] == prefix + Joined(runs, d);
      assert [] + run == run;
    }
  }

  /** The runs are the only way to read the data as delimiter-free pieces. */
  lemma RunsUnique(data: bytes, runs: seq<bytes>, tail: bytes, d: byte)
    requires AllFree(runs, d) && Free(tail, d) && data == Joined(runs, d) + tail
    ensures runs == Runs(data, d) && tail == Tail(data, d)
  {
    var none: bytes := [];
    SplitJoined(none, runs, d);
    assert none + Joined(runs, d) == Joined(runs, d);
    TailAppend(Joined(runs, d), tail, d);
  }

  lemma {:induction false} NonEmptyAppend(a: seq<bytes>, b: seq<bytes>)
    ensures NonEmpty(a + b) == NonEmpty(a) + NonEmpty(b)
  {
    if b == [] {
      assert a + b == a;
    } else {
      var front, run := b[..|b| - 1], b[|b| - 1];
      LastSplit(b);
      NonEmptyAppend(a, front);
      Associate(a, front, [run]);
      NonEmptySnoc(a + front, run);
      NonEmptySnoc(front, run);
      Associate(NonEmpty(a), NonEmpty(front), if run == [] then [] else [run]);
    }
  }

  lemma {:induction false} NonEmptyAll(runs: seq<bytes>)
    requires forall k :: 0 <= k < |runs| ==> runs[k] != []
    ensures NonEmpty(runs) == runs
  {
    if runs != [] {
      LastSplit(runs);
      NonEmptyAll(runs[..|runs| - 1]);
    }
  }
}
