/** `_try_length_prefix` of fielddeck/analysis/autodetect.py: a walk that trusts a length field. */
module LengthPrefix {
  import opened Bytes
  import opened Words
  import opened Bits

  const LONGEST: nat := 4096

  /** Where the length field stands, how it reads, and what it leaves out of the frame's size. */
  datatype Field = Field(offset: nat, width: nat, little: bool, extra: nat)
  {
    function Minimum(): nat { offset + width + 1 }
  }

  datatype Fit = Fit(
    frames: nat, consumed: nat, resyncs: nat, distinctLengths: nat, distinctDeclared: nat,
    constantColumns: nat, minFrame: nat, maxFrame: nat)

  function Declared(data: bytes, position: nat, f: Field): nat
    requires position + f.offset + f.width <= |data|
  {
    var field := data[position + f.offset..position + f.offset + f.width];
    if f.little then FromLittle(field) else FromBig(field)
  }

  /** The frame the field claims is of a plausible size and all there. */
  predicate Readable(data: bytes, position: nat, f: Field)
  {
    position + f.offset + f.width <= |data| &&
    var total := Declared(data, position, f) + f.extra;
    f.Minimum() <= total <= LONGEST && position + total <= |data|
  }

  /** The frames taken, where each began, and the bytes skipped. */
  datatype Trail = Trail(starts: seq<nat>, frames: seq<bytes>, resyncs: nat)

  const NOWHERE := Trail([], [], 0)

  function Join(a: Trail, b: Trail): Trail
  {
    Trail(a.starts + b.starts, a.frames + b.frames, a.resyncs + b.resyncs)
  }

  function Size(data: bytes, position: nat, f: Field): (n: nat)
    requires position + f.offset + f.width <= |data|
    ensures n >= 1 && (Readable(data, position, f) ==> position + n <= |data|)
  {
    if Readable(data, position, f) then Declared(data, position, f) + f.extra else 1
  }

  function Turn(data: bytes, position: nat, f: Field): Trail
    requires position + f.offset + f.width <= |data|
  {
    if Readable(data, position, f)
    then Trail([position], [data[position..position + Size(data, position, f)]], 0)
    else Trail([], [], 1)
  }

  function Walk(data: bytes, position: nat, f: Field): Trail
    decreases |data| + 1 - position
  {
    if position + f.offset + f.width > |data| then NOWHERE
    else Join(Turn(data, position, f), Walk(data, position + Size(data, position, f), f))
  }

  function End(data: bytes, position: nat, f: Field): nat
    decreases |data| + 1 - position
  {
    if position + f.offset + f.width > |data| then position
    else End(data, position + Size(data, position, f), f)
  }

  function Lengths(frames: seq<bytes>): set<nat>
  {
    set frame | frame in frames :: |frame|
  }

  // ---- columns that never change ------------------------------------------------------------

  ghost predicate Constant(frames: seq<bytes>, column: nat)
  {
    forall i :: 0 <= i < |frames| ==>
                  column < |frames[i]| && column < |frames[0]| && frames[i][column] == frames[0][column]
  }

  /** How many of the first n columns, the field's own left out, are the same in every frame. */
  ghost function ConstantColumns(frames: seq<bytes>, f: Field, n: nat): nat
  {
    if n == 0 then 0 else
      ConstantColumns(frames, f, n - 1)
      + (if !(f.offset <= n - 1 < f.offset + f.width) && Constant(frames, n - 1) then 1 else 0)
  }

  method CountColumns(frames: seq<bytes>, f: Field, shortest: nat) returns (columns: nat)
    requires frames != [] && forall i :: 0 <= i < |frames| ==> shortest <= |frames[i]|
    ensures columns == ConstantColumns(frames, f, if shortest < 4 then shortest else 4)
  {
    columns := 0;
    var n := if shortest < 4 then shortest else 4;
    for column := 0 to n
      invariant columns == ConstantColumns(frames, f, column)
    {
      if f.offset <= column < f.offset + f.width {
        continue;
      }
      var values: set<byte> := {};
      for i := 0 to |frames|
        invariant forall k :: 0 <= k < i ==> frames[k][column] in values
        invariant forall v :: v in values ==> exists k :: 0 <= k < i && frames[k][column] == v
      {
        values := values + {frames[i][column]};
      }
      OneValue(frames, column, values);
      if |values| == 1 {
        columns := columns + 1;
      }
    }
  }

  lemma OneValue(frames: seq<bytes>, column: nat, values: set<byte>)
    requires frames != [] && forall k :: 0 <= k < |frames| ==> column < |frames[k]|
    requires forall k :: 0 <= k < |frames| ==> frames[k][column] in values
    requires forall v :: v in values ==> exists k :: 0 <= k < |frames| && frames[k][column] == v
    ensures |values| == 1 <==> Constant(frames, column)
  {
    var first := frames[0][column];
    assert first in values;
    if |values| == 1 {
      assert |values - {first}| == 0;
      forall k | 0 <= k < |frames| ensures frames[k][column] == first {
        assert frames[k][column] !in values - {first};
      }
    }
    if Constant(frames, column) {
      assert values == {first};
    }
  }

  // ---- the walk as the source runs it ---------------------------------------------------------

  /** What the fit reports about the frames of a walk. */
  ghost predicate Describes(fit: Fit, t: Trail, f: Field)
  {
    && fit.frames == |t.frames| && fit.consumed == |Concat(t.frames)| && fit.resyncs == t.resyncs
    && fit.distinctLengths == fit.distinctDeclared == |Lengths(t.frames)|
    && (forall i :: 0 <= i < |t.frames| ==> fit.minFrame <= |t.frames[i]| <= fit.maxFrame)
    && (exists i :: 0 <= i < |t.frames| && |t.frames[i]| == fit.minFrame)
    && (exists i :: 0 <= i < |t.frames| && |t.frames[i]| == fit.maxFrame)
    && fit.constantColumns == ConstantColumns(t.frames, f, if fit.minFrame < 4 then fit.minFrame else 4)
  }

  /** A fit comes back exactly for five frames or more, and describes the walk. */
  ghost predicate Answers(data: bytes, f: Field, fit: Option<Fit>)
  {
    && (fit.Some? <==> |Walk(data, 0, f).frames| >= 5)
    && (fit.Some? ==> Describes(fit.value, Walk(data, 0, f), f))
  }

  method TryLengthPrefix(data: bytes, f: Field) returns (fit: Option<Fit>)
    requires f.width >= 1
    ensures Answers(data, f, fit)
    ensures fit.Some? ==>
              var used := fit.value.consumed + fit.value.resyncs;
              used <= |data| < used + f.offset + f.width
  {
    hide Walk, Readable, Turn, Size, ConstantColumns, Constant, Concat, Join, Mirrors, Lengths, Declared, Describes;
    var frames: seq<bytes> := [];
    ghost var starts: seq<nat> := [];
    var consumed, resyncs, position := 0, 0, 0;
    var lengths: set<nat>, declaredValues: set<nat> := {}, {};
    JoinNowhere(Walk(data, 0, f));
    NothingConsumed();
    MirrorsNothing(f.extra);
    while position + f.offset + f.width <= |data|
      invariant Join(Trail(starts, frames, resyncs), Walk(data, position, f)) == Walk(data, 0, f)
      invariant consumed == |Concat(frames)|
      invariant lengths == Lengths(frames) && Mirrors(declaredValues, lengths, f.extra)
      decreases |data| + 1 - position
    {
      WalkStep(data, position, f, Trail(starts, frames, resyncs));
      TurnIs(data, position, f, Trail(starts, frames, resyncs));
      var declared := Declared(data, position, f);
      var total := declared + f.extra;
      if total < f.Minimum() || total > LONGEST || position + total > |data| {
        resyncs := resyncs + 1;
        position := position + 1;
        continue;
      }
      var frame := data[position..position + total];
      LengthsSnoc(frames, frame);
      MirrorsGrow(declaredValues, lengths, declared, f.extra);
      ConsumedSnoc(frames, frame);
      frames := frames + [frame];
      starts := starts + [position];
      lengths := lengths + {total};
      declaredValues := declaredValues + {declared};
      consumed := consumed + total;
      position := position + total;
    }
    WalkOver(data, position, f);
    JoinNowhere(Trail(starts, frames, resyncs));
    MirrorsCount(declaredValues, lengths, f.extra);
    if |frames| < 5 {
      return None;
    }
    var shortest, longest := Extremes(frames);
    var columns := CountColumns(frames, f, shortest);
    fit := Some(Fit(|frames|, consumed, resyncs, |lengths|, |declaredValues|, columns, shortest, longest));
    Described(fit.value, Trail(starts, frames, resyncs), f);
    BytesConserved(data, f);
  }

  lemma Described(fit: Fit, t: Trail, f: Field)
    requires fit.frames == |t.frames| && fit.consumed == |Concat(t.frames)| && fit.resyncs == t.resyncs
    requires fit.distinctLengths == fit.distinctDeclared == |Lengths(t.frames)|
    requires forall i :: 0 <= i < |t.frames| ==> fit.minFrame <= |t.frames[i]| <= fit.maxFrame
    requires exists i :: 0 <= i < |t.frames| && |t.frames[i]| == fit.minFrame
    requires exists i :: 0 <= i < |t.frames| && |t.frames[i]| == fit.maxFrame
    requires fit.constantColumns == ConstantColumns(t.frames, f, if fit.minFrame < 4 then fit.minFrame else 4)
    ensures Describes(fit, t, f)
  {}

  method Extremes(frames: seq<bytes>) returns (shortest: nat, longest: nat)
    requires frames != []
    ensures forall i :: 0 <= i < |frames| ==> shortest <= |frames[i]| <= longest
    ensures exists i :: 0 <= i < |frames| && |frames[i]| == shortest
    ensures exists i :: 0 <= i < |frames| && |frames[i]| == longest
  {
    shortest, longest := |frames[0]|, |frames[0]|;
    for k := 1 to |frames|
      invariant forall i :: 0 <= i < k ==> shortest <= |frames[i]| <= longest
      invariant exists i :: 0 <= i < k && |frames[i]| == shortest
      invariant exists i :: 0 <= i < k && |frames[i]| == longest
    {
      if |frames[k]| < shortest { shortest := |frames[k]|; }
      if |frames[k]| > longest { longest := |frames[k]|; }
    }
  }

  lemma NothingConsumed()
    ensures Concat([]) == [] && Lengths([]) == {}
  {}

  /** The declared values are the lengths less the overhead, one for one. */
  ghost predicate Mirrors(declared: set<nat>, lengths: set<nat>, extra: nat)
  {
    |declared| == |lengths| && (forall v :: v in declared ==> v + extra in lengths)
    && (forall n :: n in lengths ==> n >= extra && n - extra in declared)
  }

  lemma MirrorsNothing(extra: nat)
    ensures Mirrors({}, {}, extra)
  {}

  lemma MirrorsCount(declared: set<nat>, lengths: set<nat>, extra: nat)
    requires Mirrors(declared, lengths, extra)
    ensures |declared| == |lengths|
  {}

  lemma MirrorsGrow(declared: set<nat>, lengths: set<nat>, d: nat, extra: nat)
    requires Mirrors(declared, lengths, extra)
    ensures Mirrors(declared + {d}, lengths + {d + extra}, extra)
  {
    var n := d + extra;
    assert d in declared <==> n in lengths;
    GrowsByOne(declared, d);
    GrowsByOne(lengths, n);
  }

  lemma GrowsByOne(s: set<nat>, x: nat)
    ensures |s + {x}| == |s| + (if x in s then 0 else 1)
  {
    if x in s { assert s + {x} == s; }
  }

  lemma LengthsSnoc(frames: seq<bytes>, frame: bytes)
    ensures Lengths(frames + [frame]) == Lengths(frames) + {|frame|}
  {
    assert frame in frames + [frame];
    forall x | x in Lengths(frames) + {|frame|} ensures x in Lengths(frames + [frame]) {
      if x in Lengths(frames) {
        var g :| g in frames && |g| == x;
        assert g in frames + [frame];
      }
    }
  }

  lemma ConsumedSnoc(frames: seq<bytes>, frame: bytes)
    ensures |Concat(frames + [frame])| == |Concat(frames)| + |frame|
  {
    ConcatAppend(frames, [frame]);
    assert [frame][1..] == [];
    assert Concat([frame]) == frame + [];
  }

  lemma JoinNowhere(t: Trail)
    ensures Join(NOWHERE, t) == t && Join(t, NOWHERE) == t
  {
    assert t.starts + [] == t.starts && t.frames + [] == t.frames;
  }

  lemma WalkStep(data: bytes, position: nat, f: Field, t: Trail)
    requires position + f.offset + f.width <= |data|
    ensures Join(t, Walk(data, position, f)) ==
            Join(Join(t, Turn(data, position, f)), Walk(data, position + Size(data, position, f), f))
  {
    hide Turn, Size;
    var turn, rest := Turn(data, position, f), Walk(data, position + Size(data, position, f), f);
    Associate(t.starts, turn.starts, rest.starts);
    Associate(t.frames, turn.frames, rest.frames);
  }

  lemma WalkOver(data: bytes, position: nat, f: Field)
    requires position + f.offset + f.width > |data|
    ensures Walk(data, position, f) == NOWHERE
  {}

  lemma TurnIs(data: bytes, position: nat, f: Field, t: Trail)
    requires position + f.offset + f.width <= |data|
    ensures var total := Declared(data, position, f) + f.extra;
            if total < f.Minimum() || total > LONGEST || position + total > |data| then
              Size(data, position, f) == 1
              && Join(t, Turn(data, position, f)) == Trail(t.starts, t.frames, t.resyncs + 1)
            else
              Size(data, position, f) == total
              && Join(t, Turn(data, position, f)) ==
                 Trail(t.starts + [position], t.frames + [data[position..position + total]], t.resyncs)
  {
    assert t.starts + [] == t.starts && t.frames + [] == t.frames;
  }

  // ---- no byte is lost ------------------------------------------------------------------------

  lemma {:induction false} WalkAccounts(data: bytes, position: nat, f: Field)
    requires f.width >= 1 && position <= |data|
    ensures var t := Walk(data, position, f);
            && |Concat(t.frames)| + t.resyncs == End(data, position, f) - position
            && End(data, position, f) <= |data| < End(data, position, f) + f.offset + f.width
    decreases |data| - position
  {
    hide Declared;
    if position + f.offset + f.width <= |data| {
      var turn := Turn(data, position, f);
      var next := position + Size(data, position, f);
      WalkAccounts(data, next, f);
      ConcatAppend(turn.frames, Walk(data, next, f).frames);
      if turn.frames != [] { ConsumedSnoc([], turn.frames[0]); assert [] + turn.frames == turn.frames; }
    }
  }

  /** What is read as frames, what is skipped, and a tail too short to hold a field. */
  lemma BytesConserved(data: bytes, f: Field)
    requires f.width >= 1
    ensures var t := Walk(data, 0, f);
            var used := |Concat(t.frames)| + t.resyncs;
            used <= |data| < used + f.offset + f.width
  {
    WalkAccounts(data, 0, f);
  }

  // ---- what the frames are ----------------------------------------------------------------------

  /** The frame stands at `start`, and its own field says how long it is. */
  ghost predicate Framed(data: bytes, start: nat, frame: bytes, f: Field)
  {
    && start + |frame| <= |data| && data[start..start + |frame|] == frame
    && f.Minimum() <= |frame| <= LONGEST && |frame| == Declared(frame, 0, f) + f.extra
  }

  ghost predicate InOrder(t: Trail, from: nat)
  {
    && |t.starts| == |t.frames|
    && (forall i :: 0 <= i < |t.frames| ==> from <= t.starts[i])
    && (forall i, j :: 0 <= i < j < |t.frames| ==> t.starts[i] + |t.frames[i]| <= t.starts[j])
  }

  ghost predicate Inside(t: Trail, o: nat)
    requires |t.starts| == |t.frames|
  {
    exists i :: 0 <= i < |t.frames| && t.starts[i] <= o < t.starts[i] + |t.frames[i]|
  }

  lemma SliceOfSlice<T>(s: seq<T>, i: nat, n: nat, j: nat, m: nat)
    requires i + n <= |s| && j + m <= n
    ensures s[i..i + n][j..j + m] == s[i + j..i + j + m]
  {
    var a, b := s[i..i + n][j..j + m], s[i + j..i + j + m];
    assert |a| == |b|;
    forall k | 0 <= k < m ensures a[k] == b[k] {
      assert a[k] == s[i..i + n][j + k];
    }
  }

  /** A field reads the same within its frame as in the stream. */
  lemma DeclaredWithin(data: bytes, start: nat, n: nat, f: Field)
    requires start + n <= |data| && f.offset + f.width <= n
    ensures Declared(data[start..start + n], 0, f) == Declared(data, start, f)
  {
    SliceOfSlice(data, start, n, f.offset, f.width);
  }

  lemma {:induction false} FramesAreFramed(data: bytes, position: nat, f: Field)
    ensures var t := Walk(data, position, f);
            InOrder(t, position) && forall i :: 0 <= i < |t.frames| ==> Framed(data, t.starts[i], t.frames[i], f)
    decreases |data| + 1 - position
  {
    hide Declared;
    if position + f.offset + f.width <= |data| {
      FramesAreFramed(data, position + Size(data, position, f), f);
      if Readable(data, position, f) {
        DeclaredWithin(data, position, Size(data, position, f), f);
      }
    }
  }

  lemma InsideAppend(a: Trail, b: Trail, o: nat)
    requires |a.starts| == |a.frames| && |b.starts| == |b.frames|
    ensures Inside(Join(a, b), o) <==> Inside(a, o) || Inside(b, o)
  {
    var all := Join(a, b);
    if Inside(a, o) {
      var i :| 0 <= i < |a.frames| && a.starts[i] <= o < a.starts[i] + |a.frames[i]|;
      assert all.starts[i] == a.starts[i] && all.frames[i] == a.frames[i];
    } else if Inside(b, o) {
      var i :| 0 <= i < |b.frames| && b.starts[i] <= o < b.starts[i] + |b.frames[i]|;
      assert all.starts[|a.starts| + i] == b.starts[i] && all.frames[|a.frames| + i] == b.frames[i];
    }
  }

  /** A byte was skipped only where no frame could be read. */
  lemma {:induction false} SkippedMeansUnreadable(data: bytes, position: nat, f: Field, o: nat)
    requires position <= o && o + f.offset + f.width <= |data|
    ensures |Walk(data, position, f).starts| == |Walk(data, position, f).frames|
    ensures !Inside(Walk(data, position, f), o) ==> !Readable(data, o, f) 
    decreases |data| + 1 - position
  {
    hide Declared, Readable;
    FramesAreFramed(data, position, f);
    if !Inside(Walk(data, position, f), o) {
      var turn, next := Turn(data, position, f), position + Size(data, position, f);
      FramesAreFramed(data, next, f);
      InsideAppend(turn, Walk(data, next, f), o);
      if Readable(data, position, f) {
        assert turn.starts[0] == position && |turn.frames[0]| == Size(data, position, f);
      }
      if o >= next {
        SkippedMeansUnreadable(data, next, f, o);
      }
    }
  }

  // ---- recovery -------------------------------------------------------------------------------

  /** A frame of plausible size whose field plus `extra` is its own size. */
  ghost predicate Honest(frame: bytes, f: Field)
  {
    f.Minimum() <= |frame| <= LONGEST && Declared(frame, 0, f) + f.extra == |frame|
  }

  lemma HonestIsRead(prefix: bytes, frame: bytes, rest: bytes, f: Field)
    requires Honest(frame, f)
    ensures var data := prefix + (frame + rest);
            && Readable(data, |prefix|, f) && Size(data, |prefix|, f) == |frame|
            && data[|prefix|..|prefix| + |frame|] == frame
  {
    hide Declared;
    var data := prefix + (frame + rest);
    assert data[|prefix|..|prefix| + |frame|] == frame;
    DeclaredWithin(data, |prefix|, |frame|, f);
  }

  /** One honest frame is taken, and the walk goes on behind it. */
  lemma FrameTaken(prefix: bytes, frame: bytes, rest: bytes, f: Field)
    requires Honest(frame, f)
    ensures var data := prefix + (frame + rest);
            var t, next := Walk(data, |prefix|, f), Walk(data, |prefix + frame|, f);
            t.frames == [frame] + next.frames && t.resyncs == next.resyncs
  {
    hide Declared, Readable, Honest, Size;
    HonestIsRead(prefix, frame, rest, f);
    HonestLength(frame, f);
  }

  lemma {:induction false} WalkRecovers(prefix: bytes, sent: seq<bytes>, f: Field)
    requires f.width >= 1 && forall frame :: frame in sent ==> Honest(frame, f)
    ensures var t := Walk(prefix + Concat(sent), |prefix|, f); t.frames == sent && t.resyncs == 0
    decreases |sent|
  {
    hide Honest, Walk;
    if sent == [] {
      WalkOver(prefix + Concat(sent), |prefix|, f);
    } else {
      var frame, rest := sent[0], Concat(sent[1..]);
      assert Honest(frame, f);
      FrameTaken(prefix, frame, rest, f);
      Associate(prefix, frame, rest);
      WalkRecovers(prefix + frame, sent[1..], f);
      assert sent == [frame] + sent[1..];
    }
  }

  lemma HonestLength(frame: bytes, f: Field)
    requires Honest(frame, f)
    ensures |frame| > f.offset + f.width
  {}

  /** Honest frames back to back: the fit is theirs, or there were fewer than five. */
  lemma StreamRecovered(sent: seq<bytes>, f: Field)
    requires f.width >= 1 && forall frame :: frame in sent ==> Honest(frame, f)
    ensures var t := Walk(Concat(sent), 0, f);
            t.frames == sent && t.resyncs == 0 && |Concat(t.frames)| == |Concat(sent)|
  {
    hide Honest;
    var none: bytes := [];
    assert none + Concat(sent) == Concat(sent);
    WalkRecovers(none, sent, f);
  }

  /** What the caller gets: from five honest frames on exactly their fit, and nothing from fewer. */
  lemma HonestFit(sent: seq<bytes>, f: Field, fit: Option<Fit>)
    requires f.width >= 1 && forall frame :: frame in sent ==> Honest(frame, f)
    requires Answers(Concat(sent), f, fit)
    ensures fit.Some? <==> |sent| >= 5
    ensures fit.Some? ==>
              var r := fit.value;
              && r.frames == |sent| && r.consumed == |Concat(sent)| && r.resyncs == 0
              && r.distinctLengths == r.distinctDeclared == |Lengths(sent)|
              && (forall frame :: frame in sent ==> r.minFrame <= |frame| <= r.maxFrame)
              && (exists frame :: frame in sent && |frame| == r.minFrame)
              && (exists frame :: frame in sent && |frame| == r.maxFrame)
              && r.constantColumns == ConstantColumns(sent, f, if r.minFrame < 4 then r.minFrame else 4)
  {
    hide Honest, Walk, Concat, ConstantColumns, Lengths;
    StreamRecovered(sent, f);
    if fit.Some? {
      var r := fit.value;
      var i :| 0 <= i < |sent| && |sent[i]| == r.minFrame;
      var k :| 0 <= k < |sent| && |sent[k]| == r.maxFrame;
      assert sent[i] in sent && sent[k] in sent;
    }
  }

  // ---- the frame on the wire ------------------------------------------------------------------

  /** The field as a sender writes it into `width` bytes of its order. */
  function FieldBytes(n: nat, f: Field): (r: bytes)
    ensures |r| == f.width
  {
    if f.little then ToLittle(n, f.width) else ToBig(n, f.width)
  }

  ghost predicate Surrounds(frame: bytes, front: bytes, field: bytes, behind: bytes)
  {
    frame == front + field + behind
  }

  /** The field has `offset` bytes in front of it, and any bytes behind. */
  ghost predicate Carries(frame: bytes, offset: nat, field: bytes)
  {
    exists front, behind :: |front| == offset && Surrounds(frame, front, field, behind)
  }

  /**
   A frame as its sender writes it: `offset` bytes in front, the size that the field is to
   declare, and more bytes behind.
   */
  ghost predicate OnTheWire(frame: bytes, f: Field)
  {
    && f.extra <= |frame| && f.offset + f.width + 1 <= |frame| <= 4096
    && |frame| - f.extra < Pow2(8 * f.width)
    && Carries(frame, f.offset, FieldBytes(|frame| - f.extra, f))
  }

  /** n bytes from this position on are such a frame. */
  ghost predicate StandsAt(data: bytes, position: nat, n: nat, f: Field)
  {
    position + n <= |data| && OnTheWire(data[position..position + n], f)
  }

  lemma DeclaredIs(frame: bytes, f: Field, n: nat)
    requires f.offset + f.width <= |frame| && n < Pow2(8 * f.width)
    ensures Declared(frame, 0, f) == n <==> frame[f.offset..f.offset + f.width] == FieldBytes(n, f)
    ensures Declared(frame, 0, f) < Pow2(8 * f.width)
  {
    var field := frame[f.offset..f.offset + f.width];
    LittleRoundTrip(field, n);
    BigRoundTrip(field, n);
  }

  /** The walk's honest frames are the ones so written, and no others. */
  lemma {:induction false} HonestIffOnTheWire(frame: bytes, f: Field)
    ensures Honest(frame, f) <==> OnTheWire(frame, f)
  {
    hide Declared, Pow2;
    if f.Minimum() <= |frame| <= LONGEST && f.extra <= |frame| {
      var n := |frame| - f.extra;
      DeclaredIs(frame, f, 0);
      if n < Pow2(8 * f.width) {
        DeclaredIs(frame, f, n);
        FieldStands(frame, f, FieldBytes(n, f));
      }
    }
  }

  lemma FieldStands(frame: bytes, f: Field, field: bytes)
    requires f.offset + f.width <= |frame| && |field| == f.width
    ensures frame[f.offset..f.offset + f.width] == field <==> Carries(frame, f.offset, field)
  {
    if frame[f.offset..f.offset + f.width] == field {
      assert Surrounds(frame, frame[..f.offset], field, frame[f.offset + f.width..]);
    }
    if front, behind :| |front| == f.offset && Surrounds(frame, front, field, behind) {
      assert (front + field + behind)[f.offset..f.offset + f.width] == field;
    }
  }

  /** A frame can be read at a position exactly if one so written stands there. */
  lemma {:induction false} ReadableIffOnTheWire(data: bytes, position: nat, f: Field)
    ensures Readable(data, position, f) <==> exists n :: StandsAt(data, position, n, f)
  {
    hide Declared, OnTheWire;
    if Readable(data, position, f) {
      var n := Size(data, position, f);
      ReadableIsHonest(data, position, f);
      HonestIffOnTheWire(data[position..position + n], f);
      assert StandsAt(data, position, n, f);
    }
    if n :| StandsAt(data, position, n, f) {
      var frame := data[position..position + n];
      HonestIffOnTheWire(frame, f);
      HonestStands(data, position, n, f);
    }
  }

  lemma HonestStands(data: bytes, position: nat, n: nat, f: Field)
    requires position + n <= |data| && Honest(data[position..position + n], f)
    ensures Readable(data, position, f)
  {
    hide Declared, Readable;
    var front, frame, behind := data[..position], data[position..position + n], data[position + n..];
    assert data == front + (frame + behind);
    HonestIsRead(front, frame, behind, f);
  }

  lemma ReadableIsHonest(data: bytes, position: nat, f: Field)
    requires Readable(data, position, f)
    ensures Honest(data[position..position + Size(data, position, f)], f)
  {
    hide Declared;
    DeclaredWithin(data, position, Size(data, position, f), f);
  }

  /** Five or more frames so written, back to back: the answer is their fit and nothing was skipped. */
  lemma WireFit(sent: seq<bytes>, f: Field, fit: Option<Fit>)
    requires f.width >= 1 && forall frame :: frame in sent ==> OnTheWire(frame, f)
    requires Answers(Concat(sent), f, fit)
    ensures fit.Some? <==> |sent| >= 5
    ensures fit.Some? ==>
              var r := fit.value;
              && r.frames == |sent| && r.consumed == |Concat(sent)| && r.resyncs == 0
              && r.distinctLengths == r.distinctDeclared == |Lengths(sent)|
              && (forall frame :: frame in sent ==> r.minFrame <= |frame| <= r.maxFrame)
              && (exists frame :: frame in sent && |frame| == r.minFrame)
              && (exists frame :: frame in sent && |frame| == r.maxFrame)
              && r.constantColumns == ConstantColumns(sent, f, if r.minFrame < 4 then r.minFrame else 4)
  {
    hide Honest, OnTheWire, Answers, Concat, ConstantColumns, Lengths;
    forall frame | frame in sent ensures Honest(frame, f) { HonestIffOnTheWire(frame, f); }
    HonestFit(sent, f, fit);
  }

  /** A one-byte field reads the same in either order, so trying one order is enough. */
  lemma {:induction false} OneByteHasOneOrder(data: bytes, position: nat, f: Field)
    requires f.width == 1
    ensures Walk(data, position, f) == Walk(data, position, f.(little := !f.little))
    decreases |data| + 1 - position
  {
    hide Readable, Size, Turn;
    if position + f.offset + 1 <= |data| {
      SameTurn(data, position, f);
      OneByteHasOneOrder(data, position + Size(data, position, f), f);
    }
  }

  lemma SameTurn(data: bytes, position: nat, f: Field)
    requires f.width == 1 && position + f.offset + 1 <= |data|
    ensures var g := f.(little := !f.little);
            Turn(data, position, g) == Turn(data, position, f) && Size(data, position, g) == Size(data, position, f)
  {
    hide Turn;
    var g := f.(little := !f.little);
    OneByteValue(data[position + f.offset..position + f.offset + 1]);
    assert Declared(data, position, g) == Declared(data, position, f);
    assert Readable(data, position, g) == Readable(data, position, f);
    SameRead(data, position, f, g);
  }

  lemma SameRead(data: bytes, position: nat, f: Field, g: Field)
    requires f.offset == g.offset && f.width == g.width && f.extra == g.extra
    requires position + f.offset + f.width <= |data|
    requires Declared(data, position, g) == Declared(data, position, f)
    ensures Turn(data, position, g) == Turn(data, position, f)
  {
    hide Declared;
  }

  lemma OneByteValue(field: bytes)
    requires |field| == 1
    ensures FromBig(field) == FromLittle(field)
  {
    assert field[..0] == [] && field[1..] == [];
    assert FromBig(field[..0]) == 0 && FromLittle(field[1..]) == 0;
  }
}
