/** `detect_modbus_rtu` of fielddeck/analysis/framing.py: a greedy walk that lets the CRC decide. */
module ModbusWalk {
  import opened Bytes
  import opened Words
  import opened CrcEngine
  import opened CrcAlgebra

  const MAX_FRAME: nat := 256
  const FUNCTIONS: set<nat> := {1, 2, 3, 4, 5, 6, 7, 8, 11, 12, 15, 16, 17, 20, 21, 22, 23, 43}

  datatype Role = Request | RequestOrResponse | Response | ExceptionResponse

  datatype Candidate = Candidate(length: nat, role: Role)

  /** The order of the source's (length, role) pairs, roles compared as text. */
  predicate Before(a: Candidate, b: Candidate)
  {
    a.length < b.length || (a.length == b.length && Rank(a.role) < Rank(b.role))
  }

  function Rank(r: Role): nat
  {
    match r
    case ExceptionResponse => 0
    case Request => 1
    case RequestOrResponse => 2
    case Response => 3
  }

  function Fitting(c: Candidate, room: nat): seq<Candidate>
  {
    if 4 <= c.length <= room && c.length <= MAX_FRAME then [c] else []
  }

  function At(data: bytes, i: nat): nat
    requires i < |data|
  {
    data[i]
  }

  /** `_modbus_candidate_lengths`: at most two readings, filtered by what remains, but for exceptions. */
  function Candidates(data: bytes, offset: nat): (r: seq<Candidate>)
    requires offset <= |data|
    ensures |r| <= 2
  {
    var room := |data| - offset;
    if room < 4 then [] else
      var f: nat, count: nat := data[offset + 1], data[offset + 2];
      if f >= 128 then
        if f - 128 in FUNCTIONS then [Candidate(5, ExceptionResponse)] else []
      else if f !in FUNCTIONS then []
      else if f <= 4 then
        Fitting(Candidate(8, Request), room) + Fitting(Candidate(5 + count, Response), room)
      else if f == 5 || f == 6 || f == 8 then
        Fitting(Candidate(8, RequestOrResponse), room)
      else if f == 15 || f == 16 then
        Fitting(Candidate(8, Response), room)
        + (if room > 6 then Fitting(Candidate(9 + At(data, offset + 6), Request), room) else [])
      else if f == 7 || f == 11 || f == 12 || f == 17 then
        Fitting(Candidate(4, Request), room) + Fitting(Candidate(5 + count, Response), room)
      else if f == 22 then
        Fitting(Candidate(10, RequestOrResponse), room)
      else if f == 23 then
        Fitting(Candidate(5 + count, Response), room)
        + Fitting(Candidate(13 + (if room > 10 then At(data, offset + 10) else 0), Request), room)
      else
        Fitting(Candidate(5 + count, Response), room)
  }

  /** `sorted` on at most two candidates. */
  function Ordered(cs: seq<Candidate>): (r: seq<Candidate>)
    requires |cs| <= 2
    ensures |r| == |cs| && multiset(r) == multiset(cs)
    ensures forall i, j :: 0 <= i < j < |r| ==> !Before(r[j], r[i])
    ensures forall c :: c in r <==> c in cs
  {
    if |cs| == 2 && Before(cs[1], cs[0]) then
      assert cs == [cs[0], cs[1]];
      [cs[1], cs[0]]
    else cs
  }

  /** Python's slice: it stops at the end of the data. */
  function Slice(data: bytes, offset: nat, length: nat): (r: bytes)
    requires offset <= |data|
    ensures |r| == if offset + length <= |data| then length else |data| - offset
  {
    if offset + length <= |data| then data[offset..offset + length] else data[offset..]
  }

  /** The last two bytes are the little-endian CRC of the rest. */
  predicate TrailerOk(frame: bytes)
  {
    |frame| >= 2 && frame[|frame| - 2..] == ToLittle(ModbusCrc(frame[..|frame| - 2]), 2)
  }

  function ModbusCrc(data: bytes): nat
  {
    ModbusValid();
    Crc(MODBUS, data)
  }

  predicate Validates(data: bytes, offset: nat, c: Candidate)
    requires offset <= |data|
  {
    TrailerOk(Slice(data, offset, c.length))
  }

  /** How many of these candidates are tried without success before one validates, or all of them. */
  function Rejected(data: bytes, offset: nat, cs: seq<Candidate>): (n: nat)
    requires offset <= |data|
    ensures n <= |cs|
  {
    if cs == [] || Validates(data, offset, cs[0]) then 0 else 1 + Rejected(data, offset, cs[1..])
  }

  lemma {:induction false} RejectedMeans(data: bytes, offset: nat, cs: seq<Candidate>)
    requires offset <= |data|
    ensures forall i :: 0 <= i < Rejected(data, offset, cs) ==> !Validates(data, offset, cs[i])
    ensures Rejected(data, offset, cs) < |cs| ==> Validates(data, offset, cs[Rejected(data, offset, cs)])
  {
    hide Validates;
    if cs != [] && !Validates(data, offset, cs[0]) {
      RejectedMeans(data, offset, cs[1..]);
      assert forall i :: 0 < i < |cs| ==> cs[i] == cs[1..][i - 1];
    }
  }

  /** The shortest reading at this offset that the CRC accepts. */
  function Match(data: bytes, offset: nat): (r: Option<Candidate>)
    requires offset <= |data|
  {
    var cs := Ordered(Candidates(data, offset));
    var n := Rejected(data, offset, cs);
    if n < |cs| then Some(cs[n]) else None
  }

  function Rejections(data: bytes, offset: nat): nat
    requires offset <= |data|
  {
    Rejected(data, offset, Ordered(Candidates(data, offset)))
  }

  datatype Frame = Frame(offset: nat, length: nat, role: Role, content: bytes)

  datatype Report = Report(frames: seq<Frame>, resync: nat, rejections: nat, failed: nat)

  const NOTHING := Report([], 0, 0, 0)

  function Join(a: Report, b: Report): Report
  {
    Report(a.frames + b.frames, a.resync + b.resync, a.rejections + b.rejections, a.failed + b.failed)
  }

  /** What one turn of the loop at this offset adds. */
  function Turn(data: bytes, offset: nat, inSync: bool): Report
    requires offset <= |data|
  {
    match Match(data, offset)
    case None =>
      Report([], 1, Rejections(data, offset), if inSync && Candidates(data, offset) != [] then 1 else 0)
    case Some(c) =>
      Report([Frame(offset, c.length, c.role, Slice(data, offset, c.length))], 0, Rejections(data, offset), 0)
  }

  function Advance(data: bytes, offset: nat): (n: nat)
    requires offset + 4 <= |data|
    ensures n > 0
  {
    match Match(data, offset)
    case None => 1
    case Some(c) => MatchLength(data, offset); c.length
  }

  /** The whole walk from this offset on. */
  function Walk(data: bytes, offset: nat, inSync: bool): Report
    decreases |data| + 5 - offset
  {
    if offset + 4 > |data| then NOTHING
    else Join(Turn(data, offset, inSync),
              Walk(data, offset + Advance(data, offset), Match(data, offset).Some?))
  }

  /** Where the walk leaves off. */
  function End(data: bytes, offset: nat): nat
    decreases |data| + 5 - offset
  {
    if offset + 4 > |data| then offset else End(data, offset + Advance(data, offset))
  }

  function Window(data: bytes, scanLimit: nat): bytes
  {
    if scanLimit < |data| then data[..scanLimit] else data
  }

  // ---- candidates ---------------------------------------------------------------------------

  /** What remains of a reading: it fits, except for the five-byte exception with four bytes left. */
  lemma CandidateFits(data: bytes, offset: nat, c: Candidate)
    requires offset <= |data| && c in Candidates(data, offset)
    ensures offset + 4 <= |data| && 4 <= c.length <= MAX_FRAME
    ensures offset + c.length <= |data| ||
            (offset + 4 == |data| && c == Candidate(5, ExceptionResponse) && data[offset + 1] >= 128)
  {}

  lemma MatchLength(data: bytes, offset: nat)
    requires offset <= |data| && Match(data, offset).Some?
    ensures var c := Match(data, offset).value;
            && c in Candidates(data, offset) && Validates(data, offset, c)
            && 4 <= c.length <= MAX_FRAME && offset + 4 <= |data|
            && (offset + c.length <= |data| || (offset + 4 == |data| && c == Candidate(5, ExceptionResponse)))
  {
    hide Candidates, Validates;
    var cs := Ordered(Candidates(data, offset));
    RejectedMeans(data, offset, cs);
    assert cs[Rejected(data, offset, cs)] in cs;
    CandidateFits(data, offset, Match(data, offset).value);
  }

  /** A reading is the shortest that validates; with no reading, none validates. */
  lemma {:induction false} MatchIsShortest(data: bytes, offset: nat, c: Candidate)
    requires offset <= |data| && c in Candidates(data, offset) && Validates(data, offset, c)
    ensures Match(data, offset).Some? && Match(data, offset).value.length <= c.length
  {
    hide Candidates, Validates;
    var cs := Ordered(Candidates(data, offset));
    var n := Rejected(data, offset, cs);
    RejectedMeans(data, offset, cs);
    var i :| 0 <= i < |cs| && cs[i] == c;
    assert i >= n;
    assert i > n ==> !Before(cs[i], cs[n]);
  }

  // ---- the walk as the source runs it ---------------------------------------------------------

  method Detect(data: bytes, scanLimit: nat) returns (scanned: nat, explained: nat, r: Report)
    ensures r == Walk(Window(data, scanLimit), 0, false)
    ensures scanned == (if |data| < scanLimit then |data| else scanLimit) && Window(data, scanLimit) == data[..scanned]
    ensures explained == Explained(r.frames)
    ensures EndsInShortException(Window(data, scanLimit)) ==> explained + r.resync == scanned + 1
    ensures !EndsInShortException(Window(data, scanLimit)) ==>
              explained + r.resync <= scanned <= explained + r.resync + 3
    ensures forall f :: f in r.frames ==> Genuine(Window(data, scanLimit), f)
    ensures InOrder(r.frames, 0) && r.failed <= |r.frames|
  {
    hide Candidates, Match, TrailerOk, Rejections, Join, Walk, Turn, Ordered, Rejected, Slice, Genuine,
         InOrder, EndsInShortException;
    var window := Window(data, scanLimit);
    scanned := |window|;
    r := NOTHING;
    var inSync := false;
    var offset := 0;
    JoinNothing(Walk(window, 0, false));
    while offset + 4 <= |window|
      invariant Join(r, Walk(window, offset, inSync)) == Walk(window, 0, false)
      decreases |window| + 5 - offset
    {
      var candidates := Ordered(Candidates(window, offset));
      SlicesLong(window, offset);
      var matched, rejections := Arbitrate(window, offset, candidates);
      TurnIs(window, offset, inSync, candidates, matched, rejections);
      WalkStep(window, offset, inSync, r);
      if matched.None? {
        r := Join(r, Report([], 1, rejections, if inSync && candidates != [] then 1 else 0));
        inSync := false;
        offset := offset + 1;
      } else {
        var c := matched.value;
        var frame := Frame(offset, c.length, c.role, Slice(window, offset, c.length));
        r := Join(r, Report([frame], 0, rejections, 0));
        inSync := true;
        offset := offset + c.length;
      }
    }
    WalkOver(window, offset, inSync);
    JoinNothing(r);
    explained := TotalLength(r.frames);
    BytesConserved(window);
    FramesAreGenuine(window, 0, false);
    FailedAtMostFrames(window, 0, false);
  }

  method TotalLength(frames: seq<Frame>) returns (total: nat)
    ensures total == Explained(frames)
  {
    total := 0;
    for i := 0 to |frames|
      invariant total == Explained(frames[..i])
    {
      assert frames[..i + 1] == frames[..i] + [frames[i]];
      ExplainedSnoc(frames[..i], frames[i]);
      total := total + frames[i].length;
    }
    assert frames[..|frames|] == frames;
  }

  lemma WalkStep(data: bytes, offset: nat, inSync: bool, r: Report)
    requires offset + 4 <= |data|
    ensures Join(r, Walk(data, offset, inSync)) ==
            Join(Join(r, Turn(data, offset, inSync)),
                 Walk(data, offset + Advance(data, offset), Match(data, offset).Some?))
  {
    hide Match, Turn;
    JoinAssociates(r, Turn(data, offset, inSync),
                   Walk(data, offset + Advance(data, offset), Match(data, offset).Some?));
  }

  lemma WalkOver(data: bytes, offset: nat, inSync: bool)
    requires offset + 4 > |data|
    ensures Walk(data, offset, inSync) == NOTHING
  {}

  lemma SlicesLong(data: bytes, offset: nat)
    requires offset + 4 <= |data|
    ensures forall c :: c in Ordered(Candidates(data, offset)) ==> |Slice(data, offset, c.length)| >= 2
  {
    hide Candidates;
    forall c | c in Ordered(Candidates(data, offset)) ensures |Slice(data, offset, c.length)| >= 2 {
      CandidateFits(data, offset, c);
    }
  }

  /** The inner loop: candidates in order, the CRC of each computed by the table loop. */
  method Arbitrate(data: bytes, offset: nat, cs: seq<Candidate>)
    returns (matched: Option<Candidate>, rejections: nat)
    requires offset <= |data| && forall c :: c in cs ==> |Slice(data, offset, c.length)| >= 2
    ensures rejections == Rejected(data, offset, cs)
    ensures matched == if rejections < |cs| then Some(cs[rejections]) else None
  {
    hide Crc;
    ModbusValid();
    matched, rejections := None, 0;
    for i := 0 to |cs|
      invariant rejections == i
      invariant Rejected(data, offset, cs) == i + Rejected(data, offset, cs[i..])
    {
      assert cs[i] in cs;
      var frame := Slice(data, offset, cs[i].length);
      var crc := Compute(MODBUS, frame[..|frame| - 2]);
      if frame[|frame| - 2..] == ToLittle(crc, 2) {
        matched := Some(cs[i]);
        return;
      }
      assert cs[i..][0] == cs[i] && cs[i..][1..] == cs[i + 1..];
      rejections := rejections + 1;
    }
  }

  lemma TurnIs(data: bytes, offset: nat, inSync: bool, cs: seq<Candidate>, matched: Option<Candidate>, rejections: nat)
    requires offset <= |data| && cs == Ordered(Candidates(data, offset))
    requires rejections == Rejected(data, offset, cs)
    requires matched == if rejections < |cs| then Some(cs[rejections]) else None
    ensures matched == Match(data, offset) && rejections == Rejections(data, offset)
    ensures Turn(data, offset, inSync) ==
            match matched
            case None => Report([], 1, rejections, if inSync && cs != [] then 1 else 0)
            case Some(c) => Report([Frame(offset, c.length, c.role, Slice(data, offset, c.length))], 0, rejections, 0)
  {
    hide Candidates, TrailerOk;
  }

  function Explained(frames: seq<Frame>): nat
  {
    if frames == [] then 0 else frames[0].length + Explained(frames[1..])
  }

  lemma {:induction false} ExplainedAppend(a: seq<Frame>, b: seq<Frame>)
    ensures Explained(a + b) == Explained(a) + Explained(b)
  {
    if a == [] {
      assert a + b == b;
    } else {
      ExplainedAppend(a[1..], b);
      assert (a + b)[0] == a[0] && (a + b)[1..] == a[1..] + b;
    }
  }

  lemma ExplainedSnoc(frames: seq<Frame>, f: Frame)
    ensures Explained(frames + [f]) == Explained(frames) + f.length
  {
    ExplainedAppend(frames, [f]);
  }

  lemma JoinNothing(r: Report)
    ensures Join(NOTHING, r) == r && Join(r, NOTHING) == r
  {
    assert r.frames + [] == r.frames;
  }

  lemma JoinAssociates(a: Report, b: Report, c: Report)
    ensures Join(a, Join(b, c)) == Join(Join(a, b), c)
  {
    Associate(a.frames, b.frames, c.frames);
  }

  // ---- no byte is lost, but for one reading ---------------------------------------------------

  ghost predicate Visits(data: bytes, offset: nat, target: nat)
    decreases |data| + 5 - offset
  {
    offset == target || (offset + 4 <= |data| && Visits(data, offset + Advance(data, offset), target))
  }

  /** The last four bytes read as an exception response that is one byte short. */
  predicate ShortException(data: bytes)
  {
    |data| >= 4 && data[|data| - 3] >= 128 && At(data, |data| - 3) - 128 in FUNCTIONS
    && TrailerOk(data[|data| - 4..])
  }

  /** The walk comes to the last four bytes, and they are such an exception. */
  ghost predicate EndsInShortException(data: bytes)
  {
    |data| >= 4 && Visits(data, 0, |data| - 4) && ShortException(data)
  }

  lemma ShortExceptionMatches(data: bytes)
    requires |data| >= 4
    ensures ShortException(data) <==>
            Match(data, |data| - 4).Some? && Match(data, |data| - 4).value.length == 5
  {
    hide TrailerOk;
    var offset := |data| - 4;
    var cs := Candidates(data, offset);
    if data[offset + 1] >= 128 {
      assert Slice(data, offset, 5) == data[offset..];
    } else {
      if Match(data, offset).Some? {
        MatchLength(data, offset);
        LowFunctionFits(data, offset, Match(data, offset).value);
      }
    }
  }

  lemma LowFunctionFits(data: bytes, offset: nat, c: Candidate)
    requires offset <= |data| && c in Candidates(data, offset) && data[offset + 1] < 128
    ensures offset + c.length <= |data|
  {}

  lemma {:induction false} WalkAccounts(data: bytes, offset: nat, inSync: bool)
    ensures var r := Walk(data, offset, inSync);
            Explained(r.frames) + r.resync == End(data, offset) - offset
    decreases |data| + 5 - offset
  {
    hide Match, Candidates, Rejections;
    if offset + 4 <= |data| {
      var turn := Turn(data, offset, inSync);
      var next := offset + Advance(data, offset);
      var rest := Walk(data, next, Match(data, offset).Some?);
      WalkAccounts(data, next, Match(data, offset).Some?);
      ExplainedAppend(turn.frames, rest.frames);
      assert Explained(turn.frames) + turn.resync == Advance(data, offset) by {
        assert turn.frames == [] || turn.frames[1..] == [];
      }
    }
  }

  lemma {:induction false} EndReached(data: bytes, offset: nat)
    requires offset <= |data|
    ensures offset <= End(data, offset) <= |data| + 1
    ensures End(data, offset) + 4 > |data|
    ensures End(data, offset) == |data| + 1
            <==> |data| >= 4 && Visits(data, offset, |data| - 4) && ShortException(data)
    decreases |data| - offset
  {
    hide Match, Candidates, TrailerOk, ShortException;
    if offset + 4 <= |data| {
      ShortExceptionMatches(data);
      var next := offset + Advance(data, offset);
      assert next <= |data| || (offset + 4 == |data| && next == |data| + 1) by {
        if Match(data, offset).Some? { MatchLength(data, offset); }
      }
      if next <= |data| {
        EndReached(data, next);
      }
      if offset + 4 == |data| {
        EndOver(data, next);
      }
    }
  }

  lemma EndOver(data: bytes, offset: nat)
    requires offset + 4 > |data|
    ensures End(data, offset) == offset
    ensures |data| >= 4 ==> !Visits(data, offset, |data| - 4)
  {}

  /**
   Every scanned byte is explained, skipped or in a tail of at most three, unless the walk
   comes to the last four bytes and these are a short exception: then one byte too many is
   explained.
   */
  lemma {:induction false} BytesConserved(data: bytes)
    ensures var r := Walk(data, 0, false);
            var used := Explained(r.frames) + r.resync;
            && (EndsInShortException(data) ==> used == |data| + 1)
            && (!EndsInShortException(data) ==> used <= |data| <= used + 3)
  {
    hide Walk, ShortException, Visits;
    WalkAccounts(data, 0, false);
    EndReached(data, 0);
  }

  /** The failing family: address, exception code, and the CRC of just these two. */
  lemma {:induction false} ShortExceptionOverReads(address: byte, base: nat)
    requires base in FUNCTIONS
    ensures var code: byte := base + 128;
            var head: bytes := [address, code];
            var data := head + ToLittle(ModbusCrc(head), 2);
            var r := Walk(data, 0, false);
            && r == Report([Frame(0, 5, ExceptionResponse, data)], 0, 0, 0)
            && |data| == 4 && Explained(r.frames) == 5
  {
    hide ModbusCrc;
    var code: byte := base + 128;
    var head: bytes := [address, code];
    var data := head + ToLittle(ModbusCrc(head), 2);
    assert data[..2] == head && data[2..] == ToLittle(ModbusCrc(head), 2);
    assert data[1] == code && data[0..] == data;
    assert Candidates(data, 0) == [Candidate(5, ExceptionResponse)];
    assert Slice(data, 0, 5) == data && TrailerOk(data);
    assert Match(data, 0) == Some(Candidate(5, ExceptionResponse));
    WalkOver(data, 5, true);
    JoinNothing(Turn(data, 0, false));
  }

  // ---- what the frames are ----------------------------------------------------------------------

  /** A frame is the shortest reading at its offset, and passes the CRC as a whole. */
  ghost predicate Genuine(data: bytes, f: Frame)
  {
    && f.offset + 4 <= |data| && 4 <= f.length <= MAX_FRAME
    && f.content == Slice(data, f.offset, f.length) && |f.content| >= 4
    && MODBUS.Valid() && Crc(MODBUS, f.content) == 0
    && Candidate(f.length, f.role) in Candidates(data, f.offset)
    && (forall c :: c in Candidates(data, f.offset) && Validates(data, f.offset, c) ==> f.length <= c.length)
  }

  /** In order, apart, at or after `from`. */
  ghost predicate InOrder(frames: seq<Frame>, from: nat)
  {
    && (forall i :: 0 <= i < |frames| ==> from <= frames[i].offset)
    && (forall i, j :: 0 <= i < j < |frames| ==> frames[i].offset + frames[i].length <= frames[j].offset)
  }

  ghost predicate Inside(frames: seq<Frame>, o: nat)
  {
    exists i :: 0 <= i < |frames| && frames[i].offset <= o < frames[i].offset + frames[i].length
  }

  lemma MatchIsGenuine(data: bytes, offset: nat, f: Frame)
    requires offset <= |data| && Match(data, offset).Some?
    requires var c := Match(data, offset).value;
             f == Frame(offset, c.length, c.role, Slice(data, offset, c.length))
    ensures Genuine(data, f)
  {
    hide Candidates, Match, Crc, Rejections;
    var c := Match(data, offset).value;
    MatchLength(data, offset);
    ModbusValid();
    ModbusTrailer(f.content);
    forall x | x in Candidates(data, offset) && Validates(data, offset, x) ensures c.length <= x.length {
      MatchIsShortest(data, offset, x);
    }
  }

  lemma {:induction false} FramesAreGenuine(data: bytes, offset: nat, inSync: bool)
    ensures var r := Walk(data, offset, inSync);
            (forall f :: f in r.frames ==> Genuine(data, f)) && InOrder(r.frames, offset)
    decreases |data| + 5 - offset
  {
    hide Match, Candidates, Rejections, Genuine;
    if offset + 4 <= |data| {
      var next := offset + Advance(data, offset);
      FramesAreGenuine(data, next, Match(data, offset).Some?);
      if Match(data, offset).Some? {
        MatchIsGenuine(data, offset, Turn(data, offset, inSync).frames[0]);
      }
    }
  }

  lemma InsideAppend(a: seq<Frame>, b: seq<Frame>, o: nat)
    ensures Inside(a + b, o) <==> Inside(a, o) || Inside(b, o)
  {
    var all := a + b;
    if Inside(a, o) {
      var i :| 0 <= i < |a| && a[i].offset <= o < a[i].offset + a[i].length;
      assert all[i] == a[i];
    } else if Inside(b, o) {
      var i :| 0 <= i < |b| && b[i].offset <= o < b[i].offset + b[i].length;
      assert all[|a| + i] == b[i];
    }
  }

  /** Where the walk skipped a byte, no reading at all validates. */
  lemma {:induction false} SkippedMeansNoReading(data: bytes, offset: nat, inSync: bool, o: nat, c: Candidate)
    requires offset <= o && o + 4 <= |data| && !Inside(Walk(data, offset, inSync).frames, o)
    requires c in Candidates(data, o)
    ensures !Validates(data, o, c)
    decreases |data| + 5 - offset
  {
    hide Match, Candidates, Rejections, Validates;
    var next := offset + Advance(data, offset);
    var turn, rest := Turn(data, offset, inSync), Walk(data, next, Match(data, offset).Some?);
    InsideAppend(turn.frames, rest.frames, o);
    if Match(data, offset).Some? {
      assert turn.frames[0].offset == offset;
    } else if o == offset {
      if Validates(data, o, c) { MatchIsShortest(data, o, c); }
    }
    if o >= next {
      SkippedMeansNoReading(data, next, Match(data, offset).Some?, o, c);
    }
  }

  /** A frame counts as failed only right after one that did not. */
  lemma {:induction false} FailedAtMostFrames(data: bytes, offset: nat, inSync: bool)
    ensures var r := Walk(data, offset, inSync); r.failed <= |r.frames| + (if inSync then 1 else 0)
    decreases |data| + 5 - offset
  {
    hide Match, Candidates, Rejections;
    if offset + 4 <= |data| {
      FailedAtMostFrames(data, offset + Advance(data, offset), Match(data, offset).Some?);
    }
  }

  // ---- recovery -----------------------------------------------------------------------------------

  /** A frame whose own length is its shortest reading that the CRC accepts. */
  ghost predicate Whole(f: bytes)
  {
    Match(f, 0).Some? && Match(f, 0).value.length == |f|
  }

  /** The functions with one fixed length: any frame of that length with a right trailer is whole. */
  lemma FixedLengthIsWhole(f: bytes)
    requires |f| >= 2 && (if f[1] == 22 then |f| == 10 else f[1] in {5, 6, 8} && |f| == 8)
    requires TrailerOk(f)
    ensures Whole(f)
  {
    hide TrailerOk;
    var c := Candidate(|f|, RequestOrResponse);
    assert Candidates(f, 0) == [c] && Slice(f, 0, |f|) == f;
  }

  /** What precedes a frame does not change how it reads. */
  lemma CandidatesShift(prefix: bytes, data: bytes)
    ensures Candidates(prefix + data, |prefix|) == Candidates(data, 0)
  {
    assert forall i :: 0 <= i < |data| ==> (prefix + data)[|prefix| + i] == data[i];
  }

  lemma SliceShift(prefix: bytes, data: bytes, n: nat)
    ensures Slice(prefix + data, |prefix|, n) == Slice(data, 0, n)
  {}

  /** What follows a frame adds only longer readings. */
  lemma CandidatesGrow(f: bytes, rest: bytes, c: Candidate)
    requires c.length <= |f|
    ensures c in Candidates(f + rest, 0) <==> c in Candidates(f, 0)
  {
    assert forall i :: 0 <= i < |f| ==> (f + rest)[i] == f[i];
  }

  lemma ReadsAlike(prefix: bytes, f: bytes, rest: bytes, c: Candidate)
    requires c.length <= |f|
    ensures var data := prefix + (f + rest);
            && (c in Candidates(data, |prefix|) <==> c in Candidates(f, 0))
            && Validates(data, |prefix|, c) == Validates(f, 0, c)
  {
    hide Candidates, TrailerOk;
    CandidatesShift(prefix, f + rest);
    CandidatesGrow(f, rest, c);
    SliceShift(prefix, f + rest, c.length);
    assert Slice(f + rest, 0, c.length) == Slice(f, 0, c.length);
  }

  lemma {:induction false} WholeIsMatched(prefix: bytes, f: bytes, rest: bytes)
    requires Whole(f)
    ensures var data := prefix + (f + rest);
            Match(data, |prefix|).Some? && Match(data, |prefix|).value.length == |f|
            && Slice(data, |prefix|, |f|) == f
  {
    hide Candidates, Match, Validates;
    var data, c := prefix + (f + rest), Match(f, 0).value;
    MatchLength(f, 0);
    ReadsAlike(prefix, f, rest, c);
    MatchIsShortest(data, |prefix|, c);
    var d := Match(data, |prefix|).value;
    MatchLength(data, |prefix|);
    ReadsAlike(prefix, f, rest, d);
    MatchIsShortest(f, 0, d);
    SliceShift(prefix, f + rest, |f|);
  }

  ghost predicate Recovers(frames: seq<Frame>, sent: seq<bytes>, at: nat)
  {
    && |frames| == |sent|
    && (forall i :: 0 <= i < |sent| ==> frames[i].content == sent[i] && frames[i].length == |sent[i]|)
    && (sent != [] ==> frames[0].offset == at)
    && (forall i :: 0 < i < |sent| ==> frames[i].offset == frames[i - 1].offset + frames[i - 1].length)
  }

  lemma {:induction false} WalkRecovers(prefix: bytes, sent: seq<bytes>, inSync: bool)
    requires forall f :: f in sent ==> Whole(f)
    ensures var data := prefix + Concat(sent);
            var r := Walk(data, |prefix|, inSync);
            Recovers(r.frames, sent, |prefix|) && r.resync == 0 && r.failed == 0 && End(data, |prefix|) == |data|
    decreases |sent|
  {
    hide Candidates, Match, Rejections;
    var data := prefix + Concat(sent);
    if sent != [] {
      var f, rest := sent[0], Concat(sent[1..]);
      assert Whole(f);
      WholeIsMatched(prefix, f, rest);
      WholeLength(f);
      Associate(prefix, f, rest);
      WalkRecovers(prefix + f, sent[1..], true);
      var next := Walk(data, |prefix| + |f|, true);
      var all := Walk(data, |prefix|, inSync).frames;
      assert all[0] == Turn(data, |prefix|, inSync).frames[0] && all[1..] == next.frames;
      RecoversCons(all, sent, |prefix|);
    }
  }

  lemma WholeLength(f: bytes)
    requires Whole(f)
    ensures |f| >= 4
  {
    hide Candidates, Match;
    MatchLength(f, 0);
  }

  lemma RecoversCons(frames: seq<Frame>, sent: seq<bytes>, at: nat)
    requires frames != [] && sent != []
    requires frames[0].content == sent[0] && frames[0].length == |sent[0]| && frames[0].offset == at
    requires Recovers(frames[1..], sent[1..], at + |sent[0]|)
    ensures Recovers(frames, sent, at)
  {
    var fs, ss := frames[1..], sent[1..];
    assert forall i :: 0 < i < |frames| ==> frames[i] == fs[i - 1];
    assert forall i :: 0 < i < |sent| ==> sent[i] == ss[i - 1];
    forall i | 0 < i < |sent| ensures frames[i].offset == frames[i - 1].offset + frames[i - 1].length {
      if i > 1 { assert fs[i - 1].offset == fs[i - 2].offset + fs[i - 2].length; }
    }
  }

  /** A capture of back-to-back frames within the scan limit comes back exactly. */
  lemma BackToBackRecovered(sent: seq<bytes>, scanLimit: nat)
    requires forall f :: f in sent ==> Whole(f)
    requires |Concat(sent)| <= scanLimit
    ensures var window := Window(Concat(sent), scanLimit);
            var r := Walk(window, 0, false);
            && Recovers(r.frames, sent, 0) && r.resync == 0 && r.failed == 0
            && Explained(r.frames) == |window| == |Concat(sent)|
  {
    hide Walk, Whole, Recovers;
    var none: bytes := [];
    assert none + Concat(sent) == Concat(sent);
    WalkRecovers(none, sent, false);
    WalkAccounts(Concat(sent), 0, false);
  }
}
