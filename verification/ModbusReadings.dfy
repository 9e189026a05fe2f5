/**
 Which frames `detect_modbus_rtu` can find, function code by function code: the lengths of
 fielddeck/analysis/framing.py written out as a table, and what the walk makes of frames
 that have one of them.
 */
module ModbusReadings {
  import opened Bytes
  import opened CrcEngine
  import opened CrcAlgebra
  import opened ModbusWalk

  /** The function codes a listener knows. */
  predicate Listed(code: nat)
  {
    (1 <= code <= 8) || code == 11 || code == 12 || (15 <= code <= 17) || (20 <= code <= 23) || code == 43
  }

  /** A frame that begins with these bytes may have n bytes in this role. */
  predicate Reading(d: bytes, n: nat, role: Role)
    requires |d| >= 4
  {
    var code: nat, count: nat := d[1], d[2];
    match role
    case ExceptionResponse => code >= 128 && Listed(code - 128) && n == 5
    case RequestOrResponse => (code in {5, 6, 8} && n == 8) || (code == 22 && n == 10)
    case Request =>
      || (code in {1, 2, 3, 4} && n == 8)
      || (code in {15, 16} && |d| > 6 && n == 9 + At(d, 6))
      || (code in {7, 11, 12, 17} && n == 4)
      || (code == 23 && |d| > 10 && n == 13 + At(d, 10))
    case Response =>
      || (code in {1, 2, 3, 4, 7, 11, 12, 17, 20, 21, 23, 43} && n == 5 + count)
      || (code in {15, 16} && n == 8)
  }

  /** A reading is tried if it is there in full and not over 256 bytes; the short exception always is. */
  predicate Tried(d: bytes, n: nat, role: Role)
  {
    |d| >= 4 && Reading(d, n, role) && (role == ExceptionResponse || n <= |d|) && n <= 256
  }

  /** The candidates are the readings of the table, all of them and no others. */
  lemma CandidatesAreReadings(data: bytes, offset: nat, c: Candidate)
    requires offset <= |data|
    ensures c in Candidates(data, offset) <==> Tried(data[offset..], c.length, c.role)
  {
    if offset + 4 <= |data| {
      var d := data[offset..];
      assert d[1] == data[offset + 1] && d[2] == data[offset + 2];
      assert |d| > 6 ==> d[6] == data[offset + 6];
      assert |d| > 10 ==> d[10] == data[offset + 10];
    }
  }

  /** The first n bytes of d end in the little-endian CRC of the bytes before. */
  ghost predicate Checks(d: bytes, n: nat)
  {
    n <= |d| && MODBUS.Valid() && Crc(MODBUS, d[..n]) == 0
  }

  lemma ValidatesIsChecks(data: bytes, offset: nat, c: Candidate)
    requires offset + c.length <= |data| && c.length >= 2
    ensures Validates(data, offset, c) <==> Checks(data[offset..], c.length)
  {
    hide Crc;
    assert Slice(data, offset, c.length) == data[offset..][..c.length];
    ModbusTrailer(data[offset..][..c.length]);
  }

  lemma TriedLengths(d: bytes, n: nat, role: Role)
    requires Tried(d, n, role)
    ensures 4 <= n <= 256 && (n <= |d| || (n == 5 && |d| == 4))
  {}

  /** The frame has a length of its function code, its CRC is right, and no shorter length has a right one. */
  ghost predicate Plain(f: bytes)
  {
    && (exists role :: Tried(f, |f|, role)) && Checks(f, |f|)
    && forall n: nat, role :: n < |f| && Tried(f, n, role) ==> !Checks(f, n)
  }

  /** These are the frames the walk takes whole, whatever stands around them. */
  lemma {:induction false} WholeIffPlain(f: bytes)
    ensures Whole(f) <==> Plain(f)
  {
    hide Candidates, Match, Validates, Tried, Checks;
    assert f[0..] == f;
    if Whole(f) {
      var c := Match(f, 0).value;
      MatchLength(f, 0);
      CandidatesAreReadings(f, 0, c);
      ValidatesIsChecks(f, 0, c);
      forall n: nat, role | n < |f| && Tried(f, n, role) ensures !Checks(f, n) {
        Beaten(f, Candidate(n, role));
      }
    }
    if Plain(f) {
      var role :| Tried(f, |f|, role);
      var c := Candidate(|f|, role);
      TriedLengths(f, |f|, role);
      CandidatesAreReadings(f, 0, c);
      ValidatesIsChecks(f, 0, c);
      MatchIsShortest(f, 0, c);
      var d := Match(f, 0).value;
      MatchLength(f, 0);
      CandidatesAreReadings(f, 0, d);
      if d.length < |f| { ValidatesIsChecks(f, 0, d); }
    }
  }

  /** Behind a match of the whole frame, no shorter reading validates. */
  lemma Beaten(f: bytes, c: Candidate)
    requires Whole(f) && c.length < |f| && Tried(f, c.length, c.role)
    ensures !Checks(f, c.length)
  {
    hide Candidates, Match, Validates, Tried, Checks;
    assert f[0..] == f;
    TriedLengths(f, c.length, c.role);
    CandidatesAreReadings(f, 0, c);
    ValidatesIsChecks(f, 0, c);
    if Checks(f, c.length) { MatchIsShortest(f, 0, c); }
  }

  /** A capture of such frames within the scan limit comes back exactly. */
  lemma PlainCaptureRecovered(sent: seq<bytes>, scanLimit: nat)
    requires (forall f :: f in sent ==> Plain(f)) && |Concat(sent)| <= scanLimit
    ensures var r := Walk(Window(Concat(sent), scanLimit), 0, false);
            && Recovers(r.frames, sent, 0) && r.resync == 0 && r.failed == 0
            && Explained(r.frames) == |Concat(sent)|
  {
    hide Whole, Plain, Walk, Recovers, Window;
    forall f | f in sent ensures Whole(f) { WholeIffPlain(f); }
    BackToBackRecovered(sent, scanLimit);
  }

  /** Every frame of any capture is such a frame where it stands, but for the short exception at the end. */
  lemma FramesArePlain(data: bytes, f: Frame)
    requires f in Walk(data, 0, false).frames
    ensures f.offset <= |data| && Tried(data[f.offset..], f.length, f.role)
    ensures f.offset + f.length <= |data| ==> Plain(data[f.offset..f.offset + f.length])
  {
    hide Walk, Tried, Checks, Candidates, Whole, Crc;
    FramesAreGenuine(data, 0, false);
    assert Genuine(data, f);
    CandidatesAreReadings(data, f.offset, Candidate(f.length, f.role));
    if f.offset + f.length <= |data| { GenuineIsPlain(data, f); }
  }

  lemma GenuineIsPlain(data: bytes, f: Frame)
    requires Genuine(data, f) && f.offset + f.length <= |data|
    ensures Plain(data[f.offset..f.offset + f.length])
  {
    hide Tried, Candidates, Validates, Crc;
    var d, whole := data[f.offset..], data[f.offset..f.offset + f.length];
    assert whole == f.content && whole[..|whole|] == whole;
    CandidatesAreReadings(data, f.offset, Candidate(f.length, f.role));
    assert whole == d[..f.length];
    TriedWithin(d, f.length, f.length, f.role);
    forall n: nat, role | n < f.length && Tried(whole, n, role) ensures !Checks(whole, n) {
      var c := Candidate(n, role);
      TriedLengths(whole, n, role);
      TriedWithin(d, f.length, n, role);
      CandidatesAreReadings(data, f.offset, c);
      ValidatesIsChecks(data, f.offset, c);
      assert d[..n] == whole[..n];
    }
  }

  /** Cutting the data off behind a reading does not change it. */
  lemma TriedWithin(d: bytes, m: nat, n: nat, role: Role)
    requires 4 <= m <= |d| && n <= m
    ensures Tried(d[..m], n, role) <==> Tried(d, n, role)
  {}

  /** Of two readings of one length that validate, the request is the one reported. */
  lemma {:induction false} RequestWinsTies(data: bytes, offset: nat, n: nat)
    requires offset + n <= |data|
    requires Tried(data[offset..], n, Request) && Tried(data[offset..], n, Response)
    requires Match(data, offset).Some? && Match(data, offset).value.length == n
    ensures Match(data, offset).value.role == Request
  {
    hide Validates, Candidates;
    var p, q := Candidate(n, Request), Candidate(n, Response);
    CandidatesAreReadings(data, offset, p);
    CandidatesAreReadings(data, offset, q);
    var cs := Ordered(Candidates(data, offset));
    RejectedMeans(data, offset, cs);
    assert p in cs && q in cs && |cs| <= 2;
    assert cs == [p, q] || cs == [q, p];
    assert Before(p, q);
    ValidatesByLength(data, offset, p, q);
  }

  lemma ValidatesByLength(data: bytes, offset: nat, p: Candidate, q: Candidate)
    requires offset <= |data| && p.length == q.length
    ensures Validates(data, offset, p) == Validates(data, offset, q)
  {}

  /** Where a byte was skipped, no length of the table is there in full with a right CRC. */
  lemma SkippedMeansNoChecks(data: bytes, o: nat, n: nat, role: Role)
    requires o + n <= |data| && !Inside(Walk(data, 0, false).frames, o)
    requires Tried(data[o..], n, role)
    ensures !Checks(data[o..], n)
  {
    hide Walk, Tried, Checks, Candidates, Validates, Inside;
    var c := Candidate(n, role);
    TriedLengths(data[o..], n, role);
    CandidatesAreReadings(data, o, c);
    SkippedMeansNoReading(data, 0, false, o, c);
    ValidatesIsChecks(data, o, c);
  }
}
