/**
 The two Intel HEX readers: `_parse_intel_hex_native` of fielddeck/analysis/convert.py,
 which sorts and merges address spans, and `_parse_ihex` of fielddeck/debug/firmware.py,
 which keeps a running minimum and maximum. Both read a file line by line.
 */
module IntelHex {
  import opened Bytes
  import opened Words
  import opened Text

  // ---- lines --------------------------------------------------------------------------------

  datatype Fault = NotARecord(line: nat) | NotHex(line: nat) | TooShort(line: nat)

  /** What `bytes.fromhex` skips between bytes. */
  predicate IsAsciiSpace(c: char)
  {
    9 <= c as int <= 13 || c == ' '
  }

  /** `bytes.fromhex` */
  function FromHex(s: string): Option<bytes>
  {
    if s == [] then Some([])
    else if IsAsciiSpace(s[0]) then FromHex(s[1..])
    else if |s| < 2 || !IsDigit(s[0], 16) || !IsDigit(s[1], 16) then None
    else
      match FromHex(s[2..])
      case None => None
      case Some(rest) => Some(Pair(DigitValue(s[0]), DigitValue(s[1])) + rest)
  }

  function Pair(high: nat, low: nat): bytes
    requires high < 16 && low < 16
  {
    [16 * high + low]
  }

  /** A line read as a record, or nothing when it is blank. */
  function ReadLine(raw: string, number: nat): (r: Result<Option<bytes>, Fault>)
    ensures r.Ok? && r.value.Some? ==> |r.value.value| >= 5
  {
    var line := Strip(raw);
    if line == [] then Ok(None)
    else if line[0] != ':' then Err(NotARecord(number))
    else
      match FromHex(line[1..])
      case None => Err(NotHex(number))
      case Some(body) => if |body| < 5 then Err(TooShort(number)) else Ok(Some(body))
  }

  /** A record as programs write it: a colon and two upper-case digits a byte. */
  function Written(body: bytes): string
  {
    if body == [] then [] else [Digit(body[0] / 16), Digit(body[0] % 16)] + Written(body[1..])
  }

  /** Two digits put one byte in front. */
  lemma PairReads(b: byte, s: string, rest: bytes)
    requires FromHex(s) == Some(rest)
    ensures FromHex([Digit(b / 16), Digit(b % 16)] + s) == Some([b] + rest)
  {
    var all := [Digit(b / 16), Digit(b % 16)] + s;
    DigitReadsBack(b / 16);
    DigitReadsBack(b % 16);
    assert all[2..] == s;
  }

  lemma {:induction false} WrittenReads(body: bytes)
    ensures FromHex(Written(body)) == Some(body)
  {
    if body != [] {
      hide FromHex, Digit;
      WrittenReads(body[1..]);
      PairReads(body[0], Written(body[1..]), body[1..]);
      assert body == [body[0]] + body[1..];
    }
  }

  /** The last character of a written record is a digit. */
  lemma {:induction false} WrittenEnds(body: bytes)
    requires body != []
    ensures var s := Written(body); s != [] && !IsSpace(s[|s| - 1])
  {
    hide IsSpace, Digit;
    DigitReadsBack(body[0] % 16);
    if body[1..] != [] {
      WrittenEnds(body[1..]);
    }
  }

  lemma DigitReadsBack(d: nat)
    requires d < 16
    ensures DigitValue(Digit(d)) == d && !IsSpace(Digit(d)) && !IsAsciiSpace(Digit(d))
  {}

  /** Reading a line undoes writing it, whatever blank space stands around it. */
  lemma {:induction false} LineRoundTrip(before: string, body: bytes, behind: string, number: nat)
    requires |body| >= 5
    requires forall c :: c in before || c in behind ==> IsSpace(c)
    ensures ReadLine(before + (":" + Written(body)) + behind, number) == Ok(Some(body))
  {
    hide Written, FromHex, IsSpace;
    WrittenReads(body);
    WrittenEnds(body);
    var line := ":" + Written(body);
    ColonIsNoSpace();
    StripAround(before, line, behind);
    assert line[1..] == Written(body);
  }

  lemma ColonIsNoSpace()
    ensures !IsSpace(':')
  {}

  lemma {:induction false} StripAround(before: string, line: string, behind: string)
    requires line != [] && !IsSpace(line[0]) && !IsSpace(line[|line| - 1])
    requires forall c :: c in before || c in behind ==> IsSpace(c)
    ensures Strip(before + line + behind) == line
    decreases |before| + |behind|
  {
    hide IsSpace;
    if before != [] {
      assert before[0] in before;
      assert (before + line + behind)[1..] == before[1..] + line + behind;
      StripAround(before[1..], line, behind);
    } else {
      assert before + line + behind == line + behind;
      assert StripLeft(line + behind) == line + behind;
      StripBehind(line, behind);
    }
  }

  lemma {:induction false} StripBehind(line: string, behind: string)
    requires line != [] && !IsSpace(line[|line| - 1])
    requires forall c :: c in behind ==> IsSpace(c)
    ensures StripRight(line + behind) == line
  {
    hide IsSpace;
    if behind == [] {
      assert line + behind == line;
    } else {
      assert behind[|behind| - 1] in behind;
      assert (line + behind)[..|line + behind| - 1] == line + behind[..|behind| - 1];
      StripBehind(line, behind[..|behind| - 1]);
    }
  }

  type record = b: bytes | |b| >= 5 witness [0, 0, 0, 0, 0]

  /** The records of the lines, or the first fault. */
  function Records(lines: seq<string>): Result<seq<record>, Fault>
  {
    if lines == [] then Ok([]) else
      match Records(lines[..|lines| - 1])
      case Err(e) => Err(e)
      case Ok(records) =>
        match ReadLine(lines[|lines| - 1], |lines|)
        case Err(e) => Err(e)
        case Ok(None) => Ok(records)
        case Ok(Some(body)) => Ok(records + [body])
  }

  // ---- records ------------------------------------------------------------------------------

  datatype Span = Span(start: nat, end: nat)

  function Count(r: record): nat { r[0] }
  function Kind(r: record): nat { r[3] }
  function Address(r: record): nat { FromBig(r[1..3]) }

  function Payload(r: record): bytes
  {
    if 4 + Count(r) <= |r| then r[4..4 + Count(r)] else r[4..]
  }

  function Sum(data: bytes): nat
  {
    if data == [] then 0 else Sum(data[..|data| - 1]) + data[|data| - 1]
  }

  function Upper(records: seq<record>): nat
  {
    if records == [] then 0 else
      var last := records[|records| - 1];
      if Kind(last) == 2 then FromBig(Payload(last)) * 16
      else if Kind(last) == 4 then FromBig(Payload(last)) * 65536
      else Upper(records[..|records| - 1])
  }

  /** The address range each data record claims. */
  function Spans(records: seq<record>): seq<Span>
  {
    if records == [] then [] else
      var front, last := records[..|records| - 1], records[|records| - 1];
      Spans(front) + (if Kind(last) == 0 then [Claim(Upper(front), last)] else [])
  }

  function Claim(upper: nat, r: record): Span
  {
    Span(upper + Address(r), upper + Address(r) + Count(r))
  }

  function Total(spans: seq<Span>): int
  {
    if spans == [] then 0 else
      Total(spans[..|spans| - 1]) + spans[|spans| - 1].end - spans[|spans| - 1].start
  }

  function BadSums(records: seq<record>): nat
  {
    if records == [] then 0 else
      BadSums(records[..|records| - 1]) + (if Sum(records[|records| - 1]) % 256 != 0 then 1 else 0)
  }

  function Entry(records: seq<record>): Option<nat>
  {
    if records == [] then None else
      var last := records[|records| - 1];
      if Kind(last) == 3 || Kind(last) == 5 then Some(FromBig(Payload(last)))
      else Entry(records[..|records| - 1])
  }

  predicate SawEof(records: seq<record>)
  {
    exists r :: r in records && Kind(r) == 1
  }

  // ---- sorting and merging spans ------------------------------------------------------------

  predicate Le(a: Span, b: Span)
  {
    a.start < b.start || (a.start == b.start && a.end <= b.end)
  }

  ghost predicate IsSorted(spans: seq<Span>)
  {
    forall i, j :: 0 <= i < j < |spans| ==> Le(spans[i], spans[j])
  }

  ghost predicate Proper(spans: seq<Span>)
  {
    forall s :: s in spans ==> s.start <= s.end
  }

  function Insert(spans: seq<Span>, s: Span): (r: seq<Span>)
    ensures multiset(r) == multiset(spans) + multiset{s}
  {
    if spans == [] || Le(s, spans[0]) then [s] + spans
    else
      assert spans == [spans[0]] + spans[1..];
      [spans[0]] + Insert(spans[1..], s)
  }

  /** `sorted` on pairs. */
  function Sort(spans: seq<Span>): (r: seq<Span>)
    ensures multiset(r) == multiset(spans)
  {
    if spans == [] then [] else
      assert spans == spans[..|spans| - 1] + [spans[|spans| - 1]];
      Insert(Sort(spans[..|spans| - 1]), spans[|spans| - 1])
  }

  lemma {:induction false} InsertSorted(spans: seq<Span>, s: Span)
    requires IsSorted(spans)
    ensures IsSorted(Insert(spans, s))
  {
    if spans != [] && !Le(s, spans[0]) {
      InsertSorted(spans[1..], s);
      var rest := Insert(spans[1..], s);
      forall x | x in rest ensures Le(spans[0], x) {
        assert x in multiset(rest);
        assert x == s || x in multiset(spans[1..]);
      }
    }
  }

  lemma {:induction false} SortSorts(spans: seq<Span>)
    ensures IsSorted(Sort(spans))
  {
    if spans != [] {
      SortSorts(spans[..|spans| - 1]);
      InsertSorted(Sort(spans[..|spans| - 1]), spans[|spans| - 1]);
    }
  }

  lemma LeastFirst(a: seq<Span>, s: Span)
    requires IsSorted(a) && s in multiset(a)
    ensures a != [] && Le(a[0], s) && multiset(a[1..]) == multiset(a) - multiset{a[0]} && IsSorted(a[1..])
  {
    assert s in a;
    assert a == [a[0]] + a[1..];
  }

  /** A multiset has one sorted form. */
  lemma {:induction false} SortedUnique(a: seq<Span>, b: seq<Span>)
    requires IsSorted(a) && IsSorted(b) && multiset(a) == multiset(b)
    ensures a == b
  {
    assert |a| == |multiset(a)| && |b| == |multiset(b)|;
    if a != [] {
      assert a[0] in multiset(a) && b[0] in multiset(b);
      hide IsSorted;
      LeastFirst(a, b[0]);
      LeastFirst(b, a[0]);
      SortedUnique(a[1..], b[1..]);
      assert a == [a[0]] + a[1..] && b == [b[0]] + b[1..];
    }
  }

  function Absorb(merged: seq<Span>, s: Span): seq<Span>
  {
    if merged != [] && s.start <= merged[|merged| - 1].end then
      var last := merged[|merged| - 1];
      merged[..|merged| - 1] + [Span(last.start, if s.end > last.end then s.end else last.end)]
    else merged + [s]
  }

  function Merged(sorted: seq<Span>): seq<Span>
  {
    if sorted == [] then [] else Absorb(Merged(sorted[..|sorted| - 1]), sorted[|sorted| - 1])
  }

  lemma MergedSnoc(sorted: seq<Span>, i: nat)
    requires i < |sorted|
    ensures Merged(sorted[..i + 1]) == Absorb(Merged(sorted[..i]), sorted[i])
  {
    hide Absorb;
    assert sorted[..i + 1][..i] == sorted[..i];
  }

  lemma MergedNothing(sorted: seq<Span>)
    ensures Merged(sorted[..0]) == []
  {}

  /** `_merge_spans` */
  method MergeSpans(spans: seq<Span>) returns (merged: seq<Span>)
    ensures merged == Merged(Sort(spans))
    ensures Proper(spans) ==> Separated(merged) && forall a :: Covers(merged, a) <==> Covers(spans, a)
  {
    hide Merged, Sort, Separated, Covers;
    var sorted := Sort(spans);
    MergedNothing(sorted);
    merged := [];
    for i := 0 to |sorted|
      invariant merged == Merged(sorted[..i])
    {
      MergedSnoc(sorted, i);
      var s := sorted[i];
      if merged != [] && s.start <= merged[|merged| - 1].end {
        var previous := merged[|merged| - 1];
        var end := if s.end > previous.end then s.end else previous.end;
        merged := merged[..|merged| - 1] + [Span(previous.start, end)];
      } else {
        merged := merged + [s];
      }
    }
    assert sorted[..|sorted|] == sorted;
    if Proper(spans) { MergeIsSeparatedCover(spans); }
  }

  /** In order, and apart: an address at least lies between one segment and the next. */
  ghost predicate Separated(segments: seq<Span>)
  {
    && Proper(segments)
    && forall i, j :: 0 <= i < j < |segments| ==> segments[i].end < segments[j].start
  }

  ghost predicate Covers(spans: seq<Span>, a: int)
  {
    exists s :: s in spans && s.start <= a < s.end
  }

  lemma CoversSnoc(spans: seq<Span>, s: Span, a: int)
    ensures Covers(spans + [s], a) <==> Covers(spans, a) || s.start <= a < s.end
  {
    if Covers(spans, a) {
      var x :| x in spans && x.start <= a < x.end;
      assert x in spans + [s];
    }
    assert s in spans + [s];
  }

  /** What the merge of sorted spans keeps. */
  lemma {:induction false} MergedShape(sorted: seq<Span>)
    requires IsSorted(sorted) && Proper(sorted)
    ensures var m := Merged(sorted);
            && Separated(m) && (m == [] <==> sorted == [])
            && (sorted != [] ==> m[0].start == sorted[0].start && m[|m| - 1].start <= sorted[|sorted| - 1].start)
  {
    hide Absorb, Separated;
    if sorted == [] {
      NothingSeparated();
    } else {
      var front, s := sorted[..|sorted| - 1], sorted[|sorted| - 1];
      MergedShape(front);
      assert s in sorted;
      assert front != [] ==> Le(sorted[|sorted| - 2], s);
      AbsorbSeparates(Merged(front), s);
    }
  }

  lemma NothingSeparated()
    ensures Separated([])
  {}

  lemma AbsorbSeparates(m: seq<Span>, s: Span)
    requires Separated(m) && s.start <= s.end && (m != [] ==> m[|m| - 1].start <= s.start)
    ensures var a := Absorb(m, s);
            && Separated(a) && a != [] && a[0].start == (if m == [] then s.start else m[0].start)
            && a[|a| - 1].start <= s.start
  {
    if m != [] {
      assert m[|m| - 1] in m;
      assert forall i :: 0 <= i < |m| - 1 ==> m[i].end < m[|m| - 1].start;
    }
  }

  lemma AbsorbCovers(m: seq<Span>, s: Span, a: int)
    requires Proper(m) && s.start <= s.end && (m != [] ==> m[|m| - 1].start <= s.start)
    ensures Covers(Absorb(m, s), a) <==> Covers(m, a) || s.start <= a < s.end
  {
    hide Covers;
    CoversSnoc(m, s, a);
    if m != [] && s.start <= m[|m| - 1].end {
      var front, last := m[..|m| - 1], m[|m| - 1];
      assert last in m;
      LastSplit(m);
      CoversSnoc(front, last, a);
      CoversSnoc(front, Span(last.start, if s.end > last.end then s.end else last.end), a);
    }
  }

  lemma {:induction false} MergedCovers(sorted: seq<Span>, a: int)
    requires IsSorted(sorted) && Proper(sorted)
    ensures Covers(Merged(sorted), a) <==> Covers(sorted, a)
  {
    hide Covers, Absorb;
    if sorted != [] {
      var front, s := sorted[..|sorted| - 1], sorted[|sorted| - 1];
      LastSplit(sorted);
      MergedShape(front);
      MergedCovers(front, a);
      CoversSnoc(front, s, a);
      assert s in sorted;
      assert front != [] ==> Le(sorted[|sorted| - 2], s);
      AbsorbCovers(Merged(front), s, a);
    }
  }

  lemma ProperSort(spans: seq<Span>)
    requires Proper(spans)
    ensures Proper(Sort(spans))
  {
    forall s | s in Sort(spans) ensures s in spans {
      assert s in multiset(Sort(spans));
      assert s in multiset(spans);
    }
  }

  lemma SameMembers(a: seq<Span>, b: seq<Span>, x: int)
    requires multiset(a) == multiset(b)
    ensures Covers(a, x) <==> Covers(b, x)
  {
    forall s ensures s in a <==> s in b {
      assert s in a <==> s in multiset(a);
      assert s in b <==> s in multiset(b);
    }
  }

  /** The segments stand in order and apart, and cover exactly the addresses of the spans. */
  lemma {:induction false} MergeIsSeparatedCover(spans: seq<Span>)
    requires Proper(spans)
    ensures Separated(Merged(Sort(spans)))
    ensures forall a :: Covers(Merged(Sort(spans)), a) <==> Covers(spans, a)
  {
    SortSorts(spans);
    ProperSort(spans);
    MergedShape(Sort(spans));
    forall a ensures Covers(Merged(Sort(spans)), a) <==> Covers(spans, a) {
      MergedCovers(Sort(spans), a);
      SameMembers(Sort(spans), spans, a);
    }
  }

  /** The order of the spans does not matter. */
  lemma {:induction false} MergeIgnoresOrder(a: seq<Span>, b: seq<Span>)
    requires multiset(a) == multiset(b)
    ensures Merged(Sort(a)) == Merged(Sort(b))
  {
    SortSorts(a);
    SortSorts(b);
    SortedUnique(Sort(a), Sort(b));
  }

  lemma {:induction false} SeparatedIsMerged(segments: seq<Span>)
    requires Separated(segments)
    ensures Merged(segments) == segments
  {
    if segments != [] {
      LastSplit(segments);
      SeparatedIsMerged(segments[..|segments| - 1]);
    }
  }

  /** Merging segments again changes nothing. */
  lemma {:induction false} MergeIsIdempotent(spans: seq<Span>)
    requires Proper(spans)
    ensures Merged(Sort(Merged(Sort(spans)))) == Merged(Sort(spans))
  {
    var m := Merged(Sort(spans));
    MergeIsSeparatedCover(spans);
    assert IsSorted(m) by {
      forall i, j | 0 <= i < j < |m| ensures Le(m[i], m[j]) { assert m[i] in m; }
    }
    SortSorts(m);
    SortedUnique(Sort(m), m);
    SeparatedIsMerged(m);
  }

  /** Non-empty segments that are apart are told by the addresses they cover. */
  lemma {:induction false} CoverDetermines(a: seq<Span>, b: seq<Span>)
    requires Separated(a) && Separated(b)
    requires forall s :: s in a || s in b ==> s.start < s.end
    requires forall x: int :: Covers(a, x) <==> Covers(b, x)
    ensures a == b
  {
    hide Covers;
    if a == [] {
      if b != [] { SomethingCovered(b, a); }
    } else {
      SomethingCovered(a, b);
      FirstAgrees(a, b);
      forall x: int ensures Covers(a[1..], x) <==> Covers(b[1..], x) {
        CoversRest(a, x);
        CoversRest(b, x);
      }
      CoverDetermines(a[1..], b[1..]);
      assert a == [a[0]] + a[1..] && b == [b[0]] + b[1..];
    }
  }

  lemma SomethingCovered(a: seq<Span>, b: seq<Span>)
    requires Separated(a) && a != [] && forall s :: s in a ==> s.start < s.end
    requires forall x: int :: Covers(a, x) <==> Covers(b, x)
    ensures b != []
  {
    CoversFirst(a);
    assert Covers(b, a[0].start);
  }

  lemma FirstAgrees(a: seq<Span>, b: seq<Span>)
    requires Separated(a) && Separated(b) && a != [] && b != []
    requires forall s :: s in a || s in b ==> s.start < s.end
    requires forall x: int :: Covers(a, x) <==> Covers(b, x)
    ensures a[0] == b[0]
  {
    hide Covers;
    CoversFirst(a);
    CoversFirst(b);
    var s, t := a[0], b[0];
    assert s in a && t in b;
    assert Covers(a, s.start) && Covers(b, t.start) && !Covers(a, s.end) && !Covers(b, t.end);
    assert s.start == t.start;
    assert !Covers(b, s.end) && !Covers(a, t.end);
  }

  /** The first segment begins at the least address covered and ends at the first one that is not. */
  lemma CoversFirst(m: seq<Span>)
    requires Separated(m) && m != [] && forall s :: s in m ==> s.start < s.end
    ensures forall x: int :: m[0].start <= x < m[0].end ==> Covers(m, x)
    ensures forall x: int :: x < m[0].start ==> !Covers(m, x)
    ensures !Covers(m, m[0].end)
  {
    assert m[0] in m;
    forall s | s in m ensures s == m[0] || m[0].end < s.start {
      var i :| 0 <= i < |m| && m[i] == s;
    }
  }

  lemma CoversRest(m: seq<Span>, x: int)
    requires Separated(m) && m != [] && forall s :: s in m ==> s.start < s.end
    ensures Covers(m[1..], x) <==> Covers(m, x) && x >= m[0].end
  {
    assert m == [m[0]] + m[1..];
    forall s | s in m[1..] ensures s in m && m[0].end < s.start {
      var i :| 0 <= i < |m| - 1 && m[1..][i] == s;
      assert m[i + 1] == s;
    }
    if Covers(m, x) && x >= m[0].end {
      var s :| s in m && s.start <= x < s.end;
      assert s in m[1..];
    }
  }

  // ---- the two readers ------------------------------------------------------------------------

  datatype Extent = Extent(start: nat, end: nat)

  /** What the sort-and-merge reader reports. */
  datatype NativeReport = NativeReport(
    records: nat, dataBytes: nat, segments: seq<Span>, extent: Option<Extent>,
    entry: Option<nat>, badChecksums: nat, eof: bool)

  /** What the running-extent reader reports. */
  datatype FirmwareReport = FirmwareReport(
    records: nat, dataBytes: nat, extent: Option<Extent>, span: Option<nat>, entry: Option<nat>,
    badChecksums: nat)

  lemma RecordsSnoc(lines: seq<string>, i: nat)
    requires i < |lines|
    ensures Records(lines[..i + 1]) ==
            match Records(lines[..i])
            case Err(e) => Err(e)
            case Ok(records) =>
              match ReadLine(lines[i], i + 1)
              case Err(e) => Err(e)
              case Ok(None) => Ok(records)
              case Ok(Some(body)) => Ok(records + [body])
  {
    assert lines[..i + 1][..i] == lines[..i];
  }

  /** The first fault is the one that is raised. */
  lemma {:induction false} FirstFault(lines: seq<string>, i: nat)
    requires i <= |lines| && Records(lines[..i]).Err?
    ensures Records(lines) == Records(lines[..i])
    decreases |lines| - i
  {
    if i < |lines| {
      RecordsSnoc(lines, i);
      FirstFault(lines, i + 1);
    } else {
      assert lines[..i] == lines;
    }
  }

  lemma FoldSnoc(records: seq<record>, r: record)
    ensures Upper(records + [r]) == if Kind(r) == 2 then FromBig(Payload(r)) * 16
                                    else if Kind(r) == 4 then FromBig(Payload(r)) * 65536 else Upper(records)
    ensures Spans(records + [r]) == if Kind(r) == 0 then Spans(records) + [Claim(Upper(records), r)] else Spans(records)
    ensures BadSums(records + [r]) == BadSums(records) + (if Sum(r) % 256 != 0 then 1 else 0)
    ensures Entry(records + [r]) == if Kind(r) == 3 || Kind(r) == 5 then Some(FromBig(Payload(r))) else Entry(records)
    ensures SawEof(records + [r]) <==> SawEof(records) || Kind(r) == 1
  {
    assert (records + [r])[..|records|] == records;
    assert r in records + [r];
    if SawEof(records) {
      var x :| x in records && Kind(x) == 1;
      assert x in records + [r];
    }
  }

  lemma TotalSnoc(spans: seq<Span>, s: Span)
    ensures Total(spans + [s]) == Total(spans) + s.end - s.start
  {
    assert (spans + [s])[..|spans|] == spans;
  }

  // ---- what each report means -------------------------------------------------------------------

  /** The native report in terms of the records alone. */
  ghost predicate NativeMeans(r: NativeReport, records: seq<record>)
  {
    && r.records == |records| && r.dataBytes == Total(Spans(records))
    && r.segments == Merged(Sort(Spans(records)))
    && r.extent == (if r.segments == [] then None
                    else Some(Extent(r.segments[0].start, r.segments[|r.segments| - 1].end)))
    && r.entry == Entry(records) && r.badChecksums == BadSums(records) && (r.eof <==> SawEof(records))
  }

  /** The extent is the least start and the greatest end of what the data records claim. */
  ghost predicate Spanning(extent: Option<Extent>, spans: seq<Span>)
  {
    match extent
    case None => spans == []
    case Some(e) =>
      && (forall s :: s in spans ==> e.start <= s.start && s.end <= e.end)
      && (exists s :: s in spans && s.start == e.start) && (exists s :: s in spans && s.end == e.end)
  }

  ghost predicate FirmwareMeans(r: FirmwareReport, records: seq<record>)
  {
    && r.records == |records| && r.dataBytes == Total(Spans(records))
    && Spanning(r.extent, Spans(records))
    && (r.span.Some? <==> r.extent.Some?)
    && (r.extent.Some? ==> r.extent.value.end == r.extent.value.start + r.span.value)
    && r.entry == Entry(records) && r.badChecksums == BadSums(records)
  }

  /** The reader raises the first fault, or reports on all the records. */
  ghost predicate NativeReads(lines: seq<string>, r: Result<NativeReport, Fault>)
  {
    match Records(lines)
    case Err(e) => r == Err(e)
    case Ok(records) => r.Ok? && NativeMeans(r.value, records)
  }

  ghost predicate FirmwareReads(lines: seq<string>, r: Result<FirmwareReport, Fault>)
  {
    match Records(lines)
    case Err(e) => r == Err(e)
    case Ok(records) => r.Ok? && FirmwareMeans(r.value, records)
  }

  /** `_parse_intel_hex_native` */
  method ParseNative(lines: seq<string>) returns (r: Result<NativeReport, Fault>)
    ensures NativeReads(lines, r)
  {
    hide Records, ReadLine, Spans, Upper, BadSums, Entry, SawEof, Total, Merged;
    var upper: nat, count: nat, dataBytes: nat, badChecksums: nat := 0, 0, 0, 0;
    var sawEof := false;
    var entry: Option<nat> := None;
    var spans: seq<Span> := [];
    ghost var records: seq<record> := [];
    NoRecords(lines);
    for i := 0 to |lines|
      invariant Records(lines[..i]) == Ok(records)
      invariant count == |records| && upper == Upper(records) && spans == Spans(records)
      invariant dataBytes == Total(spans) && badChecksums == BadSums(records)
      invariant entry == Entry(records) && (sawEof <==> SawEof(records))
    {
      RecordsSnoc(lines, i);
      var read := ReadLine(lines[i], i + 1);
      if read.Err? {
        FirstFault(lines, i + 1);
        return Err(read.error);
      }
      if read.value.None? {
        continue;
      }
      var body: record := read.value.value;
      FoldSnoc(records, body);
      TotalSnoc(spans, Claim(upper, body));
      records := records + [body];
      count := count + 1;
      if Sum(body) % 256 != 0 {
        badChecksums := badChecksums + 1;
      }
      if Kind(body) == 0 {
        var start := upper + Address(body);
        spans := spans + [Span(start, start + Count(body))];
        dataBytes := dataBytes + Count(body);
      } else if Kind(body) == 1 {
        sawEof := true;
      } else if Kind(body) == 2 {
        upper := FromBig(Payload(body)) * 16;
      } else if Kind(body) == 4 {
        upper := FromBig(Payload(body)) * 65536;
      } else if Kind(body) == 3 || Kind(body) == 5 {
        entry := Some(FromBig(Payload(body)));
      }
    }
    assert lines[..|lines|] == lines;
    var segments := MergeSpans(spans);
    var extent := if segments == [] then None
                  else Some(Extent(segments[0].start, segments[|segments| - 1].end));
    r := Ok(NativeReport(count, dataBytes, segments, extent, entry, badChecksums, sawEof));
  }

  /** `_parse_ihex` */
  method ParseFirmware(lines: seq<string>) returns (r: Result<FirmwareReport, Fault>)
    ensures FirmwareReads(lines, r)
  {
    hide Records, ReadLine, Spans, Upper, BadSums, Entry, SawEof, Total, Spanning;
    var lowest: Option<nat>, highest: Option<nat> := None, None;
    var upper: nat, count: nat, dataBytes: nat, badChecksums: nat := 0, 0, 0, 0;
    var entry: Option<nat> := None;
    ghost var records: seq<record> := [];
    NoRecords(lines);
    for i := 0 to |lines|
      invariant Records(lines[..i]) == Ok(records)
      invariant count == |records| && upper == Upper(records)
      invariant dataBytes == Total(Spans(records)) && badChecksums == BadSums(records)
      invariant entry == Entry(records) && (lowest.None? <==> highest.None?)
      invariant Spanning(Bounds(lowest, highest), Spans(records))
    {
      RecordsSnoc(lines, i);
      var read := ReadLine(lines[i], i + 1);
      if read.Err? {
        FirstFault(lines, i + 1);
        return Err(read.error);
      }
      if read.value.None? {
        continue;
      }
      var body: record := read.value.value;
      FoldSnoc(records, body);
      TotalSnoc(Spans(records), Claim(upper, body));
      SpanningGrows(lowest, highest, Spans(records), Claim(upper, body));
      records := records + [body];
      count := count + 1;
      if Sum(body) % 256 != 0 {
        badChecksums := badChecksums + 1;
      }
      if Kind(body) == 0 {
        var address := upper + Address(body);
        lowest := Some(if lowest.Some? && lowest.value < address then lowest.value else address);
        var top := if highest.Some? then highest.value else 0;
        highest := Some(if top > address + Count(body) then top else address + Count(body));
        dataBytes := dataBytes + Count(body);
      } else if Kind(body) == 2 {
        upper := FromBig(Payload(body)) * 16;
      } else if Kind(body) == 4 {
        upper := FromBig(Payload(body)) * 65536;
      } else if Kind(body) == 3 || Kind(body) == 5 {
        entry := Some(FromBig(Payload(body)));
      }
    }
    assert lines[..|lines|] == lines;
    var extent, span: Option<nat> := Bounds(lowest, highest), None;
    if extent.Some? {
      SpansProper(records);
      ExtentGoesUp(extent.value, Spans(records));
      span := Some(extent.value.end - extent.value.start);
    }
    r := Ok(FirmwareReport(count, dataBytes, extent, span, entry, badChecksums));
  }

  lemma ExtentGoesUp(e: Extent, spans: seq<Span>)
    requires Spanning(Some(e), spans) && Proper(spans)
    ensures e.start <= e.end
  {}

  function Bounds(lowest: Option<nat>, highest: Option<nat>): Option<Extent>
  {
    if lowest.Some? && highest.Some? then Some(Extent(lowest.value, highest.value)) else None
  }

  lemma NoRecords(lines: seq<string>)
    ensures Records(lines[..0]) == Ok([])
    ensures Upper([]) == 0 && Spans([]) == [] && Total([]) == 0 && BadSums([]) == 0 && Entry([]) == None && !SawEof([])
    ensures Spanning(None, [])
  {}

  lemma SpanningGrows(lowest: Option<nat>, highest: Option<nat>, spans: seq<Span>, s: Span)
    requires (lowest.None? <==> highest.None?) && Spanning(Bounds(lowest, highest), spans)
    ensures var low := if lowest.Some? && lowest.value < s.start then lowest.value else s.start;
            var top := if highest.Some? then highest.value else 0;
            Spanning(Some(Extent(low, if top > s.end then top else s.end)), spans + [s])
  {
    assert s in spans + [s];
    if lowest.Some? {
      var a :| a in spans && a.start == lowest.value;
      var b :| b in spans && b.end == highest.value;
      assert a in spans + [s] && b in spans + [s];
    }
  }

  // ---- the readers agree -------------------------------------------------------------------------

  lemma SpansProper(records: seq<record>)
    ensures Proper(Spans(records))
  {}

  /** The segments' outer bounds are the least start and the greatest end. */
  lemma {:induction false} MergedSpanning(sorted: seq<Span>)
    requires IsSorted(sorted) && Proper(sorted) && sorted != []
    ensures var m := Merged(sorted);
            m != [] && Spanning(Some(Extent(m[0].start, m[|m| - 1].end)), sorted)
  {
    hide Absorb, Spanning, Separated;
    var front, s := sorted[..|sorted| - 1], sorted[|sorted| - 1];
    LastSplit(sorted);
    assert s in sorted;
    if front == [] {
      SpanningGrows(None, None, [], s);
      SpanningNothing();
      AbsorbEnds([], s);
      assert sorted == [s] == [] + [s];
    } else {
      MergedShape(front);
      MergedSpanning(front);
      var m := Merged(front);
      SpanningGrows(Some(m[0].start), Some(m[|m| - 1].end), front, s);
      AbsorbEnds(m, s);
      assert Le(sorted[0], s);
    }
  }

  lemma SpanningNothing()
    ensures Spanning(None, [])
  {}

  lemma AbsorbEnds(m: seq<Span>, s: Span)
    requires s.start <= s.end
    ensures var a := Absorb(m, s);
            && a != [] && a[0].start == (if m == [] then s.start else m[0].start)
            && a[|a| - 1].end == (if m == [] || m[|m| - 1].end < s.end then s.end else m[|m| - 1].end)
  {}

  /** Of the same records both readers say the same. */
  lemma ReportsAgree(records: seq<record>, native: NativeReport, firmware: FirmwareReport)
    requires NativeMeans(native, records) && FirmwareMeans(firmware, records)
    ensures native.records == firmware.records && native.dataBytes == firmware.dataBytes
    ensures native.extent == firmware.extent && native.entry == firmware.entry
    ensures native.badChecksums == firmware.badChecksums
  {
    hide Spans, Merged;
    var spans := Spans(records);
    var sorted := Sort(spans);
    SpansProper(records);
    ProperSort(spans);
    SortSorts(spans);
    MergedShape(sorted);
    assert |spans| == |multiset(spans)| == |multiset(sorted)| == |sorted|;
    if sorted != [] {
      MergedSpanning(sorted);
      SpanningUnique(native.extent, firmware.extent, sorted, spans);
    }
  }

  lemma SpanningUnique(a: Option<Extent>, b: Option<Extent>, s: seq<Span>, t: seq<Span>)
    requires Spanning(a, s) && Spanning(b, t) && multiset(s) == multiset(t) && s != [] && t != []
    ensures a == b
  {
    forall x ensures x in s <==> x in t {
      assert x in s <==> x in multiset(s);
      assert x in t <==> x in multiset(t);
    }
  }

  /** The readers refuse the same files for the same fault, and agree on the ones they accept. */
  lemma ReadersAgree(lines: seq<string>, native: Result<NativeReport, Fault>, firmware: Result<FirmwareReport, Fault>)
    requires NativeReads(lines, native) && FirmwareReads(lines, firmware)
    ensures native.Ok? <==> firmware.Ok?
    ensures native.Err? ==> native.error == firmware.error
    ensures native.Ok? ==>
              var n, f := native.value, firmware.value;
              && n.records == f.records && n.dataBytes == f.dataBytes && n.extent == f.extent
              && n.entry == f.entry && n.badChecksums == f.badChecksums
  {
    hide NativeMeans, FirmwareMeans, Records;
    if native.Ok? { ReportsAgree(Records(lines).value, native.value, firmware.value); }
  }

  lemma AbsorbTotal(m: seq<Span>, s: Span)
    requires s.start <= s.end && (m != [] ==> m[|m| - 1].start <= s.start)
    ensures Total(Absorb(m, s)) <= Total(m) + s.end - s.start
  {
    hide Total;
    TotalSnoc(m, s);
    if m != [] && s.start <= m[|m| - 1].end {
      var last := m[|m| - 1];
      LastSplit(m);
      TotalSnoc(m[..|m| - 1], last);
      TotalSnoc(m[..|m| - 1], Span(last.start, if s.end > last.end then s.end else last.end));
    }
  }

  /** Merging never adds a byte: segments hold at most what the records claim. */
  lemma {:induction false} MergedTotal(sorted: seq<Span>)
    requires IsSorted(sorted) && Proper(sorted)
    ensures Total(Merged(sorted)) <= Total(sorted)
  {
    hide Absorb, Separated;
    if sorted != [] {
      var front, s := sorted[..|sorted| - 1], sorted[|sorted| - 1];
      MergedTotal(front);
      MergedShape(front);
      assert s in sorted;
      assert front != [] ==> Le(sorted[|sorted| - 2], s);
      AbsorbTotal(Merged(front), s);
    }
  }
}
