/**
 Intel HEX files as programs write them, byte by byte, and what the two readers of
 IntelHex report on every such file.
 */
module IntelHexFiles {
  import opened Bytes
  import opened Words
  import opened Text
  import opened IntelHex

  type short = n: nat | n < 65536
  type payload = b: bytes | |b| < 256

  // ---- one record -----------------------------------------------------------------------------

  function Plus(data: bytes): nat
  {
    if data == [] then 0 else data[0] + Plus(data[1..])
  }

  /** The two's complement of the sum of the bytes before it. */
  function Checksum(head: bytes): byte
  {
    (256 - Plus(head) % 256) % 256
  }

  lemma {:induction false} SumIsPlus(data: bytes)
    ensures Sum(data) == Plus(data)
    decreases |data|
  {
    if |data| > 1 {
      var last := |data| - 1;
      SumIsPlus(data[1..]);
      SumIsPlus(data[..last]);
      SumIsPlus(data[1..last]);
      assert data[1..][..last - 1] == data[1..last] == data[..last][1..];
    }
  }

  lemma BigPair(high: byte, low: byte)
    ensures FromBig([high, low]) == 256 * high + low
  {
    assert [high, low][..1] == [high] && [high][..0] == [];
    assert FromBig([high]) == high;
  }

  /** The four bytes that every record begins with. */
  function Head(count: byte, address: short, kind: byte): bytes
  {
    [count, address / 256, address % 256, kind]
  }

  /**
   What a record says, whatever its count claims: a payload that stops short takes the
   checksum byte with it. The checksum is good exactly if it is the two's complement.
   */
  lemma {:induction false} RecordSays(count: byte, address: short, kind: byte, data: bytes, c: byte)
    ensures var r: record := Head(count, address, kind) + data + [c];
            && Count(r) == count && Address(r) == address && Kind(r) == kind
            && Payload(r) == (if count <= |data| then data[..count] else data + [c])
            && (Sum(r) % 256 == 0 <==> c == Checksum(Head(count, address, kind) + data))
  {
    hide Head, Sum, Checksum;
    SumSays(Head(count, address, kind) + data, c);
    FieldsSay(count, address, kind, data, c);
  }

  lemma FieldsSay(count: byte, address: short, kind: byte, data: bytes, c: byte)
    ensures |Head(count, address, kind)| == 4
    ensures var r: record := Head(count, address, kind) + data + [c];
            && Count(r) == count && Address(r) == address && Kind(r) == kind
            && Payload(r) == (if count <= |data| then data[..count] else data + [c])
  {
    var r: record := Head(count, address, kind) + data + [c];
    assert r[1..3] == [address / 256, address % 256];
    BigPair(address / 256, address % 256);
    assert r[4..] == data + [c] && (count <= |data| ==> r[4..4 + count] == data[..count]);
  }

  lemma SumSays(head: bytes, c: byte)
    ensures Sum(head + [c]) % 256 == 0 <==> c == Checksum(head)
  {
    assert (head + [c])[..|head|] == head;
    SumIsPlus(head);
    assert Sum(head + [c]) == Plus(head) + c;
  }

  /** A well-formed record. */
  function Line(kind: byte, address: short, data: payload): record
  {
    var head := Head(|data|, address, kind) + data;
    head + [Checksum(head)]
  }

  lemma LineSays(kind: byte, address: short, data: payload)
    ensures var r := Line(kind, address, data);
            && Count(r) == |data| && Address(r) == address && Kind(r) == kind
            && Payload(r) == data && Sum(r) % 256 == 0
  {
    RecordSays(|data|, address, kind, data, Checksum(Head(|data|, address, kind) + data));
    assert data[..|data|] == data;
  }

  // ---- a file ---------------------------------------------------------------------------------

  /** Where the data records that follow count from. */
  datatype Base = Segment(paragraph: short) | Linear(high: short)
  {
    function Origin(): nat
    {
      match this
      case Segment(p) => p * 16
      case Linear(h) => h * 65536
    }
  }

  datatype Piece = Piece(offset: short, data: payload)

  datatype Block = Block(base: Base, pieces: seq<Piece>)

  function BaseLine(base: Base): record
  {
    match base
    case Segment(p) => Line(2, 0, [p / 256, p % 256])
    case Linear(h) => Line(4, 0, [h / 256, h % 256])
  }

  function PieceLines(pieces: seq<Piece>): seq<record>
  {
    if pieces == [] then [] else
      var last := pieces[|pieces| - 1];
      PieceLines(pieces[..|pieces| - 1]) + [Line(0, last.offset, last.data)]
  }

  function BlockLines(blocks: seq<Block>): seq<record>
  {
    if blocks == [] then [] else
      var last := blocks[|blocks| - 1];
      BlockLines(blocks[..|blocks| - 1]) + [BaseLine(last.base)] + PieceLines(last.pieces)
  }

  /** The blocks, a start record of either kind, and the end of the file. */
  function File(blocks: seq<Block>, linear: bool, entry: bytes): seq<record>
    requires |entry| == 4
  {
    BlockLines(blocks) + [Line(if linear then 5 else 3, 0, entry), Line(1, 0, [])]
  }

  /** Each record on a line of its own. */
  function Lines(records: seq<record>): (r: seq<string>)
    ensures |r| == |records|
  {
    if records == [] then [] else
      Lines(records[..|records| - 1]) + [":" + Written(records[|records| - 1])]
  }

  // ---- what the file holds ----------------------------------------------------------------------

  function PieceSpans(base: Base, pieces: seq<Piece>): seq<Span>
  {
    if pieces == [] then [] else
      var last := pieces[|pieces| - 1];
      var start := base.Origin() + last.offset;
      PieceSpans(base, pieces[..|pieces| - 1]) + [Span(start, start + |last.data|)]
  }

  function BlockSpans(blocks: seq<Block>): seq<Span>
  {
    if blocks == [] then [] else
      var last := blocks[|blocks| - 1];
      BlockSpans(blocks[..|blocks| - 1]) + PieceSpans(last.base, last.pieces)
  }

  /** What the readers have gathered behind these records. */
  ghost predicate Gathered(records: seq<record>, spans: seq<Span>, upper: nat)
  {
    && Spans(records) == spans && Upper(records) == upper && BadSums(records) == 0
    && Entry(records) == None && !SawEof(records)
  }

  lemma {:induction false} PiecesGather(records: seq<record>, spans: seq<Span>, base: Base, pieces: seq<Piece>)
    requires Gathered(records, spans, base.Origin())
    ensures Gathered(records + PieceLines(pieces), spans + PieceSpans(base, pieces), base.Origin())
    decreases |pieces|
  {
    hide Spans, Upper, BadSums, Entry, SawEof, Line, Sum;
    if pieces == [] {
      assert records + [] == records && spans + [] == spans;
    } else {
      var front, last := pieces[..|pieces| - 1], pieces[|pieces| - 1];
      PiecesGather(records, spans, base, front);
      var line := Line(0, last.offset, last.data);
      LineSays(0, last.offset, last.data);
      FoldSnoc(records + PieceLines(front), line);
      Associate(records, PieceLines(front), [line]);
      Associate(spans, PieceSpans(base, front), [Claim(base.Origin(), line)]);
    }
  }

  lemma BaseGathers(records: seq<record>, spans: seq<Span>, upper: nat, base: Base)
    requires Gathered(records, spans, upper)
    ensures Gathered(records + [BaseLine(base)], spans, base.Origin())
  {
    hide Spans, Upper, BadSums, Entry, SawEof, Line, Sum;
    FoldSnoc(records, BaseLine(base));
    match base
    case Segment(p) => LineSays(2, 0, [p / 256, p % 256]); BigPair(p / 256, p % 256);
    case Linear(h) => LineSays(4, 0, [h / 256, h % 256]); BigPair(h / 256, h % 256);
  }

  lemma {:induction false} BlocksGather(blocks: seq<Block>)
    ensures Gathered(BlockLines(blocks), BlockSpans(blocks), Upper(BlockLines(blocks)))
  {
    hide Gathered, Upper, BaseLine;
    if blocks == [] {
      NothingGathered();
    } else {
      var front, last := blocks[..|blocks| - 1], blocks[|blocks| - 1];
      BlocksGather(front);
      BaseGathers(BlockLines(front), BlockSpans(front), Upper(BlockLines(front)), last.base);
      PiecesGather(BlockLines(front) + [BaseLine(last.base)], BlockSpans(front), last.base, last.pieces);
      GatheredUpper(BlockLines(blocks), BlockSpans(blocks), last.base.Origin());
    }
  }

  lemma NothingGathered()
    ensures Gathered([], [], Upper([]))
  {}

  lemma GatheredUpper(records: seq<record>, spans: seq<Span>, upper: nat)
    requires Gathered(records, spans, upper)
    ensures upper == Upper(records)
  {}

  lemma {:induction false} FileGathers(blocks: seq<Block>, linear: bool, entry: bytes)
    requires |entry| == 4
    ensures var records := File(blocks, linear, entry);
            && Spans(records) == BlockSpans(blocks) && BadSums(records) == 0
            && Entry(records) == Some(FromBig(entry)) && SawEof(records)
  {
    hide Spans, Upper, BadSums, Entry, SawEof, Line, Sum, BlockLines, BlockSpans;
    BlocksGather(blocks);
    var records, kind: byte := BlockLines(blocks), if linear then 5 else 3;
    LineSays(kind, 0, entry);
    LineSays(1, 0, []);
    var start, end := Line(kind, 0, entry), Line(1, 0, []);
    FoldSnoc(records, start);
    FoldSnoc(records + [start], end);
    assert records + [start, end] == records + [start] + [end];
  }

  /** Every written line reads back as its record. */
  lemma {:induction false} LinesRead(records: seq<record>)
    ensures Records(Lines(records)) == Ok(records)
  {
    hide ReadLine, Written;
    if records != [] {
      var front, last := records[..|records| - 1], records[|records| - 1];
      LinesRead(front);
      LineRoundTrip("", last, "", |records|);
      var line := ":" + Written(last);
      assert "" + line + "" == line;
      assert Lines(records)[..|records| - 1] == Lines(front);
      assert front + [last] == records;
    }
  }

  /**
   What both readers report on every file so written: the addresses its pieces cover, in
   segments that stand apart, the least and the greatest of them, their number, the entry
   point, and no bad checksum.
   */
  lemma {:induction false} FileIsRead(blocks: seq<Block>, linear: bool, entry: bytes,
                                      native: Result<NativeReport, Fault>, firmware: Result<FirmwareReport, Fault>)
    requires |entry| == 4
    requires NativeReads(Lines(File(blocks, linear, entry)), native)
    requires FirmwareReads(Lines(File(blocks, linear, entry)), firmware)
    ensures native.Ok? && firmware.Ok?
    ensures var n, f, spans := native.value, firmware.value, BlockSpans(blocks);
            && n.records == f.records == |File(blocks, linear, entry)|
            && n.dataBytes == f.dataBytes == Total(spans)
            && Separated(n.segments) && (forall a :: Covers(n.segments, a) <==> Covers(spans, a))
            && n.extent == f.extent && Spanning(n.extent, spans)
            && (f.extent.Some? <==> f.span.Some?)
            && (f.span.Some? ==> f.span.value == f.extent.value.end - f.extent.value.start)
            && n.entry == f.entry == Some(FromBig(entry))
            && n.badChecksums == f.badChecksums == 0 && n.eof
  {
    hide NativeMeans, FirmwareMeans, Records, File, Lines, Spans, Merged, Sort, Spanning, Covers, Separated,
         BadSums, Entry, SawEof, Total, BlockSpans;
    var records := File(blocks, linear, entry);
    LinesRead(records);
    FileGathers(blocks, linear, entry);
    MeansSegments(native.value, records);
    MeansExtent(firmware.value, records);
    ReportsAgree(records, native.value, firmware.value);
  }

  lemma MeansSegments(n: NativeReport, records: seq<record>)
    requires NativeMeans(n, records)
    ensures n.records == |records| && n.dataBytes == Total(Spans(records))
    ensures Separated(n.segments) && forall a :: Covers(n.segments, a) <==> Covers(Spans(records), a)
    ensures n.entry == Entry(records) && n.badChecksums == BadSums(records) && (n.eof <==> SawEof(records))
  {
    hide Spans, Merged, Sort, Covers, Separated;
    SpansProper(records);
    MergeIsSeparatedCover(Spans(records));
  }

  lemma MeansExtent(f: FirmwareReport, records: seq<record>)
    requires FirmwareMeans(f, records)
    ensures Spanning(f.extent, Spans(records)) && (f.extent.Some? <==> f.span.Some?)
    ensures f.span.Some? ==> f.span.value == f.extent.value.end - f.extent.value.start
  {
    hide Spans, Spanning;
  }

  /** The least of files: one piece of data, and where it stands. */
  lemma OnePieceIsRead(high: short, wide: bool, offset: short, data: payload, linear: bool, entry: bytes,
                       native: Result<NativeReport, Fault>)
    requires |entry| == 4
    requires var base := if wide then Linear(high) else Segment(high);
             NativeReads(Lines(File([Block(base, [Piece(offset, data)])], linear, entry)), native)
    ensures var start := (if wide then 65536 * high else 16 * high) + offset;
            && native.Ok? && native.value.extent == Some(Extent(start, start + |data|))
            && native.value.dataBytes == |data|
  {
    hide NativeMeans, Records, File, Lines, Spans, Merged, Sort, BadSums, Entry, SawEof;
    var base := if wide then Linear(high) else Segment(high);
    var blocks := [Block(base, [Piece(offset, data)])];
    var start := base.Origin() + offset;
    var records, span := File(blocks, linear, entry), Span(start, start + |data|);
    LinesRead(records);
    FileGathers(blocks, linear, entry);
    assert BlockSpans(blocks) == [span] by { OnePiece(base, Piece(offset, data)); }
    OneSpan(native.value, records, span);
  }

  lemma OnePiece(base: Base, p: Piece)
    ensures var start := base.Origin() + p.offset;
            BlockSpans([Block(base, [p])]) == [Span(start, start + |p.data|)]
  {
    var b := Block(base, [p]);
    assert [b][..0] == [] && [p][..0] == [];
    assert PieceSpans(base, []) == [] && BlockSpans([]) == [];
  }

  lemma OneSpan(n: NativeReport, records: seq<record>, s: Span)
    requires NativeMeans(n, records) && Spans(records) == [s] && s.start <= s.end
    ensures n.extent == Some(Extent(s.start, s.end)) && n.dataBytes == s.end - s.start
  {
    assert [s][..0] == [];
    assert Sort([]) == [] && Merged([]) == [] && Total([]) == 0;
    assert Sort([s]) == [s];
    assert Merged([s]) == [s];
  }
}
