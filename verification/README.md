# FieldDeck verification model

A Dafny 4.11 model of the parts of FieldDeck whose correctness is hardest to see by
reading: the CRC engine, the byte codecs and stream walkers of `fielddeck/analysis`,
the two Intel HEX readers, the lossy event subscriptions, and the protocol by which
`instrumentd` keeps hazardous outputs from being forgotten. Everything is proved for all
inputs and all interleavings; for CRCs, for every width, polynomial and initial register that
fit the width (`CrcModel.Valid`), and where a result needs an odd polynomial its row says so.
`dafny verify dfyconfig.toml` checks the whole project.

Code that changes buffers, lists or objects step by step is written as methods with loops
or as classes whose methods change fields. Each method is proved against a function of its
inputs (or of the old state), and the properties below are proved of those functions.

## Files

- `Bits`, `Bytes`, `Words`, `Text` – numbers as bit strings of any width, byte strings, numbers
  as bytes in both orders, a little text.
- `CrcEngine`, `CrcAlgebra` – the table builder and the three register loops; remainders
  over GF(2), burst detection, trailers.
- `CrcWords`, `CrcCatalogue` – the register in a machine word, and the catalogue with its check
  values, each worked out.
- `Cobs`, `Slip`, `Delimiter` – the codecs and the splitter they are framed with.
- `ModbusWalk`, `ModbusReadings`, `LengthPrefix` – the two resynchronising walks, and the frames
  they take function code by function code or field by field.
- `IntelHex`, `IntelHexLines`, `IntelHexFiles` – the two HEX readers and the span merger, what a
  line spells, and whole files as programs write them.
- `Numbers`, `NumberTexts` – the integer printer and parser, and the texts that mean the same.
- `Events` – subscriptions that drop oldest first and count what they drop.
- `SafetyModel`, `SafetyInvariant`, `SafetyTheorems` – the lease and generation protocol as
  a step system, its invariant, and what an ok reply means.
- `SafetySteps` – what each step does to leases, generations and the timeline, field by field.
- `SafetyCoverage`, `SafetyExposure` – when an output that is on is accounted for, and the
  steps that can break that, each with its exact guard.
- `SafetyOrdinary` – conditions on devices and drivers alone under which nothing breaks it.
- `SafetyTimeline` – when the last published line on a device can be trusted.
- `SafetyScenarios` – concrete runs in which each kind of guard fails.
- `SafetyLeases`, `SafetyDaemon` – the lease table, the ESTOP latch and the daemon as
  objects; each method takes the whole state one step of the model.

## The safe-state protocol

One step is one stretch of code between two awaits. Calls on different devices, handlers
that write their output more than once, worker threads that write after their call has ended,
the lease sweep, releases, disconnects, renewals, an emergency stop, drivers' `safe_state`
coroutines that raise, time out or return with or without an error, and cancellations
interleave freely. What is taken as given:

- The registry is fixed. A run begins with the first stretch of the start-up safe state, with
  any outputs on and no driver back yet. Clients may call from then on; the code lets them in
  once that safe state is over (`fielddeck/daemon/service.py:179-180`), so this only adds runs.
- Lease ids are new. Grants, limits and denied permissions are one bit of the request, which
  switching off does not need; a passive reader changes nothing and is not modelled.
- A device has any number of channels. A handler changes only its own channel; a handler
  that switches off has done so by the time it returns; only an energising handler can turn
  a channel on; only energising calls take a lease.
- A driver's `safe_state` turns channels off one at a time, in any order and as many as it
  likes; nothing is assumed about what it reports. A thread left behind makes one write.

An output that is on is *accounted for* when a lease holds its device, a running handler has
turned it on, or the newest safe state of its device has not cleared that channel yet or has
failed and is on the timeline as failed. `StepCovers` says of every step exactly when it keeps
this, and `AccountedIffBenign` the same of every run. `EveryOutputAccountedFor` proves it for
every state of every run, whatever was on at start-up, in which devices have one output, no
handler raises after switching on, no thread switches on after its call has ended, no safe
state is cancelled, and a driver that returns without an error, at start-up too, has cleared
every channel that is on. The runs of `SafetyScenarios` show where code and documentation part:

- A handler that raises or times out after switching on (`fielddeck/bench/visa.py:1498`
  confirms the switch only afterwards) gives its lease back and no safe state starts,
  although the message at `fielddeck/daemon/dispatcher.py:523-526` says one will be applied.
- A call that is cancelled or times out leaves the write of its worker thread behind
  (`fielddeck/bench/scpi.py:599-601`, which carries `psu.output` and `load.input`, and
  `fielddeck/transports/gpio.py:272`). It can land under a latched stop whose verdicts all
  say safe.
- Switching one channel off releases the leases of every channel switched by the same action.
- A client that goes away cancels its requests (`fielddeck/daemon/rpc.py:181-184`): with an
  overtaken call the safe state that was undoing it, and with a request for the stop or for the
  release of a lease that request's own safe state. An output can stay on under a latched stop.
- A driver says that it failed by raising or by an `error` (`fielddeck/drivers/base.py:353-358`);
  the bench driver collects failed writes under `errors` only (`fielddeck/bench/visa.py:757-790`),
  so the stop records its device as safe with the output on. The start-up safe state does the
  same to an output that is on when the daemon starts, before any client has called.
- The published lines name no generation, so a reader can only go by their order, and a line
  can be published after one about a newer safe state. `NewestIffOrderly` says exactly when
  the last line on a device is about its newest safe state on record, and `TimelineCanBeRead`
  what it then means.

## Where the code does less than its documentation

- `crc.py` follows the Rocksoft model except for widths 2 to 7 with refin and without refout,
  where only the polynomial 0 can hide the difference (`ComputeFollowsModel`). No catalogue
  entry is of that kind.
- `cobs_decode` accepts a full 0xFF run followed by a lone 0x01, which the encoder never
  writes; `Reencode` shows this is the only redundancy.
- `detect_modbus_rtu` offers the five-byte exception reading with four bytes left, so it can
  explain one byte more than it scanned (`BytesConserved`, `ShortExceptionOverReads`).
- `parse_number` refuses renderings over 2048 characters; up to there it undoes `to_base`. Behind
  a minus it takes a second sign: `--5` is 5 (`SignsRead`).

## Model

| member | source | states |
|---|---|---|
| CrcEngine.ReflectValue | fielddeck/analysis/crc.py:51-56 | the bit loop reverses the lowest `width` bits |
| CrcEngine.BuildTable | fielddeck/analysis/crc.py:60-79 | entry i of the table is eight shifts of i through the register, plain or mirrored |
| CrcEngine.ComputeBitwise | fielddeck/analysis/crc.py:84-93 | the sub-byte bit loop leaves the register of the bit-serial reference, for every width below 8 |
| CrcEngine.ComputeReflected | fielddeck/analysis/crc.py:99-103 | the reflected table loop leaves the mirror image of the bit-serial register, for every width from 8 |
| CrcEngine.ComputePlain | fielddeck/analysis/crc.py:107-110 | the plain table loop leaves the bit-serial register, for every width from 8 |
| CrcEngine.Compute | fielddeck/analysis/crc.py:82-113 | all paths together equal the Rocksoft CRC for width at least 8, and below that whenever refin implies refout; otherwise the result is still determined |
| Bits.ShrIsDivision | fielddeck/analysis/crc.py:88-93 | the model's shift and mask are what `>>` and `&` with 2^k - 1 are in the code: quotient and remainder by a power of two |
| CrcEngine.FeedIsShifts | fielddeck/analysis/crc.py:88-93 | feeding k bits one at a time is k zero-shifts of the register with the bits added at the top |
| CrcEngine.PlainByte | fielddeck/analysis/crc.py:110 | one table look-up does what eight single bits do, highest bit first |
| CrcEngine.ReflectedByte | fielddeck/analysis/crc.py:102 | one table look-up does eight mirrored shifts, lowest bit first |
| CrcEngine.ShiftMirror | fielddeck/analysis/crc.py:66-78 | a mirrored shift of the mirrored register is the mirror of a plain shift |
| CrcAlgebra.RegisterIsRemainder | fielddeck/analysis/crc.py:82-113 | the register is a remainder of init·x^n + M·x^width by the generator over GF(2) |
| CrcAlgebra.RemainderUnique | fielddeck/analysis/crc.py:82-113 | and a remainder below x^width is unique, so the register is that remainder |
| CrcAlgebra.BurstDetected | fielddeck/analysis/crc.py:82-113 | with an odd polynomial two messages of one length that differ only within `width` consecutive register-entry bits have different CRCs, on every path of the code |
| CrcAlgebra.TrailerCheck | fielddeck/analysis/crc.py:47-48 | with an odd polynomial and whole bytes, the CRC over payload and trailer is the model's residue for the payload's own trailer and no other, in either bit order and for any xorout; the residue is 0 when xorout is |
| CrcAlgebra.ModbusTrailer | fielddeck/analysis/framing.py:884-889 | the listener's trailer test is "the crc16-modbus of the whole frame is zero" |
| Words.LittleRoundTrip | fielddeck/analysis/crc.py:47-48 | `to_bytes` little-endian is the one byte string of its length that reads back as the value |
| Words.BigRoundTrip | fielddeck/analysis/crc.py:47-48 | the same big-endian |
| CrcAlgebra.FoldsMirror | fielddeck/analysis/crc.py:98-112 | after every byte the reflected-table register is the mirror of the plain-table register fed bit-reversed bytes, same polynomial and init |
| CrcAlgebra.ByteReaches | fielddeck/analysis/crc.py:84-93 | a single byte takes a sub-byte register to any value |
| CrcAlgebra.CrookedRegister | fielddeck/analysis/crc.py:84-93 | for a width of 2 to 7 and any polynomial but 0, some byte leaves a register that is not its own mirror image |
| CrcAlgebra.ComputeFollowsModel | fielddeck/analysis/crc.py:94-95 | for every polynomial the code agrees with the model on all messages if and only if width is at least 8 or 1, or refin implies refout, or the polynomial is 0 and init is its own mirror image |
| CrcCatalogue.EveryCheckValue | fielddeck/analysis/crc.py:116-176 | every one of the twenty entries is valid, and its check value is the model's CRC of the bytes of 123456789; by `Compute`, so is what the code returns |
| CrcCatalogue.CatalogueIsOdd | fielddeck/analysis/crc.py:116-176 | every polynomial is odd and refin is refout, so burst detection, trailers and the model hold of every entry |
| CrcCatalogue.ModbusIsListed | fielddeck/analysis/framing.py:885 | the CRC that the listener computes is the entry with check value 0x4B37 |
| CrcWords.OctetsIsRegister | fielddeck/analysis/crc.py:82-113 | a machine word that takes the bits in at the bottom mirrors the register, for any width up to its own and either bit order |
| Cobs.Encode | fielddeck/analysis/convert.py:457-484 | the encoder's loop produces the groups of the data |
| Cobs.Decode | fielddeck/analysis/convert.py:487-524 | the decoder's loop, with each refusal and its offset |
| Cobs.EncodingBounds | fielddeck/analysis/convert.py:457-484 | an encoding has no zero byte, at least one byte, and at most len + max(1, ceil(len/254)) bytes |
| Cobs.RoundTrip | fielddeck/analysis/convert.py:457-524 | decoding undoes encoding for every byte string, with or without the delimiter |
| Cobs.Reencode | fielddeck/analysis/convert.py:487-524 | encoding an accepted block's contents gives the block back exactly unless it ends in a full run and a lone 0x01, which is dropped |
| Cobs.DecodeInjective | fielddeck/analysis/convert.py:487-524 | two blocks with the same contents differ at most by that 0x01 |
| Cobs.StreamResynchronises | fielddeck/analysis/framing.py:358-383 | after any noise ended by 0x00, splitting on 0 and decoding returns exactly the packets sent, empty ones included, with no residue |
| Delimiter.Split | fielddeck/analysis/framing.py:358-383 | the frames are the delimited runs (non-empty unless asked), each cut at its offset and closed by a delimiter, in order and apart; the residue is what follows the last delimiter |
| Delimiter.RunsJoin | fielddeck/analysis/framing.py:363-374 | runs, their delimiters and the tail are the data again: no byte is lost |
| Delimiter.RunsUnique | fielddeck/analysis/framing.py:363-374 | and there is no other way to cut the data into delimiter-free runs |
| Delimiter.SplitJoined | fielddeck/analysis/framing.py:363-374 | runs put on the wire behind a closed prefix come back as they were |
| Slip.Encode | fielddeck/analysis/convert.py:537-554 | the encoder's loop, with or without the leading END |
| Slip.Decode | fielddeck/analysis/convert.py:557-598 | the decoder's loop, with each refusal and its offset |
| Slip.RoundTrip | fielddeck/analysis/convert.py:537-598 | decoding undoes encoding, with or without the leading END, and also without END bytes at all |
| Slip.Reencode | fielddeck/analysis/convert.py:537-598 | encoding a successful decode of f gives END, f stripped of END, END |
| Slip.CodesOnTheWire | fielddeck/analysis/convert.py:531-554 | 192 goes out as 219 220, 219 as 219 221, every other byte as itself, and 192 ends the packet |
| Slip.EndsAreStripped | fielddeck/analysis/convert.py:557-598 | any number of END bytes on either side is dropped before decoding, and nothing else |
| Slip.StreamResynchronises | fielddeck/analysis/framing.py:358-383 | after arbitrary noise, splitting on END and decoding recovers every non-empty packet sent with a leading END |
| ModbusWalk.Detect | fielddeck/analysis/framing.py:861-932 | the loop with its counters is the walk over the first `scan_limit` bytes; explained bytes are the sum of the frame lengths, and with the skipped bytes and a tail of at most 3 make up the window but for a short exception at its end; frames are genuine, in order and apart; failed never exceed frames |
| ModbusWalk.Arbitrate | fielddeck/analysis/framing.py:883-890 | candidates are tried in order by the table-driven CRC, and rejections counted |
| ModbusWalk.MatchIsShortest | fielddeck/analysis/framing.py:881-890 | the reading taken is the shortest that validates |
| ModbusWalk.BytesConserved | fielddeck/analysis/framing.py:880-922 | explained plus skipped bytes and a tail of at most 3 are the window, unless the walk comes to a last four bytes that read as a short exception: then they exceed it by one. Whether the walk comes there is its own reachability (`Visits`), which only running it tells; a window whose last four bytes are no short exception never exceeds |
| ModbusWalk.ShortExceptionOverReads | fielddeck/analysis/framing.py:825-827 | the failing family: any address and exception code with the CRC of just these two, explained as 5 of 4 bytes |
| ModbusWalk.FramesAreGenuine | fielddeck/analysis/framing.py:880-920 | every frame has 4 to 256 bytes, a zero CRC over the whole, no shorter valid reading, and lies behind the one before |
| ModbusWalk.SkippedMeansNoReading | fielddeck/analysis/framing.py:891-901 | at an offset outside every frame no candidate validates |
| ModbusWalk.FailedAtMostFrames | fielddeck/analysis/framing.py:892-898 | failed frames never exceed frames |
| ModbusWalk.WholeIsMatched | fielddeck/analysis/framing.py:813-890 | a frame whose own length is its shortest valid reading reads the same with anything before and after it |
| ModbusWalk.FixedLengthIsWhole | fielddeck/analysis/framing.py:838-852 | frames of the fixed-length functions with a right trailer are of that kind |
| ModbusWalk.BackToBackRecovered | fielddeck/analysis/framing.py:861-932 | a capture of such frames within the scan limit comes back exactly, nothing skipped and nothing failed |
| ModbusReadings.CandidatesAreReadings | fielddeck/analysis/framing.py:789-858 | what is tried at an offset is a table: each of the eighteen function codes with its lengths of 8, 10, 4, 5 + byte 2, 9 + byte 6 or 13 + byte 10, five bytes for their exceptions, each with its role; nothing else |
| ModbusReadings.WholeIffPlain | fielddeck/analysis/framing.py:813-890 | a frame is taken whole wherever it stands if and only if it has a length of the table and a zero CRC, and no shorter length of the table has one |
| ModbusReadings.PlainCaptureRecovered | fielddeck/analysis/framing.py:861-932 | a capture of such frames comes back exactly |
| ModbusReadings.FramesArePlain | fielddeck/analysis/framing.py:880-920 | and every frame reported from any data is such a frame, in the role of the table, but for a short exception at the end |
| ModbusReadings.SkippedMeansNoChecks | fielddeck/analysis/framing.py:891-901 | at an offset outside every frame no length of the table that is there in full has a zero CRC |
| ModbusReadings.RequestWinsTies | fielddeck/analysis/framing.py:882 | of a request and a response of the same length the request is reported |
| LengthPrefix.TryLengthPrefix | fielddeck/analysis/autodetect.py:330-377 | a fit comes back if and only if at least five frames were read; its counts, extremes, constant columns and distinct values are those of the walk |
| LengthPrefix.CountColumns | fielddeck/analysis/autodetect.py:358-364 | counts the first four columns outside the field that never change |
| LengthPrefix.BytesConserved | fielddeck/analysis/autodetect.py:344-355 | consumed plus skipped bytes never exceed the data, and what is left is too short for a field |
| LengthPrefix.FramesAreFramed | fielddeck/analysis/autodetect.py:344-355 | every frame is cut from the data, is of plausible size, and is as long as its own field says; frames are in order and apart |
| LengthPrefix.SkippedMeansUnreadable | fielddeck/analysis/autodetect.py:347-350 | a byte is skipped only where no frame could be read |
| LengthPrefix.StreamRecovered | fielddeck/analysis/autodetect.py:344-357 | frames with honest length fields back to back are the walk's frames exactly, with no resync |
| LengthPrefix.HonestFit | fielddeck/analysis/autodetect.py:330-377 | from five such frames on the answer is their fit: their number, bytes, extremes, distinct lengths and constant columns, and no resync; from fewer there is none |
| LengthPrefix.HonestIffOnTheWire | fielddeck/analysis/autodetect.py:343-355 | frames with honest fields are exactly those written as `offset` bytes, the size less the overhead in `width` bytes of the field's order, and more bytes, from offset + width + 1 to 4096 in all |
| LengthPrefix.ReadableIffOnTheWire | fielddeck/analysis/autodetect.py:343-350 | a frame is read at a position if and only if one so written stands there |
| LengthPrefix.WireFit | fielddeck/analysis/autodetect.py:330-377 | five or more frames so written, in either order of the field's bytes, give exactly their fit and no resync; fewer give none |
| LengthPrefix.OneByteHasOneOrder | fielddeck/analysis/autodetect.py:401-402 | a one-byte field reads the same in both byte orders, so the search may try one |
| IntelHex.LineRoundTrip | fielddeck/analysis/convert.py:946-968 | a record written with a colon and hex digits, with any blank space around, reads back as its bytes |
| IntelHexLines.ReadsIffSpelled | fielddeck/analysis/convert.py:955 | text without blanks reads as bytes if and only if it spells them in two digits each, of either case |
| IntelHexLines.BlankBetween | fielddeck/analysis/convert.py:955 | a blank between two bytes changes nothing |
| IntelHexLines.BlanksAround | fielddeck/analysis/convert.py:946-948 | nor do blanks around a line, nor lines of blanks alone |
| IntelHexLines.LineVerdict | fielddeck/analysis/convert.py:946-964 | which visible lines are skipped, which are refused for want of a colon, for what is not hex or for fewer than five bytes, and as what bytes any other line is read |
| IntelHexFiles.RecordSays | fielddeck/analysis/convert.py:966-973 | count, address, kind and payload of a record byte by byte, a payload that stops short included; the checksum is good if and only if it is the two's complement of the sum of the others |
| IntelHex.MergeSpans | fielddeck/analysis/convert.py:1007-1016 | the loop over sorted spans returns segments in order and strictly apart that cover exactly the addresses of the spans |
| IntelHex.MergeIsSeparatedCover | fielddeck/analysis/convert.py:1007-1016 | segments are in order and strictly apart, and cover exactly the addresses of the spans |
| IntelHex.MergeIgnoresOrder | fielddeck/analysis/convert.py:1010 | the result does not depend on the order of the spans |
| IntelHex.MergeIsIdempotent | fielddeck/analysis/convert.py:1007-1016 | merging segments again changes nothing |
| IntelHex.CoverDetermines | fielddeck/analysis/convert.py:1007-1016 | non-empty segments that are apart are determined by the addresses they cover |
| IntelHex.MergedTotal | fielddeck/analysis/convert.py:1007-1016 | segments hold no more bytes than the spans claim |
| IntelHex.ParseNative | fielddeck/analysis/convert.py:936-1004 | refuses with the first faulty line, or reports counts, segments, extent, entry point and EOF of the records |
| IntelHex.ParseFirmware | fielddeck/debug/firmware.py:78-131 | refuses with the first faulty line, or reports counts, least start, greatest end, the span between them and entry point of the records |
| IntelHex.ReadersAgree | fielddeck/debug/firmware.py:78-131 | both readers refuse the same files for the same fault, and agree on records, data bytes, start, end, entry point and bad checksums of the others |
| IntelHexFiles.FileIsRead | fielddeck/debug/firmware.py:78-131 | of every file of segment and linear blocks as programs write it both readers report the addresses its pieces cover, their number, the least and the greatest, the entry point and no bad checksum |
| IntelHexFiles.OnePieceIsRead | fielddeck/analysis/convert.py:966-995 | a piece at offset a behind a linear record h stands at 65536·h + a, behind a segment record at 16·h + a |
| IntelHex.MergedSpanning | fielddeck/analysis/convert.py:986-995 | first start and last end of the segments are the least start and greatest end of the spans |
| Numbers.RoundTrip | fielddeck/analysis/convert.py:160-266 | parsing undoes printing in base 2, 8, 10 and 16 for every integer, base forced or not, and refuses exactly renderings over 2048 characters |
| Numbers.WidthRoundTrip | fielddeck/analysis/convert.py:253-266 | with a width the rendering parses to n mod 2^width |
| Numbers.WidthIsExact | fielddeck/analysis/convert.py:261-263 | a rendering with a width has exactly the digits that many bits take |
| Text.SpacesListed | fielddeck/analysis/convert.py:161 | what `strip` takes off are the twenty-nine code points that are white space to Python |
| NumberTexts.CaseIgnored | fielddeck/analysis/convert.py:171-199 | any text and its lower-case form parse alike |
| NumberTexts.GapIgnored | fielddeck/analysis/convert.py:160-168 | a space or an underscore put in anywhere changes nothing |
| NumberTexts.ForcedBase | fielddeck/analysis/convert.py:185-186 | with a base from 2 to 36 a text without signs and prefix is its value if every character is a digit of it, and refused if one is not; with any other base it is refused |
| NumberTexts.PrefixIsRead | fielddeck/analysis/convert.py:186-188 | 0x, 0o and 0b in either case name the base, and may stand with that base forced |
| NumberTexts.BareIsDecimal | fielddeck/analysis/convert.py:189-192 | with no base and no prefix a number is decimal, zeros in front included |
| NumberTexts.BaseZero | fielddeck/analysis/convert.py:185-186 | base 0 reads as no base does, but refuses zeros in front |
| NumberTexts.SignsRead | fielddeck/analysis/convert.py:182-199 | a minus negates, a plus does nothing, a second minus undoes the first; a prefix behind a second sign or a plus is refused unless its base is forced |
| NumberTexts.NothingIsRead | fielddeck/analysis/convert.py:160-181 | blanks and gaps alone are no number; more than 2048 characters without them are too long |
| NumberTexts.WrittenAs | fielddeck/analysis/convert.py:246-266 | sign, prefix and digits of a rendering without a width |
| NumberTexts.DigitsWritten | fielddeck/analysis/convert.py:260-266 | digits are upper-case and the first is not 0 except for zero itself |
| NumberTexts.DigitsInOrder | fielddeck/analysis/convert.py:185-192 | which characters stand for 0 to 35, in either case, and that no other does |
| NumberTexts.Refusals | fielddeck/analysis/convert.py:252-257 | a rendering is refused for a base other than 2, 8, 10 and 16 or a width that is not positive, and for nothing else |
| NumberTexts.ColumnsMeans | fielddeck/analysis/convert.py:261-263 | the digits of a width are as few as hold its bits |
| Events.Subscription.Offer | fielddeck/daemon/events.py:53-68 | an unwanted event or a closed queue changes nothing; a full queue loses its oldest event and counts it |
| Events.Subscription.Get | fielddeck/daemon/events.py:70-71 | takes the oldest queued event |
| Events.EventBus.Publish | fielddeck/daemon/events.py:102-113 | offers the event once to every subscription, keeps the newest history, counts it |
| Events.EventBus.Subscribe | fielddeck/daemon/events.py:127-136 | a new subscription is empty, open and last in the bus; no types at all means every type |
| Events.EventBus.Close | fielddeck/daemon/events.py:73-75 | a closed subscription takes nothing more and leaves the bus, others stay |
| Events.EveryEventAccountedFor | fielddeck/daemon/events.py:48-71 | after any run of publishes and gets the queue is a suffix of the wanted events, delivered then queued is a subsequence of them, and wanted = delivered + queued + dropped; without a bound nothing is dropped |
| Events.WantedCounts | fielddeck/daemon/events.py:48-51 | an event of a type and session asked for is wanted as often as it was published, any other never |
| Events.OnlyWantedArrive | fielddeck/daemon/events.py:48-71 | what is delivered or queued was published, and is of a type and the session asked for |
| Events.DropsWhenFull | fielddeck/daemon/events.py:53-68 | an offer costs the oldest event if and only if it is wanted and the queue holds its positive bound |
| Events.NewestMeans | fielddeck/daemon/events.py:99-104 | the history is the latest of the published events, no fewer than fit |
| SafetyModel.PickSplits | fielddeck/safety/leases.py:145-162 | taking leases splits the table: none is lost, none invented |
| SafetySteps.SweepTakesLapsed | fielddeck/safety/leases.py:145-153 | after a sweep a lease is in the table if and only if it was and its expiry is still to come; exactly the devices of the others have a new generation and are being driven safe |
| SafetySteps.DisconnectTakesItsOwn | fielddeck/daemon/service.py:378-400 | the same of a lost client: the leases of its connection go and no other |
| SafetySteps.ReleaseTakesIt | fielddeck/daemon/service.py:577-586 | the same of a release: the lease of that id goes and no other |
| SafetySteps.EstopTakesAll | fielddeck/daemon/service.py:517-530 | a stop latches, empties the table and drives every device safe |
| SafetySteps.BeginMeans | fielddeck/daemon/dispatcher.py:205-289 | exactly when a call begins, and the lease an energising one takes: its device, action, client, and an expiry `ttl` from now |
| SafetySteps.ReturnMeans | fielddeck/daemon/dispatcher.py:531-648 | an overtaken call loses its own lease and its device is driven safe; any other keeps the table but for the living leases of its device and action, if it switched off |
| SafetySteps.EndMeans | fielddeck/daemon/dispatcher.py:297-300 | a call that fails or is over gives up its own lease and no other; a cancelled one takes its safe state along |
| SafetySteps.RenewMeans | fielddeck/safety/leases.py:63-126 | the holder's living lease expires the lesser of the time asked and its own from now; in every other case nothing changes |
| SafetySteps.CancelMeans | fielddeck/daemon/rpc.py:176-185 | a safe state that no overtaken call waits for can be cancelled on its own, and leaves all else as it was |
| SafetySteps.WaitMeans | fielddeck/daemon/dispatcher.py:637-678 | an overtaken call fails only once its safe state is over, a safe state is published only once all its drivers are back |
| SafetySteps.PublishedLines | fielddeck/daemon/dispatcher.py:731-793 | the lines put on the timeline are one for each device of the safe state, safe if and only if its driver returned and what it returned holds no error: not if it raised, timed out or reported one |
| SafetyInvariant.StepKeeps | fielddeck/daemon/dispatcher.py:239-303 | every step keeps the invariant: one state-changing call a device, no lease under a latched ESTOP, a call no safe state has overtaken still owns its lease, generations bound every safe state and verdict, and each safe state is in flight or in the log but once |
| SafetyInvariant.FreshNotDriven | fielddeck/daemon/dispatcher.py:724-729 | a call that is not overtaken after a safe state begins is on none of its devices |
| SafetyInvariant.VerdictsListed | fielddeck/daemon/dispatcher.py:731-793 | a finished safe state publishes one line per device, safe exactly if its driver returned without an error; the generation in it is the model's note and is not published |
| SafetyTheorems.RunInv | fielddeck/daemon/dispatcher.py:239-303 | every state of every run satisfies that invariant |
| SafetyTheorems.GenerationMarksSafeState | fielddeck/daemon/dispatcher.py:724-729 | a device's generation moves in a step if and only if a new safe state over that device goes into flight |
| SafetyTheorems.OkMeansUndisturbed | fielddeck/daemon/dispatcher.py:604-645 | in every run, a call that returns ok saw no safe state of its device begin since it was authorized; an energising one still has its lease in the table and ESTOP is not latched |
| SafetyCoverage.ReclaimCovers | fielddeck/daemon/service.py:378-400 | taking leases away leaves every output accounted for |
| SafetyCoverage.EstopCovers | fielddeck/daemon/service.py:517-530 | after an emergency stop's first stretch every output is accounted for, whatever was before |
| SafetyCoverage.PublishCovers | fielddeck/daemon/dispatcher.py:767-793 | publishing a safe state's verdicts leaves every output accounted for, whatever its drivers reported |
| SafetyExposure.RaiseCovers | fielddeck/daemon/dispatcher.py:297-300 | the end of a failed call leaves outputs accounted for if and only if it had not switched on, or another lease or safe state accounts for its device |
| SafetyExposure.LateIff | fielddeck/daemon/dispatcher.py:424-441 | as a helper of `StepCovers`, the accounting itself read before the write: a write that lands after its call ended keeps it if and only if it switches off or something accounts for its channel anyway |
| SafetyExposure.RevertCovers | fielddeck/daemon/dispatcher.py:637-648 | an overtaken call leaves outputs accounted for whatever its handler did |
| SafetyExposure.OffReturnIff | fielddeck/daemon/dispatcher.py:531-572 | switching off leaves outputs accounted for if and only if the device is all off, or a lease of another action or a safe state accounts for the rest |
| SafetyExposure.ForgetIff | fielddeck/daemon/dispatcher.py:766-767 | cancelling a safe state leaves outputs accounted for if and only if no device depended on it |
| SafetyExposure.DriverReturnIff | fielddeck/daemon/dispatcher.py:731-768 | a driver that is back leaves outputs accounted for if and only if it raised, timed out or reported an error, or its device was overtaken, is off, held or being driven |
| SafetyExposure.StepCovers | fielddeck/daemon/dispatcher.py:239-320 | from an accounted state a step leads to an accounted state if and only if its guard holds, for every kind of step |
| SafetyExposure.InitialCovered | fielddeck/daemon/service.py:178-179 | whatever is on when the daemon starts, its start-up safe state accounts for it before any driver is back |
| SafetyExposure.AccountedIffBenign | fielddeck/daemon/dispatcher.py:239-320 | a run from start-up, whatever was on then, is accounted for throughout if and only if each of its steps meets its guard |
| SafetyOrdinary.OffStep | fielddeck/daemon/dispatcher.py:378-398 | unless a late write switches on, what a handler has switched off stays off until its call ends |
| SafetyOrdinary.OrdinarySuffices | fielddeck/drivers/base.py:353-358 | the conditions on handlers and drivers in terms of phases, outcomes and channels: any other step is ordinary |
| SafetyOrdinary.AtMostOne | fielddeck/daemon/dispatcher.py:544-549 | one output a device is at most one channel each |
| SafetyOrdinary.OrdinaryIsBenign | fielddeck/daemon/dispatcher.py:239-320 | with one output a device, every step that meets the conditions on handlers and drivers meets its guard |
| SafetyOrdinary.EveryOutputAccountedFor | fielddeck/daemon/dispatcher.py:680-796 | with one output a device, no raise after and no late write switching on, no cancelled safe state and honest drivers, every output is accounted for in every state from start-up on, whatever was on then; with ESTOP latched and nothing in flight each device is off or reported not safed |
| SafetyTimeline.PublishKeepsNewest | fielddeck/daemon/dispatcher.py:767-793 | publishing keeps the last line on a device the newest if and only if every line on it is about an older safe state |
| SafetyTimeline.StepKeepsNewest | fielddeck/daemon/dispatcher.py:767-793 | no other step can change that |
| SafetyTimeline.NewestIffOrderly | fielddeck/daemon/dispatcher.py:680-796 | throughout a run the last line on a device is the newest if and only if its safe states are published in turn |
| SafetyTimeline.LastLineTells | fielddeck/daemon/service.py:517-547 | in an accounted state under ESTOP with nothing in flight, a last line that is the newest and says safe means the device is off |
| SafetyTimeline.TimelineCanBeRead | fielddeck/daemon/dispatcher.py:680-796 | the same at the end of every run from start-up, whatever was on then, whose steps meet their guards and whose safe states of the device are published in turn |
| SafetyScenarios.RaiseAfterSwitchingOn | fielddeck/daemon/dispatcher.py:297-300 | a run whose last step fails its guard and leaves an output on with no lease, call, safe state or verdict |
| SafetyScenarios.WriteAfterTheCall | fielddeck/daemon/dispatcher.py:424-441 | the same by a write that lands after its call, under a latched stop with every verdict safe |
| SafetyScenarios.DriverVouchesWrongly | fielddeck/daemon/dispatcher.py:767 | the same by a driver that fails and reports no error; the stop ends with every verdict safe and the output on |
| SafetyScenarios.StartUpVouchesWrongly | fielddeck/daemon/service.py:178-179 | the same driver at start-up: an output that was on stays on, with "safe" on record before any client has called |
| SafetyScenarios.OneOffReleasesBoth | fielddeck/daemon/dispatcher.py:544-549 | a run in which switching one channel off leaves the other on without a lease |
| SafetyScenarios.CancelledRevert | fielddeck/daemon/rpc.py:176-185 | a run under a latched stop in which cancelling an overtaken call cancels its safe state and leaves the output on |
| SafetyScenarios.CancelledStop | fielddeck/daemon/rpc.py:176-185 | a run in which the client that asked for the stop goes away, which cancels the stop's own safe state and leaves the output on under a latched stop with no lease |
| SafetyScenarios.LastVerdictMisleads | fielddeck/daemon/dispatcher.py:766-793 | a safe state published out of turn, after which the last line on a device says safe while its output is on |
| SafetyLeases.LeaseManager.Acquire | fielddeck/safety/leases.py:34-61 | a positive TTL adds one lease, any other is refused |
| SafetyLeases.LeaseManager.Renew | fielddeck/safety/leases.py:63-126 | succeeds exactly for the holder of a living lease, and never lengthens the interval |
| SafetyLeases.LeaseManager.Release | fielddeck/safety/leases.py:128-133 | takes that lease and no other |
| SafetyLeases.LeaseManager.Sweep | fielddeck/safety/leases.py:145-153 | takes exactly the lapsed leases, in order |
| SafetyLeases.LeaseManager.TakeForConnection | fielddeck/safety/leases.py:155-162 | takes exactly the leases of that connection, in order |
| SafetyLeases.LeaseManager.TakeAll | fielddeck/safety/leases.py:164-168 | empties the table |
| SafetyLeases.LeaseManager.ReleaseOutput | fielddeck/daemon/dispatcher.py:544-549 | releases every active lease of the device and action |
| SafetyLeases.EstopController.Engage | fielddeck/safety/estop.py:50-62 | latches, and keeps the first reason |
| SafetyLeases.EstopController.Acknowledge | fielddeck/safety/estop.py:64-75 | clears the latch for a source that may create grants and for no other |
| SafetyDaemon.Daemon.ApplySafeState | fielddeck/daemon/dispatcher.py:699-729 | the first stretch selects registered drivers in order and bumps each generation once |
| SafetyDaemon.Daemon.constructor | fielddeck/daemon/service.py:167-179 | start-up ends in a state the runs begin with, whatever is on: every device is being driven safe |
| SafetyDaemon.Daemon.Execute | fielddeck/daemon/dispatcher.py:205-289 | authorization, device lock and lease take the state exactly one Begin step; a refused call changes nothing |
| SafetyDaemon.Daemon.HandlerReturned | fielddeck/daemon/dispatcher.py:290-320 | an overtaken call is reverted, any other ends with its leases as the model says; ok exactly when not overtaken |
| SafetyDaemon.Daemon.CallFailed | fielddeck/daemon/dispatcher.py:297-300 | the lease is given back and the lock released |
| SafetyDaemon.Daemon.HandlerRaised | fielddeck/daemon/dispatcher.py:424-441 | one HandlerRaise step, with what its worker thread still has to write |
| SafetyDaemon.Daemon.RevertOver | fielddeck/daemon/dispatcher.py:650-678 | one RevertDone step: the lease of an overtaken call is released once more, which finds nothing |
| SafetyDaemon.Daemon.DriverReturned | fielddeck/daemon/dispatcher.py:731-768 | one SafeReturn step |
| SafetyDaemon.Daemon.SafetySweep | fielddeck/daemon/service.py:335-340 | lapsed leases go and their devices are driven safe |
| SafetyDaemon.Daemon.OnDisconnect | fielddeck/daemon/service.py:378-400 | the leases of a lost client go and their devices are driven safe |
| SafetyDaemon.Daemon.LeaseRelease | fielddeck/daemon/service.py:577-586 | the lease goes and its device is driven safe |
| SafetyDaemon.Daemon.LeaseRenew | fielddeck/daemon/service.py:556-575 | one Renew step |
| SafetyDaemon.Daemon.EmergencyStop | fielddeck/daemon/service.py:517-530 | the latch is set, every lease is taken and every driver's generation moves, in one stretch |
| SafetyDaemon.Daemon.EstopClear | fielddeck/daemon/service.py:549-554 | one Acknowledge step, or nothing |
| SafetyDaemon.Daemon.ListVerdicts | fielddeck/daemon/dispatcher.py:767-793 | one line per device, in registry order, safe exactly if its driver returned without an error |
| SafetyDaemon.Daemon.PublishSafeState | fielddeck/daemon/dispatcher.py:767-796 | one SafePublish step |

## Left out

- Sockets, RPC transport, CLI, HMI, MCP, logging, event payloads and messages: input and output.
- VISA, SCPI, sigrok, cameras and flash tools: only "a handler writes its output" and "a driver clears channels and succeeds or fails" remain of them.
- Devices that are lost or discovered while the daemon runs (`_surrender_leases_for_lost_device`), and what start-up does before its safe state, and shutdown: the registry is fixed.
- Arm grants, limits and denied permissions: one bit of a request. Their expiry between authorization and return changes nothing the protocol looks at.
- Clocks and timeouts: time passes in steps of any length; a timeout is a handler that raises or a driver that fails. Lease times are whole numbers rather than float seconds times 10^9.
- SafetyLeases.LeaseManager.ReleaseOutput: does not return the released leases in order of expiry, because the caller only asks whether there were any.
- SafetyDaemon.Daemon.Execute: does not model validation, previews, captures and events, which change no lease, lock or generation; a driver lock is a set of devices.
- SafetyDaemon.Daemon.RevertOver: the release that finds nothing is announced a second time by the code; announcements of leases are not modelled.
- SafetyDaemon.Daemon.EmergencyStop: does not model the reply (`all_devices_safe`, `devices_not_safed`), which repeats the safe bits of the published lines.
- SafetyInvariant.VerdictsListed: message, reason, severity and the driver's own outcome are left out of a line.
- Events.EventBus.Publish: does not call sinks, and `recent` and `stats` are left out; waiting in `get` is a step that does not happen.
- Events.Subscription.Offer: the second QueueFull branch cannot be taken by a queue within its bound and is not written.
- ModbusWalk.Detect: address, function and exception counters, names and previews are left out; the scan limit is not negative.
- LengthPrefix.TryLengthPrefix: the coverage ratio is left as consumed bytes; the overhead is not negative, as in the one caller.
- IntelHex.ParseFirmware: as ParseNative, lines are given as a list and addresses are numbers.
- IntelHex.ParseNative: lines are given as a list, since `splitlines` is Python's; hexadecimal formatting of addresses and the optional `intelhex` package are left out.
- Numbers.RoundTrip: Python's `int` is modelled for ASCII digits; CPython's own limit of 4300 decimal digits on printing is not modelled.
- `number_candidates`, unit conversion, float readings, entropy, jitter and hypothesis scores: rounding, or easy members.
- `split_on_header` with an explicit length: its frames may overlap, so no conservation law holds.
