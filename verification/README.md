# fastproto: a verified model of the protobuf codec

fastproto turns the bytes of a `DescriptorProto` into a compiled descriptor, and with it
encodes Python dataclasses to protobuf wire bytes and decodes them back. This project
models that path in Dafny and proves what it is supposed to guarantee. Check it with
`dafny verify dfyconfig.toml`.

The model has two sides.

*What the operations mean*, as functions: the wire format (`Wire`), streams as sequences of
records (`Records`), the compositional encoder (`Encoding`), the decoder as routing plus
per-field accumulation (`Decoding`), time conversions (`WellKnown`), the interpretation of
descriptors (`Parsing`), dicts (`Dicts`).

*How the code does it*, as classes and methods that update state in place, each proved equal
to its meaning: a cursor and a buffer whose length slots are patched by shifting bytes
(`WireIO`), the encoder that writes nested messages in place and rolls back empty packed
fields (`Encoder`), the record loop with slots, oneof owners and unknown bytes (`Decoder`),
the descriptor parser (`Parser`), the field lookup (`FieldIndexing`), write-once linking
(`Linking`), the two ways of building an instance (`Construction`), enum tables
(`EnumTables`).

The theorems are about the meanings, so they hold of the methods too:

- `RoundTrip`: a well-typed message that encodes decodes to itself, unknown bytes included.
- `Scalars`, `Defaults`, `Refusals`, `Interpreting`, `Declared`, `Unicode`, `Calendar`: the meaning of every
  single value in figures, apart from the functions that compute it: which values a field takes
  and which payloads carry them, what the defaults are, what descriptor codes mean, what text and
  time ranges are.
- `Accepted`: the invariant of the decode loop; exactly when a message encodes; what is
  decoded from any bytes re-encodes and is stable, with the exact exception.
- `Meaning`, `Merging`: the record loop has a declarative meaning, a list depends only on the
  bytes of its elements and not on how they are packed, and concatenating two inputs merges
  their messages.
- `Parsing`, `Interleaving`: every parsed descriptor is well formed, and parsing does not
  depend on how records of different numbers are interleaved, at any of its three levels.
- `Describing`: every well-formed descriptor can be written as a `DescriptorProto` that
  parses back to it.
- `HeapEncoding`, `ObjectGraphs`: the encoder on a heap of objects, cyclic or not, and exactly
  when it hits the nesting limit.
- `LinkGaps`, `LinkedDecoding`: linking succeeds exactly when everything reachable resolves,
  after that no input meets an unlinked class; and at any moment, exactly when some input does.
- `ProgramRuns`: any number of calls of `from_bytes` on a whole program, step by step in any
  order: what holds at every moment, when a race shows and for which classes it can, and what is
  left when all are through. `Concurrency`: the cells of one descriptor under any number of
  `link` calls, and readers that agree as long as the classes below it do not change.
- `Construction`, `Dicts`: the fast construction path builds what `__init__` builds, generated
  classes get the proto3 defaults on both, and `from_dict(to_dict(x)) == x`. `DictForms`: what
  both conversions give on any input.
- `Examples`: the self-referential message of the test protos as a concrete world in which the
  premises of the theorems hold, and a message that shows where re-encoding fails.
  `LinkingExamples`: a program whose calls race, and one whose link fails below its class.

A message is a tree of values: integers, bit patterns for floats, UTF-8 bytes for text,
microsecond counts for times, lists, insertion-ordered maps, optional nested messages, and a
string of unknown bytes. A `World` maps class ids to compiled classes, so class graphs may be
cyclic. Integer widths, casts and wrap-around are written out.

## Where the promise does not hold as written

- `tests/test_fuzz.py:68-76` wants what decodes to encode again. For the message it fuzzes,
  which has no Duration, that holds; as a rule for all messages it fails. The range tests of
  Durations use `abs`, which wraps at the minimum in a release build
  (`src/wellknown/mod.rs:71`, `:83`), so one shape of Duration is accepted and then refused
  by the encoder. `Examples.WrappingIsNotReencoded` gives a message,
  `Accepted.ReencodeDecoded` the exact condition: no timedelta of one of two values
  (`WellKnown.DecodedSpanInRange`), which only that shape decodes to
  (`WellKnown.AcceptedSpan`).
- `_ensure_linked` marks a class linked before its targets are
  (`python/fastproto/__init__.py:265-269`). If a name below it cannot be resolved, the class
  stays linked next to an unlinked one (`LinkedDecoding.FailureLeavesGap`), a later call on it
  changes nothing (`Linking.EnsureLinked`), and if the way down goes through message fields, some
  input to the class now fails with a link error instead of the resolution error
  (`LinkedDecoding.FailureShows`, and `LinkingExamples.FailedLink` for a program that does so).
  `LinkedDecoding.ProgramGapIsExact` says for which classes that is so, in every state.
- For the same reason first calls can race, although `tests/test_concurrency.py:4-6` wants
  them neither to fail nor to corrupt the result, which holds for the class it tries, one without
  nested messages. Between a class's flag and its targets another call finds the class linked,
  decodes, and meets an unlinked class below: a link error on input that decodes a moment later.
  `LinkingExamples.RaceIsSeen` is a program where every name resolves and this happens;
  `ProgramRuns.RaceIsExact` says for which classes it can, from the descriptors alone: those
  whose instances hold instances of another class with message fields.
  `ProgramRuns.RunGapIsExact` says at which moments, `ProgramRuns.RunIsSteady` that outside them
  every result is the final one, and `ProgramRuns.QuietRun` that the window closes for good. An
  unlinked class also leaves enum values raw numbers, equal to the members they would be
  (`EnumTables.UnlinkedEnum`).
- The Protocol Buffers encoding guide merges repeated occurrences of a nested message; this
  decoder replaces them, as its README says. The model follows the code
  (`Meaning.LastOneWins`, `Merging.MergedSlot`).

## Model

| member | source | states |
|---|---|---|
| Wire.ReadVarintAccepts | src/wire/mod.rs:75-93 | a varint is read exactly from a run of at most ten bytes that ends in the first byte without continuation bit, and its value is the sum of the 7-bit digits times their powers of 128, modulo 2^64 |
| Wire.VarintRoundTrip | src/wire/mod.rs:171-192 | every u64 written and followed by anything reads back as itself, consuming exactly what was written |
| Wire.WriteVarintIsShortest | src/wire/mod.rs:171-192 | re-writing what was read never takes more bytes than were read, for every accepted encoding, the ten-byte ones whose value wraps modulo 2^64 included |
| Wire.VarintLenIsExact | src/wire/mod.rs:195-198 | the length computed from the bit count is the length written, for all u64 |
| Wire.ZigzagIsBijective | src/wire/mod.rs:255-272 | the shift-and-xor encoders and decoders, 32 and 64 bits wide, are inverse in both directions and stay within the ranges of their width |
| Wire.ZigzagEncodes | src/wire/mod.rs:255-267 | on the signed values of each width the shifts and the sign mask compute the numbering 0, -1, 1, -2, 2, ... of the Encoding guide |
| Wire.ZigzagDecodes | src/wire/mod.rs:259-272 | and the decoders compute its inverse on every unsigned value of the width |
| Wire.TagsAccepted | src/wire/mod.rs:96-106 | tags are the varints from 8 up to 2^32 with low bits 0, 1, 2 or 5, which mean varint, eight bytes, length-delimited and four bytes; the rest is the number; other low bits are refused before other numbers |
| Wire.FixedLayout | src/wire/mod.rs:109-131 | fixed-width payloads are four and eight bytes, the least significant first, and an error on less |
| Wire.RecordRoundTrip | src/wire/mod.rs:96-142 | a written tag and payload in front of any stream read back as the same number, wire type and payload |
| Wire.ReadRecordIsLocal | src/wire/mod.rs:75-161 | what a reader returns depends only on the bytes it consumed |
| Records.ScanIsUnique | src/wire/mod.rs:70-72 | a stream splits into consecutive records in exactly one way: the one the reader finds |
| Records.ScanAppend | src/wire/mod.rs:75-161 | the records of a concatenation are the records of its parts |
| WireIO.Reader.ReadVarint | src/wire/mod.rs:75-93 | the cursor loop returns the value or error of the pure reader and advances by what was used; bits beyond 64 are lost |
| WireIO.Reader.ReadTag | src/wire/mod.rs:96-106 | tags with field number 0 or above 2^29-1 or an unknown wire type are refused, others split into number and wire type |
| WireIO.Reader.ReadLenDelimited | src/wire/mod.rs:133-142 | the payload is the announced number of bytes, or an error if the input is shorter |
| WireIO.Reader.Skip | src/wire/mod.rs:145-161 | skipping consumes exactly the payload a read would, and fails exactly when the read fails |
| WireIO.Buffer.WriteVarint | src/wire/mod.rs:171-192 | the scratch-space writer appends exactly the varint and leaves the rest of the buffer alone |
| WireIO.Buffer.FinishLenPrefix | src/wire/mod.rs:227-252 | patching a reserved length slot, shifting the payload when the length needs more than one byte, yields the bytes of a length-delimited write, and nothing in front of the slot changes |
| FieldIndexing.Dedup | src/descriptor/mod.rs:183-192 | of a sorted list, exactly the lowest index of every number stays, in increasing order |
| FieldIndexing.Build | src/descriptor/mod.rs:168-208 | for every field list and every queried number, duplicates and zero included, the built index answers like a linear scan for the first match |
| Parsing.NestedName | src/parse/mod.rs:146-155 | a nested type is identified by the last and the last but one part of its qualified name |
| Parsing.ParsedIsWellFormed | src/parse/mod.rs:78-103 | every descriptor that parses has oneof indices in range, maps single and in no oneof, singles only scalar or enum and in no oneof |
| Parsing.SyntheticIndexIgnored | src/parse/mod.rs:315-319 | what a field that carries the proto3 `optional` flag means does not depend on the index of its synthetic oneof |
| Interpreting.InterpretedField | src/parse/mod.rs:268-343 | interpretation in figures: label 3 accumulates, as a map if the type is an entry nested in this message; presence comes with the flag, a message or time, or a real oneof; a missing type and type 10 are refused |
| Interpreting.KindIsMeant | src/parse/mod.rs:294-312 | type 14 is an enum, 11 a message or, by its exact name, Timestamp or Duration, the scalar codes are scalars, every other code is refused |
| Interpreting.ScalarCodesAre | src/parse/mod.rs:115-134 | the type code of every scalar |
| Interpreting.ClassIsNamed | src/parse/mod.rs:153-156 | the class of an enum or message is named without the leading dot, and a time needs none |
| Interpreting.EntryHalves | src/parse/mod.rs:236-265 | a nested type is a map entry exactly if its options say so, and a missing half is a string |
| Declared.FieldSays | src/parse/mod.rs:169-187 | what any bytes of a field descriptor say: the last record of each number counts, by the number and wire type it has; they parse exactly if they are whole records and both names are text |
| Declared.NestedSays | src/parse/mod.rs:197-266 | the same of a nested type: its last fields numbered 1 and 2 are key and value, and the last word of all its options makes it a map entry |
| Declared.MessageSays | src/parse/mod.rs:42-103 | the same of a message: every field is what its own payload declares next to the entry types of the message, in no oneof if its index points nowhere; a message parses exactly if all of its parts do |
| Unicode.ValidIsText | src/parse/mod.rs:136-142 | text is accepted exactly if it is the UTF-8 encoding of a sequence of Unicode characters |
| Unicode.ParsedNamesAreText | src/parse/mod.rs:49-76 | the names of a parsed message, its fields and its oneofs are such text |
| Parsing.ParsedDeclarations | src/parse/mod.rs:49-81 | fields and oneof groups come out one per declaring record, in order, with the number and names given there |
| Parsing.ParseIgnoresInterleaving | src/parse/mod.rs:42-103 | interleaving records of different numbers differently, in the message, in its fields, oneofs and nested types and inside those, never changes the outcome |
| Describing.DescriptorRoundTrip | src/parse/mod.rs:42-343 | every well-formed descriptor with ordinary names is what the description `protoc` writes for it parses to, with every presence-only field carrying the flag and any synthetic oneof index: types, labels, oneofs and map entries |
| Describing.RawFieldRoundTrip | src/parse/mod.rs:169-186 | a written FieldDescriptorProto is read back completely |
| Describing.EntryRoundTrip | src/parse/mod.rs:197-265 | a written map entry type is recognised with its key type, value kind and value type name |
| Interleaving.FoldIgnoresInterleaving | src/parse/mod.rs:49-76 | a record loop whose steps commute across field numbers gives the same result for every interleaving of like records |
| Parser.ReadRawField | src/parse/mod.rs:169-186 | the loop over a FieldDescriptorProto computes the fold of its records, errors in stream order |
| Parser.ReadNested | src/parse/mod.rs:197-265 | the loop over a nested type, with its option loop, computes what the records say about a map entry |
| Parser.ReadDraft | src/parse/mod.rs:42-76 | the message loop collects raw fields, map entries by name and oneof names as the fold of its records |
| Parser.InterpretFields | src/parse/mod.rs:78-81 | interpretation goes in order and stops at the first field that cannot be interpreted |
| Parser.Compile | src/message/mod.rs:306-325 | compiling yields the parsed, well-formed descriptor with a lookup equal to a linear scan, not yet linked |
| WellKnown.InstantRoundTrip | src/wellknown/mod.rs:36-63 | a datetime survives parts and back exactly when it lies in the UTC range of Timestamps |
| WellKnown.InstantParts | src/wellknown/mod.rs:36-49 | nanoseconds are between 0 and 999999999 by Euclidean division and nothing is lost |
| WellKnown.AcceptedInstant | src/wellknown/mod.rs:52-63 | accepted Timestamp parts lose only the nanoseconds below a microsecond, and re-encoding is stable |
| WellKnown.SpanParts | src/wellknown/mod.rs:66-75 | Duration parts share the sign of the whole and lose nothing; encoding succeeds exactly within the Duration range |
| WellKnown.SpanRoundTrip | src/wellknown/mod.rs:66-87 | a timedelta the encoder takes decodes to itself |
| WellKnown.AcceptedSpan | src/wellknown/mod.rs:78-87 | accepted Duration parts lose less than a microsecond, decode within the range of `timedelta`, and encode again, stably, exactly unless their nanoseconds are the minimum that slips past the wrapping `abs` with seconds at the lower end of the range |
| WellKnown.DecodedSpanInRange | src/wellknown/mod.rs:78-87 | a decoded timedelta is out of the range of Durations exactly when it is one of two microsecond counts |
| WellKnown.WrappingSpanIsAccepted | src/wellknown/mod.rs:83-84 | parts the decoder accepts and the encoder refuses |
| WellKnown.DecodedPartsAreValid | src/wellknown/mod.rs:102-114 | whatever the bytes, decoded seconds fit an i64 and nanoseconds an i32, so the exact condition above covers every input |
| WellKnown.PartsRoundTrip | src/wellknown/mod.rs:90-114 | seconds and nanoseconds written to the wire, zeros omitted, read back unchanged |
| Calendar.InstantsAreYears | src/wellknown/mod.rs:29-30 | timestamps are the moments of the years 1 to 9999 of the Gregorian calendar |
| Calendar.SpansAreYears | src/wellknown/mod.rs:31 | durations reach ten thousand years of 365.25 days either way |
| Calendar.PartsCountSeconds | src/wellknown/mod.rs:36-75 | parts count whole seconds and the nanoseconds of the rest, both with the sign of the whole for durations |
| Calendar.PartsSay | src/wellknown/mod.rs:102-114 | seconds are the last varint numbered 1, nanoseconds the last numbered 2 cut to 32 bits, both zero without one |
| Calendar.InstantsRefused | src/wellknown/mod.rs:52-63 | a timestamp is refused exactly if it lies outside the years 1 to 9999 or its nanoseconds are no fraction of a second |
| Calendar.SpansRefused | src/wellknown/mod.rs:78-87 | which durations are refused, and which of them only because no timedelta is that long: those whose seconds wrap |
| Encoder.PutMessage | src/encode/mod.rs:24-111 | the in-place encoder leaves what the buffer held untouched and appends exactly the compositional encoding, or fails with the same error |
| Encoder.PutSingle | src/encode/mod.rs:135-209 | one value behind its tag: a nested message or time encoded in place behind a reserved slot that is then patched comes out as the tagged, length-delimited record, other values as the tagged payload |
| Encoder.PutRepeated | src/encode/mod.rs:238-319 | packable values go out as one length-delimited record and an empty list rolls back to the buffer as it was; other values go out as one record each |
| Encoder.PutMap | src/encode/mod.rs:322-371 | one entry record per item in insertion order, key and value always written |
| Encoder.PutFields | src/encode/mod.rs:53-91 | all fields in order, with counters that equal the saturating number of set members of every oneof |
| Encoder.Encode | src/message/mod.rs:230-240 | encoding from a fresh buffer yields exactly the compositional encoding |
| Decoder.ReadMessage | src/decode/mod.rs:65-232 | the record loop over working slots computes exactly what `DecodeMessage` means, for every input and error |
| Decoder.Turn | src/decode/mod.rs:112-211 | one record goes to its field or, with its raw bytes, to the unknown stream; accumulators are always present when they are used |
| Decoder.Work.ClaimGroup | src/decode/mod.rs:151-157 | a oneof member about to be set takes over the group and clears the previous owner's slot |
| Decoder.ReadRepeated | src/decode/mod.rs:268-332 | packed chunks and single elements append in order; a wrong wire type consumes nothing and is reported |
| Decoder.ReadEntry | src/decode/mod.rs:340-397 | the last key and the last value of the right wire type win, other fields are skipped, missing halves take defaults |
| Decoder.ReadLinked | src/decode/mod.rs:439-459 | nested data decodes one level deeper through the linked class, or fails with the link error |
| Decoder.ReadParts | src/wellknown/mod.rs:102-114 | the loop over a time submessage keeps the last seconds and the last nanoseconds |
| RoundTrip.ValueRoundTrip | src/encode/mod.rs:450-513 | every typed value of every kind decodes from its own payload |
| RoundTrip.ScalarOnTheWire | src/encode/mod.rs:450-513 | the payload of every scalar type in plain arithmetic: congruence for signed integers, interleaved signs for zigzag, bits for floats |
| RoundTrip.NegativeTakesTen | src/encode/mod.rs:450-513 | negative int32 and int64 values are sign-extended and always take ten bytes |
| Scalars.EncodedIsInRange | src/encode/mod.rs:450-513 | a value of any kind is encoded as a scalar exactly if it has the Python type and lies in the range of the scalar, given in figures; otherwise it is refused as of the wrong type, as invalid text or as out of range |
| Scalars.DecodedIsCarried | src/decode/mod.rs:473-552 | every valid payload, canonical or not, decodes to exactly the value it carries by arithmetic: integers modulo the width they are cut to, booleans by being nonzero; only text can fail |
| Scalars.ListsOfNumbersArePacked | src/encode/mod.rs:242-300 | a list of numbers, booleans or enums takes one record at most, any other list one for every element |
| Scalars.FieldAccepts | src/descriptor/mod.rs:41-55 | the wire types a field takes, by its kind |
| RoundTrip.PackedOrNothing | src/encode/mod.rs:256-290 | a packable list becomes one length-delimited record, or none exactly when it is empty |
| RoundTrip.OneofCheckExact | src/encode/mod.rs:94-101 | the check over saturating counters passes exactly when no oneof has two members set |
| RoundTrip.MessageRoundTrip | src/encode/mod.rs:24-111 | a well-typed message that encodes decodes to the same message: nested messages, lists, maps, enums, defaults, times and unknown bytes |
| Typing.DistinctNumbersAreReachable | src/descriptor/mod.rs:152-154 | with distinct legal numbers every field is reachable, so the typing rule for hidden fields asks nothing |
| Accepted.MessageEncodes | src/encode/mod.rs:31-101 | a well-typed message encodes if and only if it is nested at most 100 deep, no oneof has two members set and every timedelta is in range |
| Refusals.MessageIsTaken | src/encode/mod.rs:24-111 | of all messages whatever they are made of, the encoder takes exactly those that are at most 100 levels deep, have values of the right type and range everywhere and at most one member of every oneof |
| Refusals.ConflictIsFirst | src/encode/mod.rs:94-101 | the conflict reported is that of the first oneof with more than one member set, with their number up to 255 |
| Defaults.ZeroIsZeroPayload | src/encode/mod.rs:386-447 | the implicit default of a scalar or enum is the one value whose payload is zero or empty |
| Defaults.SingleIsWritten | src/encode/mod.rs:66-91 | a field without presence writes nothing exactly for that value and one record with its payload otherwise |
| Defaults.AbsentIsDefault | src/decode/mod.rs:213-231 | a field no record of the input concerns is an empty list or dict, None, or the value with the zero payload |
| Defaults.EmptyIsDefault | src/decode/mod.rs:65-232 | the empty input is the message all of whose attributes are such defaults |
| Defaults.MissingKey | src/decode/mod.rs:376-380 | a map entry without a key means what it means with the zero payload written as its key |
| Defaults.MissingHalf | src/decode/mod.rs:381-396 | and one without a value what it means with the zero payload as its value, for scalars, enums, messages and times, errors included |
| Defaults.CapturedIsDefault | python/fastproto/plugin/_render.py:273-333 | the defaults captured for a generated class are these values |
| Accepted.StepKeeps | src/decode/mod.rs:112-211 | every record keeps the loop invariant: accumulators present, slots typed, the recorded owner the only member set in its group, unknown bytes made of unaccepted records |
| Accepted.RunKeeps | src/decode/mod.rs:93-211 | the invariant holds after any input |
| Accepted.DecodedMessage | src/decode/mod.rs:65-232 | whatever decodes is well typed, within the depth limit, and has at most one member set per oneof at every level |
| Accepted.DecodedDepth | src/decode/mod.rs:72-76 | a tree decoded at the top has at most 100 levels of messages below it |
| Accepted.ReencodeDecoded | src/decode/mod.rs:65-232 | a message decoded from any bytes encodes exactly when no timedelta in it is one of the two counts that come from wrapped nanoseconds, and then decodes to the same message again |
| Meaning.DecodedMeaning | src/decode/mod.rs:112-211 | the input is the concatenation of its records, each field is the fold of the records that concern it, unknown is the raw bytes of the unaccepted ones in order |
| Values.PutIsAssignment | src/decode/mod.rs:150-164 | a map key that is there gets the new value in its place, a new one goes to the end, and no other pair changes |
| Meaning.LastOneWins | src/decode/mod.rs:146-211 | a singular field is decided by the last record of its own or of a rival in its oneof; nested messages are replaced |
| Meaning.PackedAndUnpackedAgree | src/decode/mod.rs:268-313 | any cut of a list of values into encoded packed chunks and single records, interleaved with other fields, decodes to that list |
| Meaning.ListIsItsBytes | src/decode/mod.rs:268-313 | on any accepted bytes, minimal or not, a packable list is what unpacking the concatenation of its records' element bytes gives, wherever these are cut into packed and single records |
| Merging.ConcatenationMerges | src/decode/mod.rs:112-211 | decoding x + y merges the states of x and y, or fails exactly as y does |
| Merging.ConcatenatedMessages | src/decode/mod.rs:65-232 | lists append, map keys override, singular fields take the later value, a oneof set later clears the earlier member, unknown bytes append |
| ObjectGraphs.NestingErrorIsExact | src/encode/mod.rs:31-35 | on a heap of otherwise valid objects the encoder that walks the references fails with the nesting error if and only if a path of more than 100 message edges leaves the root, and else succeeds |
| ObjectGraphs.CyclesAreRefused | src/encode/mod.rs:19-24 | an object that can reach itself is refused with the nesting error |
| ObjectGraphs.DeepIsPath | src/encode/mod.rs:186-209 | the recursive depth condition is the existence of an explicit path through fields, list items and map values |
| HeapEncoding.ObjectEncoding | src/encode/mod.rs:24-111 | walking the heap from an object, through shared and cyclic references, gives the bytes or the error of the encoder on the object unfolded to the depth limit |
| Linking.Descriptor.RefFields | src/message/mod.rs:147-166 | the references of a class in declaration order |
| Linking.ReferencesAre | src/message/mod.rs:147-166 | enum and message fields, lists and map values included, refer to the class they name, and no other field does |
| Linking.Descriptor.Link | src/message/mod.rs:200-227 | empty cells are filled, full ones kept, the flag raised; a list of defaults of the wrong length changes nothing |
| Linking.EnsureLinked | python/fastproto/__init__.py:243-269 | ends on every class graph; on success the class and everything newly linked is closed under references and nothing linked before changed; on failure a trail of linked classes leads to the one that cannot be resolved; a class that is linked already, or that fails by itself, leaves every cell as it was; what is linked holds the defaults captured for its class, or none exactly if it must be called |
| LinkedDecoding.StillClosed | python/fastproto/__init__.py:243-269 | from closed linked classes, a completed link leaves everything reachable linked |
| LinkedDecoding.FailureLeavesGap | python/fastproto/__init__.py:264-269 | from closed linked classes, a failed link leaves them closed if and only if it failed at the class itself; below it, the class stays linked and some linked class references an unlinked one |
| LinkedDecoding.FailureShows | src/decode/mod.rs:445-447 | after a link that failed below the class, along message fields within the depth limit, there are bytes whose decoding through the linked class meets a link error |
| LinkedDecoding.ProgramGapIsExact | src/decode/mod.rs:439-459 | at every moment of linking, some bytes meet a link error through a class if and only if a trail of at most 100 message fields leads from it through classes with stored references to one without that has message fields, or to a field that no linking leads to a message class |
| LinkedDecoding.ClosedGapIsMisled | src/decode/mod.rs:439-459 | below closed linked classes there is a gap exactly where fields lead, within the depth limit, to one whose name means an enum or whose number another field has taken |
| LinkedDecoding.SteadyOnceNoGap | src/message/mod.rs:200-227 | linking more never opens a gap, and where none is left the results were the same before, on every input, exactly if there was none before |
| LinkGaps.GapIsExact | src/decode/mod.rs:439-459 | in any world of classes, some bytes meet a link error if and only if message fields that records can reach lead to one that is not linked to a message class, within the depth limit |
| LinkGaps.GapIsMet | src/decode/mod.rs:439-459 | the bytes that lead the decoder there, at most 40 for every level |
| LinkGaps.LinkedMessage | src/decode/mod.rs:439-459 | decoding any bytes through a closed set of classes never reaches the link errors |
| LinkedDecoding.ClosedWorld | src/message/mod.rs:147-166 | cells closed after a completed link make a well-formed world in which everything a linked class references is linked, and every message field refers to a linked message class if names mean message classes |
| LinkedDecoding.FromBytes | python/fastproto/__init__.py:69-75 | in whatever state earlier calls left the classes: linking fails if and only if an unresolvable class is reached through unlinked ones; a class linked before is decoded as it stands and nothing changes; otherwise the result is the decoded message or its error, and link errors need a gap; from closed classes there is one only where fields go astray for good |
| LinkedDecoding.FieldIsLinked | src/message/mod.rs:147-166 | once a class is linked, an enum or message field with a number of its own is linked to what its name means |
| LinkedDecoding.InstanceFromCells | src/decode/mod.rs:213-261 | decoding any bytes through a linked class builds what calling the class builds, whatever its cell holds, and for a generated class the instance with exactly the attributes and unknown bytes of the decoded message |
| Concurrency.EveryRunKeeps | src/message/mod.rs:200-227 | for one descriptor, in every run of any number of `link` calls and readers: who sees the flag sees the references, all readers see the same ones, and written cells never change |
| Concurrency.ReadersAgree | src/decode/mod.rs:213-231 | for one descriptor, while the classes below it do not change: every reader decodes any input to the same instance whatever the interleaving, whether or not it saw the construction context |
| Concurrency.ThreadsGetThrough | src/message/mod.rs:200-227 | nobody waits: at every moment three of its own steps take a linking thread through, and a reader that sees the flag |
| Concurrency.GeneratedIsBuilt | src/decode/mod.rs:213-231 | for a class the plugin generated that instance has exactly the attributes and unknown bytes of the decoded message |
| ProgramRuns.EveryMoment | python/fastproto/__init__.py:243-269 | for a whole program, at every moment of every run of any number of calls: cells are written once, hold what the names mean and the defaults captured for their class, and raise the flag after both; a call decodes only through a linked class and is refused only below an unresolvable name; unless one was refused, what a linked class references is linked or waits to be visited |
| ProgramRuns.RunGapIsExact | src/decode/mod.rs:439-459 | at every moment of every run, some bytes meet a link error through a class if and only if there is a gap below it then |
| ProgramRuns.RunIsSteady | src/message/mod.rs:200-227 | gaps only close, and a decode agrees on every input with a later one that finds no gap exactly if there was none already |
| ProgramRuns.QuietRun | python/fastproto/__init__.py:243-269 | once all calls are through with linking, whatever the interleaving, the linked classes are closed, those of the calls among them, and no input meets a link error where names mean message classes |
| ProgramRuns.NoneRefused | python/fastproto/__init__.py:264 | where every name can be resolved no call is refused |
| ProgramRuns.RaceIsExact | python/fastproto/__init__.py:265-269 | some run lets a call on a class decode at a moment when input meets a link error if and only if instances of the class hold instances of another class with message fields, or a field of its own goes astray for good |
| ProgramRuns.CallGetsThrough | python/fastproto/__init__.py:243-269 | from every moment each call gets through with linking by finitely many steps of its own: none waits for another, also on cyclic class graphs |
| Construction.FastInitDefaults | python/fastproto/__init__.py:198-240 | defaults are returned exactly when the class is a plain generated dataclass and every field has a usable default |
| Construction.ConstructFast | src/decode/mod.rs:240-261 | every attribute is set to the decoded value or the captured default, and the unknown bytes always; instances of a frozen class refuse |
| Construction.ConstructNormal | src/decode/mod.rs:222-231 | calling the class with keyword arguments for what was seen; list, dict and other factories are called for what was not |
| Construction.CallIsExact | src/decode/mod.rs:222-231 | calling a plain dataclass succeeds exactly if every keyword is a field `__init__` takes, every such field without default is given and no factory raises; each field then has its keyword argument or else its default |
| Construction.FastEqualsNormal | python/fastproto/__init__.py:198-240 | whenever defaults are returned, both paths build the same attributes and unknown bytes; calling a class that is not a plain generated dataclass may do anything |
| Construction.DecodeIgnoresFastPath | src/decode/mod.rs:213-231 | so they do for every array of values the decoder can reach on any input |
| Construction.GeneratedDefaults | python/fastproto/plugin/_render.py:273-333 | a rendered class takes the fast path exactly when no zero of a nested enum is left to a factory, and the captured defaults are then the proto3 ones |
| Construction.GeneratedCall | python/fastproto/plugin/_render.py:273-333 | calling a rendered class, deferred zeros included, fills in the proto3 defaults |
| Construction.GeneratedInstance | src/decode/mod.rs:213-231 | decoding any bytes into a class the plugin generated gives an instance with exactly the attributes and unknown bytes of the decoded message, on the fast path or the other |
| EnumTables.BuildTable | src/message/mod.rs:255-303 | the table holds exactly the members with values 0 to 63 |
| EnumTables.CoerceEnum | src/decode/mod.rs:407-436 | table plus mapping answer like the mapping alone for every i32, negative values included |
| EnumTables.CoercionKeepsNumber | src/decode/mod.rs:399-406 | coercing and re-encoding keeps the number, known or not |
| EnumTables.UnlinkedEnum | src/decode/mod.rs:407-436 | without a link a number stays raw: the same number as the member it would be, and the same object exactly if the enum does not know it |
| Examples.ChainRoundTrip | tests/test_tree.py:30-53 | for the self-referential test message, a chain of any number of nodes with any values encodes exactly up to 101 nodes and then decodes to itself |
| Examples.WrappingIsNotReencoded | tests/test_fuzz.py:68-76 | bytes of a message with a Duration field that decode and do not re-encode |
| LinkingExamples.RaceIsSeen | tests/test_concurrency.py:4-6 | two classes with one message field each whose names all resolve, and a racing call on the first can meet a link error |
| LinkingExamples.FailedLink | python/fastproto/__init__.py:264-269 | the same classes with a name that does not resolve: the first link fails, the class stays linked, a second call succeeds, and some input meets a link error |
| Dicts.Rebuild | python/fastproto/_dict.py:51-68 | the keyword arguments are filled item by item and the first unknown key stops the loop |
| DictForms.DictConverts | python/fastproto/_dict.py:51-68 | from any dict: it converts exactly if every key names a field and every value converts; an attribute is the converted value under its name, or the class default exactly if the dict lacks the name; nothing is unknown |
| DictForms.FromValueConverts | python/fastproto/_dict.py:71-105 | the conversion of any value under any annotation: containers element by element, dicts to messages where one is expected, numbers to enum members, anything else unchanged |
| DictForms.ToValueIsDictForm | python/fastproto/_dict.py:31-48 | to_dict replaces messages by dicts of their attributes under their names and leaves every other object as it is, enum members included |
| Dicts.MessageThere | python/fastproto/_dict.py:31-105 | from_dict(cls, to_dict(x)) == x for every tree of objects that fits its annotations: the object that comes back is the same without unknown bytes, with every raw number an enum knows replaced by its member, and Python finds it equal |
| Dicts.CoercedEnum | python/fastproto/_dict.py:92-104 | a member comes back as itself, a raw number the enum knows becomes the member it equals, any other number stays raw |
| Dicts.UnknownKeyRefused | python/fastproto/_dict.py:60-66 | a key that names no field is refused |
| Dicts.DictRoundTrip | python/fastproto/_dict.py:31-105 | for every well-typed message of the codec and the annotations its classes generate, what comes back is the very object that was decoded, unknown bytes aside; decoded enums are members where the enum has one |

## Left out

- RoundTrip.MessageRoundTrip: asks that the encoding is shorter than 2^64 bytes, which no Python object exceeds; the writer would cast a larger length.
- Accepted.ReencodeDecoded: asks the same bound for its last step.
- HeapEncoding.ObjectEncoding: asks that no reference dangles, which Python rules out.
- ObjectGraphs.NestingErrorIsExact: works on a snapshot of the heap; attributes that change while they are read are not modelled.
- LinkedDecoding.FromBytes: asks that the cells hold what linking puts there, as they do from the start; name resolution is a function of class and name, and the search through module namespaces is not modelled.
- Linking.EnsureLinked: every class has its own descriptor; a plain subclass that shares its parent's is not modelled.
- Concurrency.ReadersAgree: the classes below the descriptor stay as they are; `ProgramRuns` says what happens when they do not.
- ProgramRuns.RunIsSteady: a decode reads all cells at one moment; one that overlaps link steps of other threads may see several. The messages compared are the model's, in which enum members are their numbers.
- ProgramRuns.EveryMoment: interleavings are sequentially consistent; memory ordering is not modelled.
- Describing.DescriptorRoundTrip: asks what `protoc` guarantees of names: valid UTF-8, no dot in the message's own name, entry types with distinct names, times referred to only by their own names.
- Construction.FastEqualsNormal: an instance is its attributes and unknown bytes; object identity of default values is not modelled, and a factory gives the same value at every call.
- Construction.CallIsExact: classes that are more than a generated dataclass are an arbitrary function of their keyword arguments.
- Construction.GeneratedCall: an enum has its zero member, as proto3 demands; enum values are their numbers here.
- Dicts.DictRoundTrip: a float in an enum field, which Python compares with members by value, is left as it is.
- Decoder.ReadRepeated: a packed chunk is decoded and then appended at once; the source appends element by element, which differs only in a list that an error discards.
- Python objects before extraction: attribute access, iteration protocols, duck-typed nested values, `bytearray` borrowing. A value of the wrong type is an error value here.
- Floats are bit patterns: narrowing from double, NaN payloads and map keys that are floats (compared here by bits) are not modelled.
- Datetimes are microseconds since the epoch; time zones and naive datetimes are not modelled.
- Enums with a custom `_missing_` hook.
- Debug builds, in which `abs` panics at the minimum instead of wrapping.
- Buffer size hints, stack or heap scratch arrays, interned names: no observable effect.
- `which_oneof`, name validation, and what the protoc plugin renders apart from field defaults: easy or outside the codec.
