# Trace conversion and chunk statistics tools, modelled in Dafny

This project models the core of a set of Go tools for deduplication research:

- **Decoders.** Three decoders turn storage traces into one stream of protocol-buffer messages. Each traced file becomes one `File` message, which announces a chunk count, followed by one `Chunk` message per chunk.
  - `UbcDecoder` reads the multi-line text traces of the UBC file-system study.
  - `LegacyDecoder` reads the old binary format of tab-separated header lines and 25-byte chunk records.
  - `ProtoDecoder` reads back the canonical format, which is varint length-prefixed payloads.
- **Trace builder** (`TraceBuilder`). It frames messages into a target file with `writeFull` and `WriteMessage`. It also admits conversion jobs under a concurrency cap in `buildTraces`.
- **Plan generator** (`PlanGenerator`, `MetaParser`). It selects the traces of one trace run and gives them times relative to the earliest one. It chooses the hosts of a random sample of traces and deals the hosts to streams round-robin. Every day then gets one plan per stream, holding the sorted trace files of that stream's hosts.
- **Skewness tools.**
  - `RefcountSkewness` builds the histogram of how often each chunk occurs and counts the all-zero and all-one chunks.
  - `StreamSkewness` builds three histograms over the number of streams each chunk occurs in: keys, occurrences and volume.
- **Supporting modules.**
  - `Varint` and `ByteStream` hold the length prefix and the stream reads.
  - `Text` covers the pieces of `bufio`, `strings`, `strconv`, `encoding/hex` and `regexp` that the decoders rely on.
  - `TraceProto` holds the messages.
  - `Sorting` is `sort.Strings`.
  - `ChunkKeys` covers the reused 12-byte key buffer of the skewness tools.
  - `Common` holds shared arithmetic.
  - `Pipeline` holds the end-to-end round trip: a UBC trace is decoded, framed by `WriteMessage` and read back by the canonical decoder, and the same messages come back in order.

How the code is written decides how it is modelled. Loops that update state step by step become methods with loop invariants. Each method is proved against a function that specifies the whole result, and the properties are lemmas about those functions:

- the decoder classes (`LegacyDecoder.LegacyParser`);
- the scripted writer (`TraceBuilder.Writer`);
- the counting and histogram loops;
- the plan-building loops;
- `addRelativeTime`, which works in place on an array.

Some behaviour is modelled as explicit outcomes of these functions, not excluded by preconditions:

- the decoders' panics;
- the legacy decoder's endless read-retry loop at the end of the stream;
- failed reads.

The environment enters as parameters:

- the writer's replies;
- protobuf marshalling, as a function;
- `path.Join` and `filepath.Abs`;
- the random permutation and the clock;
- the entries the trace reader yields.

Go's map iteration order is a free choice. Every property about it holds for any order.

## Model

| member | source | states |
|---|---|---|
| Varint.EncodeVarint | generator/traceBuilder.go:43 | the varint of a length is at least one byte long |
| Varint.EncodeVarintShape | generator/traceBuilder.go:43 | every byte of an encoding but the last has the continuation bit set, and the last has it clear |
| Varint.EncodeVarintUint64 | generator/traceBuilder.go:43 | any `uint64` length is framed in at most ten bytes |
| Varint.DecodeVarint | parser/protoParser.go:113-114 | the decoded value is a `uint64`, at most ten bytes (and no more than the buffer) are consumed, and a consumed count of 0 comes with the value 0 (the "incomplete" answer) |
| Varint.DecodeEncode | parser/protoParser.go:113 | decoding the encoding of any `uint64` value, whatever bytes follow, gives back the value and consumes exactly the encoding |
| Varint.DecodeLoopIncomplete | parser/protoParser.go:113-114 | a buffer of fewer than ten continuation bytes is reported as incomplete, `(0, 0)` |
| Varint.ReadVarintFrom | parser/protoParser.go:105-119 | a successful read leaves a strictly shorter rest, a failed read consumed everything and returns 0, and the value is a `uint64` |
| Varint.ReadVarint | parser/protoParser.go:105-119 | the same for a read from the start of the stream |
| Varint.ReadVarintOfEncoding | parser/protoParser.go:105-119 | a stream that starts with the varint of `x` yields `x` and exactly the bytes after the varint |
| Varint.ReadVarintSkips | parser/protoParser.go:108-117 | while the bytes taken are continuation bytes (fewer than ten), decoding after each of them does not end the read |
| Varint.ReadVarintOverlong | parser/protoParser.go:105-119 | ten leading continuation bytes never form a complete varint: the read consumes the whole stream and fails |
| Varint.DecodeLoopPrefix | parser/protoParser.go:113 | the decoder looks at no more than the first ten bytes of the buffer |
| Varint.FrameAppend | generator/traceBuilder.go:42-50 | framing one more message appends its varint length and then the message |
| Varint.FrameConcat | generator/traceBuilder.go:42-50 | the framing of two message lists is the framing of the first followed by that of the second |
| ByteStream.ReadFull | parser/protoParser.go:56-57 | `io.ReadFull` of `n` bytes succeeds exactly when `n` bytes are left, then takes exactly `n`; otherwise it consumes everything |
| ByteStream.ReadLine | parser/legacyParser.go:66 | `ReadString('\n')`: what is taken followed by what is left is the stream; a successful read ends in a line feed; a failed one consumed the whole stream |
| ByteStream.ReadLineOfLine | parser/legacyParser.go:66 | a line without line feeds followed by one is read exactly, leaving what follows |
| ByteStream.ReadNextVarint | parser/protoParser.go:105-119 | the byte-at-a-time loop returns the value, success flag and rest of the reference read `ReadVarint` |
| TraceProto.ChunkCount32 | parser/legacyParser.go:107 | `uint32(chunkcount)`: the stored count is below 2^32 and is the count itself when that is below 2^32 |
| TraceProto.ChunkMsgs | parser/legacyParser.go:110-114 | one `Chunk` message per chunk, in order |
| TraceProto.EntryMsgs | parser/legacyParser.go:107-114 | an entry is sent as its `File` message followed by the messages of its chunks |
| TraceProto.MarshalAll | parser/legacyParser.go:108-112 | every message is marshalled in place, in order |
| TraceProto.MarshalAllAppend | parser/legacyParser.go:108-112 | marshalling distributes over concatenation of message lists |
| TraceProto.MsgsAppend | parser/legacyParser.go:56-58 | the messages of one more entry follow those of the entries before it |
| TraceProto.MsgsConcat | parser/legacyParser.go:56-58 | the messages of two entry lists are those of the first followed by those of the second |
| TraceProto.CountsAppend | parser/legacyParser.go:107 | appending an entry whose `uint32` count announces its chunks keeps every entry's count announcing its chunks |
| Sorting.StrLeTotal | generator/fsc_generator.go:236 | the byte-wise order of `sort.Strings` is total |
| Sorting.StrLeTrans | generator/fsc_generator.go:236 | that order is transitive |
| Sorting.StrLeAntisymmetric | generator/fsc_generator.go:236 | that order is antisymmetric |
| Sorting.Insert | generator/fsc_generator.go:236 | inserting adds exactly the one string to the multiset of the list |
| Sorting.InsertSorted | generator/fsc_generator.go:236 | inserting into a sorted list keeps it sorted |
| Sorting.SortStrings | generator/fsc_generator.go:236 | `sort.Strings`: the result is sorted and a permutation of the input |
| Sorting.SortedUnique | generator/fsc_generator.go:236 | two sorted lists with the same strings are equal, so the sorted order is unique |
| Sorting.SortPermutation | generator/fsc_generator.go:236 | sorting depends only on the multiset of strings, not on their arrangement |
| ChunkKeys.ZeroKey | chunk_skewness/refcount_skewness/compute_skewness.go:155 | the key buffer as declared is twelve zero bytes |
| ChunkKeys.CopyKey | chunk_skewness/refcount_skewness/compute_skewness.go:186 | `copy` overwrites the first min(12, len(digest)) bytes of the buffer with the digest's and keeps the other bytes |
| ChunkKeys.CopyKeyLong | chunk_skewness/refcount_skewness/compute_skewness.go:186 | a digest of 12 bytes or more gives its first 12 bytes as key, whatever the buffer held |
| ChunkKeys.CopyKeyStale | chunk_skewness/refcount_skewness/compute_skewness.go:155-186 | a short digest keeps stale bytes of the previous chunk's key: the same one-byte digest gives different keys after a 12-byte digest and on a fresh buffer |
| ChunkKeys.Tag | chunk_skewness/refcount_skewness/compute_skewness.go:185 | every chunk of an entry is paired with the entry's filename, in order |
| ChunkKeys.CountedChunksAppend | chunk_skewness/refcount_skewness/compute_skewness.go:176-201 | the counted chunks of a list of entries are those of its parts, in order |
| ChunkKeys.CountedChunksOf | chunk_skewness/refcount_skewness/compute_skewness.go:179-185 | a chunk is counted exactly when it belongs to an entry whose name ends in "dmtcp": entries are skipped or counted as a whole |
| ChunkKeys.Keys | chunk_skewness/refcount_skewness/compute_skewness.go:185-186 | one 12-byte key per counted chunk |
| ChunkKeys.KeysStep | chunk_skewness/refcount_skewness/compute_skewness.go:186 | the key of one more chunk is its digest copied into the previous key |
| ChunkKeys.KeysOfLongDigests | chunk_skewness/refcount_skewness/compute_skewness.go:186 | when every digest has at least 12 bytes, every key is the first 12 bytes of its chunk's digest |
| ChunkKeys.FileKeys | chunk_skewness/refcount_skewness/compute_skewness.go:155-201 | one key per counted chunk of a trace file, with the buffer fresh for every file |
| Pipeline.WrittenTraceReadsBack | generator/traceBuilder.go:42-50 | what `WriteMessage` writes through a healthy writer reads back with the canonical decoder as the messages it was given, to the end of the file |
| Pipeline.UbcTraceRoundTrip | parser/ubcParser.go:199-215 | every message the UBC decoder sends for a trace, framed by `WriteMessage` and read back by the canonical decoder, comes back in order |
| Pipeline.CodecOfCounts | parser/protoParser.go:65-71 | entries with fewer than 2^32 chunks each, whose `uint32` counts announce their chunks and whose files the codec gives back, meet the round trip's assumptions |
| Text.ReadString | parser/ubcParser.go:44 | `ReadString('\n')`: the text returned followed by what is left is the input; a successful read returns at least one character; a failed read returns everything that was left |
| Text.ReadStringLine | parser/ubcParser.go:44 | on success the text ends in the first newline and holds no other; on failure the input held no newline |
| Text.ReadStringNoNewline | parser/ubcParser.go:151 | without a newline the whole rest is returned together with `io.EOF` |
| Text.ReadStringOfLine | parser/ubcParser.go:44 | a newline-free line followed by a newline is read exactly, leaving what follows |
| Text.ReadFirstLine | parser/ubcParser.go:44 | reading from a text made of lines yields its first line with its newline and leaves the other lines |
| Text.TrimLeftSpace | parser/ubcParser.go:52 | the left part of `strings.TrimSpace`: only a white-space prefix is removed, and the result does not start with white space |
| Text.TrimRightSpace | parser/ubcParser.go:52 | the right part: only a white-space suffix is removed, and the result does not end with white space |
| Text.TrimSpaceOfTrimmed | parser/ubcParser.go:52 | a text without surrounding white space is its own trimmed form |
| Text.TrimSpaceDropsNewline | parser/ubcParser.go:159 | a line without surrounding white space, with its newline, trims to the line itself |
| Text.TrimSpaceEmpty | parser/ubcParser.go:50-53 | a line trims to nothing exactly when it is all white space (both directions) |
| Text.NotContains | parser/ubcParser.go:156 | a text without the first character of a pattern does not contain the pattern |
| Text.ContainsExtend | parser/ubcParser.go:156 | a text that contains "LOGCOMPLETE" still does when more text follows |
| Text.NoPrefixByHead | parser/ubcParser.go:96 | a text whose first character differs from that of a prefix does not start with it |
| Text.Split | parser/legacyParser.go:76 | `strings.Split` with a one-character separator: at least one part, and no part holds the separator |
| Text.SplitJoin | parser/legacyParser.go:76 | joining the parts with the separator gives back the text |
| Text.SplitCons | parser/legacyParser.go:76 | the text before the first separator is the first part |
| Text.SplitTwo | parser/ubcParser.go:104 | a text with exactly one separator splits into its two sides |
| Text.SplitNone | parser/legacyParser.go:76 | a text without the separator is a single part |
| Text.ParseUint | parser/ubcParser.go:192 | `strconv.ParseUint(s, 10, bits)`: a successful parse is below 2^bits |
| Text.DigitsTrimmed | parser/ubcParser.go:191 | a line of digits is its own trimmed form |
| Text.ParseInt64 | parser/legacyParser.go:84 | `strconv.ParseInt(s, 10, 64)` with its error ignored: whatever the text, the result lies in the `int64` range |
| Text.NatToString | generator/fsc_generator.go:149 | the decimal rendering of a number is a non-empty run of digits without a leading zero whose value is the number |
| Text.ParseUintOfNatToString | generator/fsc_generator.go:149 | the decimal rendering of a number below the bound parses back as the number |
| Text.HexDecode | parser/ubcParser.go:111 | `hex.DecodeString`: a successful decoding has half as many bytes as the text has characters |
| Text.HexEncode | parser/ubcParser_test.go:51 | `hex.EncodeToString`: two hex digits per byte |
| Text.HexRoundTrip | parser/ubcParser.go:111 | hex decoding undoes hex encoding, for every byte string |
| Text.RunEnd | parser/ubcParser.go:27 | the end of the longest run of `[0-9a-fz]` characters from a position: every character before it is one, the one at it is not |
| Text.FirstMatch | parser/ubcParser.go:160 | the leftmost position where `([0-9a-fz]+):([0-9]+)` matches, with no match before it; none when it matches nowhere |
| Text.ColonToken | parser/ubcParser.go:160-161 | `FindStringSubmatch(line)[1]`: the first group of the leftmost match is a non-empty token of `[0-9a-fz]` |
| Text.ColonTokenOfPair | parser/ubcParser.go:160 | on a line `token:count` the first group is the whole token |
| UbcDecoder.HeaderLines | parser/ubcParser.go:50-58 | the header loop: lines are read until one trims to nothing, and the decoder goes on strictly inside the text; running out of text is a panic |
| UbcDecoder.AfterHeader | parser/ubcParser.go:43-61 | `skipHeader`: the first line is dropped whatever it holds, then the header loop; what remains is strictly shorter than the input |
| UbcDecoder.SkipHeader | parser/ubcParser.go:43-61 | the loop of `skipHeader` ends where the header does, as `AfterHeader` defines it |
| UbcDecoder.ChunkOfLine | parser/ubcParser.go:104-127 | a chunk line yields a chunk exactly when it has a second `:` field that parses as a `uint32` and a first field that is hex or all-`z`; otherwise the source panics, on the size parse or on marshalling a chunk without its required fingerprint; the fingerprint comes from the first field and the size is below 2^32 |
| UbcDecoder.SkipLines | parser/ubcParser.go:79-85 | skipping lines never lengthens the text; a missing line is a failed read |
| UbcDecoder.AfterFrags | parser/ubcParser.go:88-99 | the fragment loop stops at the first trimmed line without an `SV:`, `V:` or `A:` prefix, strictly inside the text |
| UbcDecoder.ChunkLines | parser/ubcParser.go:103-139 | the chunk loop: chunk lines until an empty trimmed line, a failed read dropping the chunks read |
| UbcDecoder.ChunkSection | parser/ubcParser.go:72-142 | `parseChunks`: the three loops in sequence |
| UbcDecoder.SkipMeta | parser/ubcParser.go:79-85 | the seven-line loop computes `SkipLines(s, 7)` |
| UbcDecoder.SkipFrags | parser/ubcParser.go:88-99 | the fragment loop computes `AfterFrags` |
| UbcDecoder.ReadChunkLines | parser/ubcParser.go:103-139 | the chunk loop computes `ChunkLines` from an empty list |
| UbcDecoder.ParseChunks | parser/ubcParser.go:72-142 | `parseChunks` as a method computes `ChunkSection` |
| UbcDecoder.FileOf | parser/ubcParser.go:178-201 | the `File` message has a name that ends in its label, the extension part, no type, and the chunk count as a `uint32` |
| UbcDecoder.NamesOf | parser/ubcParser.go:159-176 | the three `token:number` lines give the directory, name and extension parts; a missing line or a missing match is a panic |
| UbcDecoder.SizeOf | parser/ubcParser.go:186-197 | one line is skipped unread and the next parses as the file size, below 2^64 |
| UbcDecoder.EntryOf | parser/ubcParser.go:144-216 | `parseFileEntry`: at the end of the text nothing is decoded; a decoded record is followed by strictly less text and announces exactly as many chunks (in `uint32`) as it carries |
| UbcDecoder.ParseFileEntry | parser/ubcParser.go:144-216 | `parseFileEntry` as a method computes `EntryOf` |
| UbcDecoder.ParseFile | parser/ubcParser.go:64-70 | the messages sent are the marshalled `File` and `Chunk` messages of every decoded record, in order, and the run panics exactly when the trace model says so |
| UbcProperties.AfterHeaderOf | parser/ubcParser.go:43-61 | a first line, non-blank lines and a blank line form the header, and decoding resumes right after the blank line |
| UbcProperties.HeaderLinesOf | parser/ubcParser.go:50-53 | the header loop passes every non-blank line and stops after the first blank one |
| UbcProperties.ChunkOfLineOf | parser/ubcParser.go:109-122 | a well-formed chunk line, whose first field is hex or all-`z`, yields its chunk; the all-`z` fingerprint gives six zero bytes and any other its hex decoding |
| UbcProperties.ChunkLineTagged | parser/ubcParser.go:96 | a chunk line starts with a tag and a colon exactly when its first field is that tag |
| UbcProperties.NotFragLine | parser/ubcParser.go:96 | a chunk line stops the fragment loop exactly when its first field is none of `SV`, `V` and `A`, both directions |
| UbcProperties.ChunkLineTrimmed | parser/ubcParser.go:133-138 | a chunk line is a line of its own and is its own trimmed form |
| UbcProperties.SkipLinesOf | parser/ubcParser.go:79-85 | skipping `n` lines of a text made of `n` lines and more leaves exactly the rest |
| UbcProperties.AfterFragsOf | parser/ubcParser.go:88-99 | the fragment loop passes all fragment lines and stops at the next line, trimmed |
| UbcProperties.ChunkLinesOf | parser/ubcParser.go:103-139 | the chunk loop reads every chunk line, in order, up to the blank line, and resumes after it |
| UbcProperties.MetaSkipped | parser/ubcParser.go:79-85 | the seven metadata lines of a record are skipped |
| UbcProperties.FirstChunkAfterFrags | parser/ubcParser.go:88-99 | after the fragment lines the loop hands on the first chunk line, whose first field is none of the fragment tags; the later chunk lines need no such condition |
| UbcProperties.BlankAfterFrags | parser/ubcParser.go:88-103 | a blank line after the fragment lines gives an empty chunk list |
| UbcProperties.ChunkSectionSteps | parser/ubcParser.go:72-142 | the chunk part is the chunk loop started where the first two loops end |
| UbcProperties.ChunkSectionOf | parser/ubcParser.go:72-142 | the chunk part of a well-formed record yields exactly its chunks and resumes after its blank line |
| UbcProperties.ChunkLinesTruncated | parser/ubcParser.go:133-137 | a text that ends inside the chunk lines is a failed read and the chunks read so far are lost |
| UbcProperties.AfterFragsTruncated | parser/ubcParser.go:89-93 | a text that ends inside the fragment lines is a failed read |
| UbcProperties.ChunkSectionTruncated | parser/ubcParser.go:72-142 | a record cut off before the blank line that closes its chunk part has a failed chunk part |
| UbcProperties.PairTrimmed | parser/ubcParser.go:159-160 | a `token:number` line is its own trimmed form, its regex group is the token, and it holds no `LOGCOMPLETE` |
| UbcProperties.NamesOfHead | parser/ubcParser.go:159-176 | the three name lines of a record give its directory, name and extension |
| UbcProperties.SizeOfHead | parser/ubcParser.go:186-197 | the skipped line and the size line give the record's size |
| UbcProperties.EntryOfSteps | parser/ubcParser.go:144-216 | once the name parts and size are read, the outcome is decided by the chunk part alone: panic, a `File` with no chunks after a failed read, or the chunks |
| UbcProperties.EntryOfHead | parser/ubcParser.go:144-201 | after the five head lines of a record the outcome depends on the chunk part alone |
| UbcProperties.EntryOfRecord | parser/ubcParser.go:144-216 | a well-formed record decodes to its own entry, and decoding resumes right after it |
| UbcProperties.EntryOfTruncatedRecord | parser/ubcParser.go:199-201 | a record cut off in its chunk part still yields its `File` message, announcing no chunks, and no `Chunk` message |
| UbcProperties.EntryOfEndMarker | parser/ubcParser.go:156-157 | a line containing `LOGCOMPLETE` ends the trace |
| UbcProperties.EntriesFromRecords | parser/ubcParser.go:67-68 | the entry loop decodes a run of well-formed records one entry each, in order, without a panic |
| UbcProperties.TraceOfRecords | parser/ubcParser.go:64-70 | a header and well-formed records, ended by the end of the text or a `LOGCOMPLETE` line, decode to one entry per record, in order, without a panic |
| UbcProperties.EntriesFromCounts | parser/ubcParser.go:199-201 | every entry the loop collects announces its own chunk count |
| UbcProperties.TraceCounts | parser/ubcParser.go:199-201 | for every input, each decoded entry announces its chunk count modulo 2^32, which is exact below 2^32 chunks |
| LegacyDecoder.HelperChunkSize | parser/legacyParser.go:38-51 | `helperChunkSize`: four bytes read as a little-endian number below 2^32, whose lowest byte is the first and highest byte the fourth |
| LegacyDecoder.HelperChunkSizeOfLittleEndian | parser/legacyParser.go:38-51 | decoding the four little-endian bytes of any `uint32` gives it back |
| LegacyDecoder.LittleEndianOfHelperChunkSize | parser/legacyParser.go:38-51 | encoding the decoded value gives back any four bytes, so the decoding is a bijection onto `uint32` |
| LegacyDecoder.DecodeMultiByte | parser/legacyParser.go:122 | UTF-8 decoding of a byte of 0x80 or more consumes one to four bytes and never yields a rune below 0x80 |
| LegacyDecoder.ReadRune | parser/legacyParser.go:122-124 | `ReadRune`: the rune is 0 exactly at the end of the stream or on a zero byte, and 24 exactly on the byte 24; at least one byte is consumed when any is left |
| LegacyDecoder.ChunkStep | parser/legacyParser.go:120-178 | `parseChunks`: an added chunk consumes bytes and has a 20-byte fingerprint and a size below 64 KiB; a finished run leaves a suffix of the input; nothing left means finished without a size mismatch |
| LegacyDecoder.ChunkRun | parser/legacyParser.go:96-100 | the chunk loop of `parseFileEntry` collects chunks until `parseChunks` adds none, never lengthening the input |
| LegacyDecoder.AsText | parser/legacyParser.go:66 | a Go string of bytes keeps one character per byte |
| LegacyDecoder.Uint64 | parser/legacyParser.go:93 | `uint64(filesize)`: a non-negative value is kept and a negative one wraps by 2^64 |
| LegacyDecoder.HeaderOf | parser/legacyParser.go:75-94 | the header line is an entry exactly when it has two or three tab-separated fields; the name is the first and the type the third, or empty |
| LegacyDecoder.FileOf | parser/legacyParser.go:92-107 | the `File` message announces its chunk count as a `uint32` and has no label |
| LegacyDecoder.EntryOf | parser/legacyParser.go:63-118 | `parseFileEntry`: a decoded entry is followed by strictly less input and announces its own chunk count modulo 2^32 |
| LegacyDecoder.SentAfterEntry | parser/legacyParser.go:108-115 | sending one more entry after the others extends the payloads sent by exactly that entry's messages |
| LegacyDecoder.LegacyParser.constructor | parser/legacyParser.go:23-36 | a decoder over the whole input, with no pending chunks and nothing sent |
| LegacyDecoder.LegacyParser.ParseChunks | parser/legacyParser.go:120-178 | the method follows `ChunkStep`: a chunk is appended to the pending ones, or the input is left where the step ends, or the read-retry loop is stuck |
| LegacyDecoder.LegacyParser.ReadChunks | parser/legacyParser.go:96-100 | the chunk loop appends the chunks of `ChunkRun` and counts them |
| LegacyDecoder.LegacyParser.SendEntry | parser/legacyParser.go:108-114 | the `File` message is sent, then every pending chunk in order |
| LegacyDecoder.LegacyParser.ParseFileEntry | parser/legacyParser.go:63-118 | true exactly when `EntryOf` decodes an entry; then its messages are sent and the pending chunks are cleared; otherwise nothing is sent |
| LegacyDecoder.LegacyParser.ParseFile | parser/legacyParser.go:54-61 | the payloads sent are those of every entry the trace model decodes, in order; `filecount` counts them |
| LegacyProperties.RecordBytes | parser/legacyParser.go:122-175 | a chunk record is 25 bytes: the size byte 24, the four size bytes and the 20 fingerprint bytes |
| LegacyProperties.ChunkStepOfRecord | parser/legacyParser.go:137-177 | a chunk record adds its own chunk and leaves the bytes after it |
| LegacyProperties.ChunkStepAtZero | parser/legacyParser.go:130-135 | a zero byte ends the records, and the rest of its line is skipped |
| LegacyProperties.ChunkStepOtherSize | parser/legacyParser.go:137-142 | any other ASCII byte ends the records with the size mismatch reported, consuming only that byte |
| LegacyProperties.ChunkStepNonAscii | parser/legacyParser.go:122-142 | a byte of 0x80 or more is read as a whole UTF-8 rune and ends the records with the size mismatch reported |
| LegacyProperties.ChunkStepOversize | parser/legacyParser.go:155-158 | a chunk size of 64 KiB or more ends the records without reading the fingerprint |
| LegacyProperties.ChunkStepTruncated | parser/legacyParser.go:148-170 | a chunk record cut off by the end of the stream leaves the read-retry loop running for ever |
| LegacyProperties.ChunkRunOfRecords | parser/legacyParser.go:96-100 | the chunk loop reads every chunk record, in order, and stops where they end |
| LegacyProperties.TrimmedLine | parser/legacyParser.go:75 | a line read with its line feed is trimmed back to the line |
| LegacyProperties.HeaderOfTwoFields | parser/legacyParser.go:83-94 | a two-field header has the name, the size and an empty type |
| LegacyProperties.HeaderOfThreeFields | parser/legacyParser.go:83-94 | a three-field header has the third field as its type |
| LegacyProperties.EntryOfBadHeader | parser/legacyParser.go:78-81 | a header line with the wrong number of fields is no entry, and decoding stops there |
| LegacyProperties.NegativeSizeWraps | parser/legacyParser.go:84-93 | a negative size field becomes 2^64 minus its magnitude |
| LegacyProperties.EntryOfParts | parser/legacyParser.go:63-118 | a header line followed by a run of chunks is one entry with those chunks, announcing their number |
| LegacyProperties.EntryOfRecords | parser/legacyParser.go:63-118 | a header line, its chunk records and a zero line decode to its `File` message and its chunks, and decoding resumes after the zero line |
| LegacyProperties.EntryOfRecordsAtEnd | parser/legacyParser.go:63-118 | records that run to the end of the stream still form a complete entry |
| LegacyProperties.EntriesFromCounts | parser/legacyParser.go:107 | every decoded entry announces its own chunk count modulo 2^32 |
| ProtoDecoder.NChunks | parser/protoParser.go:78-103 | `parseNChunks(n)`: success forwards exactly `n` payloads; a failure forwards fewer and has used up the stream; the stream never grows |
| ProtoDecoder.FileEntry | parser/protoParser.go:46-76 | `parseFileEntry`: no length prefix means nothing forwarded and failure; the first payload forwarded has the announced length; success means the `File` payload decoded and exactly `1 + chunkCount` payloads were forwarded, consuming input |
| ProtoDecoder.ParseAll | parser/protoParser.go:37-44 | `ParseFile`: entries until one fails, the stream never growing |
| ProtoDecoder.ParseNChunks | parser/protoParser.go:78-103 | the loop of `parseNChunks` computes `NChunks` |
| ProtoDecoder.ParseFileEntry | parser/protoParser.go:46-76 | the method computes `FileEntry` |
| ProtoDecoder.ParseFile | parser/protoParser.go:37-44 | the entry loop computes `ParseAll` |
| ProtoDecoder.ReadFrame | parser/protoParser.go:52-61 | a framed payload reads back as its length and then exactly its bytes, whatever follows |
| ProtoDecoder.NChunksOfFrame | parser/protoParser.go:78-103 | `parseNChunks(n)` on `n` framed payloads forwards exactly those payloads and stops right after them |
| ProtoDecoder.FileEntryOfFrame | parser/protoParser.go:46-76 | a framed `File` payload announcing `k` chunks, followed by `k` framed payloads, is one successful entry forwarding all of them |
| ProtoDecoder.FileEntryForwardsUndecodable | parser/protoParser.go:63-69 | a payload that does not decode as a `File` is still forwarded, and the entry fails |
| ProtoDecoder.ParseAllOfFrame | parser/protoParser.go:37-44 | a framed stream of marshalled entries is read back as exactly those payloads, in order, to the end of the stream |
| ProtoDecoder.FileEntryOfEntry | parser/protoParser.go:46-76 | the frames of one consistent entry read back as one successful entry |
| ProtoDecoder.ParseAllCons | parser/protoParser.go:39-41 | a successful entry followed by a stream read to its end is read to its end |
| ProtoDecoder.ParseAllOfDoubledFrame | parser/protoParser.go:37-44 | two copies of a framed trace read back as the messages twice, in order |
| ProtoDecoder.SingleEmptyRecord | parser/protoParser.go:71-75 | a single `File` announcing no chunks is one forwarded payload, and the next entry finds the end of the stream |
| TraceBuilder.AcceptedCount | generator/traceBuilder.go:18-22 | a writer never accepts more than the buffer it was given, and a reply that takes the whole buffer accepts all of it |
| TraceBuilder.Drop | generator/traceBuilder.go:18 | each call uses up one scripted reply, never adding any |
| TraceBuilder.Writer.constructor | generator/traceBuilder.go:38 | a writer over given replies and written data, with no calls yet |
| TraceBuilder.Writer.Write | generator/traceBuilder.go:18 | `io.Writer.Write`: the count accepted and the error come from the next reply; the accepted prefix of the buffer is appended to the data and the call is recorded |
| TraceBuilder.WriteFullRetries | generator/traceBuilder.go:13-27 | the first call is passed the whole buffer, each retry exactly the part not yet accepted, and no call is made for an empty buffer |
| TraceBuilder.WriteFullAccepts | generator/traceBuilder.go:13-27 | what `writeFull` gets written is always a prefix of the buffer, and the whole buffer when it returns no error |
| TraceBuilder.WriteFullStopsAtError | generator/traceBuilder.go:18-19 | the first error is returned at once: every earlier call got no error, and the run reports one exactly when its last call's reply was an error |
| TraceBuilder.WriteFullWhole | generator/traceBuilder.go:13-27 | with a writer that accepts whole buffers, a non-empty buffer takes one call and no error, an empty one no call |
| TraceBuilder.WriteFullStep | generator/traceBuilder.go:17-23 | one retry without an error: its buffer and count join the run so far, and the rest of the run is that of the part not yet accepted |
| TraceBuilder.WriteFullFailed | generator/traceBuilder.go:18-19 | a call that gets an error ends the run with that error, after its buffer's accepted part |
| TraceBuilder.WriteFullDone | generator/traceBuilder.go:17-26 | once nothing is left to write, the run ends without an error |
| TraceBuilder.WriteFull | generator/traceBuilder.go:13-27 | the loop of `writeFull`: its error, the data written, the calls made and the replies used are those of the run `WriteFullOf` defines |
| TraceBuilder.SendAllFrames | generator/traceBuilder.go:42-50 | whatever the writer does, the output is a prefix of the varint framing of the messages, and all of it when no write panicked |
| TraceBuilder.SendAllWhole | generator/traceBuilder.go:42-50 | a writer that accepts every buffer whole, with a reply for each of the two writes per message, never panics |
| TraceBuilder.WriteMessage | generator/traceBuilder.go:29-54 | a target that cannot be opened signals false and writes nothing; otherwise each message is framed in order, a failed write panics with no signal, and success signals true |
| TraceBuilder.JoinStep | generator/traceBuilder.go:118-127 | taking one completion while a task runs keeps the event log well-formed and counts one more join |
| TraceBuilder.StartStep | generator/traceBuilder.go:114-120 | starting the next job, right after a completion exactly when it is beyond the first `maxConcurrentTasks`, keeps the log well-formed |
| TraceBuilder.AdmitStep | generator/traceBuilder.go:114-116 | below the cap the next job starts at once and the running count grows by one |
| TraceBuilder.WaitStep | generator/traceBuilder.go:117-120 | at the cap the next job first takes one completion and then starts, the running count unchanged |
| TraceBuilder.BuildTraces | generator/traceBuilder.go:107-130 | `buildTraces`: every job of every day is started in plan order, never more than `maxConcurrentTasks` at once, and all are joined before it returns; with no room at all the first job waits for ever |
| MetaParser.Filter | generator/metaParser.go:60-65 | the traces of one run never outnumber all traces |
| MetaParser.FilterAppend | generator/metaParser.go:61-65 | the selection keeps the order of the metadata file: selecting from a concatenation is selecting from each part in turn |
| MetaParser.FilterMembers | generator/metaParser.go:62 | a trace is selected exactly when it is in the metadata and belongs to the requested run |
| MetaParser.LoadMetadata | generator/metaParser.go:45-69 | the loop of `loadMetadata` yields exactly `Filter` of the decoded records |
| MetaParser.MinTimeIsMinimum | generator/metaParser.go:74-79 | the minimum found is no later than any trace's current time and equal to one of them |
| MetaParser.MinTimeOfTimes | generator/metaParser.go:74-79 | the minimum depends on the current times alone |
| MetaParser.RelativeTimes | generator/metaParser.go:83-86 | every trace's distance to the earliest is non-negative and at least one trace's is zero |
| MetaParser.AddRelativeTime | generator/metaParser.go:71-87 | `addRelativeTime` updates every trace in place: its time is its current time and its distance is measured from the minimum of the original current times, which are left unchanged |
| PlanGenerator.DayOfRelative | generator/fsc_generator.go:162 | a trace at or after the earliest falls on day `d`, counted from 0, exactly when it lies between `d` and `d + 1` whole days after the earliest |
| PlanGenerator.Itoa | generator/fsc_generator.go:149 | `strconv.Itoa`: a non-empty rendering whose digits, after a minus sign for a negative number, have the number's magnitude as value |
| PlanGenerator.ItoaInjective | generator/fsc_generator.go:148-150 | different days get different keys, so filing the plans under their decimal day loses none |
| PlanGenerator.Select | generator/fsc_generator.go:161-179 | the source paths of the traces of some days and hosts, in trace order, never more than the traces |
| PlanGenerator.Covers | generator/fsc_generator.go:161-169 | every trace's day, host, and host on its day are recorded by the grouping |
| PlanGenerator.HostsOnOtherDay | generator/fsc_generator.go:165-169 | a day without traces has no hosts |
| PlanGenerator.SelectAbsent | generator/fsc_generator.go:172-177 | a host without traces on a day contributes no source to that day |
| PlanGenerator.SelectCongruent | generator/fsc_generator.go:161-179 | selections that agree on every trace of the chosen days are equal |
| PlanGenerator.SelectSplitHosts | generator/fsc_generator.go:205-217 | selecting two disjoint host sets selects each trace exactly once, as a multiset |
| PlanGenerator.SelectSplitDays | generator/fsc_generator.go:201-224 | selecting two disjoint day sets selects each trace once |
| PlanGenerator.SelectEverything | generator/fsc_generator.go:199-226 | selecting every day and every host selects every trace |
| PlanGenerator.SelectMember | generator/fsc_generator.go:168-176 | a trace of a chosen day and host has its source path selected |
| PlanGenerator.GroupTraces | generator/fsc_generator.go:158-179 | the grouping loop collects exactly the hosts of the traces, and for each day and host the source paths of that host's traces on that day, in order |
| PlanGenerator.GroupStep | generator/fsc_generator.go:165-178 | one more trace appends its source path to the list of its day and host, a new day or host starting an empty list |
| PlanGenerator.Rest | generator/fsc_generator.go:190 | the stream counter after `k` hosts stays below the number of streams |
| PlanGenerator.RoundsRest | generator/fsc_generator.go:187-191 | after `k` hosts, `k` is the completed rounds times the streams plus the counter |
| PlanGenerator.ShareIsDivision | generator/fsc_generator.go:187-191 | a stream's number of hosts is `k / n`, plus one for the first `k % n` streams |
| PlanGenerator.RestStep | generator/fsc_generator.go:190 | the counter moves on by one and wraps to 0, a new round starting, once every stream has had its turn |
| PlanGenerator.ShareStep | generator/fsc_generator.go:189 | the next host raises the share of the stream the counter names and no other |
| PlanGenerator.CounterStep | generator/fsc_generator.go:190 | `(streamCounter + 1) % numStreams` follows the rest |
| PlanGenerator.ShareBalanced | generator/fsc_generator.go:183-191 | each stream should have the same number of hosts: any two streams' shares differ by at most one, and the shares add up to the number of hosts |
| PlanGenerator.SumSharesOf | generator/fsc_generator.go:187-191 | the shares of the first `m` streams add up to `m` rounds plus the streams of the last round among them |
| PlanGenerator.StreamHostsStep | generator/fsc_generator.go:189 | a new host dealt stream `c` joins that stream's hosts only |
| PlanGenerator.AssignStreams | generator/fsc_generator.go:186-191 | every host gets a stream in `[0, numStreams)`, in whatever order the map yields the hosts, and each stream gets its round-robin share |
| PlanGenerator.DealStep | generator/fsc_generator.go:188-191 | dealing the next host keeps every stream at its share and the counter at the rest |
| PlanGenerator.PlansOf | generator/fsc_generator.go:220-223 | one plan per stream listed, each the plan of that stream |
| PlanGenerator.TraceInItsPlan | generator/fsc_generator.go:205-217 | every chosen trace is in the plan of its own day and its host's stream, and that stream is one of the day's |
| PlanGenerator.DaySourcesPartition | generator/fsc_generator.go:201-224 | the plans of a day hold every trace of that day exactly once: their source lists together are the day's traces, as a multiset |
| PlanGenerator.StreamsCoverDay | generator/fsc_generator.go:205-207 | every host of the day has one of the day's streams |
| PlanGenerator.PartitionOfStreams | generator/fsc_generator.go:220-223 | the plans of distinct streams hold, together, exactly the traces of those streams' hosts |
| PlanGenerator.MergeHosts | generator/fsc_generator.go:204-218 | the host loop makes exactly one plan per stream in use that day, targeting that day's and stream's file, holding the sources of that stream's hosts; the count grows by the day's traces |
| PlanGenerator.MergeStep | generator/fsc_generator.go:207-217 | merging one more host adds its sources to its stream's plan, which is made on first use |
| PlanGenerator.MergeJoin | generator/fsc_generator.go:216 | appending a host's sources to a stream's list adds exactly that host's traces |
| PlanGenerator.CountStep | generator/fsc_generator.go:206 | the count grows by the number of the host's traces |
| PlanGenerator.MergedDay | generator/fsc_generator.go:204-218 | once every host of the day is merged, the plans are those of the day's streams, with all their sources |
| PlanGenerator.CollectPlans | generator/fsc_generator.go:220-223 | the plans of the stream map are listed once each, in some order of its streams |
| PlanGenerator.DayGathered | generator/fsc_generator.go:220-223 | the plans listed from a day's merged stream map are the day's stream plans in the listing order |
| PlanGenerator.BuiltStep | generator/fsc_generator.go:201-224 | one more day's listed plans keep every day built |
| PlanGenerator.BuildDayPlans | generator/fsc_generator.go:199-226 | the day loop builds plans for exactly the days with traces, each day's plans those of its streams, and `cnt` is the number of traces |
| PlanGenerator.HostsOnInHostSet | generator/fsc_generator.go:163-169 | a day's hosts are hosts of the traces |
| PlanGenerator.DayCount | generator/fsc_generator.go:201-206 | the count after one more day grows by that day's traces |
| PlanGenerator.SortedPlan | generator/fsc_generator.go:232-234 | the plan keeps its target and has its sources in ascending order, as a permutation of the originals |
| PlanGenerator.SortPlans | generator/fsc_generator.go:229-237 | the sort loop keeps the days and sorts the sources of every plan of every day, in place |
| PlanGenerator.SortDay | generator/fsc_generator.go:231-236 | the sources of each plan of one day are sorted |
| PlanGenerator.SortedGathered | generator/fsc_generator.go:229-237 | sorting the sources of a day's listed plans gives the day's plans as `Plan` defines them |
| PlanGenerator.GeneratePlanPerDay | generator/fsc_generator.go:155-256 | `generatePlanPerDay`: the hosts are dealt to the streams in turn, and there are plans for exactly the days with chosen traces, one per stream in use that day, each with its target and its sorted sources, in map order |
| PlanGenerator.ChosenHostsOf | generator/fsc_generator.go:129-132 | a host is chosen exactly when the trace at one of the first `numNodes` positions of the permutation is one of its traces |
| PlanGenerator.ChosenHostsAreHosts | generator/fsc_generator.go:129-132 | the chosen hosts are hosts of the traces |
| PlanGenerator.ChosenHostsBound | generator/fsc_generator.go:129-132 | at most `numNodes` hosts are chosen, fewer when two chosen traces share a host |
| PlanGenerator.OfHosts | generator/fsc_generator.go:134-139 | the traces of the chosen hosts, never more than the traces |
| PlanGenerator.OfHostsAppend | generator/fsc_generator.go:135-139 | the selection keeps the order of the traces |
| PlanGenerator.OfHostsMembers | generator/fsc_generator.go:136 | a trace is kept exactly when its host is chosen |
| PlanGenerator.OfHostsHosts | generator/fsc_generator.go:134-139 | the hosts of the traces kept are the chosen hosts that have traces |
| PlanGenerator.ChooseTraces | generator/fsc_generator.go:125-139 | the node selection loops keep every trace of a chosen host, in order |
| PlanGenerator.DaysNonNegative | generator/fsc_generator.go:162 | traces at or after the earliest fall on days from 0 on |
| PlanGenerator.ChosenOnLaterDays | generator/fsc_generator.go:162 | once times are relative to the earliest trace, the chosen traces fall on days from 0 on |
| PlanGenerator.PlanKeys | generator/fsc_generator.go:147-150 | the output plan has exactly the decimal day keys, each holding that day's plans |
| PlanGenerator.KeyStep | generator/fsc_generator.go:148-150 | one more day gives one more key |
| PlanGenerator.GeneratePlan | generator/fsc_generator.go:100-153 | `generatePlan`: the traces get relative times in place; the seed is the time when 0; the hosts of the first `numNodes` traces of the permutation are chosen, dealt to streams, and their plans filed under the decimal day, for days from 0 on |
| RefcountSkewness.TallyCounts | chunk_skewness/refcount_skewness/compute_skewness.go:187-191 | after counting keys, the index holds exactly the old keys and the counted ones, and each key's count has grown by the number of times it was counted |
| RefcountSkewness.TallyAppend | chunk_skewness/refcount_skewness/compute_skewness.go:221-232 | counting two runs of keys into one index is counting the first, then the second, as the shared index across files does |
| RefcountSkewness.TallyPositive | chunk_skewness/refcount_skewness/compute_skewness.go:187-191 | counting never leaves a key at count 0 |
| RefcountSkewness.TallyTotal | chunk_skewness/refcount_skewness/compute_skewness.go:187-191 | counting `n` keys raises the sum of the counts by `n` |
| RefcountSkewness.TotalRemove | chunk_skewness/refcount_skewness/compute_skewness.go:235-245 | the sum of the counts is any key's count plus the sum of the others |
| RefcountSkewness.Results.constructor | chunk_skewness/refcount_skewness/compute_skewness.go:90-94 | a zero `Results` value |
| RefcountSkewness.Results.Add | chunk_skewness/refcount_skewness/compute_skewness.go:96-99 | `Add` adds the other counters to these and leaves the most used chunk alone |
| RefcountSkewness.ProcessFile | chunk_skewness/refcount_skewness/compute_skewness.go:152-204 | `processFile`: the index is the old one with every chunk of every "dmtcp" entry counted under the key its digest leaves in the 12-byte buffer; the all-zero and all-one chunks among those keys are counted, zero first |
| RefcountSkewness.ScanEntry | chunk_skewness/refcount_skewness/compute_skewness.go:185-199 | the chunk loop of one entry keeps the index and both counters equal to those of every chunk scanned so far |
| RefcountSkewness.ScanStep | chunk_skewness/refcount_skewness/compute_skewness.go:186-198 | one more chunk: its digest is copied into the buffer, and the buffer's key is counted, and counted as special when it is |
| RefcountSkewness.CountStep | chunk_skewness/refcount_skewness/compute_skewness.go:187-198 | one more key is counted in the index and, when special, by exactly one counter |
| RefcountSkewness.CountedStep | chunk_skewness/refcount_skewness/compute_skewness.go:179-183 | an entry whose name does not end in "dmtcp" adds no chunk; any other adds all of its own |
| RefcountSkewness.SpecialChunks | chunk_skewness/refcount_skewness/compute_skewness.go:208-216 | the table of special chunks, which holds the default "cdc8" |
| RefcountSkewness.ChooseSpecial | chunk_skewness/refcount_skewness/compute_skewness.go:222-228 | the special chunks of some chunking whose name the file name contains, in whatever order the map yields them, and "cdc8"'s only when no name matches |
| RefcountSkewness.AllKeysLength | chunk_skewness/refcount_skewness/compute_skewness.go:185-191 | there is one key per counted chunk |
| RefcountSkewness.FilesStep | chunk_skewness/refcount_skewness/compute_skewness.go:230 | one more file's keys are counted into the index the files before it built |
| RefcountSkewness.ZeroTotalStep | chunk_skewness/refcount_skewness/compute_skewness.go:231 | one more file adds its all-zero chunks to the total |
| RefcountSkewness.OneTotalStep | chunk_skewness/refcount_skewness/compute_skewness.go:231 | one more file adds its all-one chunks to the total |
| RefcountSkewness.WithCountStep | chunk_skewness/refcount_skewness/compute_skewness.go:243-245 | one more key joins the class of its count only |
| RefcountSkewness.LargestCount | chunk_skewness/refcount_skewness/compute_skewness.go:234-239 | the first loop finds the largest count: no key's count is larger, and some key has it unless it is 0 |
| RefcountSkewness.HistogramStep | chunk_skewness/refcount_skewness/compute_skewness.go:244 | one more key raises the entry of its count by one, and the entries' sum by one |
| RefcountSkewness.Histogram | chunk_skewness/refcount_skewness/compute_skewness.go:234-245 | the histogram has one entry more than the largest count, entry `c` is the number of distinct chunks occurring exactly `c` times, and the entries add up to the number of distinct chunks |
| RefcountSkewness.CountKeys | chunk_skewness/refcount_skewness/compute_skewness.go:243-245 | the second loop leaves entry `c` holding the number of keys with count `c`, starting from zeros |
| RefcountSkewness.CountingStep | chunk_skewness/refcount_skewness/compute_skewness.go:243-245 | counting one more key keeps the partial histogram right |
| RefcountSkewness.HistogramStart | chunk_skewness/refcount_skewness/compute_skewness.go:241 | the fresh array is the histogram of no keys |
| RefcountSkewness.CountingDone | chunk_skewness/refcount_skewness/compute_skewness.go:243-245 | once every key is counted, the histogram counts all keys |
| RefcountSkewness.MostUsedChunk | chunk_skewness/refcount_skewness/compute_skewness.go:247-254 | "zero" exactly when the largest count equals the all-zero count, "one" exactly when not that but the all-one count, "unkown" otherwise |
| RefcountSkewness.ComputeSkewness | chunk_skewness/refcount_skewness/compute_skewness.go:206-257 | `computeSkewness`: all files counted into one index with the special chunks their names select; no chunk has count 0 and the counts add up to the chunks counted; the histogram is that of the index with `refs[0] == 0`; the special counts are the totals over all files, and the most used chunk is named from the largest count |
| RefcountSkewness.CountFiles | chunk_skewness/refcount_skewness/compute_skewness.go:220-232 | the file loop chooses each file's special chunks and leaves the index and counters equal to those of all files |
| RefcountSkewness.CountFile | chunk_skewness/refcount_skewness/compute_skewness.go:222-231 | one iteration of the file loop counts the file's keys into the shared index and adds its special counts |
| RefcountSkewness.NonZeroFrom | chunk_skewness/refcount_skewness/compute_skewness.go:127-128 | the listed positions are positions of non-zero entries |
| RefcountSkewness.NonZeroFromIs | chunk_skewness/refcount_skewness/compute_skewness.go:127-128 | a position is listed exactly when its entry is non-zero, in strictly ascending order |
| RefcountSkewness.WriteResults | chunk_skewness/refcount_skewness/compute_skewness.go:118-132 | `writeResults`: one line "i,cnt" for every non-zero entry, in ascending order of `i` |
| StreamSkewness.TrimSlashes | chunk_skewness/stream_skewness/compute_stream_skewness.go:145 | the path without its trailing slashes: a prefix whose removed part is all slashes and whose last character is not one |
| StreamSkewness.AfterLastSlash | chunk_skewness/stream_skewness/compute_stream_skewness.go:145 | the suffix after the last slash: it holds no slash and is preceded by one unless it is the whole path |
| StreamSkewness.PathBase | chunk_skewness/stream_skewness/compute_stream_skewness.go:145 | `path.Base`: never empty; "." for the empty path; a result with a slash is exactly "/" |
| StreamSkewness.AfterLastSlashOfName | chunk_skewness/stream_skewness/compute_stream_skewness.go:145 | a name without slashes is what follows the last slash of "dir/name" |
| StreamSkewness.PathBaseOfName | chunk_skewness/stream_skewness/compute_stream_skewness.go:145 | the stream of "dir/name" is "name", and that of a bare name is the name itself |
| StreamSkewness.AfterLastSlashSuffix | chunk_skewness/stream_skewness/compute_stream_skewness.go:145 | a path without slashes is all after its last slash |
| StreamSkewness.PathBaseTrailingSlash | chunk_skewness/stream_skewness/compute_stream_skewness.go:145 | trailing slashes do not change the stream a file name names |
| StreamSkewness.Occs | chunk_skewness/stream_skewness/compute_stream_skewness.go:147-162 | one occurrence per chunk, in order |
| StreamSkewness.SkippedEntry | chunk_skewness/stream_skewness/compute_stream_skewness.go:139-143 | an entry whose file name does not end in "dmtcp" adds no occurrence |
| StreamSkewness.AllOccsLength | chunk_skewness/stream_skewness/compute_stream_skewness.go:147 | there is one occurrence per counted chunk |
| StreamSkewness.Record | chunk_skewness/stream_skewness/compute_stream_skewness.go:150-162 | one occurrence adds one to the occurrences and its size to the volume of its key in its stream, starting a new key or stream at one occurrence and the chunk's size; every other key and stream is unchanged |
| StreamSkewness.ApplyAppend | chunk_skewness/stream_skewness/compute_stream_skewness.go:174-177 | recording two runs of occurrences into one index is recording the first, then the second, as the shared index across files does |
| StreamSkewness.ApplyKeys | chunk_skewness/stream_skewness/compute_stream_skewness.go:158-161 | the index holds the keys it held and the keys that occur |
| StreamSkewness.ApplyStreams | chunk_skewness/stream_skewness/compute_stream_skewness.go:150-161 | a key is held with a stream exactly when it was before or occurs in that stream |
| StreamSkewness.ApplyStats | chunk_skewness/stream_skewness/compute_stream_skewness.go:152-160 | the statistics of a key in a stream are what they were plus the number and the total size of its occurrences there |
| StreamSkewness.ApplyNonEmpty | chunk_skewness/stream_skewness/compute_stream_skewness.go:156-161 | every key of the index is held with at least one stream, before and after recording |
| StreamSkewness.Streams | chunk_skewness/stream_skewness/compute_stream_skewness.go:181 | the number of streams of every key, for exactly the keys of the index |
| StreamSkewness.RecordTotals | chunk_skewness/stream_skewness/compute_stream_skewness.go:150-162 | one occurrence adds one to the total occurrences and its size to the total volume |
| StreamSkewness.ApplyTotals | chunk_skewness/stream_skewness/compute_stream_skewness.go:147-163 | the total occurrences grow by one per occurrence and the total volume by their sizes |
| StreamSkewness.ApplyTwice | chunk_skewness/stream_skewness/compute_stream_skewness.go:147-163 | the same occurrences twice give the same keys in the same streams, with twice the occurrences and twice the volume |
| StreamSkewness.KeysTwice | chunk_skewness/stream_skewness/compute_stream_skewness.go:147-163 | processing the same occurrences twice leaves every key in as many streams and doubles its occurrences and volume |
| StreamSkewness.FilesTwice | chunk_skewness/stream_skewness/compute_stream_skewness.go:171-200 | giving every trace file twice leaves the number of keys per stream count unchanged and doubles the occurrences and the volume of every class |
| StreamSkewness.IndexStep | chunk_skewness/stream_skewness/compute_stream_skewness.go:148-162 | one more chunk: its digest is copied into the buffer and the buffer's key recorded in the chunk's stream |
| StreamSkewness.ProcessFile | chunk_skewness/stream_skewness/compute_stream_skewness.go:127-169 | `processFile`: the index is the old one with every chunk of every "dmtcp" entry recorded under the key its digest leaves in the 12-byte buffer, in the stream `path.Base` of its file name names |
| StreamSkewness.ScanEntry | chunk_skewness/stream_skewness/compute_stream_skewness.go:147-163 | the chunk loop of one entry keeps the index equal to the record of every chunk scanned so far |
| StreamSkewness.CountChunk | chunk_skewness/stream_skewness/compute_stream_skewness.go:150-162 | the body of the chunk loop records one occurrence |
| StreamSkewness.ComputeSkewness | chunk_skewness/stream_skewness/compute_stream_skewness.go:171-200 | `computeSkewness`: the index over all files; three histograms one entry longer than the largest number of streams of a key; entry `c` holds the keys found in exactly `c` streams, their occurrences and their volume; entry 0 is zero; the entries add up to the distinct keys, the chunks counted and their total size |
| StreamSkewness.LargestStreams | chunk_skewness/stream_skewness/compute_stream_skewness.go:179-184 | the largest number of streams bounds every key's and is some key's, unless 0 |
| StreamSkewness.NoKeyInNoStream | chunk_skewness/stream_skewness/compute_stream_skewness.go:187-197 | no key is in no stream, so class 0 of every histogram is empty |
| StreamSkewness.IndexFiles | chunk_skewness/stream_skewness/compute_stream_skewness.go:173-177 | the file loop reads every file into the shared index, which then holds every occurrence and its volume |
| StreamSkewness.CountStreams | chunk_skewness/stream_skewness/compute_stream_skewness.go:187-197 | after the loop over the index, entry `c` of the three slices holds the number, the occurrences and the volume of the keys in exactly `c` streams, adding up to all keys, all occurrences and the whole volume |
| StreamSkewness.CountKey | chunk_skewness/stream_skewness/compute_stream_skewness.go:192-196 | one key counts once in the class of its number of streams and adds its occurrences and volume there |
| StreamSkewness.IndexHistograms | chunk_skewness/stream_skewness/compute_stream_skewness.go:191-197 | whatever order the map yields the keys in, the three histograms are the same class-by-class counts |
| StreamSkewness.AddStreams | chunk_skewness/stream_skewness/compute_stream_skewness.go:193-196 | the innermost loop adds one key's occurrences and volume over all its streams to its class, and changes nothing else |
| StreamSkewness.WriteResults | chunk_skewness/stream_skewness/compute_stream_skewness.go:111-125 | `writeResults`: one line "i,cnt,occurrences,volume" per non-zero counter, in ascending order of the number of streams |

## Left out

- Logging, `main` functions, flag parsing, profiling, JSON output and the SHA-1 of the metadata file are not modelled; they do not affect the results.
- `computeListOfFiles` and the file-system checks are not modelled. File opening and reading are not modelled either: inputs are byte or character sequences, and output channels are sequences of payloads.
- `createSingleTrace` (generator/traceBuilder.go:56-105) runs external `cp` and `gzip` processes in a temporary directory. It is not part of this model. `BuildTraces` models only the admission counter of `buildTraces`, as a log of start and completion events. Goroutines and channel blocking are not modelled.
- `TraceBuilder.WriteMessage` does not model `bufio.Writer` buffering, `Flush` errors or `f.Close`. The writer is a script of replies, and a writer whose replies run out reports an error. A writer that accepts zero bytes without error, which would make `writeFull` loop for ever, is therefore modelled only as far as its script goes.
- Protobuf marshalling and unmarshalling (gogo protobuf) are function parameters. The round trip is a stated assumption (`CodecRoundTrips`), not a proof about the library.
- Go's `regexp` is modelled only for the pattern `([0-9a-fz]+):([0-9]+)` and its first group. When the pattern does not match, the source indexes a nil slice. The model treats that as a panic.
- Panics, whether they come from index errors, parse errors or marshalling errors, are terminal outcomes. The process state after a panic is not modelled.
- `UbcDecoder.ChunkOfLine`: the panic on a chunk line whose first field is neither hex nor all-`z` comes from gogo protobuf's generated `Marshal`, which rejects a `Chunk` whose required `fp` field is unset. The marshalling parameter itself is total; this one failure is modelled in `ChunkOfLine`.
- `ProtoDecoder.NChunks`, `ProtoDecoder.FileEntry`: an announced message length is assumed allocatable. The source allocates a buffer of the raw `uint64` length (parser/protoParser.go:56 and parser/protoParser.go:93). A length above Go's allocation limit panics in `make`, and one beyond the available memory aborts the process. The model instead lets the short `io.ReadFull` end the stream with an orderly failure, as it does for every length the runtime can allocate.
- Go's fixed-width integers are modelled where they change results:
  - the `uint32` chunk counts;
  - the `uint64` reinterpretation of a negative legacy file size;
  - `ParseUint` bit sizes.
- Integer overflow of the counters is not modelled: the `int32` and `uint32` histogram entries, the `int64` volumes and the `uint64` special-chunk counters are unbounded.
- `PlanGenerator.DayOf` uses whole seconds and integer division for `int(diffToMin.Hours()) / 24`. This agrees with Go's floating-point `Hours` for non-negative durations of whole seconds. `time.Duration`'s saturation at about 292 years is not modelled.
- `PlanGenerator.GeneratePlanPerDay` requires `numStreams > 0` unless there are no hosts. With hosts and zero streams, Go panics on `% 0`. A negative `numStreams` is not modelled, since `main` never passes one.
- `PlanGenerator.GeneratePlan`:
  - it requires `numNodes <= len(traces)`; Go panics on `perm[i]` beyond that;
  - it requires `numNodes >= 0`; Go panics in `make([]string, numNodes)` for a negative `-n` (generator/fsc_generator.go:127), which `main` passes through unchecked;
  - it requires a non-empty trace list, which `main` checks;
  - the unused `hostList` loop and the unused `chosenHosts` slice are not modelled;
  - `GeneratorConfig.TraceRun` and `MetaInfoHash` are filled in by `main` and are not modelled.
- `MetaParser.AddRelativeTime` requires a non-empty array: the source panics on `traces[0]` for an empty slice, and `main` never passes one.
- `MetaParser.LoadMetadata`: reading the file and decoding the JSON are not modelled. The method starts from the decoded records. A JSON error only logs in the source.
- The parsers' `parseNChunks` and `readNextVarint` in parser/legacyParser.go:180-221 are copies of the canonical reader's. They differ only in the buffer's initial capacity. The legacy decoder never calls them, so they are modelled once, as `ProtoDecoder.NChunks` and `ByteStream.ReadNextVarint`.
- The legacy `recordSize == -1` branch (parser/legacyParser.go:125-128) is not modelled as a separate path. `bufio.Reader.ReadRune` returns rune 0, not -1, at the end of the stream. The end of the stream therefore takes the zero-byte path, and this branch can never run.
- Strings are sequences of characters. The UBC decoder's input is modelled as text, one character per decoded character. The legacy decoder's header bytes are read as one character per byte, and UTF-8 decoding is modelled only for `ReadRune`.
- `RefcountSkewness.SpecialChunks` holds the special-chunk digests of the source's table, already hex-decoded. The counting methods take the table as a parameter. A failed `hex.DecodeString` of the table's constants cannot happen, so the model does not include it.
- `StreamSkewness`: the `*StreamStats` pointers are values in a map of maps, which gives the same results because every update writes back into the map.
- The concrete examples of the Go tests are not restated as lemmas, including the four-entry UBC trace, the refcount five-chunk example and the stream six-chunk example. The general lemmas cover them: `UbcProperties.TraceOfRecords`, `RefcountSkewness.ComputeSkewness`, `StreamSkewness.ComputeSkewness` and `StreamSkewness.FilesTwice`.
- The stream-skewness tests call `computeSkewness` as if it returned one value, while it returns three. Only their expectations about the first result agree with the code.
