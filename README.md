# A verified model of three small cores of gitoxide

This project models, in Dafny, three sequential pieces of the gitoxide Git
implementation and proves properties of them:

1. **The configuration whitespace/comment skipper** (`git-config/src/parse.rs`).
   `SkipWhitespaceOrComment` advances a `BytesReader` (a byte sequence and a
   cursor) over ASCII whitespace and `#` comments. `NextToken` mode crosses
   lines. `EndOfLine` mode stops at the first line feed and consumes just
   that one. The result is the consumed span, or `None` when nothing was
   consumed.
2. **The pkt-line reader** (`git-protocol/src/packet_line/read.rs`). `Reader`
   reads Git's pkt-line frames from an inner byte source: four hex digits
   giving the length, then the payload. `0000` is the flush-pkt. The frame
   format is the one in section "pkt-line Format" of Git's
   `Documentation/technical/protocol-common.txt`. A flush line latches
   `isDone`, and after that `ReadLine` yields nothing until `Reset`.
3. **The pack-index write entry point** (`git-odb/src/pack/index/write.rs`).
   Only its control skeleton exists. An unsupported index kind fails with
   `Unsupported(kind)` before any entry is pulled. Otherwise the entry
   iterator is drained. The `Entry` layout is its header bytes followed by
   its compressed bytes.

Files: `wrappers.dfy` (Option, Result, fixed-width integer types),
`config_parse.dfy`, `packet_line_read.dfy`, `index_write.dfy`.

State that the source updates in place is modelled as classes:
- `BytesReader.pos` for the skipper's cursor.
- `ByteSource.pos` for the inner `io::Read`.
- `Reader.isDone`, and the `buf` array that `read_exact` fills.
- `EntryIter.pulled` for the entry iterator.

Each method is proved against a function on plain sequences: `SkipEnd`,
`ReadLineInnerSpec`/`Consumed`, or the iterator's item list. The lemmas then
state what those functions promise.

## Model

| member | source | states |
|---|---|---|
| ConfigParse.BytesReader.constructor | git-config/src/parse.rs:75-77 | a reader over the input starts with its cursor at 0 |
| ConfigParse.BytesReader.TakeWhile | git-config/src/parse.rs:37-45 | takes the longest run from the cursor whose bytes satisfy the predicate; returns exactly those bytes and stops at the end or at the first byte that fails |
| ConfigParse.BytesReader.TakeUntilOpt | git-config/src/parse.rs:28 | takes bytes up to, not including, the first `\n`, or all the rest when there is none |
| ConfigParse.BytesReader.ConsumeOpt | git-config/src/parse.rs:48 | consumes the next byte exactly when it is the given byte |
| ConfigParse.LineEnd | git-config/src/parse.rs:28 | the first `\n` at or after a position, or the end; no `\n` before it |
| ConfigParse.RunEnd | git-config/src/parse.rs:37-45 | end of the whitespace run: every byte before it is skippable in the mode, and the byte at it is not |
| ConfigParse.CommentEnd | git-config/src/parse.rs:26-32 | a comment is consumed exactly when the cursor is on `#`; it holds no `\n` and stops at a `\n` or the end |
| ConfigParse.Fixpoint | git-config/src/parse.rs:34-53 | the loop settles at a position at or after the start where one more round consumes nothing |
| ConfigParse.SkipComment | git-config/src/parse.rs:26-32 | moves the cursor to `CommentEnd` and returns how many bytes it took |
| ConfigParse.SkipBlanks | git-config/src/parse.rs:25-54 | the loop ends and leaves the cursor at `SkipEnd`: the fixpoint, plus one `\n` in `EndOfLine` mode when one is there |
| ConfigParse.SkipWhitespaceOrComment | git-config/src/parse.rs:24-63 | the result is `None` exactly when nothing was consumed, otherwise `Some` of exactly the consumed bytes; the cursor sits right after them |
| ConfigParse.CommentBytesInComment | git-config/src/parse.rs:26-32 | every byte from a `#` up to the next `\n` lies in that comment |
| ConfigParse.RoundBlanks | git-config/src/parse.rs:36-45 | one round consumes only whitespace and comment bytes, and in `EndOfLine` mode no `\n` |
| ConfigParse.FixpointBlanks | git-config/src/parse.rs:34-53 | all rounds together consume only whitespace and comment bytes, and in `EndOfLine` mode no `\n` |
| ConfigParse.SkipConsumesOnlyBlanks | git-config/src/parse.rs:119-133 | no byte is consumed unless it is ASCII whitespace or lies inside a comment |
| ConfigParse.FixpointOutsideComment | git-config/src/parse.rs:34-53 | the loop never settles inside a comment: a comment it meets is consumed up to its `\n` or the end |
| ConfigParse.NextTokenStopsAtToken | git-config/src/parse.rs:103-109 | in `NextToken` mode the skipper stops only at the end or at a byte that is neither whitespace nor `#`, and never inside a comment, so comments are skipped like whitespace |
| ConfigParse.EndOfLineStopsAfterLine | git-config/src/parse.rs:40-49 | in `EndOfLine` mode at most one `\n` is consumed, and only as the last byte; otherwise it stops at the end or at a token byte that lies outside every comment |
| ConfigParse.NextTokenIdempotent | git-config/src/parse.rs:46-51 | skipping again in `NextToken` mode right after a skip consumes nothing |
| ConfigParse.EndOfLineWithinNextToken | git-config/src/parse.rs:40-43 | `EndOfLine` mode never consumes more than `NextToken` mode from the same position |
| ConfigParse.SpanNoCommentTillNextToken | git-config/src/parse.rs:87-93 | whitespace across lines is consumed whole: 13 of 13 bytes |
| ConfigParse.SpanNoCommentToEndOfLine | git-config/src/parse.rs:95-101 | only the first line and its `\n`: 6 bytes |
| ConfigParse.SpanCommentToNextToken | git-config/src/parse.rs:103-109 | a comment counts as whitespace: 13 bytes |
| ConfigParse.SpanCommentToEndOfLine | git-config/src/parse.rs:111-117 | a comment line and its `\n`: 6 bytes |
| ConfigParse.SpanWhitespaceToToken | git-config/src/parse.rs:119-125 | stops before the token `a=2`: 3 bytes |
| ConfigParse.SpanWhitespaceToTokenOnNextLine | git-config/src/parse.rs:127-133 | crosses the line and stops before `b=2`: 7 bytes |
| PacketLineRead.Hex4RoundTrip | git-protocol/src/packet_line/read.rs:33 | decoding a written four-digit prefix gives back its value |
| PacketLineRead.HexPrefix | git-protocol/src/packet_line/read.rs:33-37 | the prefix yields a flush line exactly for `0000`; a line from the prefix alone is never a data line; `0001` and `0002` yield the delimiter and response-end lines; a prefix whose value is a valid data-line length (5..=`MAX_LINE_LEN`) asks for exactly that value minus 4 bytes, and every wanted size lies in 1..=`MAX_DATA_LEN` |
| PacketLineRead.ToDataLine | git-protocol/src/packet_line/read.rs:41-44 | a payload that fits in a line becomes exactly that data line; otherwise the length error |
| PacketLineRead.Consumed | git-protocol/src/packet_line/read.rs:31-40 | a read that succeeds at the io level takes at least the 4 prefix bytes, at most what is there, and at most `MAX_LINE_LEN` |
| PacketLineRead.Encode | git-protocol/src/packet_line/read.rs:31-40 | the frame a line is written as is between 4 and `MAX_LINE_LEN` bytes |
| PacketLineRead.ReadEncodedLine | git-protocol/src/packet_line/read.rs:30-45 | reading an encoded line returns that line and takes exactly its frame, whatever follows |
| PacketLineRead.ReadsNoMoreThanNeeded | git-protocol/src/packet_line/read.rs:4-6 | appending bytes after the input changes neither what a read returns nor how much it takes |
| PacketLineRead.TruncatedLineIsIoError | git-protocol/src/packet_line/read.rs:31-40 | any line's frame cut short anywhere gives an io error: a short prefix at read.rs:32, a short payload at read.rs:40 |
| PacketLineRead.ReadSection | git-protocol/src/packet_line/read.rs:47-58 | calling `ReadLine` on a reader whose input is encoded lines, a flush line and a tail, until it yields `None`, returns exactly those lines; the reader is then done and the tail is still unread; what it returns is what `LinesBeforeFlush` says repeated reads of its input yield |
| PacketLineRead.ReadSectionRoundTrip | git-protocol/src/packet_line/read.rs:4-6 | reading encoded lines and a flush line gives back those lines, and the reads stop right after the flush line so the tail is unread |
| PacketLineRead.ByteSource.constructor | git-protocol/src/packet_line/read.rs:17 | the inner reader starts at the beginning of its input |
| PacketLineRead.ByteSource.ReadExact | git-protocol/src/packet_line/read.rs:32 | `read_exact` works exactly when enough bytes remain; it then fills exactly the slice from the input, advances by its length, and touches nothing else in the buffer |
| PacketLineRead.Reader.constructor | git-protocol/src/packet_line/read.rs:17-23 | a new reader is not done and has a zeroed buffer of `MAX_LINE_LEN` bytes |
| PacketLineRead.Reader.Reset | git-protocol/src/packet_line/read.rs:25-28 | requires `isDone` (the debug assertion) and clears it |
| PacketLineRead.Reader.ReadLineInner | git-protocol/src/packet_line/read.rs:30-45 | returns `ReadLineInnerSpec` of the remaining input: exactly 4 prefix bytes, then, only on `Wanted(n)`, exactly `n` more; the cursor moves by `Consumed` |
| PacketLineRead.Reader.ReadLine | git-protocol/src/packet_line/read.rs:47-58 | when done: `None` and nothing consumed; a flush line sets `isDone` and gives `None`; anything else, errors included, is `Some` and the reader stays not done |
| IndexWrite.Entry.HeaderBytes | git-odb/src/pack/index/write.rs:32-36 | the header is a prefix of `bytes` exactly `headerSize` long |
| IndexWrite.Entry.CompressedBytes | git-odb/src/pack/index/write.rs:35-36 | header bytes followed by compressed bytes are exactly `bytes` |
| IndexWrite.EntryInPack | git-odb/src/pack/index/write.rs:32-36 | when the entry's bytes sit in the pack at its offset, the pack holds the header from `packOffset` and the compressed data from `packOffset + headerSize` |
| IndexWrite.EntryIter.constructor | git-odb/src/pack/index/write.rs:43 | an iterator over the items, none pulled yet |
| IndexWrite.EntryIter.Next | git-odb/src/pack/index/write.rs:51 | yields the next item in order, or `None` once all are pulled |
| IndexWrite.HashWrite.constructor | git-odb/src/pack/index/write.rs:47 | the hashing writer wraps the output with the kind's hash family and has hashed nothing |
| IndexWrite.WriteToStream | git-odb/src/pack/index/write.rs:42-54 | an unsupported kind returns `Err(Unsupported(kind))` with nothing pulled; the default kind pulls every item, error items included, then stops where the source is unimplemented; the output is never written |

## Left out

- `config` (git-config/src/parse.rs:4-16) is left out: it stops at `unimplemented!` right after the first skip.
- The `dangerous` crate's error type, `read_infallible` and span types are left out. The reader is a byte sequence and a cursor, and spans are the consumed bytes.
- The decode module (`hex_prefix`, `to_data_line`, `Borrowed`) and the constants in `packet_line/mod.rs` are not part of this model. The pkt-line format documents `0000` as the flush-pkt and a limit of 65520 bytes per line, so at most 65516 payload bytes. The rest of `HexPrefix` is the assumed behaviour of the decoder: `0001` (delimiter) and `0002` (response end) as special lines from the version 2 protocol, a length of 3 as `InvalidLineLength`, and a length of 4 (an empty line) as `DataIsEmpty`. The reader and the round-trip lemmas (`ReadEncodedLine`, `TruncatedLineIsIoError`, `ReadSectionRoundTrip`, `ReadSection`) rely only on the stated postconditions of `HexPrefix` and `ToDataLine`. Those postconditions include the assumed readings of `0001`, `0002` and of valid lengths.
- PacketLineRead.HexPrefix: the bound `size <= MAX_DATA_LEN` on a wanted size is an assumption about the decode module, which is not part of this model. It is the condition under which `split_at_mut(num_data_bytes)` at git-protocol/src/packet_line/read.rs:39 does not panic; a decoder that let a larger size through, and the panic that would follow, are not modelled.
- Real `io::Read` is replaced by a byte sequence with a cursor. The only io error is running out of input.
- PacketLineRead.ByteSource.ReadExact: after a failed `read_exact`, nothing is stated about the cursor beyond "not moved back", and nothing about the buffer, because the standard library leaves partial reads unspecified.
- PacketLineRead.Reader.ReadLineInner: states nothing about the inner cursor after an io error, for the same reason.
- The returned `Borrowed` line borrows `buf` in the source. Here a data line holds a copy of its payload, so the aliasing between the result and the buffer is not modelled.
- PacketLineRead.Reader.Reset: the `debug_assert!` is a precondition. A release build, which skips the check, is not modelled.
- Everything in `write_to_stream` after the drain is left out: the digest at write.rs:52, sorting, the fan-out table, serialisation and building the `Outcome`. It is unimplemented in the source, so the model returns `None` at that point instead of an outcome.
- SHA-1, CRC32 and the internals of `hash::Write` are left out: they are foreign code and outside this model. Pack header encoding, decompression and the header type (abstract `H` in `Entry`) are left out too.
- `Kind` (index/mod.rs) is not part of this model. It is taken as the two index versions with version 2 as the default, both hashed with SHA-1. Its numeric values, the `quick_error` display strings and the serde derives are left out.
