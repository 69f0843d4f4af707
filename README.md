# Split-Content, modelled in Dafny

Split-Content is a PowerShell cmdlet. It turns files into a stream of
records. Text mode writes one string per line. Binary mode (`-AsByteStream`)
writes byte arrays of at most `ReadCount` bytes, with `ReadCount` defaulting
to 4096. The model covers the body of the cmdlet class:

- `ProcessRecord` loops over the wildcard patterns of `Path`, then over the
  `LiteralPath` values. Each error it catches is written as one error record,
  and, when WriteError returns, the loop carries on.
- `SplitContentPath` opens one resolved path. It reports a missing file or a
  denied access as one error record.
- `SplitTextContent` writes every line a `StreamReader` yields, until
  `ReadLine` returns null.
- `SplitByteContent` is the buffer loop. A read that fills the buffer hands
  the buffer itself to the pipeline and drops it. A short read hands over a
  fresh copy of exactly the bytes read and keeps the buffer. A read of zero
  bytes ends the loop.

The files:

- `records.dfy`: the records and error records written to the pipeline, and
  how a call ends (`Completed` or an exception that escapes, `Propagated`).
- `streams.dfy`: the file stream (`ByteStream`), the reader (`LineReader`)
  and `Buffer.BlockCopy`.
  - A stream may serve a read short. The stream carries a schedule of caps on
    successive reads (`grants`).
  - `Chunking.EveryReadSequence` shows that every sequence of read sizes
    `Stream.Read` may deliver comes from some schedule.
- `session.dfy`: path resolution and file opening as oracles returning a
  tagged outcome. A resolver "fault" carries any exception but
  ItemNotFoundException (`NotItemNotFound`), since only that one is caught
  around the resolvers. An open "fault" carries an exception that none of
  FileNotFoundException, UnauthorizedAccessException and
  ItemNotFoundException covers (`Uncaught`).
- `chunking.dfy`: `Chunks`, the specification of the binary loop, and its
  properties.
- `outcomes.dfy`: traces, meaning what each level of the cmdlet writes and
  how it ends (`PathTrace`, `PatternTrace`, `LiteralTrace`,
  `InvocationTrace`). Also the batch lemmas: error isolation, order, and one
  error record per failed input.
- `cmdlet.dfy`: the class `SplitContent`.
  - The pipeline is a field that WriteObject and WriteError append to.
  - `Valid()` says that no byte array handed to the pipeline has been written
    since. Every method keeps it.
  - `SplitContentPath`, `SplitPattern`, `SplitLiteral`, `ProcessPaths`,
    `ProcessLiteralPaths` and `ProcessRecord` are proved to write exactly
    what `PathTrace`, `PatternTrace`, `LiteralTrace`, `Fold` and
    `InvocationTrace` say.
  - `SplitByteContent` is proved against `Chunks`, and `SplitTextContent`
    against the reader's lines.
  - The write methods, `HandOver` and `ReadChunk` are proved against their
    own contracts, which state the new pipeline and buffers.

### Short reads

A short read does not end the loop. `SplitContent/SplitContent.cs:168-175`
copy the bytes out, keep the buffer and go back to line 151. Only a read of
zero bytes ends the loop. `Chunking.ShortReadThenFullReads` is a concrete
case: a short first read is followed by two full chunks.

### Negative ReadCount

A negative `ReadCount` makes `new byte[ReadCount]` throw `OverflowException`.
That happens after the file has been opened and before anything is read or
written. The model keeps this as an exception that escapes (`Propagated`), not
as a precondition. `SplitByteContent` tests for it before the loop: the first
trip always reaches the allocation before doing anything else.

## Model

| member | source | states |
|---|---|---|
| Cmdlet.SplitContent.constructor | SplitContent/SplitContent.cs:15-25 | a new cmdlet holds the given Path, LiteralPath, AsByteStream and ReadCount (4096 unless given) and has written nothing |
| Cmdlet.SplitContent.WriteLine | SplitContent/SplitContent.cs:140 | WriteObject of a line appends exactly that line and hands no array over |
| Cmdlet.SplitContent.WriteBytes | SplitContent/SplitContent.cs:164 | WriteObject of a byte array appends the array itself with the bytes it holds now |
| Cmdlet.SplitContent.WriteError | SplitContent/SplitContent.cs:117-124 | WriteError appends exactly one error record and nothing else |
| Cmdlet.SplitContent.HandOver | SplitContent/SplitContent.cs:160-175 | a full read hands the buffer itself over and drops it (null); a short read hands over a fresh array of exactly i bytes, equal to the bytes read, and keeps the buffer unchanged |
| Cmdlet.SplitContent.ReadChunk | SplitContent/SplitContent.cs:151-180 | one trip of the loop: the buffer at hand is reused and a fresh one of ReadCount bytes is allocated only when there is none; a read of zero bytes or a short read keeps the buffer, a full read drops it (null); a read of k > 0 bytes appends exactly one record to what was written before, the next chunk Chunks predicts, held by the buffer itself after a full read and by a fresh array after a short one; a read of zero means every predicted chunk has been written; the kept buffer has never been handed out |
| Cmdlet.SplitContent.SplitByteContent | SplitContent/SplitContent.cs:145-183 | the records written are exactly Chunks of the stream's bytes, in read order, each in an array of exactly its length; no handed-out array is written afterwards; the whole file is read when ReadCount > 0; a negative ReadCount escapes as OverflowException with nothing written; earlier output is untouched; the stream is closed |
| Cmdlet.SplitContent.SplitTextContent | SplitContent/SplitContent.cs:127-143 | every line the reader yields is written once, in order, nothing after the first null; the reader is drained and closed; every record written before is kept, with its array |
| Cmdlet.SplitContent.SplitContentPath | SplitContent/SplitContent.cs:104-125 | output and ending are PathTrace's: split by lines or chunks, one error record per missing or denied file, other exceptions escape; every record written before is kept, with its array |
| Cmdlet.SplitContent.SplitPattern | SplitContent/SplitContent.cs:65-84 | output and ending are PatternTrace's: every match of a file-system pattern in order, stopping at the first escaping exception; one ProviderError for another provider; one ItemNotFoundException record for an unknown pattern; every record written before is kept, with its array |
| Cmdlet.SplitContent.SplitLiteral | SplitContent/SplitContent.cs:92-99 | output and ending are LiteralTrace's: the resolved path split, or one ItemNotFoundException record on the literal string; every record written before is kept, with its array |
| Cmdlet.SplitContent.ProcessPaths | SplitContent/SplitContent.cs:61-86 | the loop over Path writes the fold of PatternTrace over the patterns, left to right, ending at the first escaping exception; every record written before is kept, with its array |
| Cmdlet.SplitContent.ProcessLiteralPaths | SplitContent/SplitContent.cs:88-101 | the loop over LiteralPath writes the fold of LiteralTrace over the literal paths, ending at the first escaping exception; every record written before is kept, with its array |
| Cmdlet.SplitContent.ProcessRecord | SplitContent/SplitContent.cs:59-102 | output and ending are InvocationTrace's: all patterns, then, if nothing escaped, all literal paths; every record written before is kept, with its array |
| Streams.Granted | SplitContent/SplitContent.cs:158 | a read delivers at most the count asked for and at most what is left, and zero only when nothing was asked for or the stream is at its end |
| Streams.ByteStream.Open | SplitContent/SplitContent.cs:147 | File.OpenRead gives an open stream at position 0 over the file's bytes |
| Streams.ByteStream.Read | SplitContent/SplitContent.cs:158 | the granted number of bytes is copied from the position into the buffer, the rest of the buffer is untouched, and the position advances by that number |
| Streams.ByteStream.Dispose | SplitContent/SplitContent.cs:147-182 | the end of the using block closes the stream |
| Streams.LineReader.Open | SplitContent/SplitContent.cs:129 | a new StreamReader has all the file's lines pending |
| Streams.LineReader.ReadLine | SplitContent/SplitContent.cs:133-138 | the next pending line, or null exactly when none is left |
| Streams.LineReader.Dispose | SplitContent/SplitContent.cs:129-142 | the end of the using block closes the reader |
| Streams.BlockCopy | SplitContent/SplitContent.cs:172 | the first i bytes of the buffer are copied into the new array, whose other bytes are untouched |
| Chunking.ChunksRebuildData | SplitContent/SplitContent.cs:145-183 | the chunks laid end to end are exactly the file's bytes, whatever the read sizes; ReadCount 0 writes nothing |
| Chunking.ChunksBounded | SplitContent/SplitContent.cs:158-176 | every chunk holds between 1 and ReadCount bytes: no empty record is ever written |
| Chunking.Sizes | SplitContent/SplitContent.cs:151-181 | reference split into fixed-size pieces: all pieces but the last exactly n long, the last between 1 and n, adding up to the length |
| Chunking.GreedyChunks | SplitContent/SplitContent.cs:151-181 | when every read is served in full, the chunk lengths are the fixed-size pieces of Sizes |
| Chunking.TenThousandBytes | SplitContent/SplitContent.cs:25 | when every read is served in full, 10000 bytes with the default ReadCount give records of 4096, 4096 and 1808 bytes |
| Chunking.EveryReadSequence | SplitContent/SplitContent.cs:158 | any sequence of read sizes between 1 and ReadCount that adds up to the file's length gives chunks of exactly those lengths |
| Chunking.ShortReadThenFullReads | SplitContent/SplitContent.cs:168-175 | a short read does not end the loop: a first read of 2 of 10 bytes with ReadCount 4 is followed by two chunks of 4 |
| Outcomes.FoldTrip | SplitContent/SplitContent.cs:63-85 | one more loop trip after trips that completed: the output so far is the fold of the first j + 1 items, ending as the trip ended |
| Outcomes.FoldAppend | SplitContent/SplitContent.cs:63-85 | looping over two lists in a row is looping over the first and then, if nothing escaped, over the second |
| Outcomes.IsolatedItem | SplitContent/SplitContent.cs:63-85 | an item in the middle of a batch runs after the items before it and before those after it |
| Outcomes.FoldCompleted | SplitContent/SplitContent.cs:63-85 | a batch completes if and only if every item does, and its output is then each item's output in input order, in contiguous blocks |
| Outcomes.PropagatedPrefix | SplitContent/SplitContent.cs:63-85 | after an exception escapes, the rest of the batch writes nothing |
| Outcomes.FirstEscapeEndsBatch | SplitContent/SplitContent.cs:63-85 | the first item whose exception escapes ends the batch with that exception, after the output of the items before it and its own |
| Outcomes.PathOutcome | SplitContent/SplitContent.cs:104-125 | every path ends in exactly one way: records and no error, exactly one error record (FileNotFoundException with ResourceUnavailable, or UnauthorizedAccessException with PermissionDenied, on the path), or an exception that escapes with nothing written; the two caught exceptions never escape |
| Outcomes.MissingPatternIsolated | SplitContent/SplitContent.cs:81-84 | an unknown pattern writes one ResourceUnavailable error on the pattern and the other patterns still run |
| Outcomes.ForeignProviderIsolated | SplitContent/SplitContent.cs:76-79 | a pattern of another provider writes one NotImplemented ProviderError and no record, and the other patterns still run |
| Outcomes.ZeroMatchesSilent | SplitContent/SplitContent.cs:69-75 | a file-system pattern that matches nothing writes neither record nor error: the batch is as if it were absent (a pattern of another provider with no matches still writes a ProviderError) |
| Outcomes.MissingLiteralIsolated | SplitContent/SplitContent.cs:96-99 | a literal path that cannot be resolved writes one ResourceUnavailable error on the literal string and the next one runs |
| Outcomes.UnopenableLiteralIsolated | SplitContent/SplitContent.cs:94 | a literal path whose file is missing or denied writes exactly one error record on the resolved path and the next one runs |
| Outcomes.PatternsBeforeLiterals | SplitContent/SplitContent.cs:59-102 | when nothing escapes, the output is every pattern's output in order, then every literal path's, each in one block |
| Outcomes.FoldFailures | SplitContent/SplitContent.cs:63-85 | if each completed item writes a known number of error records, a completed batch writes their sum |
| Outcomes.PathFailures | SplitContent/SplitContent.cs:117-124 | a completed path writes one error record if its file is missing or denied, else none |
| Outcomes.PatternFailures | SplitContent/SplitContent.cs:65-84 | a completed pattern writes one error record per failed match, or one for an unknown pattern or another provider |
| Outcomes.OneErrorPerFailedInput | SplitContent/SplitContent.cs:59-102 | a completed invocation writes exactly one error record per failed input: unknown pattern, other provider, unresolvable literal path, missing or denied file |

## Left out

- The PowerShell host is left out: parameter sets, `SwitchParameter` and the
  transport behind WriteObject and WriteError. The pipeline is one sequence
  that both append to. WriteError returns in the model, as under the default
  ErrorActionPreference; under Stop the first error record ends the
  invocation, and the loops do not carry on.
- `Path` and `LiteralPath` may be null, and the code then skips the loop. They
  are modelled as sequences, and an absent parameter is the empty sequence.
- Wildcard and provider resolution are oracles of the session state.
  `GetResolvedProviderPathFromPSPath` and
  `GetUnresolvedProviderPathFromPSPath` belong to PowerShell.
- Opening a file is an oracle: opened, not found, denied, or another
  exception. `File.OpenRead` and `new StreamReader` depend on the operating
  system.
- `StreamReader` decoding, the `Encoding` parameter and newline recognition
  are left out. A file's lines are given with its image.
- An exception is modelled by its type name only. Message texts and the
  exception objects carried inside error records are not modelled.
- The text of the ProviderError message is not modelled.
- The error id of a caught exception is `ex.GetType().Name` in the code
  (`SplitContent/SplitContent.cs:83`, 98, 119 and 123). For an exception of
  a subclass, that is the subclass's own name. The model always writes the
  name of the class the catch clause names (`ItemNotFoundError`,
  `FileNotFoundError` and `AccessDeniedError`), and an oracle cannot report
  a subclass.
- Exceptions thrown by `Read` or `ReadLine` after a successful open are not
  modelled. Reads always succeed in the model.
- Cmdlet.SplitContent.SplitByteContent: its ensures does not state that the
  arrays it hands out are fresh and pairwise distinct. `HandOver` states
  freshness for each trip, and `Valid()` states that none is written after it
  is handed out.
- Cmdlet.SplitContent.SplitByteContent: a failure to allocate the
  ReadCount buffer is not modelled. In the code, a very large ReadCount (up
  to 2147483647) makes `new byte[ReadCount]` throw OutOfMemoryException,
  which no catch clause handles. Whether it throws depends on the runtime's
  array limit and on available memory. The model completes for every
  ReadCount >= 0.
- ReadCount is a 32-bit `int` in the code. The model's `readCount` is an
  unbounded integer, and values a 32-bit int cannot hold do not arise.
- Cmdlet.SplitContent.ProcessRecord: the model runs one call with the
  parameters fixed at construction. Pipeline input binding several records
  in turn is not modelled.
- Stream.Read's freedom to deliver fewer bytes than asked is a schedule given
  with the file (`grants`), not nondeterminism. `EveryReadSequence` shows that
  every legal sequence of read sizes is covered.
