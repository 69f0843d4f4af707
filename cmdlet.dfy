/** The Split-Content cmdlet: its parameters, its output and the loops of
    ProcessRecord, SplitContentPath, SplitTextContent and SplitByteContent.
    WriteObject and WriteError append to one pipeline, so the order of
    records and error records relative to each other is kept. */
module Cmdlet {
  import opened Records
  import opened Streams
  import opened Chunking
  import opened Session
  import opened Outcomes

  class SplitContent {
    /** The session state the cmdlet resolves paths and opens files through. */
    const session: SessionState
    /** The Path parameter (wildcard patterns); an absent parameter is empty. */
    const paths: seq<string>
    /** The LiteralPath parameter; an absent parameter is empty. */
    const literalPaths: seq<string>
    const asByteStream: bool
    const readCount: int
    /** Everything written so far by WriteObject and WriteError. */
    var pipeline: seq<Emission>

    /** No byte array handed to the pipeline has been written since. */
    ghost predicate Valid()
      reads this, Buffers(pipeline)
    {
      Intact(pipeline)
    }

    function Settings(): Config
    {
      Config(asByteStream, readCount)
    }

    constructor (session: SessionState, paths: seq<string>, literalPaths: seq<string>,
                 asByteStream: bool, readCount: int := DefaultReadCount)
      ensures Valid() && pipeline == []
      ensures this.session == session && this.paths == paths && this.literalPaths == literalPaths
      ensures this.asByteStream == asByteStream && this.readCount == readCount
    {
      this.session := session;
      this.paths := paths;
      this.literalPaths := literalPaths;
      this.asByteStream := asByteStream;
      this.readCount := readCount;
      pipeline := [];
    }

    /** WriteObject(line). */
    method WriteLine(line: string)
      requires Valid()
      modifies this
      ensures Valid() && pipeline == old(pipeline) + [Object(Text(line))]
      ensures Buffers(pipeline) == Buffers(old(pipeline))
    {
      BuffersAppend(pipeline, Object(Text(line)));
      pipeline := pipeline + [Object(Text(line))];
      assert forall i :: 0 <= i < |old(pipeline)| ==> pipeline[i] == old(pipeline)[i];
    }

    /** WriteObject(buffer) for a byte array: the pipeline now holds the array
        itself, and the bytes it holds at this moment. */
    method WriteBytes(buffer: array<byte>)
      requires Valid()
      modifies this
      ensures Valid() && pipeline == old(pipeline) + [Object(Binary(buffer, buffer[..]))]
      ensures Buffers(pipeline) == Buffers(old(pipeline)) + {buffer}
    {
      BuffersAppend(pipeline, Object(Binary(buffer, buffer[..])));
      pipeline := pipeline + [Object(Binary(buffer, buffer[..]))];
      assert forall i :: 0 <= i < |old(pipeline)| ==> pipeline[i] == old(pipeline)[i];
    }

    method WriteError(e: ErrorRecord)
      requires Valid()
      modifies this
      ensures Valid() && pipeline == old(pipeline) + [Error(e)]
      ensures Buffers(pipeline) == Buffers(old(pipeline))
    {
      BuffersAppend(pipeline, Error(e));
      pipeline := pipeline + [Error(e)];
      assert forall i :: 0 <= i < |old(pipeline)| ==> pipeline[i] == old(pipeline)[i];
    }

    /** The body of `if (i > 0)` in SplitByteContent: after a read of i bytes
        into `record`, a full read hands `record` itself to the pipeline and
        gives it up (the result is null, so the next read gets a fresh
        buffer); a short read hands over a fresh array holding a copy of
        exactly the i bytes, and keeps `record` for the next read. */
    method HandOver(record: array<byte>, i: nat) returns (chunk: array<byte>, kept: array?<byte>)
      requires Valid() && 0 < i <= record.Length && record !in Buffers(pipeline)
      modifies this
      ensures Valid() && record[..] == old(record[..])
      ensures pipeline == old(pipeline) + [Object(Binary(chunk, record[..i]))]
      ensures Buffers(pipeline) == Buffers(old(pipeline)) + {chunk}
      ensures chunk.Length == i
      ensures i == record.Length ==> chunk == record && kept == null
      ensures i < record.Length ==> fresh(chunk) && kept == record
    {
      if i == record.Length {
        assert record[..i] == record[..];
        WriteBytes(record);
        chunk, kept := record, null;
      } else {
        var bytes := new byte[i];
        BlockCopy(record, 0, bytes, 0, i);
        assert bytes[..] == bytes[0..i] == record[..i];
        WriteBytes(bytes);
        chunk, kept := bytes, record;
      }
    }

    /** One trip round the loop of SplitByteContent: a buffer of ReadCount
        bytes when none is at hand, a Stream.Read of up to its length and,
        when the read delivered any bytes, their hand-over. `kept` is the
        buffer for the next trip (null when a new one must be allocated):
        the buffer at hand is reused unless a full read handed it over.
        `chunk` is the array handed over: the buffer itself after a full
        read, a fresh copy after a short one. The
        ghost parameters carry the loop's bookkeeping: `added` is what the
        loop has written so far after `base`, and `chunks` the chunks Chunks
        predicts for the whole stream; one trip writes exactly the next
        predicted chunk, and a read that delivers nothing means all of them
        have been written. */
    method ReadChunk(stream: ByteStream, record: array?<byte>,
                     ghost base: seq<Emission>, ghost chunks: seq<seq<byte>>, ghost added: seq<Emission>)
      returns (i: nat, kept: array?<byte>, ghost chunk: array<byte>, ghost added': seq<Emission>)
      requires Valid() && stream.Valid() && stream.isOpen && readCount >= 0
      requires record != null ==> record.Length == readCount && record !in Buffers(pipeline)
      requires pipeline == base + added && Chunked(added)
      requires chunks == BytesOf(added) + Chunks(stream.Remaining(), stream.grants, readCount)
      modifies this, stream, record
      ensures Valid() && stream.Valid() && stream.isOpen
      ensures i == Granted(readCount, |old(stream.Remaining())|, old(stream.grants))
      ensures stream.Remaining() == old(stream.Remaining())[i..] && stream.grants == AfterRead(i, old(stream.grants))
      ensures pipeline == base + added' && Chunked(added')
      ensures chunks == BytesOf(added') + Chunks(stream.Remaining(), stream.grants, readCount)
      ensures i == 0 ==> chunks == BytesOf(added')
      ensures kept != null ==> kept.Length == readCount && kept !in Buffers(pipeline)
      ensures record != null && (i == 0 || i < readCount) ==> kept == record
      ensures record == null && (i == 0 || i < readCount) ==> kept != null && fresh(kept)
      ensures 0 < i == readCount ==> kept == null
      ensures i == 0 ==> added' == added
      ensures i > 0 ==> added' == added + [Object(Binary(chunk, old(stream.Remaining())[..i]))]
      ensures 0 < i == readCount && record != null ==> chunk == record
      ensures 0 < i && (i < readCount || record == null) ==> fresh(chunk)
    {
      var buffer := record;
      if buffer == null {
        buffer := new byte[readCount];
      }
      ghost var rest, grants := stream.Remaining(), stream.grants;
      i := stream.Read(buffer, 0, buffer.Length);
      ChunksAdvance(chunks, BytesOf(added), rest, grants, readCount, i);
      if i > 0 {
        assert buffer[..i] == buffer[0..i] == rest[..i];
        var handed;
        handed, kept := HandOver(buffer, i);
        chunk := handed;
        ghost var e := Object(Binary(chunk, rest[..i]));
        ChunkedAppend(added, e);
        added' := added + [e];
      } else {
        kept, chunk, added' := buffer, buffer, added;
      }
    }

    /** Reads the stream into a buffer of ReadCount bytes until a read
        delivers nothing (see ReadChunk). The chunks written are those Chunks
        describes, each in an array of exactly its length, and none of the
        arrays is written again (Valid). A negative ReadCount makes the first
        allocation throw, before anything is read. The stream is disposed of
        on every exit. */
    method SplitByteContent(stream: ByteStream) returns (status: Status)
      requires Valid() && stream.Valid() && stream.isOpen
      modifies this, stream
      ensures Valid() && stream.Valid() && !stream.isOpen
      ensures Extends(old(pipeline), pipeline)
      ensures readCount < 0 ==> status == Propagated("OverflowException") && pipeline == old(pipeline)
      ensures readCount >= 0 ==> status == Completed
      ensures readCount >= 0 ==> Values(pipeline) == Values(old(pipeline)) + ChunksOf(Chunks(old(stream.Remaining()), old(stream.grants), readCount))
      ensures readCount > 0 ==> stream.Remaining() == []
    {
      if readCount < 0 {
        stream.Dispose();
        return Propagated("OverflowException");
      }
      ghost var base, added := pipeline, [];
      ghost var chunks := Chunks(stream.Remaining(), stream.grants, readCount);
      assert BytesOf(added) == [];
      var record: array?<byte> := null;
      while true
        invariant stream.Valid() && stream.isOpen && Valid()
        invariant pipeline == base + added && Chunked(added)
        invariant chunks == BytesOf(added) + Chunks(stream.Remaining(), stream.grants, readCount)
        invariant record != null ==> fresh(record) && record.Length == readCount && record !in Buffers(pipeline)
        decreases |stream.contents| - stream.position
      {
        var i;
        ghost var chunk;
        i, record, chunk, added := ReadChunk(stream, record, base, chunks, added);
        if i == 0 {
          break;
        }
      }
      ValuesAppend(base, added);
      ChunkedValues(added);
      stream.Dispose();
      status := Completed;
    }

    /** SplitTextContent: every line the reader yields, in order, each
        written as one record, until ReadLine returns null; the reader is
        disposed of at the end. */
    method SplitTextContent(reader: LineReader)
      requires Valid() && reader.Valid() && reader.isOpen
      modifies this, reader
      ensures Valid() && reader.Valid() && !reader.isOpen
      ensures Values(pipeline) == Values(old(pipeline)) + LinesOf(old(reader.Pending()))
      ensures Extends(old(pipeline), pipeline)
      ensures reader.Pending() == []
    {
      ghost var base, lines := pipeline, reader.Pending();
      ghost var added: seq<Emission>, done: seq<string> := [], [];
      while true
        invariant reader.Valid() && reader.isOpen && Valid()
        invariant done + reader.Pending() == lines
        invariant pipeline == base + added && Values(added) == LinesOf(done)
        decreases |reader.lines| - reader.next
      {
        var line := reader.ReadLine();
        if line.None? {
          break;
        }
        WriteLine(line.value);
        LineAppended(added, done, line.value);
        added, done := added + [Object(Text(line.value))], done + [line.value];
      }
      assert done == lines;
      assert pipeline[..|base|] == base;
      ValuesAppend(base, added);
      reader.Dispose();
    }

    /** SplitContentPath(path): opens the resolved path and splits it by
        chunks or by lines; a missing file (FileNotFoundException) and a
        denied access (UnauthorizedAccessException) are each written as one
        error record on the path and the call completes; any other failure
        to open escapes. What it writes and how it ends are PathTrace's. */
    method SplitContentPath(path: string) returns (status: Status)
      requires Valid()
      modifies this
      ensures Valid()
      ensures Values(pipeline) == Values(old(pipeline)) + PathTrace(Settings(), session, path).outputs
      ensures Extends(old(pipeline), pipeline)
      ensures status == PathTrace(Settings(), session, path).status
    {
      ghost var before := pipeline;
      var opening := session.open(path);
      if opening.Opened? {
        if asByteStream {
          var stream := new ByteStream.Open(opening.image.bytes, opening.image.grants);
          status := SplitByteContent(stream);
          if readCount < 0 {
            assert Values(pipeline) == Values(before) + [];
          }
        } else {
          var reader := new LineReader.Open(opening.image.lines);
          SplitTextContent(reader);
          status := Completed;
        }
      } else if opening.FileNotFound? {
        WriteError(FileNotFoundError(path));
        ValuesAppend(before, [Error(FileNotFoundError(path))]);
        status := Completed;
      } else if opening.AccessDenied? {
        WriteError(AccessDeniedError(path));
        ValuesAppend(before, [Error(AccessDeniedError(path))]);
        status := Completed;
      } else {
        assert Values(pipeline) == Values(before) + [];
        status := Propagated(opening.exception);
      }
    }

    /** The body of the loop over Path for one pattern: resolve it; if the
        provider is the file system split every match in order, stopping at
        the first exception that escapes; otherwise write a NotImplemented
        "ProviderError" on the provider. An ItemNotFoundException from the
        resolver is written as one error record on the pattern. */
    method SplitPattern(pattern: string) returns (status: Status)
      requires Valid()
      modifies this
      ensures Valid()
      ensures Values(pipeline) == Values(old(pipeline)) + PatternTrace(Settings(), session, pattern).outputs
      ensures Extends(old(pipeline), pipeline)
      ensures status == PatternTrace(Settings(), session, pattern).status
    {
      ghost var before := pipeline;
      match session.resolve(pattern)
      case Resolved(items, provider) =>
        if provider == FileSystem {
          ghost var step := PathStep(Settings(), session);
          var j := 0;
          while j < |items|
            invariant 0 <= j <= |items| && Valid()
            invariant Fold(step, items[..j]).status == Completed
            invariant Values(pipeline) == Values(before) + Fold(step, items[..j]).outputs
            invariant Extends(before, pipeline)
          {
            ghost var mid, written := pipeline, Values(pipeline);
            status := SplitContentPath(items[j]);
            ExtendsTransitive(before, mid, pipeline);
            FoldTrip(step, items, j, Values(before), written, Values(pipeline), status);
            if status.Propagated? {
              PropagatedPrefix(step, items, j + 1);
              return;
            }
            j := j + 1;
          }
          assert items[..j] == items;
          status := Completed;
        } else {
          WriteError(ProviderError(provider));
          ValuesAppend(before, [Error(ProviderError(provider))]);
          status := Completed;
        }
      case ItemNotFound =>
        WriteError(ItemNotFoundError(pattern));
        ValuesAppend(before, [Error(ItemNotFoundError(pattern))]);
        status := Completed;
      case ResolutionFault(e) =>
        assert Values(pipeline) == Values(before) + [];
        status := Propagated(e);
    }

    /** The body of the loop over LiteralPath for one literal path: resolve
        it without wildcards and split the file; an ItemNotFoundException from
        the resolver is written as one error record on the literal path. */
    method SplitLiteral(literal: string) returns (status: Status)
      requires Valid()
      modifies this
      ensures Valid()
      ensures Values(pipeline) == Values(old(pipeline)) + LiteralTrace(Settings(), session, literal).outputs
      ensures Extends(old(pipeline), pipeline)
      ensures status == LiteralTrace(Settings(), session, literal).status
    {
      ghost var before := pipeline;
      match session.unresolve(literal)
      case ProviderPath(path) =>
        status := SplitContentPath(path);
      case LiteralNotFound =>
        WriteError(ItemNotFoundError(literal));
        ValuesAppend(before, [Error(ItemNotFoundError(literal))]);
        status := Completed;
      case LiteralFault(e) =>
        assert Values(pipeline) == Values(before) + [];
        status := Propagated(e);
    }

    /** The loop over Path in ProcessRecord: every pattern in order,
        stopping at the first exception that escapes. */
    method ProcessPaths() returns (status: Status)
      requires Valid()
      modifies this
      ensures Valid()
      ensures Values(pipeline) == Values(old(pipeline)) + Fold(PatternStep(Settings(), session), paths).outputs
      ensures Extends(old(pipeline), pipeline)
      ensures status == Fold(PatternStep(Settings(), session), paths).status
    {
      ghost var before := pipeline;
      ghost var step := PatternStep(Settings(), session);
      var j := 0;
      while j < |paths|
        invariant 0 <= j <= |paths| && Valid()
        invariant Fold(step, paths[..j]).status == Completed
        invariant Values(pipeline) == Values(before) + Fold(step, paths[..j]).outputs
        invariant Extends(before, pipeline)
      {
        ghost var mid, written := pipeline, Values(pipeline);
        status := SplitPattern(paths[j]);
        ExtendsTransitive(before, mid, pipeline);
        FoldTrip(step, paths, j, Values(before), written, Values(pipeline), status);
        if status.Propagated? {
          PropagatedPrefix(step, paths, j + 1);
          return;
        }
        j := j + 1;
      }
      assert paths[..j] == paths;
      status := Completed;
    }

    /** The loop over LiteralPath in ProcessRecord: every literal path in
        order, stopping at the first exception that escapes. */
    method ProcessLiteralPaths() returns (status: Status)
      requires Valid()
      modifies this
      ensures Valid()
      ensures Values(pipeline) == Values(old(pipeline)) + Fold(LiteralStep(Settings(), session), literalPaths).outputs
      ensures Extends(old(pipeline), pipeline)
      ensures status == Fold(LiteralStep(Settings(), session), literalPaths).status
    {
      ghost var before := pipeline;
      ghost var step := LiteralStep(Settings(), session);
      var j := 0;
      while j < |literalPaths|
        invariant 0 <= j <= |literalPaths| && Valid()
        invariant Fold(step, literalPaths[..j]).status == Completed
        invariant Values(pipeline) == Values(before) + Fold(step, literalPaths[..j]).outputs
        invariant Extends(before, pipeline)
      {
        ghost var mid, written := pipeline, Values(pipeline);
        status := SplitLiteral(literalPaths[j]);
        ExtendsTransitive(before, mid, pipeline);
        FoldTrip(step, literalPaths, j, Values(before), written, Values(pipeline), status);
        if status.Propagated? {
          PropagatedPrefix(step, literalPaths, j + 1);
          return;
        }
        j := j + 1;
      }
      assert literalPaths[..j] == literalPaths;
      status := Completed;
    }

    /** ProcessRecord: every pattern of Path in order, then every literal
        path of LiteralPath in order; an exception that escapes one of them
        ends the call. What it writes and how it ends are InvocationTrace's. */
    method ProcessRecord() returns (status: Status)
      requires Valid()
      modifies this
      ensures Valid()
      ensures Values(pipeline) == Values(old(pipeline)) + InvocationTrace(Settings(), session, paths, literalPaths).outputs
      ensures Extends(old(pipeline), pipeline)
      ensures status == InvocationTrace(Settings(), session, paths, literalPaths).status
    {
      InvocationParts(Settings(), session, paths, literalPaths);
      ghost var before := pipeline;
      status := ProcessPaths();
      if status.Propagated? {
        return;
      }
      ghost var middle := pipeline;
      status := ProcessLiteralPaths();
      ExtendsTransitive(before, middle, pipeline);
    }
  }

  lemma ChunkedValues(es: seq<Emission>)
    requires Chunked(es)
    ensures Values(es) == ChunksOf(BytesOf(es))
  {
    assert forall i | 0 <= i < |es| :: es[i] in es;
  }

  lemma LineAppended(added: seq<Emission>, done: seq<string>, line: string)
    requires Values(added) == LinesOf(done)
    ensures Values(added + [Object(Text(line))]) == LinesOf(done + [line])
  {
    ValuesAppend(added, [Object(Text(line))]);
  }
}
