/** Values that leave the Split-Content cmdlet: the records it writes to the
    pipeline, the error records it writes beside them, and how one call ends
    (normally, or with an exception that no catch clause handles). */
module Records {

  /** One octet of file content. */
  newtype byte = b: int | 0 <= b < 256

  /** A positive count. */
  type pos = k: int | 1 <= k witness 1

  datatype Option<T> = None | Some(value: T)

  /** The ErrorCategory values the cmdlet reports. */
  datatype ErrorCategory = ResourceUnavailable | PermissionDenied | NotImplemented

  /** The target object of an error record: the path or pattern that failed,
      or the provider that is not handled. */
  datatype ErrorTarget = PathTarget(path: string) | ProviderTarget(provider: string)

  /** An ErrorRecord as the cmdlet builds it: error id, category, target. */
  datatype ErrorRecord = ErrorRecord(errorId: string, category: ErrorCategory, target: ErrorTarget)

  /** What the resolver's ItemNotFoundException becomes; `target` is the
      pattern or literal path as the caller wrote it. */
  function ItemNotFoundError(target: string): ErrorRecord
  {
    ErrorRecord("ItemNotFoundException", ResourceUnavailable, PathTarget(target))
  }

  /** The error written for a pattern that resolves through a provider other
      than the file system. */
  function ProviderError(provider: string): ErrorRecord
  {
    ErrorRecord("ProviderError", NotImplemented, ProviderTarget(provider))
  }

  /** What a FileNotFoundException at open time becomes. */
  function FileNotFoundError(path: string): ErrorRecord
  {
    ErrorRecord("FileNotFoundException", ResourceUnavailable, PathTarget(path))
  }

  /** What an UnauthorizedAccessException at open time becomes. */
  function AccessDeniedError(path: string): ErrorRecord
  {
    ErrorRecord("UnauthorizedAccessException", PermissionDenied, PathTarget(path))
  }

  /** An object given to WriteObject: a text line, or a byte array together
      with the bytes it held at the moment it was written. */
  datatype Record = Text(line: string) | Binary(buffer: array<byte>, bytes: seq<byte>)

  /** One write to the cmdlet's output: WriteObject or WriteError. */
  datatype Emission = Object(record: Record) | Error(error: ErrorRecord)

  /** The value of an emission, without the identity of any array. */
  datatype Output = Line(text: string) | Chunk(data: seq<byte>) | Failure(error: ErrorRecord)

  /** How a call ends: normally, or with an exception of the named type that
      escapes every catch clause on the way out. */
  datatype Status = Completed | Propagated(exception: string)

  function ValueOf(e: Emission): Output
  {
    match e
    case Object(Text(s)) => Line(s)
    case Object(Binary(_, b)) => Chunk(b)
    case Error(r) => Failure(r)
  }

  function Values(es: seq<Emission>): seq<Output>
  {
    seq(|es|, i requires 0 <= i < |es| => ValueOf(es[i]))
  }

  /** `b` begins with `a`: what was written before is still there, record
      for record, arrays included. */
  ghost predicate Extends(a: seq<Emission>, b: seq<Emission>)
  {
    |a| <= |b| && b[..|a|] == a
  }

  lemma ExtendsTransitive(a: seq<Emission>, b: seq<Emission>, c: seq<Emission>)
    requires Extends(a, b) && Extends(b, c)
    ensures Extends(a, c)
  {
    assert c[..|a|] == c[..|b|][..|a|];
  }

  lemma ValuesAppend(a: seq<Emission>, b: seq<Emission>)
    ensures Values(a + b) == Values(a) + Values(b)
  {
  }

  ghost predicate IsBinary(e: Emission)
  {
    e.Object? && e.record.Binary?
  }

  /** The arrays handed to the pipeline so far. */
  ghost function Buffers(es: seq<Emission>): set<array<byte>>
  {
    set i | 0 <= i < |es| && IsBinary(es[i]) :: es[i].record.buffer
  }

  lemma BuffersAppend(es: seq<Emission>, e: Emission)
    ensures Buffers(es + [e]) == Buffers(es) + (if IsBinary(e) then {e.record.buffer} else {})
  {
    var all := es + [e];
    assert forall i :: 0 <= i < |es| ==> all[i] == es[i];
    assert all[|es|] == e;
  }

  /** Every emission is a byte array holding exactly its bytes. */
  ghost predicate Chunked(es: seq<Emission>)
  {
    forall e | e in es :: IsBinary(e) && e.record.buffer.Length == |e.record.bytes|
  }

  /** The bytes of the binary emissions, in order. */
  ghost function BytesOf(es: seq<Emission>): seq<seq<byte>>
  {
    seq(|es|, i requires 0 <= i < |es| => if IsBinary(es[i]) then es[i].record.bytes else [])
  }

  lemma ChunkedAppend(es: seq<Emission>, e: Emission)
    requires Chunked(es) && IsBinary(e) && e.record.buffer.Length == |e.record.bytes|
    ensures Chunked(es + [e])
    ensures BytesOf(es + [e]) == BytesOf(es) + [e.record.bytes]
    ensures Buffers(es + [e]) == Buffers(es) + {e.record.buffer}
  {
    BuffersAppend(es, e);
    assert BytesOf(es + [e]) == BytesOf(es) + [e.record.bytes];
  }

  /** No array handed to the pipeline has been written since: each one still
      holds the bytes it held when it was emitted. */
  ghost predicate Intact(es: seq<Emission>)
    reads Buffers(es)
  {
    forall i | 0 <= i < |es| && IsBinary(es[i]) :: es[i].record.buffer[..] == es[i].record.bytes
  }
}
