/** The two readers the cmdlet opens: the Stream that File.OpenRead returns
    (binary mode) and the StreamReader over the decoded text (text mode), plus
    Buffer.BlockCopy. Only the behaviour the cmdlet relies on is modelled. */
module Streams {
  import opened Records

  function Min(a: int, b: int): int
  {
    if a <= b then a else b
  }

  /** How many bytes one Stream.Read(buffer, offset, count) delivers when
      `remaining` bytes are left. The operating system may deliver fewer than
      asked for: the head of `grants` caps the next non-empty delivery, and
      once `grants` is exhausted every read is served in full. The contract is
      that of Stream.Read: at most `count` and at most what is left, and zero
      only when nothing was asked for or the end of the stream is reached. */
  function Granted(count: nat, remaining: nat, grants: seq<pos>): (k: nat)
    ensures k <= count && k <= remaining
    ensures k == 0 <==> count == 0 || remaining == 0
  {
    if count == 0 || remaining == 0 then 0
    else if grants == [] then Min(count, remaining)
    else Min(Min(count, remaining), grants[0])
  }

  /** The caps still pending after a read that delivered `k` bytes. */
  function AfterRead(k: nat, grants: seq<pos>): seq<pos>
  {
    if k == 0 || grants == [] then grants else grants[1..]
  }

  /** A read-only file stream: the file's bytes and the read position. */
  class ByteStream {
    const contents: seq<byte>
    var position: nat
    var grants: seq<pos>
    var isOpen: bool

    ghost predicate Valid()
      reads this
    {
      position <= |contents|
    }

    /** The bytes not yet read. */
    function Remaining(): seq<byte>
      reads this
      requires Valid()
    {
      contents[position..]
    }

    constructor Open(contents: seq<byte>, grants: seq<pos>)
      ensures Valid() && isOpen
      ensures this.contents == contents && position == 0 && this.grants == grants
    {
      this.contents := contents;
      this.grants := grants;
      position := 0;
      isOpen := true;
    }

    /** Stream.Read(buffer, offset, count): copies the next k bytes into
        buffer[offset..offset + k], leaves the rest of the buffer alone and
        advances the position by k. */
    method Read(buffer: array<byte>, offset: nat, count: nat) returns (k: nat)
      requires Valid() && isOpen
      requires offset + count <= buffer.Length
      modifies this, buffer
      ensures Valid() && isOpen
      ensures k == Granted(count, |old(Remaining())|, old(grants))
      ensures position == old(position) + k && grants == AfterRead(k, old(grants))
      ensures buffer[offset..offset + k] == old(Remaining())[..k]
      ensures buffer[..offset] == old(buffer[..offset]) && buffer[offset + k..] == old(buffer[offset + k..])
    {
      k := Granted(count, |contents| - position, grants);
      forall i | 0 <= i < k {
        buffer[offset + i] := contents[position + i];
      }
      position := position + k;
      grants := AfterRead(k, grants);
    }

    /** The end of the `using` block. */
    method Dispose()
      modifies this
      ensures !isOpen && position == old(position) && grants == old(grants)
    {
      isOpen := false;
    }
  }

  /** A StreamReader: the lines the decoder produces and how many of them
      have been read. */
  class LineReader {
    const lines: seq<string>
    var next: nat
    var isOpen: bool

    ghost predicate Valid()
      reads this
    {
      next <= |lines|
    }

    /** The lines not yet read. */
    function Pending(): seq<string>
      reads this
      requires Valid()
    {
      lines[next..]
    }

    constructor Open(lines: seq<string>)
      ensures Valid() && isOpen
      ensures this.lines == lines && next == 0
    {
      this.lines := lines;
      next := 0;
      isOpen := true;
    }

    /** StreamReader.ReadLine: the next line, or None (null) at end of stream. */
    method ReadLine() returns (line: Option<string>)
      requires Valid() && isOpen
      modifies this
      ensures Valid() && isOpen
      ensures old(Pending()) == [] ==> line == None && next == old(next)
      ensures old(Pending()) != [] ==> line == Some(old(Pending())[0]) && Pending() == old(Pending())[1..]
    {
      if next < |lines| {
        line := Some(lines[next]);
        next := next + 1;
      } else {
        line := None;
      }
    }

    method Dispose()
      modifies this
      ensures !isOpen && next == old(next)
    {
      isOpen := false;
    }
  }

  /** Buffer.BlockCopy(src, srcOffset, dst, dstOffset, count) on byte arrays:
      the count bytes at srcOffset replace those at dstOffset. The source
      bytes are taken before any is written, so overlapping ranges are fine. */
  method BlockCopy(src: array<byte>, srcOffset: nat, dst: array<byte>, dstOffset: nat, count: nat)
    requires srcOffset + count <= src.Length && dstOffset + count <= dst.Length
    modifies dst
    ensures dst[dstOffset..dstOffset + count] == old(src[srcOffset..srcOffset + count])
    ensures dst[..dstOffset] == old(dst[..dstOffset]) && dst[dstOffset + count..] == old(dst[dstOffset + count..])
  {
    var taken := src[srcOffset..srcOffset + count];
    forall i | 0 <= i < count {
      dst[dstOffset + i] := taken[i];
    }
  }
}
