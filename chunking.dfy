/** What SplitByteContent writes for one file, as a function of the bytes the
    stream holds, the sizes the stream's reads deliver and ReadCount. */
module Chunking {
  import opened Records
  import opened Streams

  /** The default of the cmdlet's ReadCount parameter. */
  const DefaultReadCount: int := 4096

  /** The bytes of a sequence of chunks, laid end to end. */
  function Flatten(chunks: seq<seq<byte>>): seq<byte>
  {
    if chunks == [] then [] else chunks[0] + Flatten(chunks[1..])
  }

  function Lengths(chunks: seq<seq<byte>>): (r: seq<nat>)
    ensures |r| == |chunks|
    ensures forall i :: 0 <= i < |r| ==> r[i] == |chunks[i]|
  {
    seq(|chunks|, i requires 0 <= i < |chunks| => |chunks[i]|)
  }

  function Total(s: seq<nat>): nat
  {
    if s == [] then 0 else s[0] + Total(s[1..])
  }

  /** The chunks SplitByteContent writes when the stream's unread bytes are
      `data` and its reads are capped by `grants`: one chunk per read that
      delivers at least one byte, until a read delivers none. A read that fills
      the buffer and a short read both give a chunk of exactly the bytes read,
      and neither ends the loop. */
  function Chunks(data: seq<byte>, grants: seq<pos>, readCount: nat): seq<seq<byte>>
    decreases |data|
  {
    var k := Granted(readCount, |data|, grants);
    if k == 0 then [] else [data[..k]] + Chunks(data[k..], AfterRead(k, grants), readCount)
  }

  /** One more read of the loop that Chunks describes: the chunks still to
      come are the one this read delivers followed by those after it, and
      none once a read delivers nothing. */
  lemma ChunksAdvance(chunks: seq<seq<byte>>, emitted: seq<seq<byte>>, data: seq<byte>, grants: seq<pos>, readCount: nat, k: nat)
    requires chunks == emitted + Chunks(data, grants, readCount)
    requires k == Granted(readCount, |data|, grants)
    ensures k == 0 ==> chunks == emitted
    ensures k > 0 ==> chunks == (emitted + [data[..k]]) + Chunks(data[k..], AfterRead(k, grants), readCount)
  {
    if k > 0 {
      assert Chunks(data, grants, readCount) == [data[..k]] + Chunks(data[k..], AfterRead(k, grants), readCount);
    }
  }

  /** The chunks put back together are exactly the bytes the stream held,
      whatever sizes its reads deliver; with ReadCount 0 nothing is written. */
  lemma {:induction false} ChunksRebuildData(data: seq<byte>, grants: seq<pos>, readCount: nat)
    ensures readCount > 0 ==> Flatten(Chunks(data, grants, readCount)) == data
    ensures readCount == 0 ==> Chunks(data, grants, readCount) == []
    decreases |data|
  {
    var k := Granted(readCount, |data|, grants);
    if k > 0 {
      var rest := Chunks(data[k..], AfterRead(k, grants), readCount);
      ChunksRebuildData(data[k..], AfterRead(k, grants), readCount);
      assert Flatten([data[..k]] + rest) == data[..k] + Flatten(rest);
      assert data == data[..k] + data[k..];
    }
  }

  /** No chunk is empty and none is longer than ReadCount. */
  lemma {:induction false} ChunksBounded(data: seq<byte>, grants: seq<pos>, readCount: nat)
    ensures forall i :: 0 <= i < |Chunks(data, grants, readCount)| ==> 1 <= |Chunks(data, grants, readCount)[i]| <= readCount
    decreases |data|
  {
    var k := Granted(readCount, |data|, grants);
    if k > 0 {
      ChunksBounded(data[k..], AfterRead(k, grants), readCount);
    }
  }

  /** Fixed-size splitting, the reference for reads that are always served in
      full: `len` bytes cut into pieces of n, every piece but the last exactly
      n bytes long and the last between 1 and n. */
  function Sizes(len: nat, n: pos): (r: seq<nat>)
    ensures forall i :: 0 <= i < |r| - 1 ==> r[i] == n
    ensures r != [] ==> 1 <= r[|r| - 1] <= n
    ensures (r == []) == (len == 0)
    ensures Total(r) == len
    decreases len
  {
    if len == 0 then []
    else if len <= n then [len]
    else
      var rest := Sizes(len - n, n);
      assert ([n] + rest)[1..] == rest;
      [n] + rest
  }

  lemma LengthsCons(c: seq<byte>, rest: seq<seq<byte>>)
    ensures Lengths([c] + rest) == [|c|] + Lengths(rest)
  {
  }

  /** With a stream that serves every read in full, the chunks have the
      fixed-size lengths: all ReadCount long except a shorter, non-empty last. */
  lemma {:induction false} GreedyChunks(data: seq<byte>, n: pos)
    ensures Lengths(Chunks(data, [], n)) == Sizes(|data|, n)
    decreases |data|
  {
    if |data| > 0 {
      var k := Min(n, |data|);
      assert Granted(n, |data|, []) == k && AfterRead(k, []) == [];
      var rest := Chunks(data[k..], [], n);
      assert Chunks(data, [], n) == [data[..k]] + rest;
      GreedyChunks(data[k..], n);
      LengthsCons(data[..k], rest);
      if |data| <= n {
        assert rest == [];
      } else {
        assert Sizes(|data|, n) == [n] + Sizes(|data| - n, n);
      }
    }
  }

  /** 10000 bytes with the default ReadCount, every read served in full,
      give three records of 4096, 4096 and 1808 bytes. */
  lemma TenThousandBytes(data: seq<byte>)
    requires |data| == 10000
    ensures Lengths(Chunks(data, [], DefaultReadCount)) == [4096, 4096, 1808]
  {
    GreedyChunks(data, DefaultReadCount);
    assert Sizes(1808, 4096) == [1808];
    assert Sizes(5904, 4096) == [4096, 1808];
  }

  /** Every sequence of read sizes that Stream.Read may deliver (each between
      1 and ReadCount, adding up to the bytes left) is produced by some grant
      schedule, so the chunks are exactly those sizes in that order. */
  lemma {:induction false} EveryReadSequence(data: seq<byte>, sizes: seq<pos>, n: pos)
    requires forall i :: 0 <= i < |sizes| ==> sizes[i] <= n
    requires Total(sizes) == |data|
    ensures Lengths(Chunks(data, sizes, n)) == sizes
    decreases |sizes|
  {
    if sizes != [] {
      var k := sizes[0];
      assert Granted(n, |data|, sizes) == k;
      EveryReadSequence(data[k..], sizes[1..], n);
      LengthsCons(data[..k], Chunks(data[k..], sizes[1..], n));
    }
  }

  /** A short read does not end the loop: with ReadCount 4 and a first read
      that delivers only 2 of 10 bytes, two full chunks of 4 still follow. */
  lemma ShortReadThenFullReads(data: seq<byte>)
    requires |data| == 10
    ensures Lengths(Chunks(data, [2], 4)) == [2, 4, 4]
  {
    GreedyChunks(data[2..], 4);
    LengthsCons(data[..2], Chunks(data[2..], [], 4));
    assert Sizes(4, 4) == [4];
  }
}
