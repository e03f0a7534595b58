/** The two streams the pipeline drives: the seekable output sink and the
    CRC-counting wrapper around the input. */
module Streams {
  import opened Types
  import Crc

  /** An `IOutStream`: its current contents and its current position. */
  datatype Sink = Sink(bytes: seq<Byte>, pos: nat)

  function Zeros(n: nat): (z: seq<Byte>)
    ensures |z| == n
    ensures forall k :: 0 <= k < n ==> z[k] == 0
  {
    seq(n, _ => 0)
  }

  /** `Seek(0, STREAM_SEEK_SET)`: the contents stay, only the position moves. */
  function Rewind(s: Sink): (r: Sink)
    ensures r.bytes == s.bytes && r.pos == 0
  {
    s.(pos := 0)
  }

  /** `Write`: overwrite from the current position (a gap past the end reads as
      zeros), extend the stream when needed, and advance the position. Bytes
      beyond the written range are left as they were. */
  function Write(s: Sink, b: seq<Byte>): (r: Sink)
    ensures r.pos == s.pos + |b|
    ensures |r.bytes| == if s.pos + |b| <= |s.bytes| then |s.bytes| else s.pos + |b|
    ensures r.bytes[s.pos..r.pos] == b
    ensures s.pos <= |s.bytes| ==> r.bytes[..s.pos] == s.bytes[..s.pos]
    ensures forall k :: r.pos <= k < |s.bytes| ==> r.bytes[k] == s.bytes[k]
  {
    var head := if s.pos <= |s.bytes| then s.bytes[..s.pos] else s.bytes + Zeros(s.pos - |s.bytes|);
    var tail := if s.pos + |b| < |s.bytes| then s.bytes[s.pos + |b|..] else [];
    Sink(head + b + tail, s.pos + |b|)
  }

  /** `SetSize`: cut the stream to `n` bytes, or extend it with zeros; the position stays. */
  function SetSize(s: Sink, n: nat): (r: Sink)
    ensures |r.bytes| == n && r.pos == s.pos
    ensures n <= |s.bytes| ==> r.bytes == s.bytes[..n]
    ensures n > |s.bytes| ==> r.bytes[..|s.bytes|] == s.bytes
  {
    if n <= |s.bytes| then Sink(s.bytes[..n], s.pos) else Sink(s.bytes + Zeros(n - |s.bytes|), s.pos)
  }

  /** A write at a position inside the stream keeps what lies before it: the
      stream up to the new position is the old prefix followed by the new bytes. */
  lemma WriteExtends(s: Sink, b: seq<Byte>)
    requires s.pos <= |s.bytes|
    ensures var r := Write(s, b); r.pos <= |r.bytes| && r.bytes[..r.pos] == s.bytes[..s.pos] + b
  {
    var r := Write(s, b);
    assert r.bytes[..r.pos] == r.bytes[..s.pos] + r.bytes[s.pos..r.pos];
  }

  /** `CInStreamWithCRC` / `CSequentialInStreamWithCRC` over the input `data`:
      the position in the underlying stream, and the CRC register and byte count
      of what has passed through the wrapper since its counters were last reset. */
  datatype CrcInput = CrcInput(data: seq<Byte>, pos: nat, crc: bv32, size: nat)

  /** A freshly initialised wrapper at the start of its stream. */
  function Fresh(data: seq<Byte>): (r: CrcInput)
    ensures r.data == data && r.pos == 0 && r.size == 0
  {
    CrcInput(data, 0, Crc.Init, 0)
  }

  /** Seeking the wrapper to 0: the underlying stream moves to its start and, as
      this model assumes of `CInStreamWithCRC::Seek`, the counters are reset. */
  function Restart(x: CrcInput): (r: CrcInput)
    ensures r == Fresh(x.data)
  {
    CrcInput(x.data, 0, Crc.Init, 0)
  }

  /** The bytes a reader of the wrapper still gets. */
  function Remaining(x: CrcInput): (r: seq<Byte>)
    ensures x.pos == 0 ==> r == x.data
    ensures x.pos >= |x.data| ==> r == []
  {
    if x.pos <= |x.data| then x.data[x.pos..] else []
  }

  /** A coder reads the wrapper to the end: every remaining byte passes through the
      counters. One bulk read stands for any chunking (see `Crc.FoldAppend`). */
  function ReadToEnd(u: Crc.Update, x: CrcInput): (r: CrcInput)
    ensures r.data == x.data && r.pos == |x.data|
  {
    var rest := Remaining(x);
    CrcInput(x.data, |x.data|, Crc.Fold(u, x.crc, rest), x.size + |rest|)
  }

  /** Reading the raw stream underneath the wrapper (the CRC pre-pass) moves the
      shared position to the end without touching the wrapper's counters. */
  function BypassToEnd(x: CrcInput): (r: CrcInput)
    ensures r.data == x.data && r.crc == x.crc && r.size == x.size && r.pos == |x.data|
  {
    x.(pos := |x.data|)
  }

  /** A wrapper read to the end from a fresh start has counted the whole input:
      its digest is the input's CRC and its size the input's length. */
  lemma FreshReadCountsAll(u: Crc.Update, data: seq<Byte>)
    ensures var r := ReadToEnd(u, Fresh(data));
      Crc.Digest(r.crc) == Crc.CrcOf(u, data) && r.size == |data|
  {
  }
}
