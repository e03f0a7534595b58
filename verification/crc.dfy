/** The CRC-32 accumulator and the chunked pre-pass `GetStreamCRC`.
    The table arithmetic of CRC-32 is not part of this model: a CRC engine is any
    per-byte update function, and a digest is a left fold of it over the bytes. */
module Crc {
  import opened Types

  /** The per-byte step of the CRC engine (`CCRC::UpdateByte`), left abstract. */
  type Update = (bv32, Byte) -> bv32

  /** `CCRC::Init` loads all ones; `CCRC::GetDigest` returns the register inverted. */
  const Init: bv32 := 0xFFFF_FFFF

  /** Size of the scratch buffer `GetStreamCRC` reads into (1 << 14). */
  const kBufferSize: nat := 0x4000

  function Digest(state: bv32): bv32 {
    state ^ 0xFFFF_FFFF
  }

  /** The register after feeding `bytes`, in order, starting from `state`. */
  function Fold(u: Update, state: bv32, bytes: seq<Byte>): bv32
    decreases |bytes|
  {
    if |bytes| == 0 then state else Fold(u, u(state, bytes[0]), bytes[1..])
  }

  /** The CRC of the whole input; what every CRC-computing reader must agree on. */
  function CrcOf(u: Update, bytes: seq<Byte>): bv32 {
    Digest(Fold(u, Init, bytes))
  }

  /** Feeding two pieces one after the other is feeding their concatenation:
      this is why the CRC does not depend on how the reads were chunked. */
  lemma {:induction false} FoldAppend(u: Update, state: bv32, a: seq<Byte>, b: seq<Byte>)
    ensures Fold(u, state, a + b) == Fold(u, Fold(u, state, a), b)
    decreases |a|
  {
    if |a| == 0 {
      assert a + b == b;
    } else {
      assert (a + b)[0] == a[0];
      assert (a + b)[1..] == a[1..] + b;
      FoldAppend(u, u(state, a[0]), a[1..], b);
    }
  }

  /** One answer of `ISequentialInStream::Read`: the status and the bytes delivered. */
  datatype ReadReply = Reply(hr: HResult, bytes: seq<Byte>)

  /** A sequential source, described by the answers it gives to successive reads.
      Reading past the last listed answer yields zero bytes, i.e. end of stream. */
  type Source = seq<ReadReply>

  predicate Conforming(src: Source) {
    forall k :: 0 <= k < |src| ==> |src[k].bytes| <= kBufferSize
  }

  /** The bytes a read-until-empty loop collects from `src`, or the first failing status. */
  function Drained(src: Source): Result<seq<Byte>>
    decreases |src|
  {
    if |src| == 0 then Ok([])
    else if src[0].hr != S_OK then Fail(src[0].hr)
    else if |src[0].bytes| == 0 then Ok([])
    else
      var rest :- Drained(src[1..]);
      Ok(src[0].bytes + rest)
  }

  /** The bytes of the first `k` answers, concatenated. */
  function Delivered(src: Source, k: nat): seq<Byte>
    requires k <= |src|
  {
    if k == 0 then [] else Delivered(src, k - 1) + src[k - 1].bytes
  }

  /** `prefix` followed by whatever `rest` drained; a failure stays a failure. */
  function Prefixed(prefix: seq<Byte>, rest: Result<seq<Byte>>): Result<seq<Byte>> {
    match rest
    case Ok(b) => Ok(prefix + b)
    case Fail(c) => Fail(c)
  }

  /** Draining a source that has already answered `k` good, non-empty reads
      is those reads' bytes followed by draining the remaining answers. */
  lemma {:induction false} DrainedSplit(src: Source, k: nat)
    requires k <= |src|
    requires forall j :: 0 <= j < k ==> src[j].hr == S_OK && |src[j].bytes| > 0
    ensures Drained(src) == Prefixed(Delivered(src, k), Drained(src[k..]))
    decreases k
  {
    if k == 0 {
      assert src[0..] == src;
      match Drained(src)
      case Ok(b) => assert [] + b == b;
      case Fail(_) =>
    } else {
      DrainedSplit(src, k - 1);
      var tail := src[k - 1..];
      assert tail[0] == src[k - 1];
      assert tail[1..] == src[k..];
      match Drained(src[k..])
      case Ok(b) =>
        assert Delivered(src, k - 1) + (src[k - 1].bytes + b) == Delivered(src, k) + b;
      case Fail(_) =>
    }
  }

  /** `GetStreamCRC`: read into a `kBufferSize` buffer until a read returns no
      bytes, updating the CRC with every chunk; any failing read is returned as is.
      The digest is that of everything the source delivered, however it was chunked. */
  method GetStreamCrc(u: Update, src: Source) returns (hr: HResult, crc: bv32)
    requires Conforming(src)
    ensures hr == S_OK <==> Drained(src).Ok?
    ensures Drained(src).Fail? ==> hr == Drained(src).code
    ensures Drained(src).Ok? ==> crc == CrcOf(u, Drained(src).value)
  {
    var state := Init;
    var k := 0;
    while true
      invariant 0 <= k <= |src|
      invariant forall j :: 0 <= j < k ==> src[j].hr == S_OK && |src[j].bytes| > 0
      invariant state == Fold(u, Init, Delivered(src, k))
      decreases |src| - k
    {
      DrainedSplit(src, k);
      if k == |src| {
        // the source has nothing more to say: the next read returns no bytes
        assert Delivered(src, k) + [] == Delivered(src, k);
        return S_OK, Digest(state);
      }
      var reply := src[k];
      assert src[k..][0] == reply;
      if reply.hr != S_OK {
        return reply.hr, 0;
      }
      if |reply.bytes| == 0 {
        assert Delivered(src, k) + [] == Delivered(src, k);
        return S_OK, Digest(state);
      }
      FoldAppend(u, Init, Delivered(src, k), reply.bytes);
      state := Fold(u, state, reply.bytes);
      k := k + 1;
    }
  }

}
