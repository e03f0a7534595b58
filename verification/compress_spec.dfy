/** What a run of `Compress` should come to, stated without the machine:
    which encoder each trial uses, what bytes each trial leaves in the output,
    and which trial's result stands under the first-fit rule. */
module CompressSpec {
  import opened Types
  import opened ZipHeader
  import Crc
  import opened AddCommon

  /** The encoder the instance holds after a trial with method `id`: the one it
      already had, or, when it had none and `id` is not Stored, the one for `id`. */
  function NextEncoder(e: Option<Codec>, id: Byte): Option<Codec> {
    if e.Some? || id == kStored then e else CodecFor(id)
  }

  /** The encoder held after trials with the method ids `ids`, in order. */
  function EncoderAfter(e: Option<Codec>, ids: seq<Byte>): Option<Codec>
    decreases |ids|
  {
    if |ids| == 0 then e else EncoderAfter(NextEncoder(e, ids[0]), ids[1..])
  }

  /** Once the instance holds an encoder, no later trial replaces it. */
  lemma {:induction false} EncoderNeverReplaced(c: Codec, ids: seq<Byte>)
    ensures EncoderAfter(Some(c), ids) == Some(c)
    decreases |ids|
  {
    if |ids| > 0 {
      EncoderNeverReplaced(c, ids[1..]);
    }
  }

  /** Starting without an encoder, the one held is the codec of the first
      non-store method among `ids`: later methods never change it. */
  lemma {:induction false} EncoderIsFirstCompressing(ids: seq<Byte>, j: nat)
    requires j < |ids| && ids[j] != kStored && CodecFor(ids[j]).Some?
    requires forall k :: 0 <= k < j ==> ids[k] == kStored
    ensures EncoderAfter(None, ids) == CodecFor(ids[j])
    decreases j
  {
    if j == 0 {
      EncoderNeverReplaced(CodecFor(ids[0]).value, ids[1..]);
    } else {
      EncoderIsFirstCompressing(ids[1..], j - 1);
    }
  }

  /** The encoder trial `j` codes with, in a run of trials that starts at `i`
      with the instance holding `e`. */
  function EncoderAt(e: Option<Codec>, ids: seq<Byte>, i: nat, j: nat): Option<Codec>
    requires i <= j < |ids|
  {
    EncoderAfter(e, ids[i..j + 1])
  }

  /** Peeling the first trial off a run of trials. */
  lemma EncoderAtShift(e: Option<Codec>, ids: seq<Byte>, i: nat, n: nat)
    requires i < n <= |ids|
    ensures EncoderAt(e, ids, i, i) == NextEncoder(e, ids[i])
    ensures forall j :: i < j < n ==> EncoderAt(e, ids, i, j) == EncoderAt(NextEncoder(e, ids[i]), ids, i + 1, j)
  {
    assert ids[i..i + 1][0] == ids[i];
    assert ids[i..i + 1][1..] == [];
    assert EncoderAfter(NextEncoder(e, ids[i]), []) == NextEncoder(e, ids[i]);
    forall j | i < j < n
      ensures EncoderAt(e, ids, i, j) == EncoderAt(NextEncoder(e, ids[i]), ids, i + 1, j)
    {
      assert ids[i..j + 1][0] == ids[i];
      assert ids[i..j + 1][1..] == ids[i + 1..j + 1];
    }
  }

  /** The raw input may split the pre-pass into reads of any sizes, and a read
      may fail; but a pre-pass that completes delivers exactly the bytes the
      stream held from its position on. */
  ghost predicate PrePassFaithful(env: Env) {
    forall j: nat, rest: seq<Byte> ::
      Crc.Drained(env.prepass(j, rest)).Ok? ==> Crc.Drained(env.prepass(j, rest)).value == rest
  }

  /** The pre-pass is only run for ZipCrypto; that is when its answers matter. */
  ghost predicate PrePassHonest(env: Env, opts: Options) {
    opts.passwordDefined && !opts.aesMode ==> PrePassFaithful(env)
  }

  /** The cipher trial `j` writes through: none without a password, a WinZip AES
      filter in AES mode, otherwise ZipCrypto keyed with the input's CRC. */
  function TrialCipher(env: Env, opts: Options, data: seq<Byte>, j: nat): Option<Cipher> {
    if !opts.passwordDefined then None
    else if opts.aesMode then Some(WzAes(opts.aesKeyMode, j))
    else Some(ZipCrypto(Crc.CrcOf(env.update, data), j))
  }

  /** The coder output of trial `j` on `data`: the input itself for Stored,
      otherwise what the encoder the instance holds makes of it. */
  function Payload(env: Env, opts: Options, data: seq<Byte>, j: nat, enc: Option<Codec>): seq<Byte>
    requires j < |opts.methods|
  {
    if opts.methods[j] == kStored then data
    else match enc
      case Some(codec) => env.encode(codec, data)
      case None => []
  }

  /** All trial `j` leaves at the front of the output: the cipher header, if any,
      then the (possibly encrypted) coder output. */
  function Image(env: Env, opts: Options, data: seq<Byte>, j: nat, enc: Option<Codec>): seq<Byte>
    requires j < |opts.methods|
  {
    var p := Payload(env, opts, data, j, enc);
    match TrialCipher(env, opts, data, j)
    case None => p
    case Some(c) => env.header(c) + env.encrypt(c, p)
  }

  /** Trial `j` beats the size bar: its output is shorter than the input, with the
      encryption header allowance added when a password is set. */
  predicate Passes(env: Env, opts: Options, data: seq<Byte>, j: nat, enc: Option<Codec>)
    requires j < |opts.methods|
  {
    |Image(env, opts, data, j, enc)| < |data| + (if opts.passwordDefined then Overhead(env, opts) else 0)
  }

  /** The trial whose result stands among trials `i` to `n - 1`: the first one
      that beats the bar, or the last one when none does. */
  function Chosen(env: Env, opts: Options, data: seq<Byte>, e: Option<Codec>, i: nat, n: nat): (k: nat)
    requires i < n <= |opts.methods|
    ensures i <= k < n
    ensures k == n - 1 || Passes(env, opts, data, k, EncoderAt(e, opts.methods, i, k))
    ensures forall j :: i <= j < k ==> !Passes(env, opts, data, j, EncoderAt(e, opts.methods, i, j))
    decreases n - i
  {
    EncoderAtShift(e, opts.methods, i, n);
    var e1 := NextEncoder(e, opts.methods[i]);
    if i == n - 1 || Passes(env, opts, data, i, e1) then i
    else Chosen(env, opts, data, e1, i + 1, n)
  }
}
