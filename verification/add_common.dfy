/** `CAddCommon::Compress` of `7zip/Archive/Zip/ZipAddCommon.cpp`: the per-entry
    driver that tries the configured compression methods in order, encrypting
    when a password is set, and keeps the first trial that beats the size bar
    (or, failing that, the last one). Coders, ciphers, the CRC engine and every
    stream call's status are collaborators supplied through `Env`. Line
    numbers in comments refer to that file. */
module AddCommon {
  import opened Types
  import opened ZipHeader
  import Crc
  import Streams

  /** `CCompressionMethodMode`, the caller's configuration. */
  datatype Options = Options(
    methods: seq<Byte>,          // MethodSequence
    passwordDefined: bool,
    password: seq<Byte>,
    aesMode: bool,               // IsAesMode: WinZip AES instead of ZipCrypto
    aesKeyMode: Byte,
    numPasses: nat,
    numFastBytes: nat,
    numMatchFinderCycles: nat,
    cyclesDefined: bool,         // NumMatchFinderCyclesDefined
    dicSize: nat)

  /** AES mode is only meaningful with a password. */
  predicate ValidOptions(opts: Options) {
    opts.aesMode ==> opts.passwordDefined
  }

  /** A cipher filter instance. `nonce` tells apart the instances created by
      different trials (each draws its own random header material). */
  datatype Cipher =
    | ZipCrypto(crc: bv32, nonce: nat)
    | WzAes(keyMode: Byte, nonce: nat)

  /** `NCoderPropID` values the driver sets, and one property assignment. */
  datatype PropId = NumPasses | NumFastBytes | MatchFinderCycles | DictionarySize
  datatype Prop = Prop(id: PropId, value: nat)

  /** The coder that produced a trial's payload. */
  datatype Coder = Copy | Built(codec: Codec)

  /** Call sites whose status is checked with `RINOK`. */
  datatype Site =
    | SeekIn | SeekOut | SetPassword | RewindIn | SetCrc | WriteHeader | SetOutStream
    | LoadCoder | SetProps | Code | Tell | WriteFooter | TellFooter | Resize

  /** What the driver did, in the order it did it. */
  datatype Act =
    | InputRewound
    | OutputRewound
    | FilterCoderCreated
    | CipherCreated(aes: bool)
    | PasswordSet
    | PrePass
    | CrcSet(crc: bv32)
    | HeaderWritten(bytes: seq<Byte>)
    | SinkAttached
    | CopyCoderCreated
    | EncoderCreated(codec: Codec)
    | PropsSet(props: seq<Prop>)
    | Coded(coder: Coder)
    | PositionRead
    | FooterWritten(bytes: seq<Byte>)
    | Truncated(size: nat)

  datatype Event = InTrial(trial: nat, act: Act) | AfterLoop(act: Act)

  /** The collaborators. `status(site, i)` is what the call at `site` returns in
      trial `i` (after the loop, `i` is 0); coders and ciphers are functions of
      their input; `prepass(i, rest)` is how the raw input, which still holds
      `rest` from its current position on, answers the reads of the ZipCrypto
      CRC pre-pass in trial `i` (its chunking, and any failure). */
  datatype Env = Env(
    status: (Site, nat) -> HResult,
    update: Crc.Update,
    encode: (Codec, seq<Byte>) -> seq<Byte>,
    available: Codec -> bool,    // the method map knows the codec's library
    settable: Codec -> bool,     // the encoder exposes ICompressSetCoderProperties
    header: Cipher -> seq<Byte>,
    encrypt: (Cipher, seq<Byte>) -> seq<Byte>,
    footer: Cipher -> seq<Byte>,
    aesHeaderSize: Byte -> nat,  // CEncoder::GetHeaderSize for a key mode
    prepass: (nat, seq<Byte>) -> Crc.Source)

  /** Members of `CAddCommon` that outlive one `Compress` call. */
  datatype Instance = Instance(
    copyCoder: bool,             // _copyCoderSpec != NULL
    encoder: Option<Codec>,      // _compressEncoder
    filterCoder: bool,           // _cryptoStream
    aesFilter: Option<Cipher>)   // _filterAesSpec

  /** `CCompressingResult`. */
  datatype Outcome = Outcome(methodId: Byte, extractVersion: Byte, crc: bv32, unpackSize: nat, packSize: nat)

  /** Everything `Compress` reads and writes while it runs. `methodId` is the local `method`
      that holds the method id of the latest trial. */
  datatype Machine = Machine(
    out: Streams.Sink,
    inp: Streams.CrcInput,
    inst: Instance,
    res: Outcome,
    methodId: Byte,
    log: seq<Event>)

  /** A run either finishes with its machine or stops at the first failing call,
      returning that call's status together with what had been done so far. */
  datatype Exec<+T> = Done(value: T) | Abort(code: HResult, log: seq<Event>) {
    predicate IsFailure() { Abort? }

    function PropagateFailure<U>(): Exec<U>
      requires Abort?
    {
      Abort(code, log)
    }

    function Extract(): T
      requires Done?
    {
      value
    }
  }

  /** The answer to `QueryInterface(IID_IInStream)` on the input: its status and
      whether an `IInStream` (a seekable stream) came back. */
  datatype Probe = Probe(hr: HResult, seekable: bool)

  /** One checked call: it is logged, and `RINOK` stops the run unless it returned S_OK. */
  function Call(env: Env, site: Site, key: nat, m: Machine, ev: Event, next: Machine): Exec<Machine> {
    var log := m.log + [ev];
    var hr := env.status(site, key);
    if hr == S_OK then Done(next.(log := log)) else Abort(hr, log)
  }

  /** Lines 103-112: how many methods may be tried, or `None` for E_NOTIMPL. */
  function NumTestMethods(opts: Options, seekable: bool): (r: Option<nat>)
    ensures r.None? <==> !seekable && opts.passwordDefined
    ensures r.Some? && seekable ==> r.value == |opts.methods|
    ensures r.Some? && !seekable ==> r.value == if |opts.methods| == 0 then 0 else 1
  {
    var n := |opts.methods|;
    if (n > 1 || opts.passwordDefined) && !seekable then
      if opts.passwordDefined then None else Some(1)
    else Some(n)
  }

  /** Lines 117-119: rewind the input (only when it is seekable), then the output. */
  function RewindStreams(env: Env, seekable: bool, i: nat, m: Machine): Exec<Machine> {
    var m1 :- if seekable
      then Call(env, SeekIn, i, m, InTrial(i, InputRewound), m.(inp := Streams.Restart(m.inp)))
      else Done(m);
    Call(env, SeekOut, i, m1, InTrial(i, OutputRewound), m1.(out := Streams.Rewind(m1.out)))
  }

  /** Lines 58-73 and 141: the ZipCrypto pre-pass in trial `i` reads the raw
      input from the position it shares with the wrapper `inp`, to its end. */
  function RawCrcPass(env: Env, i: nat, inp: Streams.CrcInput): Result<seq<Byte>> {
    Crc.Drained(env.prepass(i, Streams.Remaining(inp)))
  }

  /** Lines 120-147: create the filter coder once, create a fresh cipher for this
      trial, key it and write its header to the output. ZipCrypto first reads the
      raw input through for its CRC and rewinds the wrapper. Returns the cipher
      the coder's output will pass through. */
  function SetUpCipher(env: Env, opts: Options, i: nat, m: Machine): (r: Exec<(Machine, Cipher)>)
    ensures r.Done? ==> r.value.0.out.pos == m.out.pos + |env.header(r.value.1)|
    ensures r.Done? ==>
      r.value.0.inst.filterCoder && r.value.0.inst.encoder == m.inst.encoder &&
      r.value.0.inst.copyCoder == m.inst.copyCoder && r.value.0.res == m.res && r.value.0.methodId == m.methodId
    ensures r.Done? && opts.aesMode ==>
      r.value.1 == WzAes(opts.aesKeyMode, i) && r.value.0.inst.aesFilter == Some(r.value.1) && r.value.0.inp == m.inp
    ensures r.Done? && !opts.aesMode ==>
      r.value.1.ZipCrypto? && r.value.1.nonce == i &&
      r.value.0.inp == Streams.Fresh(m.inp.data) && r.value.0.inst.aesFilter == m.inst.aesFilter
  {
    var m0 := if m.inst.filterCoder then m
      else m.(inst := m.inst.(filterCoder := true), log := m.log + [InTrial(i, FilterCoderCreated)]);
    if opts.aesMode then
      var c := WzAes(opts.aesKeyMode, i);
      var m1 := m0.(inst := m0.inst.(aesFilter := Some(c)), log := m0.log + [InTrial(i, CipherCreated(true))]);
      var m2 :- Call(env, SetPassword, i, m1, InTrial(i, PasswordSet), m1);
      var h := env.header(c);
      var m3 :- Call(env, WriteHeader, i, m2, InTrial(i, HeaderWritten(h)), m2.(out := Streams.Write(m2.out, h)));
      var m4 :- Call(env, SetOutStream, i, m3, InTrial(i, SinkAttached), m3);
      Done((m4, c))
    else
      var m1 := m0.(log := m0.log + [InTrial(i, CipherCreated(false))]);
      var m2 :- Call(env, SetPassword, i, m1, InTrial(i, PasswordSet), m1);
      var m3 := m2.(inp := Streams.BypassToEnd(m2.inp), log := m2.log + [InTrial(i, PrePass)]);
      match RawCrcPass(env, i, m2.inp)
      case Fail(hr) => Abort(hr, m3.log)
      case Ok(bytes) =>
        var crc := Crc.CrcOf(env.update, bytes);
        var m4 :- Call(env, RewindIn, i, m3, InTrial(i, InputRewound), m3.(inp := Streams.Restart(m3.inp)));
        var m5 :- Call(env, SetCrc, i, m4, InTrial(i, CrcSet(crc)), m4);
        var c := ZipCrypto(crc, i);
        var h := env.header(c);
        var m6 :- Call(env, WriteHeader, i, m5, InTrial(i, HeaderWritten(h)), m5.(out := Streams.Write(m5.out, h)));
        var m7 :- Call(env, SetOutStream, i, m6, InTrial(i, SinkAttached), m6);
        Done((m7, c))
  }

  /** The value of the option a property id stands for. */
  function OptionValue(opts: Options, id: PropId): nat {
    match id
    case NumPasses => opts.numPasses
    case NumFastBytes => opts.numFastBytes
    case MatchFinderCycles => opts.numMatchFinderCycles
    case DictionarySize => opts.dicSize
  }

  /** The property ids a codec family is tuned with (lines 225-230 and 251-258). */
  function PropFamily(codec: Codec, cyclesDefined: bool): set<PropId> {
    if codec == BZip2 then {DictionarySize, NumPasses}
    else if cyclesDefined then {NumPasses, NumFastBytes, MatchFinderCycles}
    else {NumPasses, NumFastBytes}
  }

  /** Lines 216-265: the properties handed to a freshly loaded encoder: each id of
      the codec's family exactly once (the match-finder cycles only when they are
      defined), each carrying its option's value. */
  function CoderProps(opts: Options, codec: Codec): (ps: seq<Prop>)
    ensures forall k :: 0 <= k < |ps| ==> ps[k].value == OptionValue(opts, ps[k].id)
    ensures forall k, l :: 0 <= k < l < |ps| ==> ps[k].id != ps[l].id
    ensures forall k :: 0 <= k < |ps| ==> ps[k].id in PropFamily(codec, opts.cyclesDefined)
    ensures |ps| == |PropFamily(codec, opts.cyclesDefined)|
  {
    match codec
    case BZip2 => [Prop(DictionarySize, opts.dicSize), Prop(NumPasses, opts.numPasses)]
    case _ =>
      var base := [Prop(NumPasses, opts.numPasses), Prop(NumFastBytes, opts.numFastBytes)];
      if opts.cyclesDefined then base + [Prop(MatchFinderCycles, opts.numMatchFinderCycles)] else base
  }

  /** Lines 171-265, run only while the instance holds no encoder: resolve the
      method through the method map (an unnamed id or a missing library is
      E_NOTIMPL), load the encoder, and set its properties if it accepts them. */
  function BuildEncoder(env: Env, opts: Options, i: nat, m: Machine, id: Byte): (r: Exec<Machine>)
    ensures r.Done? ==> CodecFor(id).Some? && r.value.inst.encoder == CodecFor(id)
    ensures CodecFor(id).None? || !env.available(CodecFor(id).value) ==> r == Abort(E_NOTIMPL, m.log)
  {
    match CodecFor(id)
    case None => Abort(E_NOTIMPL, m.log)
    case Some(codec) =>
      if !env.available(codec) then Abort(E_NOTIMPL, m.log)
      else
        var m1 :- Call(env, LoadCoder, i, m, InTrial(i, EncoderCreated(codec)),
                       m.(inst := m.inst.(encoder := Some(codec))));
        if env.settable(codec) then
          Call(env, SetProps, i, m1, InTrial(i, PropsSet(CoderProps(opts, codec))), m1)
        else Done(m1)
  }

  /** What reaches the output from the coder: the payload itself, or its
      encryption when the coder writes into the cipher filter. */
  function Seal(env: Env, cipher: Option<Cipher>, payload: seq<Byte>): seq<Byte> {
    match cipher
    case None => payload
    case Some(c) => env.encrypt(c, payload)
  }

  /** One coder run: read the rest of the input through the CRC wrapper and write
      `payload` (through the cipher, if any); on success record the version. */
  function Transfer(env: Env, i: nat, m: Machine, coder: Coder, payload: seq<Byte>,
                    cipher: Option<Cipher>, version: Byte): Exec<Machine>
  {
    Call(env, Code, i, m, InTrial(i, Coded(coder)),
         m.(out := Streams.Write(m.out, Seal(env, cipher, payload)),
            inp := Streams.ReadToEnd(env.update, m.inp),
            res := m.res.(extractVersion := version)))
  }

  /** Lines 150-275: code the input with the trial's method. Stored copies the
      bytes verbatim with the (once-created) copy coder; any other method uses
      the instance's encoder, built on first need and then reused whatever
      method id later trials carry. */
  function Encode(env: Env, opts: Options, i: nat, m: Machine, cipher: Option<Cipher>): (r: Exec<Machine>)
    requires i < |opts.methods|
    ensures r.Done? ==>
      r.value.methodId == opts.methods[i] &&
      r.value.res.extractVersion == ExtractVersion(opts.methods[i]) &&
      r.value.inp.data == m.inp.data && r.value.inp.pos == |m.inp.data|
    ensures r.Done? && m.inst.encoder.Some? ==> r.value.inst.encoder == m.inst.encoder
    ensures r.Done? && opts.methods[i] != kStored ==> r.value.inst.encoder.Some?
    ensures opts.methods[i] != kStored && m.inst.encoder.None? && CodecFor(opts.methods[i]).None? ==>
      r == Abort(E_NOTIMPL, m.log)
  {
    var id := opts.methods[i];
    var m0 := m.(methodId := id);
    if id == kStored then
      var m1 := if m0.inst.copyCoder then m0
        else m0.(inst := m0.inst.(copyCoder := true), log := m0.log + [InTrial(i, CopyCoderCreated)]);
      Transfer(env, i, m1, Copy, Streams.Remaining(m1.inp), cipher, kStoreExtractVersion)
    else
      var m1 :- if m0.inst.encoder.Some? then Done(m0) else BuildEncoder(env, opts, i, m0, id);
      match m1.inst.encoder
      case Some(codec) =>
        Transfer(env, i, m1, Built(codec), env.encode(codec, Streams.Remaining(m1.inp)), cipher, kDeflateExtractVersion)
      case None => assert false; Abort(E_NOTIMPL, m1.log)
  }

  /** Lines 278-289: read the output position as the packed size, and take the
      CRC and unpacked size from the input wrapper. */
  function Record(env: Env, i: nat, m: Machine): Exec<Machine> {
    Call(env, Tell, i, m, InTrial(i, PositionRead),
         m.(res := m.res.(packSize := m.out.pos, crc := Crc.Digest(m.inp.crc), unpackSize := m.inp.size)))
  }

  /** One pass of the loop body, lines 117-289. */
  function Trial(env: Env, opts: Options, seekable: bool, i: nat, m: Machine): (r: Exec<Machine>)
    requires i < |opts.methods|
    ensures r.Done? ==> r.value.methodId == opts.methods[i]
    ensures r.Done? && opts.aesMode && opts.passwordDefined ==>
      r.value.inst.aesFilter == Some(WzAes(opts.aesKeyMode, i))
  {
    var m1 :- RewindStreams(env, seekable, i, m);
    if opts.passwordDefined then
      var mc :- SetUpCipher(env, opts, i, m1);
      var m2 :- Encode(env, opts, i, mc.0, Some(mc.1));
      Record(env, i, m2)
    else
      var m2 :- Encode(env, opts, i, m1, None);
      Record(env, i, m2)
  }

  /** The encryption header allowance of the size bar (lines 293-294). */
  function Overhead(env: Env, opts: Options): nat {
    if opts.aesMode then env.aesHeaderSize(opts.aesKeyMode) else kZipCryptoHeaderSize
  }

  /** Lines 291-298: the trial just recorded is good enough to stop. */
  predicate Accepted(env: Env, opts: Options, res: Outcome) {
    if opts.passwordDefined then res.packSize < res.unpackSize + Overhead(env, opts)
    else res.packSize < res.unpackSize
  }

  /** The shape of the loop of lines 115-299, for any trial step: trials
      `i..n-1` run in turn until one fails or is accepted, and the last one
      run leaves its machine. */
  function Loop(trial: (nat, Machine) --> Exec<Machine>, accepted: Machine -> bool, i: nat, n: nat, m: Machine): Exec<Machine>
    requires i <= n
    requires forall j: nat, x: Machine :: i <= j < n ==> trial.requires(j, x)
    decreases n - i
  {
    if i == n then Done(m)
    else
      var m1 :- trial(i, m);
      if accepted(m1) then Done(m1) else Loop(trial, accepted, i + 1, n, m1)
  }

  /** A property every successful trial leaves holds after a successful loop
      that ran at least one trial, or that started with it. */
  lemma {:induction false} LoopEstablishes(trial: (nat, Machine) --> Exec<Machine>, accepted: Machine -> bool,
                                           q: Machine -> bool, i: nat, n: nat, m: Machine)
    requires i <= n
    requires forall j: nat, x: Machine :: i <= j < n ==> trial.requires(j, x)
    requires forall j: nat, x: Machine :: i <= j < n && trial(j, x).Done? ==> q(trial(j, x).value)
    ensures var r := Loop(trial, accepted, i, n, m); r.Done? && (i < n || q(m)) ==> q(r.value)
    decreases n - i
  {
    if i < n && trial(i, m).Done? && !accepted(trial(i, m).value) {
      LoopEstablishes(trial, accepted, q, i + 1, n, trial(i, m).value);
    }
  }

  /** Trial `j` of the loop, as a step. */
  function TrialStep(env: Env, opts: Options, seekable: bool): (nat, Machine) --> Exec<Machine> {
    (j: nat, x: Machine) requires j < |opts.methods| => Trial(env, opts, seekable, j, x)
  }

  /** The stop test of lines 291-298, as a test on the machine a trial leaves. */
  function Acceptance(env: Env, opts: Options): Machine -> bool {
    (x: Machine) => Accepted(env, opts, x.res)
  }

  /** The loop of lines 115-299 from trial `i` on, out of `n` allowed. */
  function Trials(env: Env, opts: Options, seekable: bool, i: nat, n: nat, m: Machine): (r: Exec<Machine>)
    requires i <= n <= |opts.methods|
    ensures r.Done? && opts.aesMode && opts.passwordDefined && (i < n || m.inst.aesFilter.Some?) ==>
      r.value.inst.aesFilter.Some?
  {
    LoopEstablishes(TrialStep(env, opts, seekable), Acceptance(env, opts),
                    (x: Machine) => opts.aesMode && opts.passwordDefined ==> x.inst.aesFilter.Some?, i, n, m);
    Loop(TrialStep(env, opts, seekable), Acceptance(env, opts), i, n, m)
  }

  /** Lines 300-304: the AES filter's footer goes after the last trial's bytes,
      and the packed size is read again. */
  function AppendFooter(env: Env, m: Machine): Exec<Machine>
    requires m.inst.aesFilter.Some?
  {
    var f := env.footer(m.inst.aesFilter.value);
    var m1 :- Call(env, WriteFooter, 0, m, AfterLoop(FooterWritten(f)), m.(out := Streams.Write(m.out, f)));
    Call(env, TellFooter, 0, m1, AfterLoop(PositionRead), m1.(res := m1.res.(packSize := m1.out.pos)))
  }

  /** Lines 300-306: footer in AES mode, record the method, cut the output to the packed size. */
  function Finish(env: Env, opts: Options, m: Machine): (r: Exec<Machine>)
    requires opts.aesMode ==> m.inst.aesFilter.Some?
    ensures r.Done? ==>
      r.value.res.methodId == m.methodId && |r.value.out.bytes| == r.value.res.packSize && r.value.inst == m.inst
    ensures r.Done? && !opts.aesMode ==> r.value.res.packSize == m.res.packSize
    ensures r.Done? && opts.aesMode ==> r.value.res.packSize == m.out.pos + |env.footer(m.inst.aesFilter.value)|
  {
    var m1 :- if opts.aesMode then AppendFooter(env, m) else Done(m);
    var m2 := m1.(res := m1.res.(methodId := m1.methodId));
    var size := m2.res.packSize;
    Call(env, Resize, 0, m2, AfterLoop(Truncated(size)), m2.(out := Streams.SetSize(m2.out, size)))
  }

  /** Line 300 writes the footer of the AES filter the instance holds. A call
      that reaches it without running a trial (a seekable input and no method)
      must find one left by an earlier call. */
  predicate FooterReady(opts: Options, inst: Instance, probe: Probe) {
    opts.aesMode && probe.hr == S_OK && probe.seekable && |opts.methods| == 0 ==> inst.aesFilter.Some?
  }

  /** `CAddCommon::Compress(inStream, outStream, progress, operationResult)`.
      `data` is the input's contents, `prior` the caller's `operationResult`. */
  function Compress(env: Env, opts: Options, inst: Instance, probe: Probe,
                    data: seq<Byte>, out: Streams.Sink, prior: Outcome): (r: Exec<Machine>)
    requires ValidOptions(opts) && FooterReady(opts, inst, probe)
    ensures probe.hr != S_OK ==> r == Abort(probe.hr, [])
    ensures probe.hr == S_OK && !probe.seekable && opts.passwordDefined ==> r == Abort(E_NOTIMPL, [])
    ensures r.Done? ==> |r.value.out.bytes| == r.value.res.packSize
    ensures r.Done? && |opts.methods| == 0 ==> r.value.res.methodId == 0
  {
    if probe.hr != S_OK then Abort(probe.hr, [])
    else
      match NumTestMethods(opts, probe.seekable)
      case None => Abort(E_NOTIMPL, [])
      case Some(n) =>
        var m0 := Machine(out, Streams.Fresh(data), inst, prior, 0, []);
        var m1 :- Trials(env, opts, probe.seekable, 0, n, m0);
        Finish(env, opts, m1)
  }
}
