/** The compression encoder is built at most once per `CAddCommon` instance:
    counted over the event log of a whole `Compress` call. Line numbers in
    comments refer to `7zip/Archive/Zip/ZipAddCommon.cpp`. */
module EncoderOnce {
  import opened Types
  import opened ZipHeader
  import opened AddCommon
  import opened CompressSpec
  import opened CompressProofs
  import Streams

  /** How many times `s` records building the encoder. */
  function Builds(s: seq<Event>): nat {
    if |s| == 0 then 0
    else Builds(s[..|s| - 1]) + (if s[|s| - 1].act.EncoderCreated? then 1 else 0)
  }

  lemma {:induction false} BuildsAppend(a: seq<Event>, b: seq<Event>)
    ensures Builds(a + b) == Builds(a) + Builds(b)
    decreases |b|
  {
    if |b| == 0 {
      assert a + b == a;
    } else {
      var b' := b[..|b| - 1];
      BuildsAppend(a, b');
      assert (a + b)[..|a + b| - 1] == a + b';
    }
  }

  lemma {:induction false} NoBuilds(s: seq<Event>)
    requires forall q :: 0 <= q < |s| ==> !s[q].act.EncoderCreated?
    ensures Builds(s) == 0
    decreases |s|
  {
    if |s| > 0 {
      NoBuilds(s[..|s| - 1]);
    }
  }

  /** Appending events none of which builds the encoder keeps the count. */
  lemma BuildsKept(a: seq<Event>, b: seq<Event>)
    requires forall x :: x in b ==> !x.act.EncoderCreated?
    ensures Builds(a + b) == Builds(a)
  {
    forall q | 0 <= q < |b|
      ensures !b[q].act.EncoderCreated?
    {
      assert b[q] in b;
    }
    NoBuilds(b);
    BuildsAppend(a, b);
  }

  /** Going from `b0` to `b1` builds, and from `e0` to `e1` the instance's
      encoder changes, only as a first build does: one build that gives an
      instance without an encoder its encoder, and nothing else. */
  predicate BuildStep(b0: nat, b1: nat, e0: Option<Codec>, e1: Option<Codec>) {
    b1 == b0 + (if e0.None? && e1.Some? then 1 else 0) && (e0.Some? ==> e1 == e0)
  }

  lemma BuildStepChain(b0: nat, b1: nat, b2: nat, e0: Option<Codec>, e1: Option<Codec>, e2: Option<Codec>)
    requires BuildStep(b0, b1, e0, e1) && BuildStep(b1, b2, e1, e2)
    ensures BuildStep(b0, b2, e0, e2)
  {
  }

  /** What a WinZip AES set-up logs. */
  function AesEvents(i: nat, filterCoder: bool, header: seq<Byte>): seq<Event> {
    (if filterCoder then [] else [InTrial(i, FilterCoderCreated)]) +
    [InTrial(i, CipherCreated(true)), InTrial(i, PasswordSet), InTrial(i, HeaderWritten(header)),
     InTrial(i, SinkAttached)]
  }

  /** The AES counterpart of the ZipCrypto set-up log. */
  lemma AesSetUpLog(env: Env, opts: Options, i: nat, m: Machine)
    requires opts.aesMode
    requires SetUpCipher(env, opts, i, m).Done?
    ensures var (m1, c) := SetUpCipher(env, opts, i, m).value;
      m1.inst.encoder == m.inst.encoder &&
      m1.log == m.log + AesEvents(i, m.inst.filterCoder, env.header(c))
  {
  }

  lemma AesBuildsNothing(env: Env, opts: Options, i: nat, m: Machine)
    requires opts.aesMode
    requires SetUpCipher(env, opts, i, m).Done?
    ensures var m1 := SetUpCipher(env, opts, i, m).value.0;
      Builds(m1.log) == Builds(m.log) && m1.inst.encoder == m.inst.encoder
  {
    AesSetUpLog(env, opts, i, m);
    var c := SetUpCipher(env, opts, i, m).value.1;
    BuildsKept(m.log, AesEvents(i, m.inst.filterCoder, env.header(c)));
  }

  /** The events of a ZipCrypto set-up build nothing. */
  lemma ZipCryptoEventsBuildNothing(base: seq<Event>, i: nat, filterCoder: bool, crc: bv32, header: seq<Byte>)
    ensures Builds(base + CipherEvents(i, filterCoder) + ZipCryptoKeying(i, crc, header)) == Builds(base)
  {
    var tail := CipherEvents(i, filterCoder) + ZipCryptoKeying(i, crc, header);
    BuildsKept(base, tail);
    assert base + CipherEvents(i, filterCoder) + ZipCryptoKeying(i, crc, header) == base + tail;
  }

  lemma ZipCryptoBuildsNothing(env: Env, opts: Options, i: nat, m: Machine)
    requires opts.passwordDefined && !opts.aesMode
    requires SetUpCipher(env, opts, i, m).Done?
    ensures var m1 := SetUpCipher(env, opts, i, m).value.0;
      Builds(m1.log) == Builds(m.log) && m1.inst.encoder == m.inst.encoder
  {
    CipherKeyingLast(env, opts, i, m);
    var c := SetUpCipher(env, opts, i, m).value.1;
    ZipCryptoEventsBuildNothing(m.log, i, m.inst.filterCoder, c.crc, env.header(c));
  }

  /** Keying a cipher never builds the encoder. */
  lemma CipherBuildsNothing(env: Env, opts: Options, i: nat, m: Machine)
    requires opts.passwordDefined
    requires SetUpCipher(env, opts, i, m).Done?
    ensures var m1 := SetUpCipher(env, opts, i, m).value.0;
      Builds(m1.log) == Builds(m.log) && m1.inst.encoder == m.inst.encoder
  {
    if opts.aesMode {
      AesBuildsNothing(env, opts, i, m);
    } else {
      ZipCryptoBuildsNothing(env, opts, i, m);
    }
  }

  lemma RewindBuildsNothing(env: Env, seekable: bool, i: nat, m: Machine)
    requires RewindStreams(env, seekable, i, m).Done?
    ensures var m1 := RewindStreams(env, seekable, i, m).value;
      Builds(m1.log) == Builds(m.log) && m1.inst.encoder == m.inst.encoder
  {
    RewindLog(env, seekable, i, m);
    RewindEffect(env, seekable, i, m);
    BuildsKept(m.log, RewindEvents(i, seekable));
  }

  lemma StoreBuildsNothing(env: Env, opts: Options, i: nat, m: Machine, cipher: Option<Cipher>)
    requires i < |opts.methods| && opts.methods[i] == kStored
    requires Encode(env, opts, i, m, cipher).Done?
    ensures var m1 := Encode(env, opts, i, m, cipher).value;
      Builds(m1.log) == Builds(m.log) && m1.inst.encoder == m.inst.encoder
  {
    StoreLog(env, opts, i, m, cipher);
    var tail := (if m.inst.copyCoder then [] else [InTrial(i, CopyCoderCreated)]) + [InTrial(i, Coded(Copy))];
    assert Encode(env, opts, i, m, cipher).value.log == m.log + tail;
    BuildsKept(m.log, tail);
  }

  lemma ReuseBuildsNothing(env: Env, opts: Options, i: nat, m: Machine, cipher: Option<Cipher>)
    requires i < |opts.methods| && opts.methods[i] != kStored && m.inst.encoder.Some?
    requires Encode(env, opts, i, m, cipher).Done?
    ensures var m1 := Encode(env, opts, i, m, cipher).value;
      Builds(m1.log) == Builds(m.log) && m1.inst.encoder == m.inst.encoder
  {
    ReuseLog(env, opts, i, m, cipher);
    BuildsKept(m.log, [InTrial(i, Coded(Built(m.inst.encoder.value)))]);
  }

  lemma FirstBuildCounted(env: Env, opts: Options, i: nat, m: Machine, cipher: Option<Cipher>)
    requires i < |opts.methods| && opts.methods[i] != kStored && m.inst.encoder.None?
    requires Encode(env, opts, i, m, cipher).Done?
    ensures var m1 := Encode(env, opts, i, m, cipher).value;
      Builds(m1.log) == Builds(m.log) + 1 && m1.inst.encoder == CodecFor(opts.methods[i]) &&
      m1.inst.encoder.Some?
  {
    FirstBuildLog(env, opts, i, m, cipher);
    var codec := CodecFor(opts.methods[i]).value;
    var built := [InTrial(i, EncoderCreated(codec))];
    var tail := (if env.settable(codec) then [InTrial(i, PropsSet(CoderProps(opts, codec)))] else []) +
      [InTrial(i, Coded(Built(codec)))];
    assert Encode(env, opts, i, m, cipher).value.log == m.log + built + tail;
    BuildsAppend(m.log, built);
    assert Builds(built) == 1 by {
      assert built[..0] == [];
    }
    BuildsKept(m.log + built, tail);
  }

  /** The coder stage builds the encoder exactly when the instance has none and
      the method is not Stored; what it holds afterwards is `NextEncoder`. */
  lemma EncodeBuilds(env: Env, opts: Options, i: nat, m: Machine, cipher: Option<Cipher>)
    requires i < |opts.methods|
    requires Encode(env, opts, i, m, cipher).Done?
    ensures var m1 := Encode(env, opts, i, m, cipher).value;
      var id := opts.methods[i];
      BuildStep(Builds(m.log), Builds(m1.log), m.inst.encoder, m1.inst.encoder) &&
      (m1.inst.encoder.Some? <==> m.inst.encoder.Some? || id != kStored) &&
      m1.inst.encoder == NextEncoder(m.inst.encoder, id)
  {
    if opts.methods[i] == kStored {
      StoreBuildsNothing(env, opts, i, m, cipher);
    } else if m.inst.encoder.Some? {
      ReuseBuildsNothing(env, opts, i, m, cipher);
    } else {
      FirstBuildCounted(env, opts, i, m, cipher);
    }
  }

  /** A successful trial without a password: rewind, code, read the position. */
  lemma TrialStagesPlain(env: Env, opts: Options, seekable: bool, i: nat, m: Machine)
    requires i < |opts.methods| && !opts.passwordDefined
    requires Trial(env, opts, seekable, i, m).Done?
    ensures RewindStreams(env, seekable, i, m).Done?
    ensures var m1 := RewindStreams(env, seekable, i, m).value;
      Encode(env, opts, i, m1, None).Done? &&
      var m2 := Encode(env, opts, i, m1, None).value;
      Trial(env, opts, seekable, i, m).value.log == m2.log + [InTrial(i, PositionRead)] &&
      Trial(env, opts, seekable, i, m).value.inst == m2.inst
  {
  }

  lemma TrialKeepsInstance(env: Env, opts: Options, seekable: bool, i: nat, m: Machine)
    requires i < |opts.methods| && opts.passwordDefined
    requires Trial(env, opts, seekable, i, m).Done?
    ensures var m1 := RewindStreams(env, seekable, i, m).value;
      var mc := SetUpCipher(env, opts, i, m1).value;
      Trial(env, opts, seekable, i, m).value.inst == Encode(env, opts, i, mc.0, Some(mc.1)).value.inst
  {
  }

  /** One trial builds the encoder exactly when the instance had none and the
      trial's method is not Stored. */
  lemma TrialBuilds(env: Env, opts: Options, seekable: bool, i: nat, m: Machine)
    requires i < |opts.methods|
    requires Trial(env, opts, seekable, i, m).Done?
    ensures var m1 := Trial(env, opts, seekable, i, m).value;
      var id := opts.methods[i];
      BuildStep(Builds(m.log), Builds(m1.log), m.inst.encoder, m1.inst.encoder) &&
      (m1.inst.encoder.Some? <==> m.inst.encoder.Some? || id != kStored) &&
      m1.inst.encoder == NextEncoder(m.inst.encoder, id)
  {
    RewindBuildsNothing(env, seekable, i, m);
    var m1 := RewindStreams(env, seekable, i, m).value;
    if opts.passwordDefined {
      TrialStagesWithPassword(env, opts, seekable, i, m);
      TrialKeepsInstance(env, opts, seekable, i, m);
      CipherBuildsNothing(env, opts, i, m1);
      var mc := SetUpCipher(env, opts, i, m1).value;
      EncodeBuilds(env, opts, i, mc.0, Some(mc.1));
      BuildsKept(Encode(env, opts, i, mc.0, Some(mc.1)).value.log, [InTrial(i, PositionRead)]);
    } else {
      TrialStagesPlain(env, opts, seekable, i, m);
      EncodeBuilds(env, opts, i, m1, None);
      BuildsKept(Encode(env, opts, i, m1, None).value.log, [InTrial(i, PositionRead)]);
    }
  }

  /** The build count and encoder before and after a stretch of the run. */
  predicate BuiltBetween(a: Machine, b: Machine) {
    BuildStep(Builds(a.log), Builds(b.log), a.inst.encoder, b.inst.encoder)
  }

  /** For any trial step that builds at most once, and only when no encoder is
      held, a successful loop builds at most once, only when none was held. */
  lemma {:induction false} LoopBuildOnce(trial: (nat, Machine) --> Exec<Machine>, accepted: Machine -> bool,
                                         i: nat, n: nat, m: Machine)
    requires i <= n
    requires forall j: nat, x: Machine :: i <= j < n ==> trial.requires(j, x)
    requires forall j: nat, x: Machine :: i <= j < n && trial(j, x).Done? ==> BuiltBetween(x, trial(j, x).value)
    requires Loop(trial, accepted, i, n, m).Done?
    ensures BuiltBetween(m, Loop(trial, accepted, i, n, m).value)
    decreases n - i
  {
    if i < n {
      var m1 := trial(i, m).value;
      if !accepted(m1) {
        var m2 := Loop(trial, accepted, i + 1, n, m1).value;
        LoopBuildOnce(trial, accepted, i + 1, n, m1);
        BuildStepChain(Builds(m.log), Builds(m1.log), Builds(m2.log), m.inst.encoder, m1.inst.encoder, m2.inst.encoder);
      }
    }
  }

  /** Over a run of trials the encoder is built at most once: exactly once if
      the instance started without one and ended with one, never otherwise. */
  lemma TrialsBuildOnce(env: Env, opts: Options, seekable: bool, i: nat, n: nat, m: Machine)
    requires i <= n <= |opts.methods|
    requires Trials(env, opts, seekable, i, n, m).Done?
    ensures var m1 := Trials(env, opts, seekable, i, n, m).value;
      BuildStep(Builds(m.log), Builds(m1.log), m.inst.encoder, m1.inst.encoder)
  {
    forall j: nat, x: Machine | i <= j < n && TrialStep(env, opts, seekable)(j, x).Done?
      ensures BuiltBetween(x, TrialStep(env, opts, seekable)(j, x).value)
    {
      TrialBuilds(env, opts, seekable, j, x);
    }
    LoopBuildOnce(TrialStep(env, opts, seekable), Acceptance(env, opts), i, n, m);
  }

  /** The footer, the method record and the truncation build nothing. */
  lemma FinishBuildsNothing(env: Env, opts: Options, m: Machine)
    requires opts.aesMode ==> m.inst.aesFilter.Some?
    requires Finish(env, opts, m).Done?
    ensures var m1 := Finish(env, opts, m).value;
      Builds(m1.log) == Builds(m.log) && m1.inst == m.inst
  {
    var m1 := Finish(env, opts, m).value;
    if opts.aesMode {
      var f := env.footer(m.inst.aesFilter.value);
      var tail := [AfterLoop(FooterWritten(f)), AfterLoop(PositionRead), AfterLoop(Truncated(m1.res.packSize))];
      assert m1.log == m.log + tail;
      BuildsKept(m.log, tail);
    } else {
      BuildsKept(m.log, [AfterLoop(Truncated(m.res.packSize))]);
    }
  }

  /** Lines 171-181: a `Compress` call builds the encoder at most once, only if
      the instance had none, and then the instance keeps it for later calls; an
      instance that already holds an encoder never builds or swaps it. */
  lemma EncoderBuiltOnce(env: Env, opts: Options, inst: Instance, probe: Probe,
                         data: seq<Byte>, out: Streams.Sink, prior: Outcome)
    requires ValidOptions(opts) && FooterReady(opts, inst, probe)
    requires Compress(env, opts, inst, probe, data, out, prior).Done?
    ensures var m := Compress(env, opts, inst, probe, data, out, prior).value;
      Builds(m.log) == (if inst.encoder.None? && m.inst.encoder.Some? then 1 else 0) &&
      (inst.encoder.Some? ==> m.inst.encoder == inst.encoder)
  {
    var n := NumTestMethods(opts, probe.seekable).value;
    var m0 := Machine(out, Streams.Fresh(data), inst, prior, 0, []);
    TrialsBuildOnce(env, opts, probe.seekable, 0, n, m0);
    var m1 := Trials(env, opts, probe.seekable, 0, n, m0).value;
    FinishBuildsNothing(env, opts, m1);
  }

  /** Lines 171-214 over a whole call: an instance that starts without an
      encoder ends holding the codec of the first compressing method among the
      trials up to the chosen one. Stored trials before it build nothing, and
      trials after it reuse it. */
  lemma CallHoldsFirstCompressing(env: Env, opts: Options, inst: Instance, probe: Probe,
                                  data: seq<Byte>, out: Streams.Sink, prior: Outcome, j: nat)
    requires ValidOptions(opts) && FooterReady(opts, inst, probe)
    requires PrePassHonest(env, opts)
    requires inst.encoder.None?
    requires Compress(env, opts, inst, probe, data, out, prior).Done?
    requires var n := Allowed(opts, probe.seekable);
      0 < n && j <= Chosen(env, opts, data, None, 0, n)
    requires opts.methods[j] != kStored && CodecFor(opts.methods[j]).Some?
    requires forall q :: 0 <= q < j ==> opts.methods[q] == kStored
    ensures Compress(env, opts, inst, probe, data, out, prior).value.inst.encoder == CodecFor(opts.methods[j])
  {
    CompressOutcome(env, opts, inst, probe, data, out, prior);
    FirstCompressingAt(opts.methods, Chosen(env, opts, data, None, 0, Allowed(opts, probe.seekable)), j);
  }

  /** The encoder trial `k` codes with, from no encoder, is that of the first
      compressing method at or before `k`. */
  lemma FirstCompressingAt(ids: seq<Byte>, k: nat, j: nat)
    requires j <= k < |ids|
    requires ids[j] != kStored && CodecFor(ids[j]).Some?
    requires forall q :: 0 <= q < j ==> ids[q] == kStored
    ensures EncoderAt(None, ids, 0, k) == CodecFor(ids[j])
  {
    var run := ids[0..k + 1];
    assert run[j] == ids[j];
    forall q | 0 <= q < j
      ensures run[q] == kStored
    {
      assert run[q] == ids[q];
    }
    EncoderIsFirstCompressing(run, j);
  }
}
