/** Proofs of what the driver promises: trial gating, first-fit selection,
    rewind-then-overwrite, encoder reuse and call ordering. Line
    numbers in comments refer to `7zip/Archive/Zip/ZipAddCommon.cpp`. */
module CompressProofs {
  import opened Types
  import opened ZipHeader
  import Crc
  import Streams
  import opened AddCommon
  import opened CompressSpec

  /** The events of a run, whether it finished or stopped at a failing call. */
  function Trace(r: Exec<Machine>): seq<Event> {
    if r.Done? then r.value.log else r.log
  }

  function TraceC(r: Exec<(Machine, Cipher)>): seq<Event> {
    if r.Done? then r.value.0.log else r.log
  }

  /** `after` continues `before`, and every event it adds belongs to trial `i`. */
  predicate Grows(before: seq<Event>, after: seq<Event>, i: nat) {
    |before| <= |after| && after[..|before|] == before &&
    forall k :: |before| <= k < |after| ==> after[k].InTrial? && after[k].trial == i
  }

  lemma GrowsTrans(a: seq<Event>, b: seq<Event>, c: seq<Event>, i: nat)
    requires Grows(a, b, i) && Grows(b, c, i)
    ensures Grows(a, c, i)
  {
    assert c[..|a|] == c[..|b|][..|a|];
    forall k | |a| <= k < |c|
      ensures c[k].InTrial? && c[k].trial == i
    {
      if k < |b| {
        assert c[k] == c[..|b|][k];
      }
    }
  }

  lemma CallGrows(env: Env, site: Site, i: nat, m: Machine, a: Act, next: Machine)
    ensures var r := Call(env, site, i, m, InTrial(i, a), next);
      Trace(r) == m.log + [InTrial(i, a)] && Grows(m.log, Trace(r), i)
  {
    var log := m.log + [InTrial(i, a)];
    assert log[..|m.log|] == m.log;
  }

  /** Rewinding: the output goes to offset 0 with its contents intact; a seekable
      input is restarted, a sequential one left alone. */
  lemma RewindEffect(env: Env, seekable: bool, i: nat, m: Machine)
    ensures Grows(m.log, Trace(RewindStreams(env, seekable, i, m)), i)
    ensures |Trace(RewindStreams(env, seekable, i, m))| > |m.log|
    ensures var r := RewindStreams(env, seekable, i, m);
      r.Done? ==>
        r.value.out == Streams.Rewind(m.out) &&
        r.value.inp == (if seekable then Streams.Restart(m.inp) else m.inp) &&
        r.value.inst == m.inst && r.value.res == m.res && r.value.methodId == m.methodId
  {
    var m1 := m;
    if seekable {
      CallGrows(env, SeekIn, i, m, InputRewound, m.(inp := Streams.Restart(m.inp)));
      var r1 := Call(env, SeekIn, i, m, InTrial(i, InputRewound), m.(inp := Streams.Restart(m.inp)));
      if r1.Abort? {
        return;
      }
      m1 := r1.value;
    }
    assert m1.log == m.log || Grows(m.log, m1.log, i);
    CallGrows(env, SeekOut, i, m1, OutputRewound, m1.(out := Streams.Rewind(m1.out)));
    if m1.log != m.log {
      GrowsTrans(m.log, m1.log, Trace(RewindStreams(env, seekable, i, m)), i);
    }
  }

  /** Setting up the cipher: only events of this trial are added, at least one. */
  lemma CipherTrace(env: Env, opts: Options, i: nat, m: Machine)
    ensures Grows(m.log, TraceC(SetUpCipher(env, opts, i, m)), i)
    ensures |TraceC(SetUpCipher(env, opts, i, m))| > |m.log|
  {
    if opts.aesMode {
      CipherTraceAes(env, opts, i, m);
    } else {
      CipherTraceZipCrypto(env, opts, i, m);
    }
  }

  lemma CipherTraceAes(env: Env, opts: Options, i: nat, m: Machine)
    requires opts.aesMode
    ensures Grows(m.log, TraceC(SetUpCipher(env, opts, i, m)), i)
    ensures |TraceC(SetUpCipher(env, opts, i, m))| > |m.log|
  {
    var m0 := if m.inst.filterCoder then m
      else m.(inst := m.inst.(filterCoder := true), log := m.log + [InTrial(i, FilterCoderCreated)]);
    assert Grows(m.log, m0.log, i) by {
      if !m.inst.filterCoder {
        assert m0.log[..|m.log|] == m.log;
      }
    }
    var c := WzAes(opts.aesKeyMode, i);
    var m1 := m0.(inst := m0.inst.(aesFilter := Some(c)), log := m0.log + [InTrial(i, CipherCreated(true))]);
    assert m1.log[..|m0.log|] == m0.log;
    GrowsTrans(m.log, m0.log, m1.log, i);
    CallGrows(env, SetPassword, i, m1, PasswordSet, m1);
    var r2 := Call(env, SetPassword, i, m1, InTrial(i, PasswordSet), m1);
    GrowsTrans(m.log, m1.log, Trace(r2), i);
    if r2.Abort? {
      return;
    }
    var m2 := r2.value;
    var h := env.header(c);
    CallGrows(env, WriteHeader, i, m2, HeaderWritten(h), m2.(out := Streams.Write(m2.out, h)));
    var r3 := Call(env, WriteHeader, i, m2, InTrial(i, HeaderWritten(h)), m2.(out := Streams.Write(m2.out, h)));
    GrowsTrans(m.log, m2.log, Trace(r3), i);
    if r3.Abort? {
      return;
    }
    var m3 := r3.value;
    CallGrows(env, SetOutStream, i, m3, SinkAttached, m3);
    GrowsTrans(m.log, m3.log, Trace(Call(env, SetOutStream, i, m3, InTrial(i, SinkAttached), m3)), i);
  }

  lemma CipherTraceZipCrypto(env: Env, opts: Options, i: nat, m: Machine)
    requires !opts.aesMode
    ensures Grows(m.log, TraceC(SetUpCipher(env, opts, i, m)), i)
    ensures |TraceC(SetUpCipher(env, opts, i, m))| > |m.log|
  {
    var m0 := if m.inst.filterCoder then m
      else m.(inst := m.inst.(filterCoder := true), log := m.log + [InTrial(i, FilterCoderCreated)]);
    assert Grows(m.log, m0.log, i) by {
      if !m.inst.filterCoder {
        assert m0.log[..|m.log|] == m.log;
      }
    }
    var m1 := m0.(log := m0.log + [InTrial(i, CipherCreated(false))]);
    assert m1.log[..|m0.log|] == m0.log;
    GrowsTrans(m.log, m0.log, m1.log, i);
    CallGrows(env, SetPassword, i, m1, PasswordSet, m1);
    var r2 := Call(env, SetPassword, i, m1, InTrial(i, PasswordSet), m1);
    GrowsTrans(m.log, m1.log, Trace(r2), i);
    if r2.Abort? {
      return;
    }
    var m2 := r2.value;
    var m3 := m2.(inp := Streams.BypassToEnd(m2.inp), log := m2.log + [InTrial(i, PrePass)]);
    assert m3.log[..|m2.log|] == m2.log;
    GrowsTrans(m.log, m2.log, m3.log, i);
    match RawCrcPass(env, i, m2.inp)
    case Fail(hr) =>
    case Ok(bytes) =>
      var crc := Crc.CrcOf(env.update, bytes);
      var n4 := m3.(inp := Streams.Restart(m3.inp));
      CallGrows(env, RewindIn, i, m3, InputRewound, n4);
      var r4 := Call(env, RewindIn, i, m3, InTrial(i, InputRewound), n4);
      GrowsTrans(m.log, m3.log, Trace(r4), i);
      if r4.Abort? {
        return;
      }
      var m4 := r4.value;
      CallGrows(env, SetCrc, i, m4, CrcSet(crc), m4);
      var r5 := Call(env, SetCrc, i, m4, InTrial(i, CrcSet(crc)), m4);
      GrowsTrans(m.log, m4.log, Trace(r5), i);
      if r5.Abort? {
        return;
      }
      var m5 := r5.value;
      var h := env.header(ZipCrypto(crc, i));
      var n6 := m5.(out := Streams.Write(m5.out, h));
      CallGrows(env, WriteHeader, i, m5, HeaderWritten(h), n6);
      var r6 := Call(env, WriteHeader, i, m5, InTrial(i, HeaderWritten(h)), n6);
      GrowsTrans(m.log, m5.log, Trace(r6), i);
      if r6.Abort? {
        return;
      }
      var m6 := r6.value;
      CallGrows(env, SetOutStream, i, m6, SinkAttached, m6);
      GrowsTrans(m.log, m6.log, Trace(Call(env, SetOutStream, i, m6, InTrial(i, SinkAttached), m6)), i);
  }

  /** A successful cipher set-up picks the trial's cipher, keys ZipCrypto with the
      CRC of the whole input, writes the header at the output position and leaves
      the input wrapper restarted; the encoder and results are untouched. */
  lemma CipherEffect(env: Env, opts: Options, data: seq<Byte>, i: nat, m: Machine)
    requires opts.passwordDefined
    requires m.inp == Streams.Fresh(data)
    requires PrePassHonest(env, opts)
    requires SetUpCipher(env, opts, i, m).Done?
    ensures var (m1, c) := SetUpCipher(env, opts, i, m).value;
      TrialCipher(env, opts, data, i) == Some(c) &&
      m1.out == Streams.Write(m.out, env.header(c)) &&
      m1.inp == Streams.Fresh(data) &&
      m1.inst.encoder == m.inst.encoder && m1.inst.copyCoder == m.inst.copyCoder &&
      (opts.aesMode ==> m1.inst.aesFilter == Some(c)) &&
      m1.res == m.res && m1.methodId == m.methodId
  {
    if !opts.aesMode {
      assert Streams.Remaining(m.inp) == data;
      assert RawCrcPass(env, i, m.inp).Ok?;
    }
  }

  lemma BuildTrace(env: Env, opts: Options, i: nat, m: Machine, id: Byte)
    ensures Grows(m.log, Trace(BuildEncoder(env, opts, i, m, id)), i)
  {
    match CodecFor(id)
    case None =>
    case Some(codec) =>
      if env.available(codec) {
        var n1 := m.(inst := m.inst.(encoder := Some(codec)));
        CallGrows(env, LoadCoder, i, m, EncoderCreated(codec), n1);
        var r1 := Call(env, LoadCoder, i, m, InTrial(i, EncoderCreated(codec)), n1);
        if r1.Done? && env.settable(codec) {
          var m1 := r1.value;
          CallGrows(env, SetProps, i, m1, PropsSet(CoderProps(opts, codec)), m1);
          GrowsTrans(m.log, m1.log, Trace(Call(env, SetProps, i, m1, InTrial(i, PropsSet(CoderProps(opts, codec))), m1)), i);
        }
      }
  }

  /** A successful encoder build installs the method's codec and touches nothing
      else the trial's outcome depends on. */
  lemma BuildEffect(env: Env, opts: Options, i: nat, m: Machine, id: Byte)
    requires BuildEncoder(env, opts, i, m, id).Done?
    ensures var m1 := BuildEncoder(env, opts, i, m, id).value;
      m1.out == m.out && m1.inp == m.inp && m1.res == m.res && m1.methodId == m.methodId &&
      m1.inst == m.inst.(encoder := CodecFor(id))
  {
  }

  lemma EncodeTrace(env: Env, opts: Options, i: nat, m: Machine, cipher: Option<Cipher>)
    requires i < |opts.methods|
    ensures Grows(m.log, Trace(Encode(env, opts, i, m, cipher)), i)
    ensures |Trace(Encode(env, opts, i, m, cipher))| > |m.log| || Encode(env, opts, i, m, cipher).Abort?
  {
    var id := opts.methods[i];
    var m0 := m.(methodId := id);
    if id == kStored {
      var m1 := if m0.inst.copyCoder then m0
        else m0.(inst := m0.inst.(copyCoder := true), log := m0.log + [InTrial(i, CopyCoderCreated)]);
      assert Grows(m.log, m1.log, i) by {
        if !m0.inst.copyCoder {
          assert m1.log[..|m.log|] == m.log;
        }
      }
      var n := m1.(out := Streams.Write(m1.out, Seal(env, cipher, Streams.Remaining(m1.inp))),
                   inp := Streams.ReadToEnd(env.update, m1.inp),
                   res := m1.res.(extractVersion := kStoreExtractVersion));
      CallGrows(env, Code, i, m1, Coded(Copy), n);
      GrowsTrans(m.log, m1.log, Trace(Call(env, Code, i, m1, InTrial(i, Coded(Copy)), n)), i);
    } else {
      var r1 := if m0.inst.encoder.Some? then Done(m0) else BuildEncoder(env, opts, i, m0, id);
      if m0.inst.encoder.None? {
        BuildTrace(env, opts, i, m0, id);
      }
      if r1.Done? {
        var m1 := r1.value;
        var codec := m1.inst.encoder.value;
        var n := m1.(out := Streams.Write(m1.out, Seal(env, cipher, env.encode(codec, Streams.Remaining(m1.inp)))),
                     inp := Streams.ReadToEnd(env.update, m1.inp),
                     res := m1.res.(extractVersion := kDeflateExtractVersion));
        CallGrows(env, Code, i, m1, Coded(Built(codec)), n);
        GrowsTrans(m.log, m1.log, Trace(Call(env, Code, i, m1, InTrial(i, Coded(Built(codec))), n)), i);
      }
    }
  }

  /** A successful coder run writes the trial's payload, through the cipher if
      any, at the output position; the payload is the whole input for Stored and
      the output of the instance's encoder otherwise. */
  lemma EncodeEffect(env: Env, opts: Options, data: seq<Byte>, i: nat, m: Machine, cipher: Option<Cipher>)
    requires i < |opts.methods|
    requires m.inp == Streams.Fresh(data)
    requires Encode(env, opts, i, m, cipher).Done?
    ensures var m1 := Encode(env, opts, i, m, cipher).value;
      var id := opts.methods[i];
      var e := NextEncoder(m.inst.encoder, id);
      m1.out == Streams.Write(m.out, Seal(env, cipher, Payload(env, opts, data, i, e))) &&
      m1.inp == Streams.ReadToEnd(env.update, Streams.Fresh(data)) &&
      m1.inst.encoder == e && (id != kStored ==> e.Some?) &&
      m1.inst.aesFilter == m.inst.aesFilter &&
      m1.res == m.res.(extractVersion := ExtractVersion(id)) &&
      m1.methodId == id
  {
    var id := opts.methods[i];
    var m0 := m.(methodId := id);
    if id != kStored && m0.inst.encoder.None? {
      BuildEffect(env, opts, i, m0, id);
    }
  }

  /** A trial, however it ends, adds at least one event and only events of its own. */
  lemma TrialTrace(env: Env, opts: Options, seekable: bool, i: nat, m: Machine)
    requires i < |opts.methods|
    ensures Grows(m.log, Trace(Trial(env, opts, seekable, i, m)), i)
    ensures |Trace(Trial(env, opts, seekable, i, m))| > |m.log|
  {
    RewindEffect(env, seekable, i, m);
    var r1 := RewindStreams(env, seekable, i, m);
    if r1.Abort? {
      return;
    }
    var m1 := r1.value;
    var m2: Machine;
    if opts.passwordDefined {
      CipherTrace(env, opts, i, m1);
      var rc := SetUpCipher(env, opts, i, m1);
      if rc.Abort? {
        GrowsTrans(m.log, m1.log, rc.log, i);
        return;
      }
      var mc := rc.value;
      GrowsTrans(m.log, m1.log, mc.0.log, i);
      EncodeTrace(env, opts, i, mc.0, Some(mc.1));
      var r2 := Encode(env, opts, i, mc.0, Some(mc.1));
      GrowsTrans(m.log, mc.0.log, Trace(r2), i);
      if r2.Abort? {
        return;
      }
      m2 := r2.value;
    } else {
      EncodeTrace(env, opts, i, m1, None);
      var r2 := Encode(env, opts, i, m1, None);
      GrowsTrans(m.log, m1.log, Trace(r2), i);
      if r2.Abort? {
        return;
      }
      m2 := r2.value;
    }
    var n := m2.(res := m2.res.(packSize := m2.out.pos, crc := Crc.Digest(m2.inp.crc), unpackSize := m2.inp.size));
    CallGrows(env, Tell, i, m2, PositionRead, n);
    GrowsTrans(m.log, m2.log, Trace(Record(env, i, m2)), i);
  }

  /** What trial `k`, coding with `e`, leaves over a record that was `prior`: its
      image (cipher header, then the coded and possibly encrypted input) at the
      front of the output with the position just after it; the method, version,
      CRC and sizes of this trial alone; the encoder `e`; and, in AES mode, the
      trial's own filter. */
  ghost predicate Leaves(env: Env, opts: Options, data: seq<Byte>, k: nat, e: Option<Codec>, prior: Outcome, m1: Machine)
    requires k < |opts.methods|
  {
    var img := Image(env, opts, data, k, e);
    m1.out.pos == |img| <= |m1.out.bytes| && m1.out.bytes[..|img|] == img &&
    m1.res == prior.(extractVersion := ExtractVersion(opts.methods[k]), crc := Crc.CrcOf(env.update, data),
                     unpackSize := |data|, packSize := |img|) &&
    m1.methodId == opts.methods[k] &&
    m1.inst.encoder == e &&
    (opts.aesMode && opts.passwordDefined ==> m1.inst.aesFilter == Some(WzAes(opts.aesKeyMode, k)))
  }

  /** A successful trial leaves its image, record and encoder (`Leaves`), keeps
      the input's contents, and beats the bar exactly when the reference size
      bar says so. */
  lemma TrialEffect(env: Env, opts: Options, seekable: bool, data: seq<Byte>, i: nat, m: Machine)
    requires i < |opts.methods|
    requires seekable || m.inp == Streams.Fresh(data)
    requires m.inp.data == data
    requires opts.passwordDefined ==> seekable
    requires PrePassHonest(env, opts)
    requires Trial(env, opts, seekable, i, m).Done?
    ensures var m1 := Trial(env, opts, seekable, i, m).value;
      var e := NextEncoder(m.inst.encoder, opts.methods[i]);
      Leaves(env, opts, data, i, e, m.res, m1) && m1.inp.data == data &&
      (Accepted(env, opts, m1.res) <==> Passes(env, opts, data, i, e))
  {
    RewindEffect(env, seekable, i, m);
    var m1 := RewindStreams(env, seekable, i, m).value;
    assert m1.inp == Streams.Fresh(data);
    var e := NextEncoder(m.inst.encoder, opts.methods[i]);
    var p := Payload(env, opts, data, i, e);
    Streams.FreshReadCountsAll(env.update, data);
    if opts.passwordDefined {
      CipherEffect(env, opts, data, i, m1);
      var mc := SetUpCipher(env, opts, i, m1).value;
      EncodeEffect(env, opts, data, i, mc.0, Some(mc.1));
      var m2 := Encode(env, opts, i, mc.0, Some(mc.1)).value;
      Streams.WriteExtends(m1.out, env.header(mc.1));
      Streams.WriteExtends(mc.0.out, env.encrypt(mc.1, p));
    } else {
      EncodeEffect(env, opts, data, i, m1, None);
      Streams.WriteExtends(m1.out, p);
    }
  }

  /** Lines 171-211: a trial whose method the switch does not name, run while
      the instance holds no encoder, fails with E_NOTIMPL once its streams are
      rewound and its cipher is set up; nothing is coded and no later trial runs. */
  lemma UnnamedMethodFails(env: Env, opts: Options, seekable: bool, i: nat, n: nat, m: Machine)
    requires i < n <= |opts.methods|
    requires opts.methods[i] != kStored && CodecFor(opts.methods[i]).None? && m.inst.encoder.None?
    requires RewindStreams(env, seekable, i, m).Done?
    requires opts.passwordDefined ==> SetUpCipher(env, opts, i, RewindStreams(env, seekable, i, m).value).Done?
    ensures Trial(env, opts, seekable, i, m).Abort? && Trial(env, opts, seekable, i, m).code == E_NOTIMPL
    ensures Trials(env, opts, seekable, i, n, m) == Trial(env, opts, seekable, i, m)
  {
    RewindEffect(env, seekable, i, m);
  }

  /** `after` continues `before`, and every event it adds belongs to a trial in `lo..hi-1`. */
  predicate GrowsIn(before: seq<Event>, after: seq<Event>, lo: nat, hi: nat) {
    |before| <= |after| && after[..|before|] == before &&
    forall k :: |before| <= k < |after| ==> after[k].InTrial? && lo <= after[k].trial < hi
  }

  lemma GrowsInChain(a: seq<Event>, b: seq<Event>, c: seq<Event>, lo: nat, hi: nat)
    requires lo < hi
    requires Grows(a, b, lo) && GrowsIn(b, c, lo + 1, hi)
    ensures GrowsIn(a, c, lo, hi)
  {
    assert c[..|a|] == c[..|b|][..|a|];
    forall k | |a| <= k < |c|
      ensures c[k].InTrial? && lo <= c[k].trial < hi
    {
      if k < |b| {
        assert c[k] == c[..|b|][k];
      }
    }
  }

  /** Events of one trial are events of a range of trials that contains it. */
  lemma GrowsWithin(a: seq<Event>, b: seq<Event>, i: nat, n: nat)
    requires i < n && Grows(a, b, i)
    ensures GrowsIn(a, b, i, n)
  {
  }

  /** One step of the loop's trace: trial `i` grows the log, and either ends the
      loop or hands over to later trials that only log their own events. */
  lemma TraceStep(a: seq<Event>, r1: Exec<Machine>, next: bool, rest: seq<Event>, whole: seq<Event>, i: nat, n: nat)
    requires i < n
    requires Grows(a, Trace(r1), i) && |Trace(r1)| > |a|
    requires whole == if next then rest else Trace(r1)
    requires next ==> r1.Done? && GrowsIn(r1.value.log, rest, i + 1, n) && |rest| >= |r1.value.log|
    ensures GrowsIn(a, whole, i, n) && |whole| > |a|
  {
    if next {
      GrowsInChain(a, r1.value.log, rest, i, n);
    } else {
      GrowsWithin(a, Trace(r1), i, n);
    }
  }

  /** For any trial step that logs something and only events of its own, the
      loop, however it ends, only logs events of the trials it may run, and
      logs something as soon as it runs one. */
  lemma {:induction false} LoopTrace(trial: (nat, Machine) --> Exec<Machine>, accepted: Machine -> bool,
                                     i: nat, n: nat, m: Machine)
    requires i <= n
    requires forall j: nat, x: Machine :: i <= j < n ==> trial.requires(j, x)
    requires forall j: nat, x: Machine :: i <= j < n ==> Grows(x.log, Trace(trial(j, x)), j) && |Trace(trial(j, x))| > |x.log|
    ensures GrowsIn(m.log, Trace(Loop(trial, accepted, i, n, m)), i, n)
    ensures i < n ==> |Trace(Loop(trial, accepted, i, n, m))| > |m.log|
    decreases n - i
  {
    if i < n {
      var r1 := trial(i, m);
      if r1.Done? && !accepted(r1.value) {
        LoopTrace(trial, accepted, i + 1, n, r1.value);
        TraceStep(m.log, r1, true, Trace(Loop(trial, accepted, i + 1, n, r1.value)),
          Trace(Loop(trial, accepted, i, n, m)), i, n);
      } else {
        TraceStep(m.log, r1, false, [], Trace(Loop(trial, accepted, i, n, m)), i, n);
      }
    }
  }

  /** The loop, however it ends, only logs events of the trials it may run, and
      logs something as soon as it runs one. */
  lemma TrialsTrace(env: Env, opts: Options, seekable: bool, i: nat, n: nat, m: Machine)
    requires i <= n <= |opts.methods|
    ensures GrowsIn(m.log, Trace(Trials(env, opts, seekable, i, n, m)), i, n)
    ensures i < n ==> |Trace(Trials(env, opts, seekable, i, n, m))| > |m.log|
  {
    forall j: nat, x: Machine | i <= j < n
      ensures Grows(x.log, Trace(TrialStep(env, opts, seekable)(j, x)), j)
      ensures |Trace(TrialStep(env, opts, seekable)(j, x))| > |x.log|
    {
      TrialTrace(env, opts, seekable, j, x);
    }
    LoopTrace(TrialStep(env, opts, seekable), Acceptance(env, opts), i, n, m);
  }

  lemma TrialsUnfold(env: Env, opts: Options, seekable: bool, i: nat, n: nat, m: Machine)
    requires i < n <= |opts.methods|
    requires Trial(env, opts, seekable, i, m).Done?
    ensures var m1 := Trial(env, opts, seekable, i, m).value;
      Trials(env, opts, seekable, i, n, m) ==
        if Accepted(env, opts, m1.res) then Done(m1) else Trials(env, opts, seekable, i + 1, n, m1)
  {
  }

  /** The loop settles on trial `k` of the first-fit choice: the output, record
      and encoder are those `k` leaves, and only trials `i..k` logged anything. */
  ghost predicate Settled(env: Env, opts: Options, data: seq<Byte>, i: nat, n: nat, m: Machine, m1: Machine)
    requires i < n <= |opts.methods|
  {
    var k := Chosen(env, opts, data, m.inst.encoder, i, n);
    Leaves(env, opts, data, k, EncoderAt(m.inst.encoder, opts.methods, i, k), m.res, m1) &&
    GrowsIn(m.log, m1.log, i, k + 1)
  }

  /** The loop ends at trial `i` (it beat the bar, or was the last allowed). */
  lemma SettleHere(env: Env, opts: Options, data: seq<Byte>, i: nat, n: nat, m: Machine, m1: Machine)
    requires i < n <= |opts.methods|
    requires var e := NextEncoder(m.inst.encoder, opts.methods[i]);
      Leaves(env, opts, data, i, e, m.res, m1) && (Passes(env, opts, data, i, e) || i + 1 == n)
    requires Grows(m.log, m1.log, i)
    ensures Settled(env, opts, data, i, n, m, m1)
  {
    EncoderAtShift(m.inst.encoder, opts.methods, i, n);
  }

  /** Trial `i` missed the bar and the rest of the loop settled on a later trial:
      so does the loop from `i`, whose record the later trial overwrites. */
  lemma SettleLater(env: Env, opts: Options, data: seq<Byte>, i: nat, n: nat, m: Machine, m1: Machine, m2: Machine)
    requires i + 1 < n <= |opts.methods|
    requires var e := NextEncoder(m.inst.encoder, opts.methods[i]);
      Leaves(env, opts, data, i, e, m.res, m1) && !Passes(env, opts, data, i, e)
    requires Grows(m.log, m1.log, i)
    requires Settled(env, opts, data, i + 1, n, m1, m2)
    ensures Settled(env, opts, data, i, n, m, m2)
  {
    EncoderAtShift(m.inst.encoder, opts.methods, i, n);
    var k := Chosen(env, opts, data, m.inst.encoder, i, n);
    GrowsInChain(m.log, m1.log, m2.log, i, k + 1);
  }

  /** A successful loop from trial `i` stops at the chosen trial `k`: the first
      whose image beats the bar, or the last allowed. The output holds exactly
      that trial's image before its position, the results are that trial's alone,
      the encoder is the one the instance holds after trials `i..k`, and no event
      of a trial after `k` was logged. */
  lemma {:induction false} TrialsEffect(env: Env, opts: Options, seekable: bool, data: seq<Byte>, i: nat, n: nat, m: Machine)
    requires i < n <= |opts.methods|
    requires seekable || (m.inp == Streams.Fresh(data) && n == i + 1)
    requires m.inp.data == data
    requires opts.passwordDefined ==> seekable
    requires PrePassHonest(env, opts)
    requires Trials(env, opts, seekable, i, n, m).Done?
    ensures Settled(env, opts, data, i, n, m, Trials(env, opts, seekable, i, n, m).value)
    decreases n - i, 1
  {
    var r1 := Trial(env, opts, seekable, i, m);
    assert r1.Done?;
    if Accepted(env, opts, r1.value.res) || i + 1 == n {
      TrialsEffectHere(env, opts, seekable, data, i, n, m);
    } else {
      TrialsEffectLater(env, opts, seekable, data, i, n, m);
    }
  }

  /** The loop from `i` stops at trial `i`. */
  lemma TrialsEffectHere(env: Env, opts: Options, seekable: bool, data: seq<Byte>, i: nat, n: nat, m: Machine)
    requires i < n <= |opts.methods|
    requires seekable || (m.inp == Streams.Fresh(data) && n == i + 1)
    requires m.inp.data == data
    requires opts.passwordDefined ==> seekable
    requires PrePassHonest(env, opts)
    requires var r1 := Trial(env, opts, seekable, i, m);
      r1.Done? && (Accepted(env, opts, r1.value.res) || i + 1 == n)
    ensures Trials(env, opts, seekable, i, n, m).Done?
    ensures Settled(env, opts, data, i, n, m, Trials(env, opts, seekable, i, n, m).value)
  {
    TrialsUnfold(env, opts, seekable, i, n, m);
    TrialEffect(env, opts, seekable, data, i, m);
    TrialTrace(env, opts, seekable, i, m);
    SettleHere(env, opts, data, i, n, m, Trial(env, opts, seekable, i, m).value);
  }

  /** Trial `i` misses the bar and the loop carries on to a later trial. */
  lemma {:induction false} TrialsEffectLater(env: Env, opts: Options, seekable: bool, data: seq<Byte>, i: nat, n: nat, m: Machine)
    requires i + 1 < n <= |opts.methods|
    requires seekable
    requires m.inp.data == data
    requires PrePassHonest(env, opts)
    requires var r1 := Trial(env, opts, seekable, i, m); r1.Done? && !Accepted(env, opts, r1.value.res)
    requires Trials(env, opts, seekable, i, n, m).Done?
    ensures Settled(env, opts, data, i, n, m, Trials(env, opts, seekable, i, n, m).value)
    decreases n - i, 0
  {
    TrialsUnfold(env, opts, seekable, i, n, m);
    TrialEffect(env, opts, seekable, data, i, m);
    TrialTrace(env, opts, seekable, i, m);
    var m1 := Trial(env, opts, seekable, i, m).value;
    TrialsEffect(env, opts, seekable, data, i + 1, n, m1);
    SettleLater(env, opts, data, i, n, m, m1, Trials(env, opts, seekable, i + 1, n, m1).value);
  }

  /** `after` continues `before` with at least one event, none of them in a trial. */
  predicate GrowsAfterLoop(before: seq<Event>, after: seq<Event>) {
    |before| < |after| && after[..|before|] == before &&
    forall k :: |before| <= k < |after| ==> after[k].AfterLoop?
  }

  /** After the loop: in AES mode the footer goes right after the position the
      last trial reached and the packed size is read again; the method of the
      last trial is recorded; the output is cut to the packed size. */
  lemma FinishEffect(env: Env, opts: Options, m: Machine)
    requires opts.aesMode ==> m.inst.aesFilter.Some?
    ensures GrowsAfterLoop(m.log, Trace(Finish(env, opts, m)))
    ensures var r := Finish(env, opts, m);
      r.Done? ==>
        r.value.inst == m.inst &&
        r.value.res == (if opts.aesMode then m.res.(packSize := m.out.pos + |env.footer(m.inst.aesFilter.value)|) else m.res)
                         .(methodId := m.methodId) &&
        (opts.aesMode && m.out.pos <= |m.out.bytes| ==>
           r.value.out.bytes == m.out.bytes[..m.out.pos] + env.footer(m.inst.aesFilter.value)) &&
        (!opts.aesMode ==> r.value.out == Streams.SetSize(m.out, m.res.packSize))
  {
    var r := Finish(env, opts, m);
    var m1: Machine;
    if opts.aesMode {
      var f := env.footer(m.inst.aesFilter.value);
      var log1 := m.log + [AfterLoop(FooterWritten(f))];
      assert log1[..|m.log|] == m.log;
      var r1 := AppendFooter(env, m);
      if r1.Abort? {
        return;
      }
      m1 := r1.value;
      assert m1.log == log1 + [AfterLoop(PositionRead)];
      assert m1.log[..|m.log|] == m.log;
      if m.out.pos <= |m.out.bytes| {
        Streams.WriteExtends(m.out, f);
      }
    } else {
      m1 := m;
    }
    var m2 := m1.(res := m1.res.(methodId := m1.methodId));
    var log := m2.log + [AfterLoop(Truncated(m2.res.packSize))];
    assert log[..|m.log|] == m.log by {
      assert log[..|m2.log|] == m2.log;
    }
  }

  /** Trace of a whole call, stated once for the lemmas below. */
  lemma CompressTrace(env: Env, opts: Options, inst: Instance, probe: Probe,
                      data: seq<Byte>, out: Streams.Sink, prior: Outcome)
    requires ValidOptions(opts) && FooterReady(opts, inst, probe)
    requires probe.hr == S_OK
    requires NumTestMethods(opts, probe.seekable).Some?
    ensures var n := NumTestMethods(opts, probe.seekable).value;
      var t := Trace(Compress(env, opts, inst, probe, data, out, prior));
      |t| > 0 && forall k :: 0 <= k < |t| && t[k].InTrial? ==> t[k].trial < n
  {
    var n := NumTestMethods(opts, probe.seekable).value;
    var m0 := Machine(out, Streams.Fresh(data), inst, prior, 0, []);
    TrialsTrace(env, opts, probe.seekable, 0, n, m0);
    var r1 := Trials(env, opts, probe.seekable, 0, n, m0);
    if r1.Done? {
      FinishEffect(env, opts, r1.value);
      var t := Trace(Finish(env, opts, r1.value));
      forall k | 0 <= k < |t| && t[k].InTrial?
        ensures t[k].trial < n
      {
        assert k < |r1.value.log|;
        assert t[k] == t[..|r1.value.log|][k];
      }
    }
  }

  /** Lines 103-112: with a usable input probe, the call is refused with
      E_NOTIMPL before any seek, write or coder call exactly when the input is
      not seekable and a password is set; IsAesMode plays no part. */
  lemma RejectedIff(env: Env, opts: Options, inst: Instance, probe: Probe,
                    data: seq<Byte>, out: Streams.Sink, prior: Outcome)
    requires ValidOptions(opts) && FooterReady(opts, inst, probe)
    requires probe.hr == S_OK
    ensures Compress(env, opts, inst, probe, data, out, prior) == Abort(E_NOTIMPL, [])
        <==> !probe.seekable && opts.passwordDefined
  {
    if probe.seekable || !opts.passwordDefined {
      CompressTrace(env, opts, inst, probe, data, out, prior);
    }
  }

  /** Line 86: a failing interface probe is returned at once, before anything else. */
  lemma ProbeFailureReturned(env: Env, opts: Options, inst: Instance, probe: Probe,
                             data: seq<Byte>, out: Streams.Sink, prior: Outcome)
    requires ValidOptions(opts) && FooterReady(opts, inst, probe)
    ensures probe.hr != S_OK <==> Compress(env, opts, inst, probe, data, out, prior) == Abort(probe.hr, [])
  {
    if probe.hr == S_OK {
      if !probe.seekable && opts.passwordDefined {
      } else {
        CompressTrace(env, opts, inst, probe, data, out, prior);
      }
    }
  }

  /** Lines 103-115: only configured methods are tried, and with an input that
      cannot seek only the first one, whatever the run's outcome. */
  lemma TrialsWithinBudget(env: Env, opts: Options, inst: Instance, probe: Probe,
                           data: seq<Byte>, out: Streams.Sink, prior: Outcome)
    requires ValidOptions(opts) && FooterReady(opts, inst, probe)
    ensures var t := Trace(Compress(env, opts, inst, probe, data, out, prior));
      forall k :: 0 <= k < |t| && t[k].InTrial? ==>
        t[k].trial < |opts.methods| && (!probe.seekable ==> t[k].trial == 0)
  {
    if probe.hr == S_OK && NumTestMethods(opts, probe.seekable).Some? {
      CompressTrace(env, opts, inst, probe, data, out, prior);
    }
  }

  /** A successful loop that runs a trial ends on one of the methods it may try. */
  lemma TrialsRecordMethod(env: Env, opts: Options, seekable: bool, i: nat, n: nat, m: Machine)
    requires i < n <= |opts.methods|
    requires Trials(env, opts, seekable, i, n, m).Done?
    ensures Trials(env, opts, seekable, i, n, m).value.methodId in opts.methods[i..n]
  {
    var q := (x: Machine) => x.methodId in opts.methods[i..n];
    forall j: nat, x: Machine | i <= j < n && TrialStep(env, opts, seekable)(j, x).Done?
      ensures q(TrialStep(env, opts, seekable)(j, x).value)
    {
      assert opts.methods[i..n][j - i] == opts.methods[j];
    }
    LoopEstablishes(TrialStep(env, opts, seekable), Acceptance(env, opts), q, i, n, m);
  }

  /** Line 305: the method recorded by a successful call that tried something is
      one of the configured methods, whatever the collaborators do. */
  lemma RecordedMethodConfigured(env: Env, opts: Options, inst: Instance, probe: Probe,
                                 data: seq<Byte>, out: Streams.Sink, prior: Outcome)
    requires ValidOptions(opts) && FooterReady(opts, inst, probe)
    requires |opts.methods| > 0
    requires Compress(env, opts, inst, probe, data, out, prior).Done?
    ensures Compress(env, opts, inst, probe, data, out, prior).value.res.methodId in opts.methods
  {
    var n := NumTestMethods(opts, probe.seekable).value;
    var m0 := Machine(out, Streams.Fresh(data), inst, prior, 0, []);
    TrialsRecordMethod(env, opts, probe.seekable, 0, n, m0);
    assert opts.methods[0..n] <= opts.methods;
  }

  /** How many trials a call may run: every method when the input can seek,
      otherwise at most the first one. */
  function Allowed(opts: Options, seekable: bool): nat {
    if seekable then |opts.methods| else if |opts.methods| == 0 then 0 else 1
  }

  /** The AES footer a run appends after trial `k`, if it is in AES mode. */
  function FooterOf(env: Env, opts: Options, k: nat): seq<Byte> {
    if opts.aesMode then env.footer(WzAes(opts.aesKeyMode, k)) else []
  }

  /** The whole of a successful call (lines 77-307). The recorded method,
      version, CRC and unpacked size are those of the chosen trial `k` (the first
      that beats the bar, else the last allowed); the output is exactly that
      trial's image plus the AES footer, whatever earlier trials wrote, and the
      packed size is its length; the CRC is the whole input's; no trial after `k`
      was started. With no method configured, the method id 0 is recorded.
      Without AES the output is then cut to the caller's packed size; in AES
      mode the footer of the filter an earlier call left on the instance goes at
      the caller's output position, and the packed size is read after it. */
  lemma CompressOutcome(env: Env, opts: Options, inst: Instance, probe: Probe,
                        data: seq<Byte>, out: Streams.Sink, prior: Outcome)
    requires ValidOptions(opts) && FooterReady(opts, inst, probe)
    requires PrePassHonest(env, opts)
    requires Compress(env, opts, inst, probe, data, out, prior).Done?
    ensures var m := Compress(env, opts, inst, probe, data, out, prior).value;
      var n := Allowed(opts, probe.seekable);
      (n == 0 && !opts.aesMode ==> m.res == prior.(methodId := 0) && m.out == Streams.SetSize(out, prior.packSize)) &&
      (n == 0 && opts.aesMode ==>
        var f := env.footer(inst.aesFilter.value);
        m.res == prior.(methodId := 0, packSize := out.pos + |f|) &&
        (out.pos <= |out.bytes| ==> m.out.bytes == out.bytes[..out.pos] + f)) &&
      (n > 0 ==>
        var k := Chosen(env, opts, data, inst.encoder, 0, n);
        var img := Image(env, opts, data, k, EncoderAt(inst.encoder, opts.methods, 0, k));
        var bytes := img + FooterOf(env, opts, k);
        m.out.bytes == bytes &&
        m.res == Outcome(opts.methods[k], ExtractVersion(opts.methods[k]), Crc.CrcOf(env.update, data), |data|, |bytes|) &&
        m.inst.encoder == EncoderAt(inst.encoder, opts.methods, 0, k) &&
        forall q :: 0 <= q < |m.log| && m.log[q].InTrial? ==> m.log[q].trial <= k)
  {
    var n := NumTestMethods(opts, probe.seekable).value;
    assert n == Allowed(opts, probe.seekable);
    var m0 := Machine(out, Streams.Fresh(data), inst, prior, 0, []);
    var m1 := Trials(env, opts, probe.seekable, 0, n, m0).value;
    FinishEffect(env, opts, m1);
    var m := Finish(env, opts, m1).value;
    if n > 0 {
      TrialsEffect(env, opts, probe.seekable, data, 0, n, m0);
      var k := Chosen(env, opts, data, inst.encoder, 0, n);
      forall q | 0 <= q < |m.log| && m.log[q].InTrial?
        ensures m.log[q].trial <= k
      {
        assert q < |m1.log|;
        assert m.log[q] == m.log[..|m1.log|][q];
      }
    }
  }

  /** Line 297-298 and 115: a trial that beats the bar ends the search, even if a
      later method would have produced a smaller output: that later method is
      never started, and the first trial's method is the one recorded. */
  lemma FirstFitNotBestOf(env: Env, opts: Options, inst: Instance, probe: Probe,
                          data: seq<Byte>, out: Streams.Sink, prior: Outcome)
    requires ValidOptions(opts) && FooterReady(opts, inst, probe)
    requires PrePassHonest(env, opts)
    requires |opts.methods| > 0
    requires Passes(env, opts, data, 0, NextEncoder(inst.encoder, opts.methods[0]))
    requires Compress(env, opts, inst, probe, data, out, prior).Done?
    ensures var m := Compress(env, opts, inst, probe, data, out, prior).value;
      m.res.methodId == opts.methods[0] &&
      forall q :: 0 <= q < |m.log| && m.log[q].InTrial? ==> m.log[q].trial == 0
  {
    CompressOutcome(env, opts, inst, probe, data, out, prior);
    EncoderAtShift(inst.encoder, opts.methods, 0, Allowed(opts, probe.seekable));
  }

  /** When no allowed trial beats the bar, the last allowed trial's result stands
      in full: its method, version and image; never a mix of trials. */
  lemma LastTrialStands(env: Env, opts: Options, inst: Instance, probe: Probe,
                        data: seq<Byte>, out: Streams.Sink, prior: Outcome)
    requires ValidOptions(opts) && FooterReady(opts, inst, probe)
    requires PrePassHonest(env, opts)
    requires Allowed(opts, probe.seekable) > 0
    requires forall j :: 0 <= j < Allowed(opts, probe.seekable) ==>
      !Passes(env, opts, data, j, EncoderAt(inst.encoder, opts.methods, 0, j))
    requires Compress(env, opts, inst, probe, data, out, prior).Done?
    ensures var m := Compress(env, opts, inst, probe, data, out, prior).value;
      var k := Allowed(opts, probe.seekable) - 1;
      var img := Image(env, opts, data, k, EncoderAt(inst.encoder, opts.methods, 0, k));
      m.res.methodId == opts.methods[k] &&
      m.res.extractVersion == ExtractVersion(opts.methods[k]) &&
      m.out.bytes == img + FooterOf(env, opts, k)
  {
    CompressOutcome(env, opts, inst, probe, data, out, prior);
  }

  /** Storing without a password: the output is the input itself, byte for byte,
      with the input's length as packed and unpacked size and its CRC. */
  lemma StoreCopiesInput(env: Env, opts: Options, inst: Instance, probe: Probe,
                         data: seq<Byte>, out: Streams.Sink, prior: Outcome)
    requires opts.methods == [kStored] && !opts.passwordDefined && !opts.aesMode
    requires Compress(env, opts, inst, probe, data, out, prior).Done?
    ensures var m := Compress(env, opts, inst, probe, data, out, prior).value;
      m.out.bytes == data &&
      m.res == Outcome(kStored, kStoreExtractVersion, Crc.CrcOf(env.update, data), |data|, |data|)
  {
    CompressOutcome(env, opts, inst, probe, data, out, prior);
  }

  /** The tail of a ZipCrypto set-up: pre-pass, rewind, CRC, header, attach. */
  function ZipCryptoKeying(i: nat, crc: bv32, header: seq<Byte>): seq<Event> {
    [InTrial(i, PrePass), InTrial(i, InputRewound), InTrial(i, CrcSet(crc)),
     InTrial(i, HeaderWritten(header)), InTrial(i, SinkAttached)]
  }

  /** No event of `s` runs a coder. */
  predicate Uncoded(s: seq<Event>) {
    forall q :: 0 <= q < |s| ==> !s[q].act.Coded?
  }

  /** The seeks of a rewind. */
  function RewindEvents(i: nat, seekable: bool): seq<Event> {
    (if seekable then [InTrial(i, InputRewound)] else []) + [InTrial(i, OutputRewound)]
  }

  /** What a ZipCrypto set-up logs before its keying events. */
  function CipherEvents(i: nat, filterCoder: bool): seq<Event> {
    (if filterCoder then [] else [InTrial(i, FilterCoderCreated)]) +
    [InTrial(i, CipherCreated(false)), InTrial(i, PasswordSet)]
  }

  /** A successful rewind adds its one or two seek events and nothing else. */
  lemma RewindLog(env: Env, seekable: bool, i: nat, m: Machine)
    requires RewindStreams(env, seekable, i, m).Done?
    ensures RewindStreams(env, seekable, i, m).value.log == m.log + RewindEvents(i, seekable)
  {
  }

  /** A successful ZipCrypto set-up: filter coder (once), cipher, password, then
      the keying events, keyed with the CRC of the pre-pass. */
  lemma CipherKeyingLast(env: Env, opts: Options, i: nat, m: Machine)
    requires opts.passwordDefined && !opts.aesMode
    requires SetUpCipher(env, opts, i, m).Done?
    ensures var (m1, c) := SetUpCipher(env, opts, i, m).value;
      RawCrcPass(env, i, m.inp).Ok? &&
      c == ZipCrypto(Crc.CrcOf(env.update, RawCrcPass(env, i, m.inp).value), i) &&
      m1.log == m.log + CipherEvents(i, m.inst.filterCoder) + ZipCryptoKeying(i, c.crc, env.header(c))
  {
  }

  /** What a ZipCrypto trial logs between its start and its keying events. */
  function Prelude(i: nat, seekable: bool, filterCoder: bool): seq<Event> {
    RewindEvents(i, seekable) + CipherEvents(i, filterCoder)
  }

  lemma PreludeUncoded(i: nat, seekable: bool, filterCoder: bool)
    ensures Uncoded(Prelude(i, seekable, filterCoder))
  {
    var s := Prelude(i, seekable, filterCoder);
    forall q | 0 <= q < |s|
      ensures !s[q].act.Coded?
    {
      assert s[q] in s;
    }
  }

  /** The log `L` of a trial that began after `from` events: its last event but
      one runs the coder, no other event of the trial does, and the ZipCrypto
      keying events with `crc` and `header` come before it. */
  ghost predicate KeyedThenCodedLog(L: seq<Event>, from: nat, i: nat, crc: bv32, header: seq<Byte>) {
    |L| >= from + 7 &&
    L[|L| - 2].InTrial? && L[|L| - 2].act.Coded? && !L[|L| - 1].act.Coded? &&
    (forall q :: from <= q < |L| - 2 ==> !L[q].act.Coded?) &&
    exists p :: from <= p <= |L| - 7 && KeyedAt(L, p, i, crc, header)
  }

  lemma KeyedThenCoded(base: seq<Event>, pre: seq<Event>, i: nat, crc: bv32, header: seq<Byte>,
                       lc: seq<Event>, L2: seq<Event>, tail: Event)
    requires Uncoded(pre)
    requires lc == base + pre + ZipCryptoKeying(i, crc, header)
    requires CodesLast(L2, |lc|) && L2[..|lc|] == lc
    requires !tail.act.Coded?
    ensures KeyedThenCodedLog(L2 + [tail], |base|, i, crc, header)
  {
    var K := ZipCryptoKeying(i, crc, header);
    var L := L2 + [tail];
    var p := |base| + |pre|;
    assert L[..|lc|] == lc by {
      assert L[..|L2|] == L2;
    }
    assert L[p..p + 5] == lc[p..] == K;
    assert KeyedAt(L, p, i, crc, header);
    forall q | |base| <= q < |L| - 2
      ensures !L[q].act.Coded?
    {
      if q < p {
        assert L[q] == lc[q] == pre[q - |base|];
      } else if q < |lc| {
        assert L[q] == lc[q] == K[q - p];
      } else {
        assert L[q] == L2[q];
      }
    }
  }

  /** After position `from`, `log` runs a coder exactly once, as its last event. */
  predicate CodesLast(log: seq<Event>, from: nat) {
    |log| > from && log[|log| - 1].InTrial? && log[|log| - 1].act.Coded? &&
    forall q :: from <= q < |log| - 1 ==> !log[q].act.Coded?
  }

  /** What a successful Stored coder stage logs: the copy coder's creation on
      first use, then the copy. */
  lemma StoreLog(env: Env, opts: Options, i: nat, m: Machine, cipher: Option<Cipher>)
    requires i < |opts.methods| && opts.methods[i] == kStored
    requires Encode(env, opts, i, m, cipher).Done?
    ensures var m1 := Encode(env, opts, i, m, cipher).value;
      m1.inst.encoder == m.inst.encoder &&
      m1.log == m.log + (if m.inst.copyCoder then [] else [InTrial(i, CopyCoderCreated)]) + [InTrial(i, Coded(Copy))]
  {
  }

  /** A coder stage with an encoder already held logs only the coding. */
  lemma ReuseLog(env: Env, opts: Options, i: nat, m: Machine, cipher: Option<Cipher>)
    requires i < |opts.methods| && opts.methods[i] != kStored && m.inst.encoder.Some?
    requires Encode(env, opts, i, m, cipher).Done?
    ensures var m1 := Encode(env, opts, i, m, cipher).value;
      m1.inst.encoder == m.inst.encoder &&
      m1.log == m.log + [InTrial(i, Coded(Built(m.inst.encoder.value)))]
  {
  }

  /** A coder stage without an encoder builds it, tunes it if it can be tuned,
      then codes with it. */
  lemma FirstBuildLog(env: Env, opts: Options, i: nat, m: Machine, cipher: Option<Cipher>)
    requires i < |opts.methods| && opts.methods[i] != kStored && m.inst.encoder.None?
    requires Encode(env, opts, i, m, cipher).Done?
    ensures CodecFor(opts.methods[i]).Some?
    ensures var m1 := Encode(env, opts, i, m, cipher).value;
      var codec := CodecFor(opts.methods[i]).value;
      m1.inst.encoder == Some(codec) &&
      m1.log == m.log + [InTrial(i, EncoderCreated(codec))] +
        (if env.settable(codec) then [InTrial(i, PropsSet(CoderProps(opts, codec)))] else []) +
        [InTrial(i, Coded(Built(codec)))]
  {
    var id := opts.methods[i];
    assert BuildEncoder(env, opts, i, m.(methodId := id), id).Done?;
  }

  /** Appending uncoded events and then one coding event. */
  lemma CodesLastAppend(base: seq<Event>, mid: seq<Event>, last: Event)
    requires forall x :: x in mid ==> !x.act.Coded?
    requires last.InTrial? && last.act.Coded?
    ensures CodesLast(base + mid + [last], |base|)
  {
    var L := base + mid + [last];
    forall q | |base| <= q < |L| - 1
      ensures !L[q].act.Coded?
    {
      assert L[q] == mid[q - |base|];
      assert mid[q - |base|] in mid;
    }
  }

  lemma StoreCodesLast(env: Env, opts: Options, i: nat, m: Machine, cipher: Option<Cipher>)
    requires i < |opts.methods| && opts.methods[i] == kStored
    requires Encode(env, opts, i, m, cipher).Done?
    ensures CodesLast(Encode(env, opts, i, m, cipher).value.log, |m.log|)
  {
    StoreLog(env, opts, i, m, cipher);
    CodesLastAppend(m.log, if m.inst.copyCoder then [] else [InTrial(i, CopyCoderCreated)], InTrial(i, Coded(Copy)));
  }

  lemma ReuseCodesLast(env: Env, opts: Options, i: nat, m: Machine, cipher: Option<Cipher>)
    requires i < |opts.methods| && opts.methods[i] != kStored && m.inst.encoder.Some?
    requires Encode(env, opts, i, m, cipher).Done?
    ensures CodesLast(Encode(env, opts, i, m, cipher).value.log, |m.log|)
  {
    ReuseLog(env, opts, i, m, cipher);
    CodesLastAppend(m.log, [], InTrial(i, Coded(Built(m.inst.encoder.value))));
    assert m.log + [] == m.log;
  }

  lemma FirstBuildCodesLast(env: Env, opts: Options, i: nat, m: Machine, cipher: Option<Cipher>)
    requires i < |opts.methods| && opts.methods[i] != kStored && m.inst.encoder.None?
    requires Encode(env, opts, i, m, cipher).Done?
    ensures CodesLast(Encode(env, opts, i, m, cipher).value.log, |m.log|)
  {
    FirstBuildLog(env, opts, i, m, cipher);
    var codec := CodecFor(opts.methods[i]).value;
    var mid := [InTrial(i, EncoderCreated(codec))] +
      (if env.settable(codec) then [InTrial(i, PropsSet(CoderProps(opts, codec)))] else []);
    CodesLastAppend(m.log, mid, InTrial(i, Coded(Built(codec))));
    assert m.log + mid == m.log + [InTrial(i, EncoderCreated(codec))] +
      (if env.settable(codec) then [InTrial(i, PropsSet(CoderProps(opts, codec)))] else []);
  }

  /** A successful coder stage ends with the coder run and runs it only there. */
  lemma EncodeCodesLast(env: Env, opts: Options, i: nat, m: Machine, cipher: Option<Cipher>)
    requires i < |opts.methods|
    requires Encode(env, opts, i, m, cipher).Done?
    ensures CodesLast(Encode(env, opts, i, m, cipher).value.log, |m.log|)
  {
    if opts.methods[i] == kStored {
      StoreCodesLast(env, opts, i, m, cipher);
    } else if m.inst.encoder.Some? {
      ReuseCodesLast(env, opts, i, m, cipher);
    } else {
      FirstBuildCodesLast(env, opts, i, m, cipher);
    }
  }

  /** The five ZipCrypto keying events sit at position `p` of `log`. */
  predicate KeyedAt(log: seq<Event>, p: nat, i: nat, crc: bv32, header: seq<Byte>) {
    p + 5 <= |log| && log[p..p + 5] == ZipCryptoKeying(i, crc, header)
  }

  lemma TrialStagesWithPassword(env: Env, opts: Options, seekable: bool, i: nat, m: Machine)
    requires i < |opts.methods| && opts.passwordDefined
    requires Trial(env, opts, seekable, i, m).Done?
    ensures RewindStreams(env, seekable, i, m).Done?
    ensures var m1 := RewindStreams(env, seekable, i, m).value;
      SetUpCipher(env, opts, i, m1).Done? &&
      var mc := SetUpCipher(env, opts, i, m1).value;
      Encode(env, opts, i, mc.0, Some(mc.1)).Done? &&
      Trial(env, opts, seekable, i, m).value.log == Encode(env, opts, i, mc.0, Some(mc.1)).value.log + [InTrial(i, PositionRead)]
  {
  }

  /** The events of a successful ZipCrypto trial up to the end of keying. */
  lemma ZipCryptoSetUpLog(env: Env, opts: Options, seekable: bool, i: nat, m: Machine)
    requires opts.passwordDefined && !opts.aesMode
    requires RewindStreams(env, seekable, i, m).Done?
    requires SetUpCipher(env, opts, i, RewindStreams(env, seekable, i, m).value).Done?
    ensures RawCrcPass(env, i, RewindStreams(env, seekable, i, m).value.inp).Ok?
    ensures var m1 := RewindStreams(env, seekable, i, m).value;
      var mc := SetUpCipher(env, opts, i, m1).value;
      var crc := Crc.CrcOf(env.update, RawCrcPass(env, i, m1.inp).value);
      mc.1 == ZipCrypto(crc, i) &&
      mc.0.log == m.log + Prelude(i, seekable, m1.inst.filterCoder) + ZipCryptoKeying(i, crc, env.header(mc.1))
  {
    RewindLog(env, seekable, i, m);
    var m1 := RewindStreams(env, seekable, i, m).value;
    CipherKeyingLast(env, opts, i, m1);
    var mc := SetUpCipher(env, opts, i, m1).value;
    var r := RewindEvents(i, seekable);
    var c := CipherEvents(i, m1.inst.filterCoder);
    var K := ZipCryptoKeying(i, mc.1.crc, env.header(mc.1));
    assert mc.0.log == m.log + r + c + K;
  }

  /** Lines 137-146 and 272: in ZipCrypto mode a trial reads the raw input
      through for its CRC, rewinds, keys the cipher with that CRC and writes the
      header, all before the coder writes anything; the coder runs once, last
      but for reading the position. */
  lemma ZipCryptoLogOrder(env: Env, opts: Options, seekable: bool, i: nat, m: Machine)
    requires i < |opts.methods|
    requires opts.passwordDefined && !opts.aesMode
    requires Trial(env, opts, seekable, i, m).Done?
    ensures RewindStreams(env, seekable, i, m).Done?
    ensures var m1 := RewindStreams(env, seekable, i, m).value;
      RawCrcPass(env, i, m1.inp).Ok?
    ensures var crc := Crc.CrcOf(env.update, RawCrcPass(env, i, RewindStreams(env, seekable, i, m).value.inp).value);
      KeyedThenCodedLog(Trial(env, opts, seekable, i, m).value.log, |m.log|, i, crc, env.header(ZipCrypto(crc, i)))
  {
    TrialStagesWithPassword(env, opts, seekable, i, m);
    ZipCryptoSetUpLog(env, opts, seekable, i, m);
    var m1 := RewindStreams(env, seekable, i, m).value;
    var mc := SetUpCipher(env, opts, i, m1).value;
    var crc := Crc.CrcOf(env.update, RawCrcPass(env, i, m1.inp).value);
    EncodeCodesLast(env, opts, i, mc.0, Some(mc.1));
    EncodeTrace(env, opts, i, mc.0, Some(mc.1));
    PreludeUncoded(i, seekable, m1.inst.filterCoder);
    KeyedThenCoded(m.log, Prelude(i, seekable, m1.inst.filterCoder), i, crc, env.header(mc.1), mc.0.log,
                   Encode(env, opts, i, mc.0, Some(mc.1)).value.log, InTrial(i, PositionRead));
  }

  /** The ZipCrypto pre-pass and the coder see the same input: the CRC the cipher
      is keyed with (and whose header is written before any coded byte) is the
      CRC recorded for the entry. */
  lemma ZipCryptoKeyedBeforeCoding(env: Env, opts: Options, seekable: bool, data: seq<Byte>, i: nat, m: Machine)
    requires i < |opts.methods|
    requires opts.passwordDefined && !opts.aesMode && seekable
    requires m.inp.data == data
    requires PrePassFaithful(env)
    requires Trial(env, opts, seekable, i, m).Done?
    ensures var m1 := Trial(env, opts, seekable, i, m).value;
      var L := m1.log;
      var crc := Crc.CrcOf(env.update, data);
      m1.res.crc == crc &&
      exists p :: |m.log| <= p <= |L| - 7 && KeyedAt(L, p, i, crc, env.header(ZipCrypto(crc, i))) &&
        forall q :: |m.log| <= q < p + 5 ==> !L[q].act.Coded?
  {
    TrialEffect(env, opts, seekable, data, i, m);
    ZipCryptoLogOrder(env, opts, seekable, i, m);
    RewindEffect(env, seekable, i, m);
    var m1 := RewindStreams(env, seekable, i, m).value;
    assert Streams.Remaining(m1.inp) == data;
  }
}
