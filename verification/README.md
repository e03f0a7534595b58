# Zip add pipeline: the trial-and-select compression driver

This project models `CAddCommon::Compress` in p7zip's Zip archive handler and
its helper `GetStreamCRC`, and proves what the driver promises.

`CAddCommon::Compress` writes one archive entry's data. It does the following:

- It takes the configured method sequence, the password and AES settings, and
  whether the input stream is seekable.
- It decides how many methods it may try, or rejects the configuration with
  `E_NOTIMPL`.
- For each trial it rewinds the streams. With a password it then sets up the
  cipher:
  - WinZip AES writes a header.
  - ZipCrypto first reads the raw input through `GetStreamCRC`, keys the cipher
    with that CRC and writes its header.
- It codes the input with the trial's method:
  - Stored uses the copy coder.
  - Any other method uses the instance's encoder. The encoder is built and tuned
    on first need, then reused.
- It records the packed size, the CRC and the unpacked size.
- It stops at the first trial whose packed size beats the bar: the unpacked
  size, plus the encryption header size when a password is set.
- After the loop it appends the AES footer in AES mode, records the method, and
  cuts the output to the packed size.

## Structure of the model

| file | module | contents |
|---|---|---|
| `types.dfy` | `Types` | bytes, HRESULT codes, `Option`, `Result` |
| `crc.dfy` | `Crc` | the CRC as a left fold of an abstract per-byte update; `GetStreamCrc`, the read loop, as a method with a loop invariant |
| `zip_header.dfy` | `ZipHeader` | method ids, extract versions, the ZipCrypto header size; the method-to-codec switch and the extract-version mapping |
| `streams.dfy` | `Streams` | the seekable output (overwrite from the position, rewind, `SetSize`) and the CRC-counting input wrapper |
| `add_common.dfy` | `AddCommon` | the driver as pure functions over a `Machine` state (streams, instance, result record, event log), stage by stage, following the source's line order. The trial loop is a generic `Loop` over a trial step and a stop test, and `Trials` instantiates it with `Trial` |
| `compress_spec.dfy` | `CompressSpec` | an independent statement of the outcome: the encoder each trial uses, the bytes each trial leaves, the first-fit choice |
| `compress_proofs.dfy` | `CompressProofs` | stage lemmas and the theorems connecting the driver to that statement |
| `encoder_once.dfy` | `EncoderOnce` | the count of encoder builds over a whole call |

Collaborators are fields of an `Env` value:

- codecs (`encode`), ciphers (`header`, `encrypt`, `footer`, `aesHeaderSize`);
- the CRC byte update;
- whether a codec library is available and whether its encoder takes properties;
- `status`, which gives the HRESULT of every `RINOK`-checked call, named by a
  `Site`;
- `prepass`, how the raw input answers the reads of the ZipCrypto pre-pass,
  given the trial and the bytes the stream still holds from the position it
  shares with the CRC wrapper. It fixes the chunking and any read failure.

Every checked call after the seekability probe appends an `Event` to the
log, whether it succeeds or fails. A failing call stops the run with its
code (`Abort(code, log)`), so orderings can be stated for failed runs too.

Some behaviour of the code is worth spelling out:

- **Seekability probe (line 86).** The `RINOK` on `QueryInterface` is modelled
  as a `Probe(hr, seekable)`. Under the usual COM convention a non-seekable
  stream fails there with `E_NOINTERFACE`, and that failure is returned as is
  (`ProbeFailureReturned`). The sequential-stream branch is reached only when
  the query succeeds without yielding a stream.
- **`E_NOTIMPL` (lines 104-109).** A password with a non-seekable input is
  rejected whether or not AES is selected.
- **Codec loading.** The dynamically loaded codec build is modelled. A method id
  the switch does not name leaves the method name empty, the method map cannot
  resolve it, and the call returns `E_NOTIMPL`.
- **Encoder reuse.** The encoder is reused whatever method id later trials
  carry. With the sequence [Deflate, BZip2], the second trial records method
  BZip2 but codes with the Deflate encoder.
- **BZip2 extract version.** BZip2 entries get extract version 20, the Deflate
  value. The ZIP application note asks for 4.6 for BZip2. The model states the
  code's mapping.
- **AES preconditions.** `ValidOptions` requires that AES mode implies a
  password. Without one, no trial creates an AES filter, and line 300 would
  use whatever filter the instance holds, or none.
- **AES footer with no method.** `FooterReady` covers a seekable input in AES
  mode with an empty method sequence. The loop runs no trial, so line 300 uses
  the AES filter an earlier call left on the instance. `Compress` requires that
  such a filter exists; the model then writes that filter's footer.
  A non-seekable input with a password is rejected at line 109 before this
  point, so that case needs nothing.

## Model

| member | source | states |
|---|---|---|
| Crc.GetStreamCrc | 7zip/Archive/Zip/ZipAddCommon.cpp:58-75 | A failing read's HRESULT is returned as is. Otherwise the result is S_OK and the digest of every byte read up to the first empty read, whatever the chunk sizes |
| Crc.FoldAppend | 7zip/Archive/Zip/ZipAddCommon.cpp:64-74 | Feeding two chunks in turn equals feeding their concatenation, so the CRC does not depend on read boundaries |
| Crc.DrainedSplit | 7zip/Archive/Zip/ZipAddCommon.cpp:64-74 | After k good non-empty reads, what the loop will collect is those reads' bytes followed by what the remaining reads give |
| ZipHeader.CodecFor | 7zip/Archive/Zip/ZipAddCommon.cpp:178-207 | Deflate, Deflate64 and BZip2 ids map to their encoder families, and only those ids. Stored and unnamed ids map to no encoder |
| ZipHeader.ExtractVersion | 7zip/Archive/Zip/ZipAddCommon.cpp:153-166 | The store version iff the method is Stored. Every other method, BZip2 included, gets the Deflate version |
| Streams.FreshReadCountsAll | 7zip/Archive/Zip/ZipAddCommon.cpp:280-289 | A wrapper read to the end from a reset has counted the whole input: digest = CRC of the input, size = its length |
| AddCommon.NumTestMethods | 7zip/Archive/Zip/ZipAddCommon.cpp:103-112 | Rejection iff non-seekable with a password. A seekable input may try every method; a non-seekable one at most the first |
| AddCommon.CoderProps | 7zip/Archive/Zip/ZipAddCommon.cpp:216-265 | Each property of the codec's family exactly once, with its option's value. Deflate gets 3 properties, or 2 without match-finder cycles; BZip2 gets dictionary size and passes |
| AddCommon.BuildEncoder | 7zip/Archive/Zip/ZipAddCommon.cpp:171-214 | A successful build is only for a named method and leaves the instance holding that method's encoder. An unnamed method id, or a codec whose library is missing, fails with E_NOTIMPL and nothing logged |
| AddCommon.SetUpCipher | 7zip/Archive/Zip/ZipAddCommon.cpp:120-147 | A successful set-up creates the trial's own cipher and moves the output past its header. In AES mode the cipher is WinZip AES with the configured key mode, it becomes the instance's AES filter, and the input is not moved. ZipCrypto leaves the input wrapper restarted. The encoder, the record and the method are untouched |
| AddCommon.Encode | 7zip/Archive/Zip/ZipAddCommon.cpp:150-275 | Coding records the trial's method and its extract version and reads the input to its end. An encoder the instance held is kept, and a non-store method ends with one. With no encoder held, an unnamed non-store method fails with E_NOTIMPL before anything is logged |
| AddCommon.Trial | 7zip/Archive/Zip/ZipAddCommon.cpp:117-289 | A successful trial records its own method. With a password in AES mode, the instance's AES filter is the one this trial created |
| AddCommon.Trials | 7zip/Archive/Zip/ZipAddCommon.cpp:115-299 | In AES mode with a password, a successful loop that ran a trial, or started with a filter, ends with an AES filter for the footer |
| AddCommon.Finish | 7zip/Archive/Zip/ZipAddCommon.cpp:300-306 | The latest trial's method is recorded and the output's length is the packed size. Without AES the packed size is the last trial's; in AES mode it is the position after the footer. The instance is untouched |
| AddCommon.Compress | 7zip/Archive/Zip/ZipAddCommon.cpp:77-307 | A failing probe is returned with nothing done. A password with a non-seekable input gives E_NOTIMPL with nothing done. A finished call leaves an output exactly as long as the recorded packed size. With no method configured the recorded method is 0 |
| CompressSpec.EncoderNeverReplaced | 7zip/Archive/Zip/ZipAddCommon.cpp:171 | Once the instance holds an encoder, no later trial replaces it, whatever the method ids |
| CompressSpec.EncoderIsFirstCompressing | 7zip/Archive/Zip/ZipAddCommon.cpp:171-214 | Starting without an encoder, the one held is that of the first non-store method |
| EncoderOnce.CallHoldsFirstCompressing | 7zip/Archive/Zip/ZipAddCommon.cpp:171-214 | A finished call on an instance without an encoder leaves it holding the codec of the first compressing method among the trials up to the chosen one |
| CompressSpec.Chosen | 7zip/Archive/Zip/ZipAddCommon.cpp:291-298 | The standing trial is the first to beat the bar, or the last allowed one; no earlier trial beats the bar |
| CompressProofs.RewindEffect | 7zip/Archive/Zip/ZipAddCommon.cpp:117-119 | Each trial moves the output to offset 0 with its contents kept, and restarts the input only when it is seekable |
| CompressProofs.CipherEffect | 7zip/Archive/Zip/ZipAddCommon.cpp:120-147 | Set-up on a rewound input uses the trial's own cipher: AES in AES mode, otherwise ZipCrypto keyed with the CRC of what the raw stream holds from its shared position, which is the whole input. Its header goes at the output position and the input is left at its start |
| CompressProofs.BuildEffect | 7zip/Archive/Zip/ZipAddCommon.cpp:171-265 | Building and tuning the encoder changes nothing but the instance's encoder |
| CompressProofs.EncodeEffect | 7zip/Archive/Zip/ZipAddCommon.cpp:150-275 | Coding writes the sealed payload at the output position and consumes the whole input. It sets the extract version and the method. The instance then holds the encoder it had, or, if it had none, the one for a non-store method |
| CompressProofs.TrialEffect | 7zip/Archive/Zip/ZipAddCommon.cpp:117-298 | A trial leaves its image at the front of the output and records its size, the input CRC and the input length. Accepting equals the reference size bar |
| CompressProofs.TrialsEffect | 7zip/Archive/Zip/ZipAddCommon.cpp:115-299 | The loop's result is the chosen trial's image, record, method and encoder; no trial after it runs |
| CompressProofs.FinishEffect | 7zip/Archive/Zip/ZipAddCommon.cpp:300-306 | In AES mode the footer follows the last trial's bytes and the packed size is re-read. The method is recorded and the output is cut to the packed size |
| CompressProofs.RejectedIff | 7zip/Archive/Zip/ZipAddCommon.cpp:103-112 | E_NOTIMPL before any seek or write iff the input is not seekable and a password is set, AES or not |
| CompressProofs.ProbeFailureReturned | 7zip/Archive/Zip/ZipAddCommon.cpp:84-86 | A failing seekability probe is returned as is, with nothing done |
| CompressProofs.TrialsWithinBudget | 7zip/Archive/Zip/ZipAddCommon.cpp:103-115 | Every trial index is within the method sequence, and only trial 0 runs on a non-seekable input |
| CompressProofs.CompressOutcome | 7zip/Archive/Zip/ZipAddCommon.cpp:77-307 | The output is exactly the chosen trial's image plus the footer. The record holds that trial's method and version, the input CRC and length, and the output length. No later trial starts. With no method, the record gets method 0, and in AES mode the earlier filter's footer goes at the caller's position |
| CompressProofs.FirstFitNotBestOf | 7zip/Archive/Zip/ZipAddCommon.cpp:297-298 | When the first method beats the bar, it is recorded and no other method runs, however small its output would be |
| CompressProofs.LastTrialStands | 7zip/Archive/Zip/ZipAddCommon.cpp:280-305 | When no trial beats the bar, the last allowed trial's method, version and bytes stand in full |
| CompressProofs.StoreCopiesInput | 7zip/Archive/Zip/ZipAddCommon.cpp:153-167 | Storing without a password outputs the input byte for byte, with its length as both sizes |
| CompressProofs.ZipCryptoLogOrder | 7zip/Archive/Zip/ZipAddCommon.cpp:137-146 | A ZipCrypto trial runs the pre-pass, rewinds the wrapper, sets the CRC, writes the header and attaches the sink, in that order, before coding. The coder runs exactly once in the trial, as its last event but one |
| CompressProofs.ZipCryptoKeyedBeforeCoding | 7zip/Archive/Zip/ZipAddCommon.cpp:117-146 | Because line 118 rewinds the input before the pre-pass reads it, the CRC the cipher is keyed with is the CRC of the whole input. It is set before any coding and is the CRC recorded for the entry |
| CompressProofs.UnnamedMethodFails | 7zip/Archive/Zip/ZipAddCommon.cpp:171-211 | A trial whose method the switch does not name, with no encoder held, fails with E_NOTIMPL once its rewind and cipher set-up succeed, and the loop returns that failure |
| CompressProofs.TrialsRecordMethod | 7zip/Archive/Zip/ZipAddCommon.cpp:115-299 | A successful loop from trial i to n ends on the method of one of those trials |
| CompressProofs.RecordedMethodConfigured | 7zip/Archive/Zip/ZipAddCommon.cpp:115-305 | A finished call with a non-empty method sequence records one of the configured methods, whatever the collaborators do |
| EncoderOnce.EncodeBuilds | 7zip/Archive/Zip/ZipAddCommon.cpp:169-214 | The coder stage builds the encoder exactly when the instance has none and the method is not Stored |
| EncoderOnce.TrialsBuildOnce | 7zip/Archive/Zip/ZipAddCommon.cpp:115-299 | Over the loop the encoder is built at most once, and only when the instance started without one |
| EncoderOnce.LoopBuildOnce | 7zip/Archive/Zip/ZipAddCommon.cpp:115-299 | For any trial step that builds at most once, and only when no encoder is held, the whole loop builds at most once, and only when none was held |
| AddCommon.LoopEstablishes | 7zip/Archive/Zip/ZipAddCommon.cpp:115-299 | A property every successful trial leaves holds after a successful loop that ran a trial or started with it |
| CompressProofs.LoopTrace | 7zip/Archive/Zip/ZipAddCommon.cpp:115-299 | For any trial step that logs only its own events and always logs one, the loop logs only events of the trials it may run, and logs something once it runs one |
| CompressProofs.TrialsTrace | 7zip/Archive/Zip/ZipAddCommon.cpp:115-299 | However the loop ends, it logs only events of trials i to n-1, and at least one event when it runs a trial |
| EncoderOnce.EncoderBuiltOnce | 7zip/Archive/Zip/ZipAddCommon.cpp:171-214 | A whole call builds the encoder once if the instance had none and ends with one, never otherwise. An instance's encoder is never swapped |

## Left out

- Codecs: Deflate, Deflate64, BZip2 and the copy coder are external. They are uninterpreted functions of the input bytes.
- Ciphers: ZipCrypto and WinZip AES key derivation, header contents, encryption and the authentication footer are external. They are uninterpreted functions; only their place in the output is modelled.
- CRC-32 table arithmetic (`CCRC`): the CRC is a fold of an abstract per-byte update, starting from all ones and inverted at the end.
- `CInStreamWithCRC::Seek` is assumed to reset the wrapper's CRC and size counters. Its source is not part of this model.
- `CFilterCoder` buffering is left out: the filter is transparent, so what reaches the output is the encryption of the whole coder output.
- COM reference counting, `COutStreamReleaser` and the interface queries for property setting are left out. They become the `settable` capability flag.
- Progress callbacks and cancellation are left out: they do not bear on which method is chosen.
- `COMPRESS_MT` (the BZip2 thread-count property) is left out, for the same reason.
- The statically linked codec build (`COMPRESS_DEFLATE` and friends) is left out; only the dynamically loaded build is modelled.
- 64-bit sizes are unbounded integers: `PackSize < UnpackSize + H` is not modelled with wrap-around.
- Coders read the input wrapper to the end in one step (`ReadToEnd`). How a coder chunks its reads does not change the CRC (`Crc.FoldAppend`).
- CompressProofs.CompressOutcome: stated only for runs that finish. For a failed run, `Trace` and the ordering lemmas describe how far it got. The ZipCrypto lemmas also assume that a pre-pass that completes delivers exactly the bytes the raw stream holds from its position (`PrePassFaithful`). How the reads are chunked and whether one fails stay free.
- EncoderOnce.EncoderBuiltOnce: stated only for calls that finish. A failed call returns its code and log but not its instance, so what the source's instance keeps after a failure is not modelled. After a failed `SetCoderProperties` (line 238), the instance keeps an encoder that was loaded (lines 212-213) but never configured, and the next call reuses it (line 171). A call that fails after line 129 keeps its new AES filter, which a later AES call with no methods uses for its footer (line 302).
- AES mode without a password is not modelled (`ValidOptions`), nor is a call in AES mode that reaches the footer with no AES filter on the instance (`FooterReady`). The source would use an uninitialised filter there.
