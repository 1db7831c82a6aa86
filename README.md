# Charon in Dafny

Charon turns a file into a video of QR codes and back. A Spring service
accepts an upload and records a job as PROCESSING. It queues the job, and a
worker runs an encoder for it. The Python encoder script encrypts the file.
It slices the ciphertext into 800-byte chunks, each wrapped in a `QDV2`
record with a CRC-32, and lays the records out n×n per frame. A metadata
frame and a password-protected private-key frame are inserted into the frame
list. The decoder script reads the frames back, collects the records and
reassembles and decrypts the payload. A REST controller serves the artifacts
with byte ranges, and a filter limits each client address to 120 requests
per minute. An older copy of the service (`lucasdemo`) does the same work
synchronously.

This project models that core:

- `job_registry.dfy`: the job → process map.
- `video_record.dfy`: the durable record, its status transitions and the repository.
- `encoder_port.dfy`: the encoding request and the encoder errors.
- `cloud_encoder.dfy`: the mock cloud encoder.
- `script_encoder.dfy`: the argument vector, the bounded log reader and `encode` of the script encoder.
- `video_code_service.dfy`: `submit` and `executeJob`.
- `controller.dfy`: request defaulting, artifact selection, HTTP ranges, status and cancel.
- `rate_limit.dfy`: the per-address fixed-window limiter.
- `legacy_service.dfy`, `legacy_controller.dfy`: the `lucasdemo` service and controller.
- `qr_encode.dfy`, `qr_decode.dfy`: the two scripts' framing, layout, scanning and reassembly.
- `bytes.dfy`, `java_text.dfy`, `argv.dfy`, `wrappers.dfy`: Python byte slicing and `int.to_bytes`, Java `Long.parseLong` / `String.split` / `equalsIgnoreCase`, argument words that may be null, and `Option` / `Result`.

Collaborators are parameters:

- CRC-32 is a function `Bytes -> bv32`.
- PBKDF2, AES-GCM and RSA-OAEP are uninterpreted functions: `QrEncode.Crypto` and `QrDecode.Primitives`.
- The decoder's JSON parser is a function to a map of integers.
- Storage, the clock, the random job id and the child process's output and exit code are arguments.
- The repository is a map in `Records.RecordStore`.

The round trips are stated against these parameters. One assumption is that decryption inverts encryption (`QrDecode.Opens`). The other is that the private key opens what was wrapped for the public key (`QrDecode.KeyPair`).

## Model

| member | source | states |
|---|---|---|
| Registry.Process.DestroyForcibly | src/main/java/com/Charon/service/JobRegistry.java:27 | the handle is marked destroyed |
| Registry.JobRegistry.constructor | src/main/java/com/Charon/service/JobRegistry.java:10 | the registry starts empty |
| Registry.JobRegistry.Handle | src/main/java/com/Charon/service/JobRegistry.java:10 | the handle registered for an id, empty exactly when none is |
| Registry.JobRegistry.Register | src/main/java/com/Charon/service/JobRegistry.java:12-14 | the id now maps to the new handle, overwriting any earlier one; other ids are unchanged |
| Registry.JobRegistry.Get | src/main/java/com/Charon/service/JobRegistry.java:16-18 | a handle is returned exactly when the id is registered, and it is the registered one |
| Registry.JobRegistry.Remove | src/main/java/com/Charon/service/JobRegistry.java:20-22 | only the entry for the id is removed |
| Registry.JobRegistry.Cancel | src/main/java/com/Charon/service/JobRegistry.java:24-32 | returns true exactly when the id was registered; then that handle is destroyed and the entry removed; otherwise the map is unchanged |
| Registry.RegisterThenGet | src/main/java/com/Charon/service/JobRegistry.java:12-18 | `get` after `register` returns the registered handle |
| Registry.RemoveThenGet | src/main/java/com/Charon/service/JobRegistry.java:16-22 | after `remove` the id is absent and another id's entry is what it was |
| Registry.CancelTwice | src/main/java/com/Charon/service/JobRegistry.java:24-32 | a second `cancel` right after the first returns false; the map loses only that id |
| Records.FreshRecord | src/main/java/com/Charon/entity/VideoRecord.java:65-72 | a new record is PROCESSING with its creation time set and no completion time, error or paths |
| Records.Completed | src/main/java/com/Charon/entity/VideoRecord.java:88-95 | sets both paths, size, frame count, COMPLETED and the completion time; error, job id, id and every encoding input are unchanged |
| Records.Failed | src/main/java/com/Charon/entity/VideoRecord.java:97-101 | sets the error, FAILED and the completion time; paths, size, frame count, job id and inputs are unchanged |
| Records.TransitionsIgnoreStatus | src/main/java/com/Charon/entity/VideoRecord.java:88-101 | both transitions give the same record whatever the prior status, so there is no guard |
| Records.FailAfterComplete | src/main/java/com/Charon/entity/VideoRecord.java:88-101 | failing a completed record gives FAILED with the completed paths still set |
| Records.VideoRecord.constructor | src/main/java/com/Charon/entity/VideoRecord.java:65-72 | the new entity is the fresh record |
| Records.VideoRecord.Load | src/main/java/com/Charon/repository/VideoRecordRepository.java:12-16 | the entity holds the row read from the repository |
| Records.VideoRecord.SetStatus | src/main/java/com/Charon/web/VideoCodeController.java:126 | only the status changes |
| Records.VideoRecord.SetErrorMessage | src/main/java/com/Charon/web/VideoCodeController.java:127 | only the error message changes |
| Records.VideoRecord.SetStoragePath | src/main/java/com/lucas/lucasdemo/service/VideoCodeService.java:142 | only the storage path changes |
| Records.VideoRecord.SetManifestPath | src/main/java/com/lucas/lucasdemo/service/VideoCodeService.java:143 | only the manifest path changes |
| Records.VideoRecord.SetOutputVideoSize | src/main/java/com/lucas/lucasdemo/service/VideoCodeService.java:144 | only the output size changes |
| Records.VideoRecord.SetOutputFrameCount | src/main/java/com/Charon/entity/VideoRecord.java:92 | only the frame count changes |
| Records.VideoRecord.SetCompletedAt | src/main/java/com/lucas/lucasdemo/service/VideoCodeService.java:146 | only the completion time changes |
| Records.VideoRecord.Complete | src/main/java/com/Charon/entity/VideoRecord.java:88-95 | the entity becomes `Completed` of its old state |
| Records.VideoRecord.Fail | src/main/java/com/Charon/entity/VideoRecord.java:97-101 | the entity becomes `Failed` of its old state |
| Records.RecordStore.constructor | src/main/java/com/Charon/repository/VideoRecordRepository.java:11 | the table starts empty |
| Records.RecordStore.FindByJobId | src/main/java/com/Charon/repository/VideoRecordRepository.java:12-16 | a row is found exactly when one is stored under the job id, and it is that row |
| Records.RecordStore.Insert | src/main/java/com/Charon/service/VideoCodeService.java:77 | the entity gets the next id and its row is stored under its job id |
| Records.RecordStore.UpdateById | src/main/java/com/Charon/service/VideoCodeService.java:169 | an existing row keeps its id and takes every non-null column of the entity, while null columns keep their stored values; without a row nothing changes |
| Records.MergedIsEntity | src/main/java/com/Charon/service/VideoCodeService.java:169 | the row after `updateById` equals the entity exactly when the entity has the row's id and leaves null only columns that are already null |
| Records.MergedFailOverComplete | src/main/java/com/Charon/service/VideoCodeService.java:169-176 | a FAILED write over the COMPLETED row leaves the row a single FAILED write over the original would |
| Records.MergedIdempotent | src/main/java/com/Charon/service/VideoCodeService.java:169 | writing the same entity twice leaves the row of the first write |
| Records.NullColumnsKept | src/main/java/com/Charon/service/VideoCodeService.java:174-175 | failing with a null message keeps the stored error message, and completing with a null frame count keeps the stored frame count |
| EncoderPort.Message | src/main/java/com/Charon/infrastructure/encoder/PythonScriptVideoEncoder.java:80-82 | an exit failure's message starts "Encoding failed with code "; a null-argument failure has none |
| CloudEncoder.Supports | src/main/java/com/Charon/infrastructure/encoder/CloudVideoEncoder.java:17-19 | true exactly for "CLOUD" in any ASCII letter case, false for null |
| CloudEncoder.Encode | src/main/java/com/Charon/infrastructure/encoder/CloudVideoEncoder.java:37-48 | both output files exist afterwards; existing files are untouched; a missing manifest gets the `{"frames": 100, "mock": true}` text; the fixed log is returned |
| CloudEncoder.EncodeIdempotent | src/main/java/com/Charon/infrastructure/encoder/CloudVideoEncoder.java:39-46 | encoding twice leaves the files as encoding once |
| Argv.NoNullAppend | src/main/java/com/Charon/infrastructure/encoder/PythonScriptVideoEncoder.java:35-67 | a word list is free of nulls exactly when both halves are |
| Argv.NoNullPair | src/main/java/com/Charon/infrastructure/encoder/PythonScriptVideoEncoder.java:50-51 | a flag pair is free of nulls exactly when its value is non-null |
| Argv.LookupPair | src/main/java/com/Charon/infrastructure/encoder/PythonScriptVideoEncoder.java:38 | a pair names one flag, and looking it up gives its value |
| Argv.FlagsAppend | src/main/java/com/Charon/infrastructure/encoder/PythonScriptVideoEncoder.java:35-65 | the flags of appended pair lists are the flags of each, in order |
| Argv.LookupAppend | src/main/java/com/Charon/infrastructure/encoder/PythonScriptVideoEncoder.java:35-65 | a flag's value in appended lists is its first occurrence |
| Argv.LookupExtend | src/main/java/com/Charon/infrastructure/encoder/PythonScriptVideoEncoder.java:54-65 | appending one pair adds that flag's value only where the flag was absent |
| Argv.FecRatio | src/main/java/com/Charon/infrastructure/encoder/PythonScriptVideoEncoder.java:46-47 | 0.2 for a null percent; otherwise in [0.15, 0.35], and equal to percent/100 exactly when 15 ≤ percent ≤ 35 |
| Argv.RatioTextValue | src/main/java/com/Charon/infrastructure/encoder/PythonScriptVideoEncoder.java:48 | the `--fec-ratio` word spells the clamped ratio as "0." and digits with no trailing zero |
| JavaText.IntToString | src/main/java/com/Charon/web/VideoCodeController.java:164 | a non-empty decimal spelling that starts with '-' exactly for negatives |
| JavaText.ParseLong | src/main/java/com/Charon/web/VideoCodeController.java:143-144 | any parsed value lies in the `long` range; the empty string does not parse |
| JavaText.ParseLongIntToString | src/main/java/com/Charon/web/VideoCodeController.java:143-144 | parsing a `long`'s decimal spelling gives it back |
| JavaText.Fields | src/main/java/com/Charon/web/VideoCodeController.java:142 | at least one field, none containing the separator |
| JavaText.DropTrailingEmpty | src/main/java/com/Charon/web/VideoCodeController.java:142 | removes exactly the trailing empty strings |
| JavaText.JavaSplit | src/main/java/com/Charon/web/VideoCodeController.java:142 | no part contains the separator; a string without it splits into itself |
| JavaText.FieldsJoin | src/main/java/com/Charon/web/VideoCodeController.java:142 | splitting at the first separator gives the text before it, then the fields of the rest |
| JavaText.FieldsOfPlain | src/main/java/com/Charon/web/VideoCodeController.java:142 | text without the separator is one field |
| JavaText.SplitPair | src/main/java/com/Charon/web/VideoCodeController.java:142 | "a-b" with a non-empty b splits into [a, b] |
| JavaText.UpperAsciiString | src/main/java/com/Charon/infrastructure/encoder/CloudVideoEncoder.java:18 | upper-cases ASCII letters character by character and keeps the length |
| JavaText.EqualsIgnoreCaseUpper | src/main/java/com/Charon/infrastructure/encoder/CloudVideoEncoder.java:18 | two strings are equal ignoring ASCII letter case exactly when their ASCII upper-cased forms are equal |
| JavaText.LowerAscii | scripts/encode_qr_video.py:164-168 | lower-casing ASCII letters keeps the length |
| Bytes.Be | scripts/encode_qr_video.py:235 | the big-endian encoding has the requested width |
| Bytes.FromBe | scripts/decode_qr_video.py:276-278 | the decoded value is below 256 to the width |
| Bytes.FromBeBe | scripts/decode_qr_video.py:276-278 | decoding a big-endian encoding gives the number back |
| Bytes.ToBytesBig | scripts/encode_qr_video.py:235 | `to_bytes(k, 'big')` succeeds exactly for 0 ≤ n < 256^k and then decodes back to n |
| Bytes.Slice | scripts/decode_qr_video.py:280-281 | Python's clamping slice: its length, and the plain slice when the bounds are in range |
| Bytes.From | scripts/decode_qr_video.py:62 | `s[a:]`: the suffix, or empty past the end |
| Bytes.Ascii | scripts/encode_qr_video.py:98 | a byte literal has one byte per character |
| Bytes.ConcatAppend | scripts/decode_qr_video.py:333 | `b''.join` of appended lists is the join of each |
| Bytes.ConcatOne | scripts/decode_qr_video.py:333 | joining one part gives it back |
| Bytes.ConcatCons | scripts/decode_qr_video.py:333 | joining a part in front prepends it |
| ScriptEncoder.BuildCommand | src/main/java/com/Charon/infrastructure/encoder/PythonScriptVideoEncoder.java:35-65 | the command is the python command, the script path, then the argument pairs |
| ScriptEncoder.CommandLookup | src/main/java/com/Charon/infrastructure/encoder/PythonScriptVideoEncoder.java:38-65 | each flag carries its expected value: `--fec-ratio` the clamped ratio, `--privkey-frame` "0" for null, optional flags only when present |
| ScriptEncoder.CommandLookups | src/main/java/com/Charon/infrastructure/encoder/PythonScriptVideoEncoder.java:38-65 | the same for every flag at once |
| ScriptEncoder.CommandFlags | src/main/java/com/Charon/infrastructure/encoder/PythonScriptVideoEncoder.java:38-65 | the flags appear in source order; `--privkey-frame-pass` iff the password is non-null; `--width`/`--height` iff both are; `--obfuscation` iff the path is |
| ScriptEncoder.CommandNoNull | src/main/java/com/Charon/infrastructure/encoder/PythonScriptVideoEncoder.java:35-72 | the command has no null word exactly when resolution, passphrase and hint are non-null, the condition for `start` to succeed |
| ScriptEncoder.LeadingLookup | src/main/java/com/Charon/infrastructure/encoder/PythonScriptVideoEncoder.java:38-44 | the first six pairs carry the input, output, manifest, grid, fps and resolution |
| ScriptEncoder.MandatoryLookup | src/main/java/com/Charon/infrastructure/encoder/PythonScriptVideoEncoder.java:38-52 | the eleven mandatory pairs carry their values |
| ScriptEncoder.TrailingLookup | src/main/java/com/Charon/infrastructure/encoder/PythonScriptVideoEncoder.java:44-52 | the pairs from `--enable-fec` to `--privkey-frame` carry their values |
| ScriptEncoder.MandatoryFlagOrder | src/main/java/com/Charon/infrastructure/encoder/PythonScriptVideoEncoder.java:38-52 | the mandatory flags come in source order |
| ScriptEncoder.TrailingFlagOrder | src/main/java/com/Charon/infrastructure/encoder/PythonScriptVideoEncoder.java:44-52 | the later mandatory flags come in source order |
| ScriptEncoder.LeadingFlagOrder | src/main/java/com/Charon/infrastructure/encoder/PythonScriptVideoEncoder.java:38-43 | the first six flags come in source order |
| ScriptEncoder.OptionalLookup | src/main/java/com/Charon/infrastructure/encoder/PythonScriptVideoEncoder.java:54-65 | each optional pair carries its value exactly when present |
| ScriptEncoder.OptionalValueLookup | src/main/java/com/Charon/infrastructure/encoder/PythonScriptVideoEncoder.java:54-65 | the optional values agree with the optional pairs |
| ScriptEncoder.OptionalFlags | src/main/java/com/Charon/infrastructure/encoder/PythonScriptVideoEncoder.java:54-65 | the optional flags are present exactly under their conditions |
| ScriptEncoder.LeadingNoNull | src/main/java/com/Charon/infrastructure/encoder/PythonScriptVideoEncoder.java:38-43 | the first pairs are null-free exactly when the resolution is non-null |
| ScriptEncoder.TrailingNoNull | src/main/java/com/Charon/infrastructure/encoder/PythonScriptVideoEncoder.java:44-52 | the later pairs are null-free exactly when passphrase and hint are non-null |
| ScriptEncoder.Take | src/main/java/com/Charon/infrastructure/encoder/PythonScriptVideoEncoder.java:93-96 | the first min(length, k) bytes |
| ScriptEncoder.TakeAppend | src/main/java/com/Charon/infrastructure/encoder/PythonScriptVideoEncoder.java:93-96 | a capped prefix of more input extends the capped prefix of less |
| ScriptEncoder.ReadOutputLimited | src/main/java/com/Charon/infrastructure/encoder/PythonScriptVideoEncoder.java:87-100 | returns exactly the first min(stream length, maxBytes) bytes, and reads the stream to EOF (one call per chunk plus the final −1) |
| ScriptEncoder.Encode | src/main/java/com/Charon/infrastructure/encoder/PythonScriptVideoEncoder.java:32-85 | a null command word fails before anything starts; otherwise the handle is registered and then removed, and the capped log is returned on exit 0 or carried by the error on a nonzero exit |
| Orchestrator.FirstSupporting | src/main/java/com/Charon/service/VideoCodeService.java:142-145 | the first encoder in list order that supports the mode, or none when no encoder does |
| Orchestrator.FirstFrom | src/main/java/com/Charon/service/VideoCodeService.java:142-145 | from a given index on, the first encoder that supports the mode, with none before it, or none at all |
| Orchestrator.ObfArg | src/main/java/com/Charon/service/VideoCodeService.java:54-60 | present exactly when a non-empty obfuscation file was uploaded, and then `<jobDir>/obfuscation.bin` |
| Orchestrator.SubmissionConsistent | src/main/java/com/Charon/service/VideoCodeService.java:62-96 | the inserted record and the published message share the job id, parameters and mode; the mode is "CPU" when none was given; the record is PROCESSING |
| Orchestrator.Handle | src/main/java/com/Charon/service/VideoCodeService.java:174-177 | the catch block: the written row is FAILED with the exception's message, same job id and inputs; the row is written and the directory deleted after the earlier effects, unless that write throws, and then the exception escapes and the row stays as the `try` block left it (unwritten, or COMPLETED) |
| Orchestrator.HandleCleanup | src/main/java/com/Charon/service/VideoCodeService.java:174-177 | the catch block deletes the directory, as its last effect, exactly when its own write does not throw |
| Orchestrator.Tried | src/main/java/com/Charon/service/VideoCodeService.java:114-171 | the `try` block, with a throwing `setProgress` at 5, 60 and 100: it starts with progress 5; it ends with the deletion exactly when nothing threw; a row it already wrote is the COMPLETED entity, and a throw after that write comes from `setProgress(jid, 100, "DONE")` |
| Orchestrator.Run | src/main/java/com/Charon/service/VideoCodeService.java:114-179 | the job first reports progress 5; an exception escapes whenever no row is written; when one escapes with a row written, that row is COMPLETED and the last effect is the `setProgress(jid, 100, "DONE")` that threw; a written row is never PROCESSING and keeps the job id, id and inputs |
| Orchestrator.RunEncoderFailure | src/main/java/com/Charon/service/VideoCodeService.java:148-177 | an encoder exception fails the row with its message; nothing is stored; the effects are progress, the encoder run, the write and the deletion |
| Orchestrator.TriedEncoderFailure | src/main/java/com/Charon/service/VideoCodeService.java:146-148 | when the encoder throws, the `try` block stops after progress 5 and the encoder run, with nothing written and the encoder's message |
| Orchestrator.RunVideoStoreFailure | src/main/java/com/Charon/service/VideoCodeService.java:155-177 | an exception from storing the video fails the row with its message, the row keeps its old paths, nothing is stored, and the effects are progress 5, the encoder run, progress 60, the write and the deletion |
| Orchestrator.RunManifestStoreFailure | src/main/java/com/Charon/service/VideoCodeService.java:156-177 | an exception from storing the manifest fails the row with its message and the row keeps its old paths; the video stays stored, the manifest is not, and the directory is deleted last |
| Orchestrator.RunSuccess | src/main/java/com/Charon/service/VideoCodeService.java:148-171 | on success the artifacts are stored under `<jid>.mp4` and `<jid>-manifest.json`, the written row is COMPLETED with both paths, the size and the frame count, and the directory is deleted last |
| Orchestrator.RunNoEncoder | src/main/java/com/Charon/service/VideoCodeService.java:142-145 | with no supporting encoder nothing is encoded or stored, and the row is failed with "No encoder found for mode: <mode>" |
| Orchestrator.RunDoneProgressFailure | src/main/java/com/Charon/service/VideoCodeService.java:168-177 | when `setProgress(jid, 100, "DONE")` throws after the COMPLETED write, the catch block overwrites that row with FAILED and the exception's message, keeping the stored paths; the effects are the whole success run up to that call, then the FAILED write and the deletion |
| Orchestrator.TriedDoneProgressFailure | src/main/java/com/Charon/service/VideoCodeService.java:148-170 | when only `setProgress(jid, 100, "DONE")` throws, the `try` block stops after it with the COMPLETED row written and that call's message |
| Orchestrator.RunFailAfterComplete | src/main/java/com/Charon/service/VideoCodeService.java:168-176 | an `updateById` failure after `complete` is caught, and the row becomes FAILED with the stored paths kept |
| Orchestrator.RunCleanup | src/main/java/com/Charon/service/VideoCodeService.java:171-177 | the directory is deleted, as the last step, exactly when no exception escapes; one escapes only when the failure's own `updateById` throws, and then a row was written only if `setProgress(jid, 100, "DONE")` had thrown after the COMPLETED write |
| Orchestrator.TriedIgnoresStatus | src/main/java/com/Charon/service/VideoCodeService.java:108-171 | the `try` block's effects, written row and failure do not depend on the record's prior status, and its entity differs only in that status when nothing was written |
| Orchestrator.RunIgnoresStatus | src/main/java/com/Charon/service/VideoCodeService.java:108-114 | the whole outcome (written row, effects, escape) does not depend on the record's prior status, so redelivery re-encodes |
| Orchestrator.VideoCodeService.constructor | src/main/java/com/Charon/service/VideoCodeService.java:32-42 | the service starts with an empty queue and no job directories |
| Orchestrator.VideoCodeService.Submit | src/main/java/com/Charon/service/VideoCodeService.java:45-103 | creates the job directory; on success inserts the PROCESSING record before publishing the message and returns the job id; a failing copy, insert or publish stops there with its exception |
| Orchestrator.VideoCodeService.TryJob | src/main/java/com/Charon/service/VideoCodeService.java:114-171 | the `try` block on the loaded entity computes `Tried`; the repository holds the merged COMPLETED row exactly when it was written, and a later FAILED write lands as if over the stored row |
| Orchestrator.VideoCodeService.ExecuteJob | src/main/java/com/Charon/service/VideoCodeService.java:105-180 | without a record nothing changes; otherwise the effects are those of `Run` on the stored row, and the row written by `Run` is merged into the stored one as `updateById` does |
| Controller.Submission | src/main/java/com/Charon/web/VideoCodeController.java:60-70 | grid, fps, resolution, FEC flag and parity percent take the defaults exactly when absent; every other field is passed through |
| Controller.DefaultsOnlyReplaceAbsent | src/main/java/com/Charon/web/VideoCodeController.java:60-64 | defaulting a request twice, or with different defaults, changes nothing once the values are filled |
| Controller.SelectedPath | src/main/java/com/Charon/web/VideoCodeController.java:97 | the manifest path for "manifest" in any ASCII letter case, else the storage path |
| Controller.MediaTypeOf | src/main/java/com/Charon/web/VideoCodeController.java:139 | JSON exactly for "manifest" in any ASCII letter case, else octet-stream |
| Controller.AfterLastSlash | src/main/java/com/Charon/web/VideoCodeController.java:100 | the suffix after the last '/', with no '/' in it |
| Controller.TrimTrailingSlashes | src/main/java/com/Charon/web/VideoCodeController.java:100 | removes exactly the trailing '/' characters |
| Controller.FileName | src/main/java/com/Charon/web/VideoCodeController.java:100 | `getFileName()`: a name without '/', absent exactly for a root path |
| Controller.AfterLastSlashOf | src/main/java/com/Charon/web/VideoCodeController.java:100 | the name after `dir/` is the name |
| Controller.FileNameOfResolved | src/main/java/com/Charon/web/VideoCodeController.java:100 | the file name of `dir/name` is the name |
| Controller.ParseRange | src/main/java/com/Charon/web/VideoCodeController.java:141-144 | a parsed start is never negative, and a missing end means fileSize−1 |
| Controller.ParseLongUnsigned | src/main/java/com/Charon/web/VideoCodeController.java:143 | a number without '-' parses to a non-negative value |
| Controller.BuildDownloadResponse | src/main/java/com/Charon/web/VideoCodeController.java:136-178 | 200 with the whole file exactly when there is no `bytes=` header; a 206 carries a non-empty slice of the file of at most 5 MiB; a missing file, or a `bytes=` value whose bounds `parseLong` rejects, gives 500 |
| Controller.NoMinusInNat | src/main/java/com/Charon/web/VideoCodeController.java:142 | a non-negative number's spelling has no '-' |
| Controller.ParseRangeOfHeader | src/main/java/com/Charon/web/VideoCodeController.java:140-144 | `bytes=S-E` parses back to (S, E) |
| Controller.RangeRoundTrip | src/main/java/com/Charon/web/VideoCodeController.java:150-167 | a satisfiable range gives 206 with min(E−S+1, 5 MiB) bytes from S and Content-Range "bytes S-(S+len−1)/size" |
| Controller.SatisfiableRange | src/main/java/com/Charon/web/VideoCodeController.java:150-167 | the body is also cut at what one read delivers |
| Controller.UnsatisfiableExactly | src/main/java/com/Charon/web/VideoCodeController.java:145-148 | 416 with "bytes */size" exactly when E ≥ size or S > E; the S < 0 test can never fire |
| Controller.OpenEndedRange | src/main/java/com/Charon/web/VideoCodeController.java:144 | `bytes=S-` runs to the end of the file |
| Controller.SuffixRangeFails | src/main/java/com/Charon/web/VideoCodeController.java:143 | the suffix form `bytes=-N` gives 500 |
| Controller.Download | src/main/java/com/Charon/web/VideoCodeController.java:93-101 | 404 exactly without a record; a null path gives 500; the served media type follows the requested type |
| Controller.CancelledRecord | src/main/java/com/Charon/web/VideoCodeController.java:126-127 | FAILED with "Cancelled"; the completion time, paths and inputs are unchanged |
| Controller.CancelWrite | src/main/java/com/Charon/web/VideoCodeController.java:124-128 | writing the cancelled record over the loaded row, skipping null columns, stores exactly the cancelled record |
| Controller.VideoCodeController.constructor | src/main/java/com/Charon/web/VideoCodeController.java:33-39 | holds the repository and the registry |
| Controller.VideoCodeController.DownloadByJobId | src/main/java/com/Charon/web/VideoCodeController.java:89-102 | 404 exactly when no record has the job id |
| Controller.VideoCodeController.Status | src/main/java/com/Charon/web/VideoCodeController.java:104-116 | 404 exactly without a record; otherwise the job id, status, id and error |
| Controller.VideoCodeController.Cancel | src/main/java/com/Charon/web/VideoCodeController.java:118-134 | 404 without a record; otherwise reports the registry's result, and the record is FAILED "Cancelled" and written exactly when that result is true |
| Controller.CancelThenStatus | src/main/java/com/Charon/web/VideoCodeController.java:104-134 | after a successful cancel the status reads FAILED with error "Cancelled" |
| RateLimit.WindowOf | src/main/java/com/Charon/config/RateLimitFilter.java:31-32 | the minute that contains the epoch second |
| RateLimit.Increment | src/main/java/com/Charon/config/RateLimitFilter.java:47 | `incrementAndGet` on an int: +1, wrapping at the int range |
| RateLimit.Admit | src/main/java/com/Charon/config/RateLimitFilter.java:30-55 | a new or stale window restarts at the current minute; every request counts; it passes exactly when the count is ≤ 120; other addresses are untouched |
| RateLimit.AdmitIsPerAddress | src/main/java/com/Charon/config/RateLimitFilter.java:34 | the decision depends only on the address's own window |
| RateLimit.Burst | src/main/java/com/Charon/config/RateLimitFilter.java:30-55 | n requests give n decisions |
| RateLimit.BurstFromFreshWindow | src/main/java/com/Charon/config/RateLimitFilter.java:43-54 | in a fresh window request k passes exactly when k < 120 |
| RateLimit.HundredTwentyFirstRefused | src/test/java/com/Charon/config/RateLimitFilterTest.java:53-62 | 120 requests pass and the 121st is refused |
| RateLimit.Window.constructor | src/main/java/com/Charon/config/RateLimitFilter.java:57-61 | a window at the given minute with count 0 |
| RateLimit.Window.Hit | src/main/java/com/Charon/config/RateLimitFilter.java:43-47 | resets a stale window and increments the count |
| RateLimit.RateLimitFilter.View | src/main/java/com/Charon/config/RateLimitFilter.java:22-25 | the cache's windows as values, over the same addresses |
| RateLimit.RateLimitFilter.constructor | src/main/java/com/Charon/config/RateLimitFilter.java:22-25 | the cache starts empty |
| RateLimit.RateLimitFilter.DoFilter | src/main/java/com/Charon/config/RateLimitFilter.java:27-55 | the new windows and the decision are `Admit` of the old windows |
| RateLimit.RateLimitFilter.ViewAfterHit | src/main/java/com/Charon/config/RateLimitFilter.java:42-47 | updating one cached window changes only that address's view |
| RateLimit.RateLimitFilter.CacheGet | src/main/java/com/Charon/config/RateLimitFilter.java:34 | returns the cached window, or caches a new one at the current minute with count 0 |
| RateLimit.RateLimitFilter.Evict | src/main/java/com/Charon/config/RateLimitFilter.java:22-25 | the cache may drop an address; nothing else changes |
| LegacyService.RequestFor | src/main/java/com/lucas/lucasdemo/service/VideoCodeService.java:58-64 | the obfuscation path is present exactly when a non-empty file was uploaded |
| LegacyService.BuildLegacyCommand | src/main/java/com/lucas/lucasdemo/service/VideoCodeService.java:86-112 | the command is the fixed pairs, then width/height and obfuscation when present |
| LegacyService.LegacyAgreesWithCurrent | src/main/java/com/lucas/lucasdemo/service/VideoCodeService.java:86-112 | with a frame password the command equals the current service's; the command is null-free exactly when the current one is and a password is given |
| LegacyService.LegacyRecord | src/main/java/com/lucas/lucasdemo/service/VideoCodeService.java:67-81 | the inserted row is PROCESSING under the job id |
| LegacyService.ExitFailed | src/main/java/com/lucas/lucasdemo/service/VideoCodeService.java:125-128 | FAILED with the log as error; paths and inputs are unchanged |
| LegacyService.ExitCompleted | src/main/java/com/lucas/lucasdemo/service/VideoCodeService.java:142-147 | COMPLETED with both paths, the size and the completion time; the frame count and error are unchanged |
| LegacyService.OutcomeReports | src/main/java/com/lucas/lucasdemo/service/VideoCodeService.java:116-153 | the result always has job id, exit code and log; "error" exactly on a nonzero exit (row FAILED with the log); paths and id exactly on exit 0 (row COMPLETED); an exception leaves the row PROCESSING |
| LegacyService.LegacyVideoCodeService.constructor | src/main/java/com/lucas/lucasdemo/service/VideoCodeService.java:22-37 | holds the repository, working directory and python command |
| LegacyService.LegacyVideoCodeService.Process | src/main/java/com/lucas/lucasdemo/service/VideoCodeService.java:39-153 | the row is inserted PROCESSING before the child starts; the result and the final row are the `Outcome` of the run |
| LegacyService.LegacyVideoCodeService.RunChild | src/main/java/com/lucas/lucasdemo/service/VideoCodeService.java:116-153 | the result and the row are the `Outcome` of the inserted row |
| LegacyService.LegacyVideoCodeService.Start | src/main/java/com/lucas/lucasdemo/service/VideoCodeService.java:116 | `start` succeeds exactly for a null-free command |
| LegacyService.LegacyVideoCodeService.RecordExit | src/main/java/com/lucas/lucasdemo/service/VideoCodeService.java:118-153 | the result and the row after the exit are `AfterExit` of the inserted row |
| LegacyController.LegacyDownload | src/main/java/com/lucas/lucasdemo/web/VideoCodeController.java:88-103 | 404 exactly without a record; otherwise an attachment of the selected path under its last component, JSON for "manifest" in any ASCII letter case, else octet-stream |
| LegacyController.ManifestServedUnderStoredName | src/main/java/com/lucas/lucasdemo/web/VideoCodeController.java:95-101 | a stored `<dir>/<jobId>-manifest.json` is served as JSON under that file name |
| QrEncode.Pow256Small | scripts/encode_qr_video.py:235 | the widths 2 and 4 bound 65536 and 2^32 |
| QrEncode.Chunks | scripts/encode_qr_video.py:32-34 | every slice is non-empty and at most the size |
| QrEncode.ChunksCount | scripts/encode_qr_video.py:32-34 | the number of slices is ⌈len/size⌉ |
| QrEncode.ChunksPartition | scripts/encode_qr_video.py:32-34 | the slices concatenate to the data, and all but the last have the full size |
| QrEncode.ChunkAt | scripts/encode_qr_video.py:32-34 | slice k is `data[k·size : (k+1)·size]` |
| QrEncode.ChunkBytesJoin | scripts/encode_qr_video.py:184-185 | joining the 800-byte chunks gives the payload back |
| QrEncode.ConcatFlatten | scripts/decode_qr_video.py:333 | byte join and sequence flattening agree |
| QrEncode.CrcBytes | scripts/encode_qr_video.py:240 | four big-endian bytes of the CRC |
| QrEncode.WrapChunk | scripts/encode_qr_video.py:233-241 | "QDV2", be4 idx, be4 total, be2 length, flag byte (1 iff FEC), blob, CRC: 19+len bytes; the script dies on an out-of-range field |
| QrEncode.WrapAll | scripts/encode_qr_video.py:244-247 | every record carries total = number of chunks, and the flag is set exactly for indices past the data chunks; the result is `Records` of the chunks |
| QrEncode.Records | scripts/encode_qr_video.py:244-247 | one wrapped record per chunk, record i being chunk i wrapped with its index, the total and the FEC flag |
| QrEncode.RecordsUnique | scripts/encode_qr_video.py:244-247 | any sequence that wraps every chunk with its index fits the header fields and equals `Records` |
| QrEncode.PayloadEnvelope | scripts/encode_qr_video.py:97-99 | "AES256GCM", salt, nonce, be2 key length, wrapped key, ciphertext; fails when the key is 65536 bytes or longer |
| QrEncode.KeyEnvelope | scripts/encode_qr_video.py:201-207 | "PRIVKEY_AES", salt, nonce, ciphertext |
| QrEncode.EncryptPayload | scripts/encode_qr_video.py:76-99 | fails exactly when the wrapped key does not fit two bytes |
| QrEncode.ProtectKey | scripts/encode_qr_video.py:201-207 | the protected key starts "PRIVKEY_AES" |
| QrEncode.Resolution | scripts/encode_qr_video.py:160-171 | explicit truthy width and height win; otherwise 720p, 4k/2160p, or 1920×1080 for anything else, in any ASCII letter case |
| QrEncode.EnableFecFromJava | scripts/encode_qr_video.py:151 | the "true"/"false" word the Java services pass reads back as the same boolean; "True" and "TRUE" are true, other words false |
| QrEncode.EffectiveFecRatio | scripts/encode_qr_video.py:189 | the ratio clamped to [0.15, 0.35] |
| QrEncode.GridSide | scripts/encode_qr_video.py:213 | `max(1, grid)` |
| QrEncode.LayoutFrame | scripts/encode_qr_video.py:217-230 | cell (i, j) holds blob i·n+j when there is one; the grid is `Layout` of the blobs |
| QrEncode.Layout | scripts/encode_qr_video.py:217-230 | the grid shows the batch: cell (i, j) holds blob i·n+j when there is one |
| QrEncode.GridFrames | scripts/encode_qr_video.py:250-256 | one grid per batch, in order, each showing its batch |
| QrEncode.GridFramesOf | scripts/encode_qr_video.py:250-256 | frames showing the batches one by one are exactly `GridFrames` of the batches |
| QrEncode.ShowsLayout | scripts/encode_qr_video.py:217-230 | a frame shows a batch exactly when it is that batch's layout, so the drawn grid is determined by the batch |
| QrEncode.MulMono | scripts/encode_qr_video.py:220-229 | multiplying by a cell count keeps order |
| QrEncode.BlobPlacement | scripts/encode_qr_video.py:220-229 | blob k sits at row k div n, column k mod n |
| QrEncode.OnlyLeadingBlobsDrawn | scripts/encode_qr_video.py:223 | a drawn cell holds the blob of its position |
| QrEncode.ChunksStep | scripts/encode_qr_video.py:252-256 | one loop step takes the next n² records |
| QrEncode.DataFrames | scripts/encode_qr_video.py:250-256 | ⌈records/n²⌉ frames, frame f showing records f·n² to f·n²+n²; the frames are the layouts of the n²-record slices in order |
| QrEncode.ClampIndex | scripts/encode_qr_video.py:269 | the key-frame index clamped to [0, frames] |
| QrEncode.Insert | scripts/encode_qr_video.py:270-271 | `list.insert` puts the element at the index |
| QrEncode.PlaceKeyFrames | scripts/encode_qr_video.py:269-280 | the meta frame at the clamped index, the key frame right after, an obfuscation frame at 0 shifting both; the key frame's position is returned |
| QrEncode.SingleCellMetaFrame | scripts/encode_qr_video.py:259-267 | with a 1×1 grid the metadata frame shows only the public key |
| QrEncode.RecordFrames | scripts/encode_qr_video.py:244-256 | data frames exist exactly when every record fits the header fields, and they are the layouts of the wrapped records, n² per frame |
| QrEncode.MetaFrame | scripts/encode_qr_video.py:259-267 | the metadata frame is the layout of the "META2" code then the "FEC_INFO" code |
| QrEncode.Interleave | scripts/encode_qr_video.py:269-280 | the frames are the optional obfuscation frame, the data frames before the clamped index, the metadata and key frames, then the rest; frame 0 is the obfuscation frame exactly when there is one |
| QrEncode.EncodeVideo | scripts/encode_qr_video.py:141-330 | the frames are exactly the obfuscation frame when there is one, the data frames of the wrapped chunks up to the clamped index, the "META2"/"FEC_INFO" frame, the key frame, then the remaining data frames; it crashes exactly when encryption overflows, the parity computation raises or wrapping overflows; the manifest's key-frame index is where the key frame is, and it records the frame count, grid, size, chunk counts and FEC ratio; ffmpeg failure exits 3 |
| QrDecode.ParseKeyEnvelope | scripts/decode_qr_video.py:57-68 | succeeds exactly for a "PRIVKEY_AES" prefix with at least 28 bytes after it |
| QrDecode.KeyPartsReassemble | scripts/decode_qr_video.py:62-68 | the parsed parts reassemble into the envelope |
| QrDecode.KeyEnvelopeRoundTrip | scripts/decode_qr_video.py:57-68 | the encoder's key envelope parses back into its salt, nonce and ciphertext |
| QrDecode.ParsePayloadEnvelope | scripts/decode_qr_video.py:75-88 | succeeds exactly for an "AES256GCM" prefix with at least 30 bytes after it |
| QrDecode.PayloadPartsReassemble | scripts/decode_qr_video.py:80-88 | the parsed parts reassemble into the envelope |
| QrDecode.PayloadEnvelopeRoundTrip | scripts/decode_qr_video.py:75-88 | the encoder's payload envelope parses back into its parts |
| QrDecode.Unprotect | scripts/decode_qr_video.py:57-72 | a key is recovered only from a well-framed envelope |
| QrDecode.UnprotectProtect | scripts/decode_qr_video.py:57-72 | unprotecting with the same password gives the private key back |
| QrDecode.DecryptPayload | scripts/decode_qr_video.py:75-100 | a payload is recovered only from a well-framed envelope |
| QrDecode.DecryptEncrypt | scripts/decode_qr_video.py:75-100 | decrypting the encoder's envelope with the matching private key gives the file back |
| QrDecode.ParseRecord | scripts/decode_qr_video.py:272-285 | only "QDV2" codes are accepted |
| QrDecode.ParseRecordFields | scripts/decode_qr_video.py:273-285 | an accepted code has idx, total, length and flag at their offsets, the whole payload and its CRC |
| QrDecode.ParseWrapped | scripts/decode_qr_video.py:276-286 | the encoder's record parses back to exactly its idx, total, blob and flag |
| QrDecode.AcceptedIsWrapped | scripts/decode_qr_video.py:276-286 | an accepted code with a 0/1 flag and nothing trailing is the wrapping of its fields |
| QrDecode.SameRecord | scripts/decode_qr_video.py:276-281 | codes equal on every field are equal |
| QrDecode.DivMod256 | scripts/decode_qr_video.py:276-278 | one byte splits off a big-endian number |
| QrDecode.FromBeInjective | scripts/decode_qr_video.py:276-278 | equal big-endian values of one width are equal bytes |
| QrDecode.PrefixesDisjoint | scripts/decode_qr_video.py:234-245 | no code has two of the four prefixes |
| QrDecode.Parsed | scripts/decode_qr_video.py:269-272 | one parse per code |
| QrDecode.ParsedAt | scripts/decode_qr_video.py:269-272 | entry i is the parse of code i |
| QrDecode.CollectedIsGathered | scripts/decode_qr_video.py:269-288 | the record pass equals gathering the parses in order |
| QrDecode.GatheredKeys | scripts/decode_qr_video.py:286 | an index is stored exactly when some accepted record carries it |
| QrDecode.GatheredLastWins | scripts/decode_qr_video.py:286 | the last accepted record for an index wins |
| QrDecode.GatheredTotal | scripts/decode_qr_video.py:287-288 | the total comes from the first accepted record |
| QrDecode.NothingGathered | scripts/decode_qr_video.py:265-266 | with nothing accepted there are no chunks and no total |
| QrDecode.GatherFaithful | scripts/decode_qr_video.py:269-288 | over the encoder's records, every stored chunk is the encoded blob and the total is the chunk count |
| QrDecode.CollectFaithful | scripts/decode_qr_video.py:269-288 | reading every record of the encoder, in any order and with repeats, collects every chunk with its blob and the right total |
| QrDecode.FlattenSnoc | scripts/decode_qr_video.py:269-271 | one more frame appends its codes |
| QrDecode.CollectedSnoc | scripts/decode_qr_video.py:271-288 | one more code is one more gathering step |
| QrDecode.CollectCode | scripts/decode_qr_video.py:272-288 | the loop body is one gathering step |
| QrDecode.CollectChunks | scripts/decode_qr_video.py:265-288 | the nested loops compute the record pass over all codes |
| QrDecode.CollectFrame | scripts/decode_qr_video.py:270-288 | the inner loop extends the pass by one frame's codes |
| QrDecode.ScannedPub | scripts/decode_qr_video.py:234-255 | the public key is found exactly when a "META2" code is read, and it is the last one's |
| QrDecode.ScannedPriv | scripts/decode_qr_video.py:245-259 | the private key is found exactly when a "PRIVKEY_AES" code unprotects, and it is the last one's |
| QrDecode.ScanUniform | scripts/decode_qr_video.py:230-251 | over the encoder's codes each key is found exactly when its code is read |
| QrDecode.ScannedSnoc | scripts/decode_qr_video.py:232-251 | one more code is one more scan step |
| QrDecode.ScanCode | scripts/decode_qr_video.py:234-251 | the loop body is one scan step, by first matching prefix |
| QrDecode.ScanMetadata | scripts/decode_qr_video.py:225-251 | the nested loops compute the scan over all codes |
| QrDecode.ScanFrame | scripts/decode_qr_video.py:231-251 | the inner loop extends the scan by one frame's codes |
| QrDecode.Get | scripts/decode_qr_video.py:292 | `dict.get` finds exactly the present keys |
| QrDecode.CountsPrecedence | scripts/decode_qr_video.py:290-297 | non-empty FEC info wins over the manifest; without either, original is unknown and total is the records' own |
| QrDecode.CountPresent | scripts/decode_qr_video.py:325-330 | all data indices are present exactly when `original` of them are |
| QrDecode.PlanAsWritten | scripts/decode_qr_video.py:299-322 | the decision as written: no total or no chunks stops; fewer chunks than `original_chunks`, parity included, goes to recovery when parity is announced and stops otherwise; else direct reassembly |
| QrDecode.PlansAgree | scripts/decode_qr_video.py:299-322 | when no parity chunk was read, the decision as written and the data-only decision agree |
| QrDecode.PlanFor | scripts/decode_qr_video.py:299-330 | direct reassembly is chosen only when every data chunk is present |
| QrDecode.PlanForChoice | scripts/decode_qr_video.py:304-330 | direct exactly when all data chunks are present; recovery exactly when one is missing and parity exists; otherwise exit |
| QrDecode.PlanForNothing | scripts/decode_qr_video.py:299-301 | no total or no chunks exits |
| QrDecode.AsWrittenSkipsRecovery | scripts/decode_qr_video.py:310 | with chunks {0, 2}, original 2 and total 3, the script as written skips recovery; counting data chunks recovers |
| QrDecode.InOrder | scripts/decode_qr_video.py:325-327 | chunks 0..n−1 in index order |
| QrDecode.DirectReassemble | scripts/decode_qr_video.py:323-330 | succeeds exactly when every index below original is present, giving those chunks in order |
| QrDecode.DecodeVideo | scripts/decode_qr_video.py:199-347 | `main` computes `Decoding` of the frames, which follows line 310 as written |
| QrDecode.Conclude | scripts/decode_qr_video.py:290-347 | the part after both passes, as written, computes `Concluded` |
| QrDecode.Decoding | scripts/decode_qr_video.py:199-347 | no frames, or an obfuscation-check file that cannot be read (the uncaught exception of lines 219-222), exit with status 1; a decoded or recovering run had frames, a readable or absent check file, and found both the public and the private key |
| QrDecode.Concluded | scripts/decode_qr_video.py:290-347 | a missing key exits 1; recovery is handed off only with fewer chunks read than `original_chunks`, which is below `total_chunks`; a decoded file is the decryption of data chunks 0..original−1, all present, joined in order, under the plan as written |
| QrDecode.ConcludedIntended | scripts/decode_qr_video.py:299-347 | as `Concluded` under the intended plan: recovery is handed off only when some data chunk is missing and parity exists |
| QrDecode.Finish | scripts/decode_qr_video.py:310-347 | recovery exactly under a recovery plan, with its counts; a decoded file only under a direct plan, from all data chunks present, joined in order and decrypted |
| QrDecode.AsWrittenExits | scripts/decode_qr_video.py:310-330 | with both keys, FEC info naming 2 data chunks of 3 and chunks {0, 2} read, the script as written exits with 1 while the intended decision hands off to recovery |
| QrDecode.IntendedRecovers | scripts/decode_qr_video.py:310-330 | under the data-only decision a lost data chunk with parity announced reaches recovery, and with every data chunk the file is decrypted |
| QrDecode.MissingKeysExit | scripts/decode_qr_video.py:253-255 | without a "META2" code the script exits with 1 |
| QrDecode.DecodeRoundTrip | scripts/decode_qr_video.py:199-347 | a video the encoder made without parity, on any grid (a 1x1 grid draws no FEC information), read in any order with repeats, decodes to the original file, with or without the encoder's manifest |
| QrDecode.StreamClasses | scripts/decode_qr_video.py:234-272 | in the encoder's stream each code has one kind only |
| QrDecode.ConcludeRoundTrip | scripts/decode_qr_video.py:290-337 | with every chunk collected and both keys, the file is decrypted |
| QrDecode.EnvelopeChunks | scripts/decode_qr_video.py:333 | a well-framed envelope has chunks, and they join back to it |
| QrDecode.DirectPlan | scripts/decode_qr_video.py:299-327 | with the encoder's counts, every chunk and no parity chunk, the decision as written is direct reassembly |
| QrDecode.CountsFromEncoder | scripts/decode_qr_video.py:290-309 | whether the counts come from the FEC information, the manifest or the records' total, they are the encoder's |
| QrDecode.InOrderAll | scripts/decode_qr_video.py:325-327 | reassembling the collected chunks gives the encoder's blobs |

## Left out

- CRC-32: the scripts call `hashlib.crc32`, which does not exist (scripts/encode_qr_video.py:240, scripts/decode_qr_video.py:284). As written, both scripts would stop with an AttributeError. The model takes CRC-32 as a parameter, on the reading that zlib's CRC-32 was meant.
- The decoder uses `os` without importing it (scripts/decode_qr_video.py:29), so as written it fails at import. The model starts after that line.
- Reed–Solomon parity (`create_cross_frame_fec`, `recover_cross_frame_fec`) comes from a library and uses float arithmetic. On the encoder side the parity chunks are a parameter `fec`, which may raise: with more than 255 payload and parity chunks together the script indexes past its chunk list (scripts/encode_qr_video.py:116-117), and `EncodeVideo` then crashes. The model does not compute when this happens, because the block size comes from the library. On the decoder side, `QrDecode.Recovering` marks the hand-off and the recovery itself is not modelled.
- The round trip `QrDecode.DecodeRoundTrip` covers videos made without parity. With no parity chunk read, the decision as written and the data-only one agree (`QrDecode.PlansAgree`). With parity, the chunks passed to the wrapper are the library's zero-padded columns. Read from the code and not executed: parity is on by default, and the direct path then decrypts the envelope followed by the padding zeros, which AES-GCM rejects whenever there is more than one chunk and the envelope's length is not a multiple of 800.
- The decoder's JSON (the FEC info and the manifest) is a map of integers. Other JSON values, `json.loads` raising on a malformed manifest, and the FEC info's `fec_ratio` are not modelled.
- The obfuscation check (scripts/decode_qr_video.py:219-222) reads the file with no `try`: `QrDecode.CheckFile` says whether it is absent, unreadable or read, and an unreadable one ends the run with status 1. A readable one only prints a seed, which is not modelled.
- The private key's PEM check (scripts/decode_qr_video.py:249) is taken to always succeed once unprotecting succeeds.
- Cryptography (PBKDF2, AES-GCM, RSA key generation and OAEP) is not modelled; these are uninterpreted functions. The same goes for SHA-256, QR image generation and detection, PIL drawing, the obfuscation frame's random pattern, ffmpeg, temporary directories and the thread pool writing frames.
- The key-frame QR's capacity is not modelled.
- Argv.FecRatio: exact real arithmetic; `double` rounding is not modelled.
- Argv.RatioTextValue: states the digits of the exact ratio, not `String.valueOf(double)`'s own formatting rules.
- Records.RecordStore.UpdateById: finds the row by job id, not by the primary key `id`. Every caller loads the entity by job id and leaves its id and job id as loaded, so both keys pick the same row. Null columns are skipped, as under MyBatis-Plus's default field strategy.
- JavaText.EqualsIgnoreCase: folds ASCII letters only. Java's `equalsIgnoreCase` also folds other letters, so "manıfest" (dotless ı) and "manifeſt" (long s) equal "manifest" in Java but not in the model.
- Controller.SelectedPath: recognises "manifest" in ASCII letter case only, through `JavaText.EqualsIgnoreCase`.
- Controller.MediaTypeOf: the same ASCII-only recognition of "manifest".
- LegacyController.LegacyDownload: the same ASCII-only recognition of "manifest".
- CloudEncoder.Supports: recognises "CLOUD" in ASCII letter case only.
- JavaText.LowerAscii: lower-cases ASCII letters only. Python's `str.lower` also maps other characters and can change the length, as with "İ".
- QrEncode.Resolution: matches the preset names after ASCII-only lower-casing. Python would also map "4\u212A" (Kelvin sign) to "4k".
- QrEncode.EnableFecArg: the same ASCII-only lower-casing of the `--enable-fec` word.
- JavaText.ParseLong: accepts only ASCII digits after an optional sign; the other Unicode digits that `Long.parseLong` accepts are not modelled.
- `JobRegistry` has no `setProgress`, yet it is called at src/main/java/com/Charon/infrastructure/encoder/PythonScriptVideoEncoder.java:74 and src/main/java/com/Charon/service/VideoCodeService.java:116,150,170. The orchestrator records these calls as `Progress` effects in a ghost log, and `Environment.progressError` says which of them throw and with what message.
- ScriptEncoder.Encode: leaves out the `setProgress(jobId, 20, "ENCODING")` call, for the same reason.
- ScriptEncoder.Encode: models the normal return and the nonzero exit only. An `IOException` while reading the output or an `InterruptedException` from `waitFor` leaves the handle registered, because there is no `finally` (src/main/java/com/Charon/infrastructure/encoder/PythonScriptVideoEncoder.java:73-78); the model does not cover those paths.
- `PythonScriptVideoEncoder` does not implement `supports`, which src/main/java/com/Charon/service/port/VideoEncoder.java:15 requires. Each orchestrator `Encoder` therefore carries its `supports` answer as data.
- `SubmitJobCommand` has no `processingMode` (src/main/java/com/Charon/service/command/SubmitJobCommand.java:5-20), yet src/main/java/com/Charon/service/VideoCodeService.java:74 reads it. The model's command has the component. `Controller.Submission` leaves it absent, since the controller never sets it.
- `VideoEncodingRequest` has 16 components, but src/main/java/com/Charon/service/VideoCodeService.java:121-139 passes 17. `Orchestrator.RequestOf` drops the mode.
- The Charon controller calls `submit` with fourteen separate arguments (src/main/java/com/Charon/web/VideoCodeController.java:66-70), but the service takes a `SubmitJobCommand`. `Controller.Submission` builds the command from the same values.
- `downloadById` looks the record up by its auto-increment id through MyBatis `selectById`. Only the by-job-id lookup is modelled; `Controller.Download` covers both once the record is found.
- File-system work is not modelled: the copies of the uploads, `Files.size`, `RandomAccessFile` reads (except how much a read delivers), `deleteQuietly`'s walk and its swallowed errors, and the storage service's date directories. Deletion is the `WorkdirDeleted` effect.
- `Thread.sleep` and logging in the cloud encoder are not modelled.
- Decoding the captured log to a string is not modelled. The log stays as bytes, and `EncoderPort.Message` takes the decoding as a parameter.
- RateLimit.RateLimitFilter.Evict: stands for Caffeine's expire-after-access and size policy, which are not modelled; it may drop any entry at any time.
- Concurrency is not modelled: `ConcurrentHashMap`, the `synchronized` block, and the race between cancel and the worker. Every operation is sequential.
- In the legacy service, the working directory of the child (`c:\demo\lucasdemo`) is not modelled.
- The legacy controller's download by auto-increment id is not modelled, as in the current controller.
- With a null frame password, `ProcessBuilder.start` throws in the legacy service, and the inserted row stays PROCESSING. `LegacyService.OutcomeReports` states this case but does not model the exception's text.
- The security and web glue is not modelled: GlobalExceptionHandler, TraceIdFilter, AuthController, the RocketMQ transport and the consumer's catch-all.
- Progress percentages and stage labels are not modelled, since the registry has no such state.

## Findings

| source | as written | input that shows it | evidently intended | confidence | as-written member | corrected member |
|---|---|---|---|---|---|---|
| scripts/decode_qr_video.py:310 | recovery is attempted only when fewer chunks than `original_chunks` were read, counting parity chunks too | chunks {0, 2} read, original 2, total 3: two chunks count as enough, direct reassembly runs and exits on missing chunk 1 | count only the data indices below `original_chunks`, so a lost data chunk with parity present goes to recovery | medium, not executed | QrDecode.AsWrittenExits | QrDecode.IntendedRecovers |
