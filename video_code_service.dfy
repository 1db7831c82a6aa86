/** The job orchestration of src/main/java/com/Charon/service/VideoCodeService.java:
    `submit` records a PROCESSING job and publishes it; `executeJob`, on
    delivery, runs the first encoder that supports the job's mode, stores the
    artifacts and completes the record, or fails it, and removes the job's
    working directory. The repository is a `RecordStore`; the message queue,
    the storage service, the encoders and the clock are parameters. */
module Orchestrator {
  import opened Wrappers
  import opened Records
  import opened EncoderPort

  /** An uploaded multipart file: its original name and size in bytes. */
  datatype Upload = Upload(originalFilename: Option<string>, size: int)

  /** The submit command. `processingMode` is read by `submit` although the
      record declared in SubmitJobCommand.java has no such component. */
  datatype SubmitJobCommand = SubmitJobCommand(
    file: Upload,
    gridN: int,
    fps: int,
    resolution: Option<string>,
    width: Option<int>,
    height: Option<int>,
    enableFec: bool,
    fecParityPercent: Option<int>,
    passphrase: Option<string>,
    publicKeyHint: Option<string>,
    privateKeyFrameIndex: Option<int>,
    privateKeyFramePassword: Option<string>,
    obfuscationSeed: Option<int>,
    obfuscationFile: Option<Upload>,
    processingMode: Option<string>)

  /** The queued job (src/main/java/com/Charon/dto/JobMessage.java). */
  datatype JobMessage = JobMessage(
    jobId: string,
    jobDirPath: string,
    inputZipPath: string,
    obfArg: Option<string>,
    gridN: int,
    fps: int,
    resolution: Option<string>,
    enableFec: bool,
    fecParityPercent: Option<int>,
    passphrase: Option<string>,
    publicKeyHint: Option<string>,
    privateKeyFrameIndex: Option<int>,
    privateKeyFramePassword: Option<string>,
    width: Option<int>,
    height: Option<int>,
    processingMode: Option<string>)

  /** An encoder as the service sees it: which modes it supports and what
      `encode` does for this job, its log or the message of the exception it
      throws. */
  datatype Encoder = Encoder(supports: Option<string> -> bool, outcome: Result<string, Option<string>>)

  /** The outcomes of the collaborators `executeJob` calls after the encoder:
      `videoStored` and `manifestStored` are what `storage.store` returns (the
      stored path) or the message it throws, for the video under `<jid>.mp4`
      and for the manifest under `<jid>-manifest.json`,
      `videoSize` is `Files.size(outputVideo)`, `frames` is the manifest's
      "frames" value (`None` when absent or unparsable), and the two flags say
      whether `updateById` throws after `complete` and in the handler.
      `progressError(p)` is the message of the exception `setProgress(jid, p, …)`
      throws, or `None` when it returns. */
  datatype Environment = Environment(
    videoStored: Result<string, Option<string>>,
    manifestStored: Result<string, Option<string>>,
    progressError: int -> Option<Option<string>>,
    videoSize: int,
    frames: Option<int>,
    completeUpdateThrows: bool,
    updateError: Option<string>,
    failUpdateThrows: bool,
    now: Timestamp)

  /** Observable steps of a job, in order. `Progress` stands for a
      `setProgress` call, whether it returns or throws (the registry shown
      does not implement it); `Updated` is a write of the row and
      `UpdateThrew` a write that threw. */
  datatype Effect =
    | Progress(percent: int, stage: string)
    | Encoded(encoder: nat)
    | Stored(key: string, path: string)
    | Updated(row: RecordState)
    | UpdateThrew(row: RecordState)
    | WorkdirDeleted

  /** What one `executeJob` does to the store and the world. */
  datatype JobOutcome = JobOutcome(written: Option<RecordState>, effects: seq<Effect>, escaped: bool)

  const DefaultMode := "CPU"

  /** `Path.resolve` and `Path.of(dir, name)`, as text. */
  function Resolve(dir: string, name: string): string {
    dir + "/" + name
  }

  /** String concatenation of a possibly null string. */
  function ModeText(mode: Option<string>): string {
    if mode.Some? then mode.value else "null"
  }

  function NoEncoderMessage(mode: Option<string>): string {
    "No encoder found for mode: " + ModeText(mode)
  }

  function VideoKey(jobId: string): string { jobId + ".mp4" }
  function ManifestKey(jobId: string): string { jobId + "-manifest.json" }

  /** `stream().filter(e -> e.supports(mode)).findFirst()`: the index of the
      first encoder that supports the mode. */
  function FirstSupporting(encoders: seq<Encoder>, mode: Option<string>): (k: Option<nat>)
    ensures k.Some? ==> k.value < |encoders| && encoders[k.value].supports(mode)
    ensures k.Some? ==> forall j :: 0 <= j < k.value ==> !encoders[j].supports(mode)
    ensures k.None? ==> forall j :: 0 <= j < |encoders| ==> !encoders[j].supports(mode)
  {
    FirstFrom(encoders, mode, 0)
  }

  /** The scan behind `findFirst`: the first encoder from index `i` on
      that supports the mode. */
  function FirstFrom(encoders: seq<Encoder>, mode: Option<string>, i: nat): (k: Option<nat>)
    requires i <= |encoders|
    ensures k.Some? ==> i <= k.value < |encoders| && encoders[k.value].supports(mode)
    ensures k.Some? ==> forall j :: i <= j < k.value ==> !encoders[j].supports(mode)
    ensures k.None? ==> forall j :: i <= j < |encoders| ==> !encoders[j].supports(mode)
    decreases |encoders| - i
  {
    if i == |encoders| then None
    else if encoders[i].supports(mode) then Some(i)
    else FirstFrom(encoders, mode, i + 1)
  }

  /** The working-directory path of a job. */
  function JobDir(workdir: string, jobId: string): string {
    Resolve(workdir, jobId)
  }

  /** The obfuscation argument: the copied file's path when a non-empty
      obfuscation file was uploaded, otherwise null. */
  function ObfArg(cmd: SubmitJobCommand, jobDir: string): (a: Option<string>)
    ensures a.Some? <==> cmd.obfuscationFile.Some? && cmd.obfuscationFile.value.size != 0
    ensures a.Some? ==> a.value == Resolve(jobDir, "obfuscation.bin")
  {
    if cmd.obfuscationFile.Some? && cmd.obfuscationFile.value.size != 0
    then Some(Resolve(jobDir, "obfuscation.bin")) else None
  }

  /** The processing mode the job runs in: the requested one, or "CPU". */
  function EffectiveMode(cmd: SubmitJobCommand): string {
    if cmd.processingMode.Some? then cmd.processingMode.value else DefaultMode
  }

  /** The row `submit` inserts (before the store assigns its id). */
  function SubmittedRecord(cmd: SubmitJobCommand, jobId: string, now: Timestamp): RecordState {
    FreshRecord(now).(
      jobId := Some(jobId),
      originalFileName := cmd.file.originalFilename,
      originalFileSize := Some(cmd.file.size),
      gridN := Some(cmd.gridN),
      fps := Some(cmd.fps),
      resolution := cmd.resolution,
      enableFec := Some(cmd.enableFec),
      fecParityPercent := cmd.fecParityPercent,
      publicKeyHint := cmd.publicKeyHint,
      privateKeyFrameIndex := cmd.privateKeyFrameIndex,
      obfuscationSeed := cmd.obfuscationSeed,
      processingMode := Some(EffectiveMode(cmd)),
      status := PROCESSING,
      createdAt := Some(now))
  }

  /** The message `submit` publishes. */
  function SubmittedMessage(cmd: SubmitJobCommand, jobId: string, workdir: string): JobMessage {
    var jobDir := JobDir(workdir, jobId);
    JobMessage(jobId, jobDir, Resolve(jobDir, "input.zip"), ObfArg(cmd, jobDir),
               cmd.gridN, cmd.fps, cmd.resolution, cmd.enableFec, cmd.fecParityPercent,
               cmd.passphrase, cmd.publicKeyHint, cmd.privateKeyFrameIndex,
               cmd.privateKeyFramePassword, cmd.width, cmd.height, Some(EffectiveMode(cmd)))
  }

  /** The record and the message of one submission describe the same job:
      same id, same encoding parameters, same mode, and the record starts
      out PROCESSING. */
  lemma SubmissionConsistent(cmd: SubmitJobCommand, jobId: string, workdir: string, now: Timestamp)
    ensures var r := SubmittedRecord(cmd, jobId, now);
            var m := SubmittedMessage(cmd, jobId, workdir);
            && r.status == PROCESSING && r.jobId == Some(m.jobId)
            && r.processingMode == m.processingMode
            && (cmd.processingMode.None? ==> m.processingMode == Some("CPU"))
            && (cmd.processingMode.Some? ==> m.processingMode == cmd.processingMode)
            && r.gridN == Some(m.gridN) && r.fps == Some(m.fps) && r.resolution == m.resolution
            && r.enableFec == Some(m.enableFec) && r.fecParityPercent == m.fecParityPercent
            && r.publicKeyHint == m.publicKeyHint && r.privateKeyFrameIndex == m.privateKeyFrameIndex
  {
  }

  /** The encoding request `executeJob` builds from a message. */
  function RequestOf(msg: JobMessage): VideoEncodingRequest {
    VideoEncodingRequest(msg.jobId, msg.inputZipPath, Resolve(msg.jobDirPath, "output.mp4"),
                         Resolve(msg.jobDirPath, "manifest.json"), msg.obfArg, msg.gridN, msg.fps,
                         msg.resolution, msg.width, msg.height, msg.enableFec, msg.fecParityPercent,
                         msg.passphrase, msg.publicKeyHint, msg.privateKeyFrameIndex,
                         msg.privateKeyFramePassword)
  }

  /** The `catch` block: fail the record and write it; if that write throws
      too, the exception leaves `executeJob` and the directory stays.
      `prior` is the row the `try` block already wrote, if any. */
  function Handle(rec: RecordState, message: Option<string>, effects: seq<Effect>, prior: Option<RecordState>,
                  env: Environment): (o: JobOutcome)
    ensures o.escaped <==> env.failUpdateThrows
    ensures o.escaped ==> o.written == prior && o.effects == effects
    ensures !o.escaped ==> o.written.Some?
    ensures !o.escaped ==> o.written.value.status == FAILED && o.written.value.errorMessage == message
    ensures !o.escaped ==> o.written.value.jobId == rec.jobId && SameInputs(o.written.value, rec)
    ensures |o.effects| >= |effects| && o.effects[..|effects|] == effects
    ensures !o.escaped ==> o.effects[|effects|..] == [Updated(o.written.value), WorkdirDeleted]
  {
    var failed := Failed(rec, message, env.now);
    if env.failUpdateThrows then JobOutcome(prior, effects, true)
    else JobOutcome(Some(failed), effects + [Updated(failed), WorkdirDeleted], false)
  }

  /** Where the `try` block of `executeJob` stops: the entity as it then
      is, the effects so far, the row it already wrote (the COMPLETED one,
      when only `setProgress(jid, 100, "DONE")` threw after it), and the
      message of the exception thrown, if one was. */
  datatype Attempt = Attempt(rec: RecordState, effects: seq<Effect>, prior: Option<RecordState>,
                             failure: Option<Option<string>>)

  /** The `try` block of `executeJob` for a message whose record is `row`. */
  function Tried(row: RecordState, msg: JobMessage, encoders: seq<Encoder>, env: Environment): (t: Attempt)
    ensures |t.effects| > 0 && t.effects[0] == Progress(5, "SAVED_INPUT")
    ensures t.rec.jobId == row.jobId && t.rec.id == row.id && SameInputs(t.rec, row)
    ensures t.prior.Some? ==> t.prior.value == t.rec && t.rec.status == COMPLETED
    ensures t.failure.None? ==> t.prior == Some(t.rec) && t.effects[|t.effects| - 1] == WorkdirDeleted
    ensures t.failure.Some? ==> WorkdirDeleted !in t.effects
    ensures t.failure.Some? && t.prior.Some? ==> t.effects[|t.effects| - 1] == Progress(100, "DONE")
  {
    var e0 := [Progress(5, "SAVED_INPUT")];
    var k := FirstSupporting(encoders, msg.processingMode);
    if env.progressError(5).Some? then Attempt(row, e0, None, env.progressError(5))
    else if k.None? then Attempt(row, e0, None, Some(Some(NoEncoderMessage(msg.processingMode))))
    else
      var e1 := e0 + [Encoded(k.value)];
      match encoders[k.value].outcome
      case Failure(m) => Attempt(row, e1, None, Some(m))
      case Success(_) =>
        var e2 := e1 + [Progress(60, "PERSISTING")];
        if env.progressError(60).Some? then Attempt(row, e2, None, env.progressError(60))
        else match env.videoStored
        case Failure(m) => Attempt(row, e2, None, Some(m))
        case Success(videoPath) =>
          var e3 := e2 + [Stored(VideoKey(msg.jobId), videoPath)];
          match env.manifestStored
          case Failure(m) => Attempt(row, e3, None, Some(m))
          case Success(manifestPath) =>
            var e4 := e3 + [Stored(ManifestKey(msg.jobId), manifestPath)];
            var done := Completed(row, Some(videoPath), Some(manifestPath), Some(env.videoSize), env.frames, env.now);
            if env.completeUpdateThrows then Attempt(done, e4 + [UpdateThrew(done)], None, Some(env.updateError))
            else
              var e5 := e4 + [Updated(done), Progress(100, "DONE")];
              if env.progressError(100).Some? then Attempt(done, e5, Some(done), env.progressError(100))
              else Attempt(done, e5 + [WorkdirDeleted], Some(done), None)
  }

  /** `executeJob` for a message whose record is `row`: the `try` block,
      then the `catch` block when it threw. */
  function Run(row: RecordState, msg: JobMessage, encoders: seq<Encoder>, env: Environment): (o: JobOutcome)
    ensures |o.effects| > 0 && o.effects[0] == Progress(5, "SAVED_INPUT")
    ensures o.written.None? ==> o.escaped
    ensures o.escaped && o.written.Some? ==>
              o.written.value.status == COMPLETED && o.effects[|o.effects| - 1] == Progress(100, "DONE")
    ensures o.written.Some? ==> o.written.value.status != PROCESSING
    ensures o.written.Some? ==> o.written.value.jobId == row.jobId && o.written.value.id == row.id
    ensures o.written.Some? ==> SameInputs(o.written.value, row)
  {
    var t := Tried(row, msg, encoders, env);
    if t.failure.Some? then Handle(t.rec, t.failure.value, t.effects, t.prior, env)
    else JobOutcome(t.prior, t.effects, false)
  }

  /** On the success path both artifacts are stored under the job's keys and
      the written row is the completed record with their paths, the video
      size and the frame count; the directory is removed. */
  lemma RunSuccess(row: RecordState, msg: JobMessage, encoders: seq<Encoder>, env: Environment,
                   k: nat, videoPath: string, manifestPath: string)
    requires FirstSupporting(encoders, msg.processingMode) == Some(k)
    requires encoders[k].outcome.Success?
    requires env.videoStored == Success(videoPath)
    requires env.manifestStored == Success(manifestPath)
    requires env.progressError(5).None? && env.progressError(60).None? && env.progressError(100).None?
    requires !env.completeUpdateThrows
    ensures var o := Run(row, msg, encoders, env);
            && !o.escaped && o.written.Some?
            && o.written.value.status == COMPLETED
            && o.written.value.storagePath == Some(videoPath)
            && o.written.value.manifestPath == Some(manifestPath)
            && o.written.value.outputVideoSize == Some(env.videoSize)
            && o.written.value.outputFrameCount == env.frames
            && o.written.value.errorMessage == row.errorMessage
            && Encoded(k) in o.effects
            && Stored(VideoKey(msg.jobId), videoPath) in o.effects
            && Stored(ManifestKey(msg.jobId), manifestPath) in o.effects
            && o.effects[|o.effects| - 1] == WorkdirDeleted
  {
  }

  /** With no supporting encoder, nothing is encoded or stored and the
      record is failed with a message naming the mode ("null" for none). */
  lemma RunNoEncoder(row: RecordState, msg: JobMessage, encoders: seq<Encoder>, env: Environment)
    requires forall j :: 0 <= j < |encoders| ==> !encoders[j].supports(msg.processingMode)
    requires env.progressError(5).None? && !env.failUpdateThrows
    ensures var o := Run(row, msg, encoders, env);
            && o.written == Some(Failed(row, Some(NoEncoderMessage(msg.processingMode)), env.now))
            && o.effects == [Progress(5, "SAVED_INPUT"), Updated(o.written.value), WorkdirDeleted]
  {
  }

  /** An exception from the encoder is caught: the record is failed with
      its message, nothing is stored, and the directory is removed. */
  lemma RunEncoderFailure(row: RecordState, msg: JobMessage, encoders: seq<Encoder>, env: Environment,
                          k: nat, m: Option<string>)
    requires FirstSupporting(encoders, msg.processingMode) == Some(k)
    requires encoders[k].outcome == Failure(m)
    requires env.progressError(5).None? && !env.failUpdateThrows
    ensures var o := Run(row, msg, encoders, env);
            && !o.escaped && o.written == Some(Failed(row, m, env.now))
            && o.effects == [Progress(5, "SAVED_INPUT"), Encoded(k), Updated(o.written.value), WorkdirDeleted]
            && forall e :: e in o.effects ==> !e.Stored?
  {
    TriedEncoderFailure(row, msg, encoders, env, k, m);
  }

  /** The `try` block when the encoder throws: it stops right after the
      encoder run. */
  lemma TriedEncoderFailure(row: RecordState, msg: JobMessage, encoders: seq<Encoder>, env: Environment,
                            k: nat, m: Option<string>)
    requires FirstSupporting(encoders, msg.processingMode) == Some(k)
    requires encoders[k].outcome == Failure(m)
    requires env.progressError(5).None?
    ensures Tried(row, msg, encoders, env) == Attempt(row, [Progress(5, "SAVED_INPUT"), Encoded(k)], None, Some(m))
  {
  }

  /** An exception from storing the video is caught: the record is failed
      with its message and keeps the paths it had, nothing is stored, and
      the directory is removed last. */
  lemma RunVideoStoreFailure(row: RecordState, msg: JobMessage, encoders: seq<Encoder>, env: Environment,
                             k: nat, m: Option<string>)
    requires FirstSupporting(encoders, msg.processingMode) == Some(k)
    requires encoders[k].outcome.Success?
    requires env.videoStored == Failure(m)
    requires env.progressError(5).None? && env.progressError(60).None? && !env.failUpdateThrows
    ensures var o := Run(row, msg, encoders, env);
            && !o.escaped && o.written == Some(Failed(row, m, env.now))
            && o.written.value.storagePath == row.storagePath && o.written.value.manifestPath == row.manifestPath
            && o.effects == [Progress(5, "SAVED_INPUT"), Encoded(k), Progress(60, "PERSISTING"),
                             Updated(o.written.value), WorkdirDeleted]
  {
  }

  /** An exception from storing the manifest is caught: the video stays
      stored, but the record is failed with the message and keeps the paths
      it had; the manifest is not stored, and the directory is removed
      last. */
  lemma RunManifestStoreFailure(row: RecordState, msg: JobMessage, encoders: seq<Encoder>, env: Environment,
                                k: nat, videoPath: string, m: Option<string>)
    requires FirstSupporting(encoders, msg.processingMode) == Some(k)
    requires encoders[k].outcome.Success?
    requires env.videoStored == Success(videoPath)
    requires env.manifestStored == Failure(m)
    requires env.progressError(5).None? && env.progressError(60).None? && !env.failUpdateThrows
    ensures var o := Run(row, msg, encoders, env);
            && !o.escaped && o.written == Some(Failed(row, m, env.now))
            && o.written.value.storagePath == row.storagePath && o.written.value.manifestPath == row.manifestPath
            && o.effects == [Progress(5, "SAVED_INPUT"), Encoded(k), Progress(60, "PERSISTING"),
                             Stored(VideoKey(msg.jobId), videoPath), Updated(o.written.value), WorkdirDeleted]
  {
  }

  /** An exception from `updateById` after `complete` is caught like any
      other: the row written is FAILED but keeps the stored paths. */
  lemma RunFailAfterComplete(row: RecordState, msg: JobMessage, encoders: seq<Encoder>, env: Environment,
                             k: nat, videoPath: string, manifestPath: string)
    requires FirstSupporting(encoders, msg.processingMode) == Some(k)
    requires encoders[k].outcome.Success?
    requires env.videoStored == Success(videoPath)
    requires env.manifestStored == Success(manifestPath)
    requires env.progressError(5).None? && env.progressError(60).None?
    requires env.completeUpdateThrows && !env.failUpdateThrows
    ensures var o := Run(row, msg, encoders, env);
            && o.written.Some? && o.written.value.status == FAILED
            && o.written.value.errorMessage == env.updateError
            && o.written.value.storagePath == Some(videoPath)
            && o.written.value.manifestPath == Some(manifestPath)
  {
    FailAfterComplete(row, Some(videoPath), Some(manifestPath), Some(env.videoSize), env.frames,
                      env.updateError, env.now, env.now);
  }

  /** An exception from `setProgress(jid, 100, "DONE")`, after the
      COMPLETED row was written, is caught too: the row is written again,
      FAILED with its message but keeping the stored paths, and only then
      is the directory removed. */
  lemma RunDoneProgressFailure(row: RecordState, msg: JobMessage, encoders: seq<Encoder>, env: Environment,
                               k: nat, videoPath: string, manifestPath: string, m: Option<string>)
    requires FirstSupporting(encoders, msg.processingMode) == Some(k)
    requires encoders[k].outcome.Success?
    requires env.videoStored == Success(videoPath) && env.manifestStored == Success(manifestPath)
    requires env.progressError(5).None? && env.progressError(60).None? && env.progressError(100) == Some(m)
    requires !env.completeUpdateThrows && !env.failUpdateThrows
    ensures var done := Completed(row, Some(videoPath), Some(manifestPath), Some(env.videoSize), env.frames, env.now);
            var o := Run(row, msg, encoders, env);
            && !o.escaped && o.written == Some(Failed(done, m, env.now))
            && o.written.value.status == FAILED && o.written.value.errorMessage == m
            && o.written.value.storagePath == Some(videoPath)
            && o.written.value.manifestPath == Some(manifestPath)
            && o.effects == [Progress(5, "SAVED_INPUT"), Encoded(k), Progress(60, "PERSISTING"),
                             Stored(VideoKey(msg.jobId), videoPath), Stored(ManifestKey(msg.jobId), manifestPath),
                             Updated(done), Progress(100, "DONE"), Updated(o.written.value), WorkdirDeleted]
  {
    TriedDoneProgressFailure(row, msg, encoders, env, k, videoPath, manifestPath, m);
  }

  /** The `try` block when only `setProgress(jid, 100, "DONE")` throws: it
      stops after that call, with the COMPLETED row written. */
  lemma TriedDoneProgressFailure(row: RecordState, msg: JobMessage, encoders: seq<Encoder>, env: Environment,
                               k: nat, videoPath: string, manifestPath: string, m: Option<string>)
    requires FirstSupporting(encoders, msg.processingMode) == Some(k)
    requires encoders[k].outcome.Success?
    requires env.videoStored == Success(videoPath) && env.manifestStored == Success(manifestPath)
    requires env.progressError(5).None? && env.progressError(60).None? && env.progressError(100) == Some(m)
    requires !env.completeUpdateThrows && !env.failUpdateThrows
    ensures var done := Completed(row, Some(videoPath), Some(manifestPath), Some(env.videoSize), env.frames, env.now);
            Tried(row, msg, encoders, env) ==
            Attempt(done, [Progress(5, "SAVED_INPUT"), Encoded(k), Progress(60, "PERSISTING"),
                           Stored(VideoKey(msg.jobId), videoPath), Stored(ManifestKey(msg.jobId), manifestPath),
                           Updated(done), Progress(100, "DONE")], Some(done), Some(m))
  {
  }

  /** The working directory is deleted exactly when no exception escapes.
      One escapes only when the handler's own write throws, and then the
      only row written is the COMPLETED one, when `setProgress(jid, 100,
      "DONE")` had thrown after it. */
  lemma RunCleanup(row: RecordState, msg: JobMessage, encoders: seq<Encoder>, env: Environment)
    ensures var o := Run(row, msg, encoders, env);
            && (WorkdirDeleted in o.effects <==> !o.escaped)
            && (o.escaped ==> env.failUpdateThrows)
            && (o.escaped && o.written.Some? ==> env.progressError(100).Some?)
            && (!o.escaped ==> o.written.Some? && o.effects[|o.effects| - 1] == WorkdirDeleted)
  {
    var t := Tried(row, msg, encoders, env);
    if t.failure.Some? {
      HandleCleanup(t.rec, t.failure.value, t.effects, t.prior, env);
    }
  }

  /** The catch block deletes the directory, as its last step, exactly when
      its own write does not throw. */
  lemma HandleCleanup(rec: RecordState, message: Option<string>, effects: seq<Effect>, prior: Option<RecordState>,
                      env: Environment)
    requires WorkdirDeleted !in effects
    ensures var o := Handle(rec, message, effects, prior, env);
            && (WorkdirDeleted in o.effects <==> !o.escaped)
            && (!o.escaped ==> o.effects[|o.effects| - 1] == WorkdirDeleted)
  {
  }

  /** `executeJob` never looks at the record's status: a redelivered
      message for a COMPLETED or FAILED job runs the encoder again and
      writes the same row as for a PROCESSING one. */
  lemma RunIgnoresStatus(row: RecordState, msg: JobMessage, encoders: seq<Encoder>, env: Environment,
                         s1: ProcessStatus, s2: ProcessStatus)
    ensures Run(row.(status := s1), msg, encoders, env) == Run(row.(status := s2), msg, encoders, env)
  {
    var t1, t2 := Tried(row.(status := s1), msg, encoders, env), Tried(row.(status := s2), msg, encoders, env);
    TriedIgnoresStatus(row, msg, encoders, env, s1, s2);
    if t1.failure.Some? {
      var m := t1.failure.value;
      TransitionsIgnoreStatus(row, s1, s2, None, None, None, None, m, env.now);
      assert Failed(t1.rec, m, env.now) == Failed(t2.rec, m, env.now);
    }
  }

  /** The `try` block reads the status nowhere: it stops at the same point
      with the same effects, and the entity differs at most by the status
      it was loaded with. */
  lemma TriedIgnoresStatus(row: RecordState, msg: JobMessage, encoders: seq<Encoder>, env: Environment,
                           s1: ProcessStatus, s2: ProcessStatus)
    ensures var t1, t2 := Tried(row.(status := s1), msg, encoders, env), Tried(row.(status := s2), msg, encoders, env);
            && t1.effects == t2.effects && t1.prior == t2.prior && t1.failure == t2.failure
            && (t1.rec == t2.rec || (t1.rec == row.(status := s1) && t2.rec == row.(status := s2)))
  {
    var k := FirstSupporting(encoders, msg.processingMode);
    if env.progressError(5).None? && k.Some? && encoders[k.value].outcome.Success? && env.progressError(60).None? {
      var videoPath := env.videoStored;
      var manifestPath := env.manifestStored;
      if videoPath.Success? && manifestPath.Success? {
        TransitionsIgnoreStatus(row, s1, s2, Some(videoPath.value), Some(manifestPath.value), Some(env.videoSize), env.frames, None, env.now);
      }
    }
  }

  /** Writing a key twice leaves the second value. */
  lemma OverwriteTwice<K, V>(m: map<K, V>, k: K, a: V, b: V)
    ensures m[k := a][k := b] == m[k := b]
  {
  }

  /** What `submit` can fail on: the file copies (after the job directory
      is created), the insert, the publish. */
  datatype SubmitFaults = SubmitFaults(io: Option<string>, insert: Option<string>, publish: Option<string>)

  /** The service with its repository, the queue it publishes to, and the
      job directories on disk. */
  class VideoCodeService {
    const repo: RecordStore
    const workdir: string
    const encoders: seq<Encoder>
    var queue: seq<JobMessage>
    var dirs: set<string>

    constructor (repo: RecordStore, workdir: string, encoders: seq<Encoder>)
      ensures this.repo == repo && this.workdir == workdir && this.encoders == encoders
      ensures queue == [] && dirs == {}
    {
      this.repo := repo;
      this.workdir := workdir;
      this.encoders := encoders;
      queue := [];
      dirs := {};
    }

    /** `submit(cmd)`: `jobId` is the random UUID and `now` the clock. The
        result is the response map's "jobId" or the exception's message. */
    method Submit(cmd: SubmitJobCommand, jobId: string, now: Timestamp, faults: SubmitFaults)
      returns (r: Result<string, Option<string>>)
      requires repo.Valid()
      modifies this, repo
      ensures repo.Valid()
      ensures faults.io.Some? ==> r == Failure(faults.io) && repo.rows == old(repo.rows) && queue == old(queue)
      ensures dirs == old(dirs) + {JobDir(workdir, jobId)}
      ensures faults.io.None? && faults.insert.Some? ==>
                r == Failure(faults.insert) && repo.rows == old(repo.rows) && queue == old(queue)
      ensures faults.io.None? && faults.insert.None? ==>
                repo.rows == old(repo.rows)[jobId := SubmittedRecord(cmd, jobId, now).(id := Some(old(repo.nextId)))]
      ensures faults.io.None? && faults.insert.None? && faults.publish.Some? ==>
                r == Failure(faults.publish) && queue == old(queue)
      ensures faults.io.None? && faults.insert.None? && faults.publish.None? ==>
                r == Success(jobId) && queue == old(queue) + [SubmittedMessage(cmd, jobId, workdir)]
    {
      var jobDir := JobDir(workdir, jobId);
      dirs := dirs + {jobDir};
      if faults.io.Some? {
        return Failure(faults.io);
      }
      var obfArg := ObfArg(cmd, jobDir);

      // The entity populated by its setters, as one value.
      var vr := new VideoRecord.Load(SubmittedRecord(cmd, jobId, now));
      if faults.insert.Some? {
        return Failure(faults.insert);
      }
      repo.Insert(vr);

      var msg := JobMessage(jobId, jobDir, Resolve(jobDir, "input.zip"), obfArg, cmd.gridN, cmd.fps,
                            cmd.resolution, cmd.enableFec, cmd.fecParityPercent, cmd.passphrase,
                            cmd.publicKeyHint, cmd.privateKeyFrameIndex, cmd.privateKeyFramePassword,
                            cmd.width, cmd.height, Some(EffectiveMode(cmd)));
      if faults.publish.Some? {
        return Failure(faults.publish);
      }
      queue := queue + [msg];
      return Success(jobId);
    }

    /** `executeJob(msg)`. `escaped` says whether an exception leaves the
        method (only when the handler's own `updateById` throws). */
    method ExecuteJob(msg: JobMessage, env: Environment) returns (ghost effects: seq<Effect>, escaped: bool)
      requires repo.Valid()
      modifies repo
      ensures repo.Valid()
      ensures msg.jobId !in old(repo.rows) ==> repo.rows == old(repo.rows) && effects == [] && !escaped
      ensures msg.jobId in old(repo.rows) ==>
                var o := Run(old(repo.rows[msg.jobId]), msg, encoders, env);
                && effects == o.effects && escaped == o.escaped
                && repo.rows == (if o.written.Some? then old(repo.rows)[msg.jobId := Merged(old(repo.rows[msg.jobId]), o.written.value)] else old(repo.rows))
    {
      var jid := msg.jobId;
      var found := repo.FindByJobId(jid);
      if found.None? {
        return [], false;
      }
      var vr := new VideoRecord.Load(found.value);
      ghost var row := found.value;
      ghost var before := repo.rows;
      assert vr.jobId == Some(jid);
      var failure;
      ghost var prior;
      failure, effects, prior := TryJob(msg, env, vr, row);
      ghost var o := Run(row, msg, encoders, env);
      ghost var tried := repo.rows;
      if failure.Some? {
        assert o == Handle(vr.View(), failure.value, effects, prior, env);
        ghost var failed := Failed(vr.View(), failure.value, env.now);
        vr.Fail(failure.value, env.now);
        if env.failUpdateThrows {
          assert o.written == prior && o.effects == effects;
          return effects, true;
        }
        assert o.written == Some(failed) && vr.View() == failed;
        repo.UpdateById(vr);
        assert Merged(tried[jid], failed) == Merged(row, failed);
        if prior.Some? {
          OverwriteTwice(before, jid, Merged(row, prior.value), Merged(row, failed));
        }
        effects := effects + [Updated(vr.View()), WorkdirDeleted];
      } else {
        assert o.written == prior && prior.Some?;
      }
      escaped := false;
    }

    /** The `try` block of `executeJob` on the loaded entity `vr`: the
        effects so far and, when something threw, the exception's message.
        A failure after the COMPLETED row was written leaves that row
        stored, and the handler's write then lands as if over `row`. */
    method TryJob(msg: JobMessage, env: Environment, vr: VideoRecord, ghost row: RecordState)
      returns (failure: Option<Option<string>>, ghost effects: seq<Effect>, ghost prior: Option<RecordState>)
      requires repo.Valid() && msg.jobId in repo.rows && repo.rows[msg.jobId] == row
      requires vr.View() == row && vr.jobId == Some(msg.jobId)
      modifies repo, vr
      ensures repo.Valid() && vr.jobId == Some(msg.jobId)
      ensures repo.rows == (if prior.Some? then old(repo.rows)[msg.jobId := Merged(row, prior.value)] else old(repo.rows))
      ensures Tried(row, msg, encoders, env) == Attempt(vr.View(), effects, prior, failure)
      ensures failure.Some? ==>
                Merged(repo.rows[msg.jobId], Failed(vr.View(), failure.value, env.now))
                == Merged(row, Failed(vr.View(), failure.value, env.now))
    {
      var jid := msg.jobId;
      failure, prior := None, None;
      effects := [Progress(5, "SAVED_INPUT")];
      var request := RequestOf(msg);
      var k := FirstSupporting(encoders, msg.processingMode);
      if env.progressError(5).Some? {
        failure := env.progressError(5);
      } else if k.None? {
        failure := Some(Some(NoEncoderMessage(msg.processingMode)));
      } else {
        effects := effects + [Encoded(k.value)];
        var encoded := encoders[k.value].outcome;
        if encoded.Failure? {
          failure := Some(encoded.error);
        } else {
          effects := effects + [Progress(60, "PERSISTING")];
          var videoStored := env.videoStored;
          if env.progressError(60).Some? {
            failure := env.progressError(60);
          } else if videoStored.Failure? {
            failure := Some(videoStored.error);
          } else {
            effects := effects + [Stored(VideoKey(jid), videoStored.value)];
            var manifestStored := env.manifestStored;
            if manifestStored.Failure? {
              failure := Some(manifestStored.error);
            } else {
              effects := effects + [Stored(ManifestKey(jid), manifestStored.value)];
              vr.Complete(Some(videoStored.value), Some(manifestStored.value), Some(env.videoSize), env.frames, env.now);
              if env.completeUpdateThrows {
                effects := effects + [UpdateThrew(vr.View())];
                failure := Some(env.updateError);
              } else {
                repo.UpdateById(vr);
                prior := Some(vr.View());
                effects := effects + [Updated(vr.View()), Progress(100, "DONE")];
                if env.progressError(100).Some? {
                  failure := env.progressError(100);
                  MergedFailOverComplete(row, Some(videoStored.value), Some(manifestStored.value), Some(env.videoSize),
                                         env.frames, failure.value, env.now);
                } else {
                  effects := effects + [WorkdirDeleted];
                }
              }
            }
          }
        }
      }
    }
  }
}
