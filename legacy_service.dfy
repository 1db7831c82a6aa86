/** The synchronous encoder of the earlier application,
    src/main/java/com/lucas/lucasdemo/service/VideoCodeService.java: `process`
    records a PROCESSING job, runs the script in the request thread, and
    maps the exit code to a FAILED or COMPLETED record and a result map. */
module LegacyService {
  import opened Wrappers
  import opened JavaText
  import opened Argv
  import opened EncoderPort
  import opened Records
  import opened Orchestrator
  import ScriptEncoder

  /** `Path.of("scripts", "encode_qr_video.py").toString()` on a '/' system. */
  const ScriptPath := "scripts/encode_qr_video.py"

  /** The encoding parameters of a `process` call, in the shape the script
      encoder of the current application takes them. */
  function RequestFor(cmd: SubmitJobCommand, jobId: string, jobDir: string): (req: VideoEncodingRequest)
    ensures req.obfPath == ObfArg(cmd, jobDir)
  {
    VideoEncodingRequest(jobId, Resolve(jobDir, "input.zip"), Resolve(jobDir, "output.mp4"),
                         Resolve(jobDir, "manifest.json"), ObfArg(cmd, jobDir), cmd.gridN, cmd.fps,
                         cmd.resolution, cmd.width, cmd.height, cmd.enableFec, cmd.fecParityPercent,
                         cmd.passphrase, cmd.publicKeyHint, cmd.privateKeyFrameIndex,
                         cmd.privateKeyFramePassword)
  }

  /** The command: the words given to the `ProcessBuilder` constructor,
      where `--privkey-frame-pass` is always present, then the optional
      `--width`/`--height` and `--obfuscation` pairs. */
  function LegacyCommand(req: VideoEncodingRequest, pythonCmd: string): Words {
    [Some(pythonCmd), Some(ScriptPath)]
    + (ScriptEncoder.MandatoryArgs(req) + Pair("--privkey-frame-pass", req.privateKeyFramePassword))
    + ScriptEncoder.SizeArgs(req) + ScriptEncoder.ObfArgs(req)
  }

  /** Builds the command as `process` does: the constructor's word list,
      then `pb.command().add` for the optional pairs. */
  method BuildLegacyCommand(req: VideoEncodingRequest, pythonCmd: string) returns (words: Words)
    ensures words == LegacyCommand(req, pythonCmd)
  {
    var frame := if req.privateKeyFrameIndex.None? then "0" else IntToString(req.privateKeyFrameIndex.value);
    var leading := Pair("--input", Some(req.inputZip))
                   + Pair("--output", Some(req.outputVideo))
                   + Pair("--manifest", Some(req.manifestJson))
                   + Pair("--grid", Some(IntToString(req.gridN)))
                   + Pair("--fps", Some(IntToString(req.fps)))
                   + Pair("--resolution", req.resolution);
    var trailing := Pair("--enable-fec", Some(BoolText(req.enableFec)))
                    + Pair("--fec-ratio", Some(RatioText(req.fecParityPercent)))
                    + Pair("--passphrase", req.passphrase)
                    + Pair("--pubkey-hint", req.publicKeyHint)
                    + Pair("--privkey-frame", Some(frame));
    assert leading == ScriptEncoder.LeadingArgs(req);
    assert trailing == ScriptEncoder.TrailingArgs(req);
    words := [Some(pythonCmd), Some(ScriptPath)]
             + (leading + trailing + Pair("--privkey-frame-pass", req.privateKeyFramePassword));
    if req.width.Some? && req.height.Some? {
      words := words + (Pair("--width", Some(IntToString(req.width.value))) + Pair("--height", Some(IntToString(req.height.value))));
    } else {
      assert words == words + [];
    }
    if req.obfPath.Some? {
      words := words + Pair("--obfuscation", req.obfPath);
    } else {
      assert words == words + [];
    }
  }

  /** With a private-key-frame password the two applications run the same
      command; without one the earlier passes a null word, which
      `ProcessBuilder.start` refuses, where the current one omits the pair. */
  lemma LegacyAgreesWithCurrent(req: VideoEncodingRequest, pythonCmd: string)
    ensures req.privateKeyFramePassword.Some? ==>
              LegacyCommand(req, pythonCmd) == [Some(pythonCmd), Some(ScriptPath)] + ScriptEncoder.CommandArgs(req)
    ensures NoNull(LegacyCommand(req, pythonCmd)) <==>
              ScriptEncoder.Startable(req) && req.privateKeyFramePassword.Some?
  {
    var m := ScriptEncoder.MandatoryArgs(req);
    var p := Pair("--privkey-frame-pass", req.privateKeyFramePassword);
    var z := ScriptEncoder.SizeArgs(req);
    var o := ScriptEncoder.ObfArgs(req);
    ScriptEncoder.CommandNoNull(req, pythonCmd, ScriptPath);
    NoNullPair("--privkey-frame-pass", req.privateKeyFramePassword);
    var head: Words := [Some(pythonCmd), Some(ScriptPath)];
    NoNullAppend(head, m + p + z + o);
    NoNullAppend(m, p);
    NoNullAppend(m + p, z);
    NoNullAppend(m + p + z, o);
    NoNullAppend(head, m + ScriptEncoder.PassArgs(req) + z + o);
    NoNullAppend(m, ScriptEncoder.PassArgs(req));
    NoNullAppend(m + ScriptEncoder.PassArgs(req), z);
    NoNullAppend(m + ScriptEncoder.PassArgs(req) + z, o);
    assert LegacyCommand(req, pythonCmd) == head + (m + p + z + o);
  }

  /** The row `process` inserts before starting the child. */
  function LegacyRecord(cmd: SubmitJobCommand, jobId: string, now: Timestamp): (r: RecordState)
    ensures r.status == PROCESSING && r.jobId == Some(jobId) && r.processingMode.None?
  {
    FreshRecord(now).(
      jobId := Some(jobId),
      originalFileName := cmd.file.originalFilename,
      originalFileSize := Some(cmd.file.size),
      gridN := Some(cmd.gridN),
      fps := Some(cmd.fps),
      resolution := cmd.resolution,
      enableFec := Some(cmd.enableFec),
      fecParityPercent := cmd.fecParityPercent,
      publicKeyHint := cmd.publicKeyHint,
      privateKeyFrameIndex := cmd.privateKeyFrameIndex,
      obfuscationSeed := cmd.obfuscationSeed,
      status := PROCESSING,
      createdAt := Some(now))
  }

  /** A nonzero exit: FAILED with the whole log as message; no completion
      time is set and no artifact stored. */
  function ExitFailed(r: RecordState, log: string): (f: RecordState)
    ensures f.status == FAILED && f.errorMessage == Some(log)
    ensures f.completedAt == r.completedAt && f.storagePath == r.storagePath && f.manifestPath == r.manifestPath
    ensures SameInputs(f, r) && f.jobId == r.jobId && f.id == r.id
  {
    r.(status := FAILED, errorMessage := Some(log))
  }

  /** A zero exit: COMPLETED with the stored paths, the video size and the
      completion time; the frame count is not recorded. */
  function ExitCompleted(r: RecordState, videoPath: string, manifestPath: string, size: int, now: Timestamp): (c: RecordState)
    ensures c.status == COMPLETED && c.completedAt == Some(now)
    ensures c.storagePath == Some(videoPath) && c.manifestPath == Some(manifestPath) && c.outputVideoSize == Some(size)
    ensures c.outputFrameCount == r.outputFrameCount && c.errorMessage == r.errorMessage
    ensures SameInputs(c, r) && c.jobId == r.jobId && c.id == r.id
  {
    r.(storagePath := Some(videoPath), manifestPath := Some(manifestPath), outputVideoSize := Some(size),
       status := COMPLETED, completedAt := Some(now))
  }

  /** The map `process` returns. */
  datatype ProcessResult = ProcessResult(
    jobId: string, exitCode: int, log: string, error: Option<string>,
    videoPath: Option<string>, manifestPath: Option<string>, id: Option<int>)

  /** What the world does during one `process` call: whether the uploads
      can be copied, what the child prints and returns, what `store` does
      with each key, the output size, and the two clock readings. */
  datatype Run = Run(
    copyFault: Option<string>,
    log: string,
    exitCode: int,
    store: string -> Result<string, Option<string>>,
    videoSize: int,
    started: Timestamp,
    finished: Timestamp)

  /** The result of `process` once the row is inserted, and the row it
      leaves behind: `Failure` is an exception leaving the method. */
  function Outcome(inserted: RecordState, jobId: string, started: bool, run: Run): (o: (Result<ProcessResult, Option<string>>, RecordState))
  {
    if !started then (Failure(None), inserted) else AfterExit(inserted, jobId, run)
  }

  /** Whether `ProcessBuilder.start` accepts the command: resolution,
      passphrase, public-key hint and private-key-frame password are all
      non-null (`LegacyAgreesWithCurrent`). */
  predicate Starts(req: VideoEncodingRequest) {
    ScriptEncoder.Startable(req) && req.privateKeyFramePassword.Some?
  }

  /** The part of `process` after the child has exited. */
  function AfterExit(inserted: RecordState, jobId: string, run: Run): (o: (Result<ProcessResult, Option<string>>, RecordState))
  {
    if run.exitCode != 0 then
      (Success(ProcessResult(jobId, run.exitCode, run.log, Some("Encoding failed"), None, None, None)),
       ExitFailed(inserted, run.log))
    else
      match run.store(jobId + ".mp4")
      case Failure(m) => (Failure(m), inserted)
      case Success(videoPath) =>
        match run.store(jobId + "-manifest.json")
        case Failure(m) => (Failure(m), inserted)
        case Success(manifestPath) =>
          (Success(ProcessResult(jobId, 0, run.log, None, Some(videoPath), Some(manifestPath), inserted.id)),
           ExitCompleted(inserted, videoPath, manifestPath, run.videoSize, run.finished))
  }

  /** Every returned map carries the job id, the exit code and the log; it
      has an "error" entry exactly when the exit code is nonzero, and the
      stored paths and id exactly when it is zero. A row left PROCESSING
      means an exception escaped. */
  lemma OutcomeReports(inserted: RecordState, jobId: string, started: bool, run: Run)
    requires inserted.status == PROCESSING && inserted.id.Some?
    ensures var (r, row) := Outcome(inserted, jobId, started, run);
            && (r.Success? ==> r.value.jobId == jobId && r.value.exitCode == run.exitCode && r.value.log == run.log)
            && (r.Success? ==> (r.value.error.Some? <==> run.exitCode != 0))
            && (r.Success? ==> (r.value.videoPath.Some? <==> run.exitCode == 0))
            && (r.Success? && run.exitCode == 0 ==> r.value.id == inserted.id && row.status == COMPLETED)
            && (r.Success? && run.exitCode != 0 ==> row.status == FAILED && row.errorMessage == Some(run.log))
            && (r.Failure? <==> row.status == PROCESSING)
            && row.jobId == inserted.jobId && SameInputs(row, inserted)
  {
  }

  class LegacyVideoCodeService {
    const repo: RecordStore
    const workdir: string
    const pythonCmd: string

    constructor (repo: RecordStore, workdir: string, pythonCmd: string)
      ensures this.repo == repo && this.workdir == workdir && this.pythonCmd == pythonCmd
    {
      this.repo := repo;
      this.workdir := workdir;
      this.pythonCmd := pythonCmd;
    }

    /** `process(...)`. A `Failure` is an exception leaving the method; the
        inserted row then stays PROCESSING. */
    method Process(cmd: SubmitJobCommand, jobId: string, run: Run) returns (r: Result<ProcessResult, Option<string>>)
      requires repo.Valid()
      modifies repo
      ensures repo.Valid()
      ensures run.copyFault.Some? ==> r == Failure(run.copyFault) && repo.rows == old(repo.rows)
      ensures run.copyFault.None? ==>
                var inserted := LegacyRecord(cmd, jobId, run.started).(id := Some(old(repo.nextId)));
                var o := Outcome(inserted, jobId, Starts(RequestFor(cmd, jobId, JobDir(workdir, jobId))), run);
                r == o.0 && repo.rows == old(repo.rows)[jobId := o.1]
    {
      var jobDir := JobDir(workdir, jobId);
      if run.copyFault.Some? {
        return Failure(run.copyFault);
      }
      var vr := new VideoRecord.Load(LegacyRecord(cmd, jobId, run.started));
      repo.Insert(vr);
      ghost var inserted := vr.View();
      assert inserted == LegacyRecord(cmd, jobId, run.started).(id := Some(old(repo.nextId)));
      ghost var afterInsert := repo.rows;
      r := RunChild(vr, jobId, RequestFor(cmd, jobId, jobDir), run);
      ghost var o := Outcome(inserted, jobId, Starts(RequestFor(cmd, jobId, jobDir)), run);
      assert afterInsert[jobId := o.1] == old(repo.rows)[jobId := o.1];
    }

    /** The part of `process` after the insert: starts the child and
        records its exit. */
    method RunChild(vr: VideoRecord, jobId: string, req: VideoEncodingRequest, run: Run) returns (r: Result<ProcessResult, Option<string>>)
      requires repo.Valid() && vr.jobId == Some(jobId) && jobId in repo.rows && repo.rows[jobId] == vr.View()
      modifies repo, vr
      ensures repo.Valid()
      ensures var o := Outcome(old(vr.View()), jobId, Starts(req), run);
              r == o.0 && repo.rows == old(repo.rows)[jobId := o.1]
    {
      var started := Start(req);
      if !started {
        // ProcessBuilder.start throws a NullPointerException without a message.
        assert repo.rows == old(repo.rows)[jobId := old(vr.View())];
        return Failure(None);
      }
      r := RecordExit(vr, jobId, run);
    }

    /** Builds the command and starts the child: `ProcessBuilder.start`
        refuses a command with a null word. */
    method Start(req: VideoEncodingRequest) returns (started: bool)
      ensures started == Starts(req)
    {
      var words := BuildLegacyCommand(req, pythonCmd);
      LegacyAgreesWithCurrent(req, pythonCmd);
      started := NoNull(words);
    }

    /** The tail of `process`: maps the exit code to a FAILED or COMPLETED
        record, storing the artifacts on success. */
    method RecordExit(vr: VideoRecord, jobId: string, run: Run) returns (r: Result<ProcessResult, Option<string>>)
      requires repo.Valid() && vr.jobId == Some(jobId) && jobId in repo.rows && repo.rows[jobId] == vr.View()
      modifies repo, vr
      ensures repo.Valid()
      ensures var o := AfterExit(old(vr.View()), jobId, run);
              r == o.0 && repo.rows == old(repo.rows)[jobId := o.1]
    {
      ghost var inserted := vr.View();
      ghost var o := AfterExit(inserted, jobId, run);
      var log := run.log;
      var code := run.exitCode;
      if code != 0 {
        vr.SetStatus(FAILED);
        vr.SetErrorMessage(Some(log));
        repo.UpdateById(vr);
        return Success(ProcessResult(jobId, code, log, Some("Encoding failed"), None, None, None));
      }
      var videoStored := run.store(jobId + ".mp4");
      if videoStored.Failure? {
        assert repo.rows == old(repo.rows)[jobId := inserted];
        return Failure(videoStored.error);
      }
      var manifestStored := run.store(jobId + "-manifest.json");
      if manifestStored.Failure? {
        assert repo.rows == old(repo.rows)[jobId := inserted];
        return Failure(manifestStored.error);
      }
      vr.SetStoragePath(Some(videoStored.value));
      vr.SetManifestPath(Some(manifestStored.value));
      vr.SetOutputVideoSize(Some(run.videoSize));
      vr.SetStatus(COMPLETED);
      vr.SetCompletedAt(Some(run.finished));
      repo.UpdateById(vr);
      return Success(ProcessResult(jobId, code, log, None, Some(videoStored.value), Some(manifestStored.value), vr.id));
    }
  }
}
