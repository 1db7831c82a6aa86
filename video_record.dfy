/** The durable job record (src/main/java/com/Charon/entity/VideoRecord.java),
    its two status transitions, and the record store the services read and
    update (VideoRecordRepository, reduced to a map from job id to row). */
module Records {
  import opened Wrappers

  datatype ProcessStatus = PROCESSING | COMPLETED | FAILED

  /** `LocalDateTime.now()`, supplied by the caller. */
  type Timestamp = int

  /** The column values of one `video_records` row; `None` is SQL/Java null. */
  datatype RecordState = RecordState(
    id: Option<int>,
    jobId: Option<string>,
    originalFileName: Option<string>,
    originalFileSize: Option<int>,
    storagePath: Option<string>,
    manifestPath: Option<string>,
    gridN: Option<int>,
    fps: Option<int>,
    resolution: Option<string>,
    enableFec: Option<bool>,
    fecParityPercent: Option<int>,
    publicKeyHint: Option<string>,
    privateKeyFrameIndex: Option<int>,
    obfuscationSeed: Option<int>,
    obfuscationFilePath: Option<string>,
    processingMode: Option<string>,
    status: ProcessStatus,
    errorMessage: Option<string>,
    createdAt: Option<Timestamp>,
    completedAt: Option<Timestamp>,
    outputVideoSize: Option<int>,
    outputFrameCount: Option<int>)

  /** The fields a fresh `new VideoRecord()` has: status PROCESSING, createdAt
      the current time, everything else null. */
  function FreshRecord(now: Timestamp): (r: RecordState)
    ensures r.status == PROCESSING && r.createdAt == Some(now)
    ensures r.completedAt.None? && r.errorMessage.None? && r.storagePath.None? && r.manifestPath.None?
  {
    RecordState(None, None, None, None, None, None, None, None, None, None, None,
                None, None, None, None, None, PROCESSING, None, Some(now), None, None, None)
  }

  /** `complete(...)` on a record value. */
  function Completed(r: RecordState, storagePath: Option<string>, manifestPath: Option<string>,
                     outputVideoSize: Option<int>, outputFrameCount: Option<int>, now: Timestamp): (c: RecordState)
    ensures c.status == COMPLETED && c.completedAt == Some(now)
    ensures c.storagePath == storagePath && c.manifestPath == manifestPath
    ensures c.outputVideoSize == outputVideoSize && c.outputFrameCount == outputFrameCount
    ensures c.errorMessage == r.errorMessage && c.jobId == r.jobId && c.id == r.id && c.createdAt == r.createdAt
    ensures SameInputs(c, r)
  {
    r.(storagePath := storagePath, manifestPath := manifestPath, outputVideoSize := outputVideoSize,
       outputFrameCount := outputFrameCount, status := COMPLETED, completedAt := Some(now))
  }

  /** `fail(message)` on a record value. */
  function Failed(r: RecordState, message: Option<string>, now: Timestamp): (f: RecordState)
    ensures f.status == FAILED && f.errorMessage == message && f.completedAt == Some(now)
    ensures f.storagePath == r.storagePath && f.manifestPath == r.manifestPath
    ensures f.outputVideoSize == r.outputVideoSize && f.outputFrameCount == r.outputFrameCount
    ensures f.jobId == r.jobId && f.id == r.id && f.createdAt == r.createdAt
    ensures SameInputs(f, r)
  {
    r.(errorMessage := message, status := FAILED, completedAt := Some(now))
  }

  /** The identifying, input and encoding-parameter columns agree. */
  predicate SameInputs(a: RecordState, b: RecordState) {
    && a.originalFileName == b.originalFileName && a.originalFileSize == b.originalFileSize
    && a.gridN == b.gridN && a.fps == b.fps && a.resolution == b.resolution
    && a.enableFec == b.enableFec && a.fecParityPercent == b.fecParityPercent
    && a.publicKeyHint == b.publicKeyHint && a.privateKeyFrameIndex == b.privateKeyFrameIndex
    && a.obfuscationSeed == b.obfuscationSeed && a.obfuscationFilePath == b.obfuscationFilePath
    && a.processingMode == b.processingMode
  }

  /** Neither transition looks at the prior status: from any two records
      that differ only in status they produce the same record. */
  lemma TransitionsIgnoreStatus(r: RecordState, s1: ProcessStatus, s2: ProcessStatus,
                                sp: Option<string>, mp: Option<string>, size: Option<int>,
                                frames: Option<int>, msg: Option<string>, now: Timestamp)
    ensures Completed(r.(status := s1), sp, mp, size, frames, now) == Completed(r.(status := s2), sp, mp, size, frames, now)
    ensures Failed(r.(status := s1), msg, now) == Failed(r.(status := s2), msg, now)
  {
  }

  /** A completed record that is then failed keeps its artifact paths and
      sizes, so a record can be FAILED while naming stored outputs. */
  lemma FailAfterComplete(r: RecordState, sp: Option<string>, mp: Option<string>, size: Option<int>,
                          frames: Option<int>, msg: Option<string>, t1: Timestamp, t2: Timestamp)
    ensures var f := Failed(Completed(r, sp, mp, size, frames, t1), msg, t2);
      f.status == FAILED && f.storagePath == sp && f.manifestPath == mp && f.outputVideoSize == size
  {
  }

  /** A column `updateById` writes: the entity's value when it is non-null,
      otherwise the stored one. */
  function Keep<T>(stored: Option<T>, given: Option<T>): Option<T> {
    if given.Some? then given else stored
  }

  /** The row `updateById(e)` leaves in place of `stored`: the primary key
      stays, every non-null column of the entity is written and every null
      one keeps its stored value. */
  function Merged(stored: RecordState, e: RecordState): RecordState {
    RecordState(
      stored.id,
      Keep(stored.jobId, e.jobId),
      Keep(stored.originalFileName, e.originalFileName),
      Keep(stored.originalFileSize, e.originalFileSize),
      Keep(stored.storagePath, e.storagePath),
      Keep(stored.manifestPath, e.manifestPath),
      Keep(stored.gridN, e.gridN),
      Keep(stored.fps, e.fps),
      Keep(stored.resolution, e.resolution),
      Keep(stored.enableFec, e.enableFec),
      Keep(stored.fecParityPercent, e.fecParityPercent),
      Keep(stored.publicKeyHint, e.publicKeyHint),
      Keep(stored.privateKeyFrameIndex, e.privateKeyFrameIndex),
      Keep(stored.obfuscationSeed, e.obfuscationSeed),
      Keep(stored.obfuscationFilePath, e.obfuscationFilePath),
      Keep(stored.processingMode, e.processingMode),
      e.status,
      Keep(stored.errorMessage, e.errorMessage),
      Keep(stored.createdAt, e.createdAt),
      Keep(stored.completedAt, e.completedAt),
      Keep(stored.outputVideoSize, e.outputVideoSize),
      Keep(stored.outputFrameCount, e.outputFrameCount))
  }

  /** A null column of the entity is null in the stored row too. */
  predicate Unset<T>(given: Option<T>, stored: Option<T>) {
    given.Some? || stored.None?
  }

  /** Every column the entity leaves null is null in the stored row. */
  predicate Covers(e: RecordState, stored: RecordState) {
    && Unset(e.jobId, stored.jobId)
    && Unset(e.originalFileName, stored.originalFileName)
    && Unset(e.originalFileSize, stored.originalFileSize)
    && Unset(e.storagePath, stored.storagePath)
    && Unset(e.manifestPath, stored.manifestPath)
    && Unset(e.gridN, stored.gridN)
    && Unset(e.fps, stored.fps)
    && Unset(e.resolution, stored.resolution)
    && Unset(e.enableFec, stored.enableFec)
    && Unset(e.fecParityPercent, stored.fecParityPercent)
    && Unset(e.publicKeyHint, stored.publicKeyHint)
    && Unset(e.privateKeyFrameIndex, stored.privateKeyFrameIndex)
    && Unset(e.obfuscationSeed, stored.obfuscationSeed)
    && Unset(e.obfuscationFilePath, stored.obfuscationFilePath)
    && Unset(e.processingMode, stored.processingMode)
    && Unset(e.errorMessage, stored.errorMessage)
    && Unset(e.createdAt, stored.createdAt)
    && Unset(e.completedAt, stored.completedAt)
    && Unset(e.outputVideoSize, stored.outputVideoSize)
    && Unset(e.outputFrameCount, stored.outputFrameCount)
  }

  /** `updateById` leaves exactly the entity's values in the row precisely
      when the entity has the row's key and leaves null only columns that
      are null already. */
  lemma MergedIsEntity(stored: RecordState, e: RecordState)
    ensures Merged(stored, e) == e <==> e.id == stored.id && Covers(e, stored)
  {
    if Merged(stored, e) == e {
      KeepUnset(stored.jobId, e.jobId);
      KeepUnset(stored.originalFileName, e.originalFileName);
      KeepUnset(stored.originalFileSize, e.originalFileSize);
      KeepUnset(stored.storagePath, e.storagePath);
      KeepUnset(stored.manifestPath, e.manifestPath);
      KeepUnset(stored.gridN, e.gridN);
      KeepUnset(stored.fps, e.fps);
      KeepUnset(stored.resolution, e.resolution);
      KeepUnset(stored.enableFec, e.enableFec);
      KeepUnset(stored.fecParityPercent, e.fecParityPercent);
      KeepUnset(stored.publicKeyHint, e.publicKeyHint);
      KeepUnset(stored.privateKeyFrameIndex, e.privateKeyFrameIndex);
      KeepUnset(stored.obfuscationSeed, e.obfuscationSeed);
      KeepUnset(stored.obfuscationFilePath, e.obfuscationFilePath);
      KeepUnset(stored.processingMode, e.processingMode);
      KeepUnset(stored.errorMessage, e.errorMessage);
      KeepUnset(stored.createdAt, e.createdAt);
      KeepUnset(stored.completedAt, e.completedAt);
      KeepUnset(stored.outputVideoSize, e.outputVideoSize);
      KeepUnset(stored.outputFrameCount, e.outputFrameCount);
    }
  }

  /** A written column equals the entity's exactly when the entity's value
      is non-null or the stored one is null. */
  lemma KeepUnset<T>(stored: Option<T>, given: Option<T>)
    ensures Keep(stored, given) == given <==> Unset(given, stored)
  {
  }

  /** Writing the same entity twice leaves the row of the first write. */
  lemma MergedIdempotent(stored: RecordState, e: RecordState)
    ensures Merged(Merged(stored, e), e) == Merged(stored, e)
  {
  }

  /** Null values are not written: failing with a null message keeps the
      stored error message, and completing with a null frame count keeps the
      stored frame count, so the row then differs from the entity. */
  lemma NullColumnsKept(r: RecordState, sp: Option<string>, mp: Option<string>, size: Option<int>, now: Timestamp)
    ensures Merged(r, Failed(r, None, now)).errorMessage == r.errorMessage
    ensures Merged(r, Completed(r, sp, mp, size, None, now)).outputFrameCount == r.outputFrameCount
    ensures r.errorMessage.Some? ==> Merged(r, Failed(r, None, now)) != Failed(r, None, now)
  {
    if r.errorMessage.Some? {
      assert Merged(r, Failed(r, None, now)).errorMessage != Failed(r, None, now).errorMessage;
    }
  }

  /** Writing the completed entity and then the same entity failed leaves
      the row that writing the failed entity alone would leave: the failed
      entity repeats every non-null column of the completed one except the
      message, and the completed one's message is the stored one. */
  lemma MergedFailOverComplete(r: RecordState, sp: Option<string>, mp: Option<string>, size: Option<int>,
                               frames: Option<int>, m: Option<string>, now: Timestamp)
    ensures var done := Completed(r, sp, mp, size, frames, now);
            Merged(Merged(r, done), Failed(done, m, now)) == Merged(r, Failed(done, m, now))
  {
  }

  /** The in-memory entity: fields updated in place by the setters, by
      `complete` and by `fail`. */
  class VideoRecord {
    var id: Option<int>
    var jobId: Option<string>
    var originalFileName: Option<string>
    var originalFileSize: Option<int>
    var storagePath: Option<string>
    var manifestPath: Option<string>
    var gridN: Option<int>
    var fps: Option<int>
    var resolution: Option<string>
    var enableFec: Option<bool>
    var fecParityPercent: Option<int>
    var publicKeyHint: Option<string>
    var privateKeyFrameIndex: Option<int>
    var obfuscationSeed: Option<int>
    var obfuscationFilePath: Option<string>
    var processingMode: Option<string>
    var status: ProcessStatus
    var errorMessage: Option<string>
    var createdAt: Option<Timestamp>
    var completedAt: Option<Timestamp>
    var outputVideoSize: Option<int>
    var outputFrameCount: Option<int>

    /** The row value of the entity's current fields. */
    function View(): RecordState
      reads this
    {
      RecordState(id, jobId, originalFileName, originalFileSize, storagePath, manifestPath, gridN, fps,
                  resolution, enableFec, fecParityPercent, publicKeyHint, privateKeyFrameIndex,
                  obfuscationSeed, obfuscationFilePath, processingMode, status, errorMessage,
                  createdAt, completedAt, outputVideoSize, outputFrameCount)
    }

    /** `new VideoRecord()`: the field initialisers. */
    constructor (now: Timestamp)
      ensures View() == FreshRecord(now)
    {
      id, jobId, originalFileName, originalFileSize := None, None, None, None;
      storagePath, manifestPath := None, None;
      gridN, fps, resolution, enableFec, fecParityPercent := None, None, None, None, None;
      publicKeyHint, privateKeyFrameIndex, obfuscationSeed, obfuscationFilePath := None, None, None, None;
      processingMode := None;
      status := PROCESSING;
      errorMessage := None;
      createdAt, completedAt := Some(now), None;
      outputVideoSize, outputFrameCount := None, None;
    }

    /** The entity the store materialises from a row. */
    constructor Load(row: RecordState)
      ensures View() == row
    {
      id, jobId, originalFileName, originalFileSize := row.id, row.jobId, row.originalFileName, row.originalFileSize;
      storagePath, manifestPath := row.storagePath, row.manifestPath;
      gridN, fps, resolution, enableFec := row.gridN, row.fps, row.resolution, row.enableFec;
      fecParityPercent, publicKeyHint := row.fecParityPercent, row.publicKeyHint;
      privateKeyFrameIndex, obfuscationSeed := row.privateKeyFrameIndex, row.obfuscationSeed;
      obfuscationFilePath, processingMode := row.obfuscationFilePath, row.processingMode;
      status, errorMessage := row.status, row.errorMessage;
      createdAt, completedAt := row.createdAt, row.completedAt;
      outputVideoSize, outputFrameCount := row.outputVideoSize, row.outputFrameCount;
    }

    /** The Lombok setters the services call one by one. */
    method SetStatus(v: ProcessStatus)
      modifies this
      ensures View() == old(View()).(status := v)
    {
      status := v;
    }

    method SetErrorMessage(v: Option<string>)
      modifies this
      ensures View() == old(View()).(errorMessage := v)
    {
      errorMessage := v;
    }

    method SetStoragePath(v: Option<string>)
      modifies this
      ensures View() == old(View()).(storagePath := v)
    {
      storagePath := v;
    }

    method SetManifestPath(v: Option<string>)
      modifies this
      ensures View() == old(View()).(manifestPath := v)
    {
      manifestPath := v;
    }

    method SetOutputVideoSize(v: Option<int>)
      modifies this
      ensures View() == old(View()).(outputVideoSize := v)
    {
      outputVideoSize := v;
    }

    method SetOutputFrameCount(v: Option<int>)
      modifies this
      ensures View() == old(View()).(outputFrameCount := v)
    {
      outputFrameCount := v;
    }

    method SetCompletedAt(v: Option<Timestamp>)
      modifies this
      ensures View() == old(View()).(completedAt := v)
    {
      completedAt := v;
    }

    /** Records the outputs and marks the record COMPLETED, whatever its
        status was. */
    method Complete(sp: Option<string>, mp: Option<string>, size: Option<int>, frames: Option<int>, now: Timestamp)
      modifies this
      ensures View() == Completed(old(View()), sp, mp, size, frames, now)
    {
      SetStoragePath(sp);
      SetManifestPath(mp);
      SetOutputVideoSize(size);
      SetOutputFrameCount(frames);
      SetStatus(COMPLETED);
      SetCompletedAt(Some(now));
    }

    /** Records the error message and marks the record FAILED, whatever its
        status was. */
    method Fail(message: Option<string>, now: Timestamp)
      modifies this
      ensures View() == Failed(old(View()), message, now)
    {
      SetErrorMessage(message);
      SetStatus(FAILED);
      SetCompletedAt(Some(now));
    }
  }

  /** The record store: one row per job id, and the auto-increment counter
      that gives each inserted row its id. */
  class RecordStore {
    var rows: map<string, RecordState>
    var nextId: int

    /** Every row is stored under its own job id. */
    predicate Valid()
      reads this
    {
      forall k :: k in rows ==> rows[k].jobId == Some(k)
    }

    constructor ()
      ensures rows == map[] && Valid()
    {
      rows := map[];
      nextId := 1;
    }

    /** `findByJobId(jobId)`. */
    function FindByJobId(jobId: string): (r: Option<RecordState>)
      reads this
      ensures r.Some? <==> jobId in rows
      ensures r.Some? ==> r.value == rows[jobId]
    {
      if jobId in rows then Some(rows[jobId]) else None
    }

    /** `insert(vr)`: the generated key is written back into the entity and
        the row stored. */
    method Insert(vr: VideoRecord)
      requires vr.jobId.Some?
      requires Valid()
      modifies this, vr
      ensures Valid()
      ensures vr.View() == old(vr.View()).(id := Some(old(nextId)))
      ensures rows == old(rows)[vr.jobId.value := vr.View()]
      ensures nextId == old(nextId) + 1
    {
      vr.id := Some(nextId);
      nextId := nextId + 1;
      rows := rows[vr.jobId.value := vr.View()];
    }

    /** `updateById(vr)`: writes the entity's non-null columns into the row
        of the record, if there is one. */
    method UpdateById(vr: VideoRecord)
      requires vr.jobId.Some?
      requires Valid()
      modifies this
      ensures Valid()
      ensures vr.jobId.value in old(rows) ==> rows == old(rows)[vr.jobId.value := Merged(old(rows)[vr.jobId.value], vr.View())]
      ensures vr.jobId.value !in old(rows) ==> rows == old(rows)
      ensures nextId == old(nextId)
    {
      if vr.jobId.value in rows {
        rows := rows[vr.jobId.value := Merged(rows[vr.jobId.value], vr.View())];
      }
    }
  }
}
