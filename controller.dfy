/** The REST edge of src/main/java/com/Charon/web/VideoCodeController.java:
    parameter defaulting of `encode`, the artifact choice and the HTTP byte
    ranges of the downloads, `status`, and `cancel`. The repository and the
    registry are the model's `RecordStore` and `JobRegistry`; files are a
    map from path to content. */
module Controller {
  import opened Wrappers
  import opened Bytes
  import JavaText
  import opened Records
  import opened Registry
  import Orchestrator

  /** The configured defaults (`app.sample.default.*`). */
  datatype AppDefaults = AppDefaults(gridN: int, fps: int, resolution: string, enableFec: bool, fecParityPercent: int)

  /** The values shipped in src/main/java/com/lucas/lucasdemo/config/AppDefaultProperties.java. */
  const ShippedDefaults := AppDefaults(2, 60, "1080p", true, 20)

  /** The multipart form of `encode`; every field may be absent. */
  datatype EncodeRequest = EncodeRequest(
    file: Orchestrator.Upload,
    gridN: Option<int>,
    fps: Option<int>,
    resolution: Option<string>,
    width: Option<int>,
    height: Option<int>,
    enableFec: Option<bool>,
    fecParityPercent: Option<int>,
    passphrase: Option<string>,
    publicKeyHint: Option<string>,
    privateKeyFrameIndex: Option<int>,
    privateKeyFramePassword: Option<string>,
    obfuscationSeed: Option<int>,
    obfuscationFile: Option<Orchestrator.Upload>)

  function OrDefault<T>(given: Option<T>, default: T): T {
    if given.Some? then given.value else default
  }

  /** The command `encode` hands to the service: the five tunables are the
      request's own when given and the defaults when absent, everything else
      passes through, and no processing mode is passed. */
  function Submission(req: EncodeRequest, d: AppDefaults): (c: Orchestrator.SubmitJobCommand)
    ensures req.gridN.Some? ==> c.gridN == req.gridN.value
    ensures req.gridN.None? ==> c.gridN == d.gridN
    ensures req.fps.Some? ==> c.fps == req.fps.value
    ensures req.fps.None? ==> c.fps == d.fps
    ensures req.resolution.Some? ==> c.resolution == req.resolution
    ensures req.resolution.None? ==> c.resolution == Some(d.resolution)
    ensures req.enableFec.Some? ==> c.enableFec == req.enableFec.value
    ensures req.enableFec.None? ==> c.enableFec == d.enableFec
    ensures req.fecParityPercent.Some? ==> c.fecParityPercent == req.fecParityPercent
    ensures req.fecParityPercent.None? ==> c.fecParityPercent == Some(d.fecParityPercent)
    ensures c.file == req.file && c.width == req.width && c.height == req.height
    ensures c.passphrase == req.passphrase && c.publicKeyHint == req.publicKeyHint
    ensures c.privateKeyFrameIndex == req.privateKeyFrameIndex
    ensures c.privateKeyFramePassword == req.privateKeyFramePassword
    ensures c.obfuscationSeed == req.obfuscationSeed && c.obfuscationFile == req.obfuscationFile
    ensures c.processingMode.None?
  {
    Orchestrator.SubmitJobCommand(
      req.file, OrDefault(req.gridN, d.gridN), OrDefault(req.fps, d.fps),
      Some(OrDefault(req.resolution, d.resolution)), req.width, req.height,
      OrDefault(req.enableFec, d.enableFec), Some(OrDefault(req.fecParityPercent, d.fecParityPercent)),
      req.passphrase, req.publicKeyHint, req.privateKeyFrameIndex, req.privateKeyFramePassword,
      req.obfuscationSeed, req.obfuscationFile, None)
  }

  /** The request with its absent tunables filled in from `d`. */
  function Filled(req: EncodeRequest, d: AppDefaults): EncodeRequest {
    req.(gridN := Some(OrDefault(req.gridN, d.gridN)), fps := Some(OrDefault(req.fps, d.fps)),
         resolution := Some(OrDefault(req.resolution, d.resolution)),
         enableFec := Some(OrDefault(req.enableFec, d.enableFec)),
         fecParityPercent := Some(OrDefault(req.fecParityPercent, d.fecParityPercent)))
  }

  /** Defaulting only replaces absent values: a request that already names
      every tunable is submitted as is, whatever the defaults, and filling
      in the defaults first changes nothing. */
  lemma DefaultsOnlyReplaceAbsent(req: EncodeRequest, d: AppDefaults, d2: AppDefaults)
    ensures Submission(Filled(req, d), d2) == Submission(req, d)
    ensures Submission(Filled(req, d), d) == Submission(req, d)
  {
  }

  /** `"manifest".equalsIgnoreCase(type)`. */
  predicate IsManifest(kind: string) {
    JavaText.EqualsIgnoreCase("manifest", kind)
  }

  datatype MediaType = ApplicationJson | ApplicationOctetStream

  /** The stored path a download serves: the manifest for type "manifest" in
      any case, the video for anything else. */
  function SelectedPath(vr: RecordState, kind: string): (p: Option<string>)
    ensures IsManifest(kind) ==> p == vr.manifestPath
    ensures !IsManifest(kind) ==> p == vr.storagePath
  {
    if IsManifest(kind) then vr.manifestPath else vr.storagePath
  }

  function MediaTypeOf(kind: string): (m: MediaType)
    ensures m == ApplicationJson <==> IsManifest(kind)
  {
    if IsManifest(kind) then ApplicationJson else ApplicationOctetStream
  }

  /** The longest suffix of `s` without a '/'. */
  function AfterLastSlash(s: string): (r: string)
    ensures |r| <= |s| && r == s[|s| - |r|..]
    ensures '/' !in r
    ensures |r| < |s| ==> s[|s| - |r| - 1] == '/'
  {
    if s == [] || s[|s| - 1] == '/' then [] else AfterLastSlash(s[..|s| - 1]) + [s[|s| - 1]]
  }

  function TrimTrailingSlashes(s: string): (r: string)
    ensures |r| <= |s| && r == s[..|r|]
    ensures r != [] ==> r[|r| - 1] != '/'
    ensures forall i :: |r| <= i < |s| ==> s[i] == '/'
  {
    if s != [] && s[|s| - 1] == '/' then TrimTrailingSlashes(s[..|s| - 1]) else s
  }

  /** `Paths.get(path).getFileName().toString()`: the last name of the path;
      `None` for a root path, which has no file name (a NullPointerException). */
  function FileName(path: string): (r: Option<string>)
    ensures r.Some? ==> '/' !in r.value
    ensures r.None? <==> path != [] && TrimTrailingSlashes(path) == []
  {
    var t := TrimTrailingSlashes(path);
    if t == [] then (if path == [] then Some("") else None) else Some(AfterLastSlash(t))
  }

  /** Whatever precedes the last '/', the name after it is what remains. */
  lemma {:induction false} AfterLastSlashOf(dir: string, name: string)
    requires '/' !in name
    ensures AfterLastSlash(dir + "/" + name) == name
    decreases |name|
  {
    var path := dir + "/" + name;
    if name == [] {
      assert path[|path| - 1] == '/';
    } else {
      var last := name[|name| - 1];
      assert last in name;
      assert path[|path| - 1] == last;
      assert path[..|path| - 1] == dir + "/" + name[..|name| - 1];
      AfterLastSlashOf(dir, name[..|name| - 1]);
      assert name[..|name| - 1] + [last] == name;
    }
  }

  /** A stored path is a directory joined with the stored name; its file
      name is that name again. */
  lemma FileNameOfResolved(dir: string, name: string)
    requires name != [] && '/' !in name
    ensures FileName(dir + "/" + name) == Some(name)
  {
    var path := dir + "/" + name;
    assert path[|path| - 1] == name[|name| - 1];
    assert name[|name| - 1] in name;
    assert TrimTrailingSlashes(path) == path;
    AfterLastSlashOf(dir, name);
  }

  /** At most this many bytes are sent for one range. */
  const MaxPart := 5 * 1024 * 1024

  /** A download response: 404, 500 (an exception inside the builder or
      escaping from the lookup), 416 with "bytes *&#47;size", 206 with the
      bytes read from `start`, or 200 with the whole file. */
  datatype Response =
    | NotFound
    | ServerError
    | Unsatisfiable(fileSize: int)
    | Partial(media: MediaType, filename: string, start: int, data: Bytes, fileSize: int)
    | Whole(media: MediaType, filename: string, fileSize: int)

  /** The Content-Range header of a 416 or a 206. */
  function ContentRange(r: Response): Option<string> {
    match r
    case Unsatisfiable(size) => Some("bytes */" + JavaText.IntToString(size))
    case Partial(_, _, start, data, size) =>
      Some("bytes " + JavaText.IntToString(start) + "-" + JavaText.IntToString(start + |data| - 1)
           + "/" + JavaText.IntToString(size))
    case _ => None
  }

  /** The bounds of a `bytes=` value: `split("-")`, `parseLong` of the first
      field, and of the second when there is a non-empty one, else the last
      byte. `None` is the exception (no field at all, or a bound that is not
      a long). */
  function ParseRange(r: string, fileSize: int): (b: Option<(int, int)>)
    ensures b.Some? ==> b.value.0 >= 0
    ensures b.Some? && |JavaText.JavaSplit(r, '-')| == 1 ==> b.value.1 == fileSize - 1
  {
    var parts := JavaText.JavaSplit(r, '-');
    if |parts| == 0 then None
    else
      var start := JavaText.ParseLong(parts[0]);
      if start.None? then None
      else
        ParseLongUnsigned(parts[0]);
        if |parts| > 1 && parts[1] != "" then
          var end := JavaText.ParseLong(parts[1]);
          if end.None? then None else Some((start.value, end.value))
        else Some((start.value, fileSize - 1))
  }

  /** Without a '-' there is no sign, so a parsed field is never negative. */
  lemma ParseLongUnsigned(s: string)
    requires '-' !in s
    ensures JavaText.ParseLong(s).Some? ==> JavaText.ParseLong(s).value >= 0
  {
    if s != [] {
      assert s[0] in s;
    }
  }

  /** `buildDownloadResponse`. `content` is the file (`None` when it cannot
      be read) and `delivered` how many bytes one `read` call returns; a
      read that starts inside the file returns at least one byte. */
  function BuildDownloadResponse(content: Option<Bytes>, filename: string, media: MediaType,
                                 rangeHeader: Option<string>, delivered: nat): (r: Response)
    requires delivered >= 1
    ensures content.None? ==> r == ServerError
    ensures (content.Some? && rangeHeader.Some? && JavaText.StartsWith(rangeHeader.value, "bytes=")
             && ParseRange(rangeHeader.value[6..], |content.value|).None?) ==> r == ServerError
    ensures r.Unsatisfiable? ==> content.Some? && r.fileSize == |content.value|
    ensures r.Whole? ==> content.Some? && r.fileSize == |content.value| && r.filename == filename && r.media == media
    ensures r.Partial? ==>
              && content.Some? && r.fileSize == |content.value| && r.filename == filename && r.media == media
              && 0 <= r.start && r.start + |r.data| <= r.fileSize && |r.data| <= MaxPart
              && r.data == content.value[r.start..r.start + |r.data|] && |r.data| >= 1
    ensures r.Whole? <==> content.Some? && !(rangeHeader.Some? && JavaText.StartsWith(rangeHeader.value, "bytes="))
    ensures r != NotFound
  {
    if content.None? then ServerError
    else
      var file := content.value;
      var fileSize := |file|;
      if rangeHeader.Some? && JavaText.StartsWith(rangeHeader.value, "bytes=") then
        var bounds := ParseRange(rangeHeader.value[6..], fileSize);
        if bounds.None? then ServerError
        else
          var (start, end) := bounds.value;
          if start < 0 || end >= fileSize || start > end then Unsatisfiable(fileSize)
          else
            var length := end - start + 1;
            var wanted := if length < MaxPart then length else MaxPart;
            var got := if delivered < wanted then delivered else wanted;
            Partial(media, filename, start, file[start..start + got], fileSize)
      else Whole(media, filename, fileSize)
  }

  /** The ASCII text of a `bytes=S-E` header. */
  function RangeHeader(start: nat, end: nat): string {
    "bytes=" + JavaText.IntToString(start) + "-" + JavaText.IntToString(end)
  }

  lemma NoMinusInNat(n: nat)
    ensures '-' !in JavaText.IntToString(n)
  {
  }

  /** The bounds written into a `bytes=S-E` header are the ones the parser
      reads back. */
  lemma ParseRangeOfHeader(start: nat, end: nat, fileSize: int)
    requires end <= JavaText.LongMax && start <= JavaText.LongMax
    ensures JavaText.StartsWith(RangeHeader(start, end), "bytes=")
    ensures RangeHeader(start, end)[6..] == JavaText.IntToString(start) + "-" + JavaText.IntToString(end)
    ensures ParseRange(RangeHeader(start, end)[6..], fileSize) == Some((start, end))
  {
    var a := JavaText.IntToString(start);
    var b := JavaText.IntToString(end);
    assert RangeHeader(start, end)[..6] == "bytes=";
    assert RangeHeader(start, end)[6..] == a + "-" + b;
    NoMinusInNat(start);
    NoMinusInNat(end);
    JavaText.SplitPair(a, b, '-');
    JavaText.ParseLongIntToString(start);
    JavaText.ParseLongIntToString(end);
  }

  /** A satisfiable `bytes=S-E` request is answered 206 with the bytes from
      S up to E, cut at 5 MiB, and a Content-Range naming exactly them. */
  lemma RangeRoundTrip(file: Bytes, filename: string, media: MediaType, start: nat, end: nat, delivered: nat)
    requires start <= end < |file| <= JavaText.LongMax
    requires delivered >= MaxPart || delivered >= end - start + 1
    ensures var r := BuildDownloadResponse(Some(file), filename, media, Some(RangeHeader(start, end)), delivered);
            var n := if end - start + 1 < MaxPart then end - start + 1 else MaxPart;
            && r == Partial(media, filename, start, file[start..start + n], |file|)
            && ContentRange(r) == Some("bytes " + JavaText.IntToString(start) + "-" + JavaText.IntToString(start + n - 1)
                                       + "/" + JavaText.IntToString(|file|))
            && (end - start + 1 <= MaxPart ==> r.data == file[start..end + 1])
  {
    var h := RangeHeader(start, end);
    ParseRangeOfHeader(start, end, |file|);
    SatisfiableRange(file, filename, media, h, delivered, start, end);
    var n := if end - start + 1 < MaxPart then end - start + 1 else MaxPart;
    var data := file[start..start + n];
    assert |data| == n;
    assert ContentRange(Partial(media, filename, start, data, |file|)) ==
      Some("bytes " + JavaText.IntToString(start) + "-" + JavaText.IntToString(start + n - 1)
           + "/" + JavaText.IntToString(|file|));
  }

  /** A header whose bounds parse inside the file is answered with the
      bytes from the start, cut at 5 MiB and at what one read delivers. */
  lemma SatisfiableRange(file: Bytes, filename: string, media: MediaType, h: string, delivered: nat, start: nat, end: nat)
    requires start <= end < |file| && delivered >= 1
    requires JavaText.StartsWith(h, "bytes=") && ParseRange(h[6..], |file|) == Some((start, end))
    ensures var wanted := if end - start + 1 < MaxPart then end - start + 1 else MaxPart;
            var got := if delivered < wanted then delivered else wanted;
            BuildDownloadResponse(Some(file), filename, media, Some(h), delivered)
              == Partial(media, filename, start, file[start..start + got], |file|)
  {
  }

  /** A `bytes=S-E` header is refused with 416 exactly when the range leaves
      the file or is reversed; the source's `start < 0` test never fires. */
  lemma UnsatisfiableExactly(file: Bytes, filename: string, media: MediaType, start: nat, end: nat, delivered: nat)
    requires |file| <= JavaText.LongMax && start <= JavaText.LongMax && end <= JavaText.LongMax
    requires delivered >= 1
    ensures var r := BuildDownloadResponse(Some(file), filename, media, Some(RangeHeader(start, end)), delivered);
            (r == Unsatisfiable(|file|) <==> end >= |file| || start > end)
            && (!r.Unsatisfiable? ==> r.Partial? && r.start == start)
  {
    assert JavaText.StartsWith(RangeHeader(start, end), "bytes=");
    ParseRangeOfHeader(start, end, |file|);
  }

  /** `bytes=S-` runs to the end of the file. */
  lemma OpenEndedRange(file: Bytes, filename: string, media: MediaType, start: nat, delivered: nat)
    requires start < |file| <= JavaText.LongMax
    requires delivered >= MaxPart
    ensures var r := BuildDownloadResponse(Some(file), filename, media,
                                           Some("bytes=" + JavaText.IntToString(start) + "-"), delivered);
            var n := if |file| - start < MaxPart then |file| - start else MaxPart;
            r == Partial(media, filename, start, file[start..start + n], |file|)
  {
    var a := JavaText.IntToString(start);
    var h := "bytes=" + a + "-";
    assert JavaText.StartsWith(h, "bytes=");
    assert h[6..] == a + "-" + "";
    NoMinusInNat(start);
    JavaText.FieldsJoin(a, "", '-');
    assert '-' in a + "-" + "" by { assert (a + "-" + "")[|a|] == '-'; }
    assert JavaText.Fields(a + "-" + "", '-') == [a, ""];
    assert [a, ""][..1] == [a];
    assert JavaText.DropTrailingEmpty([a, ""]) == JavaText.DropTrailingEmpty([a]);
    assert JavaText.DropTrailingEmpty([a]) == [a];
    assert JavaText.JavaSplit(h[6..], '-') == [a];
    JavaText.ParseLongIntToString(start);
  }

  /** The suffix form `bytes=-N` of RFC 9110 section 14.1.2 is not supported:
      the first field is empty, `parseLong` throws, and the answer is 500. */
  lemma SuffixRangeFails(file: Bytes, filename: string, media: MediaType, n: string, delivered: nat)
    requires n != [] && '-' !in n && delivered >= 1
    ensures BuildDownloadResponse(Some(file), filename, media, Some("bytes=-" + n), delivered) == ServerError
  {
    var h := "bytes=-" + n;
    assert JavaText.StartsWith(h, "bytes=");
    assert h[6..] == "" + "-" + n;
    JavaText.SplitPair("", n, '-');
  }

  /** `downloadById` / `downloadByJobId` once the record is looked up:
      404 without a record, otherwise the selected artifact. A null stored
      path (`Paths.get(null)`) and a path without a file name throw before
      the builder's own handler, and surface as 500. */
  function Download(found: Option<RecordState>, kind: string, rangeHeader: Option<string>,
                    files: map<string, Bytes>, delivered: nat): (r: Response)
    requires delivered >= 1
    ensures r == NotFound <==> found.None?
    ensures found.Some? && SelectedPath(found.value, kind).None? ==> r == ServerError
    ensures r.Partial? || r.Whole? ==> r.media == MediaTypeOf(kind)
    ensures r.Partial? || r.Whole? ==>
              var p := SelectedPath(found.value, kind);
              && p.Some? && p.value in files && r.fileSize == |files[p.value]|
              && Some(r.filename) == FileName(p.value)
  {
    if found.None? then NotFound
    else
      var path := SelectedPath(found.value, kind);
      if path.None? then ServerError
      else
        var name := FileName(path.value);
        if name.None? then ServerError
        else
          var content := if path.value in files then Some(files[path.value]) else None;
          BuildDownloadResponse(content, name.value, MediaTypeOf(kind), rangeHeader, delivered)
  }

  /** The body of `status`. */
  datatype StatusBody = StatusBody(jobId: string, status: ProcessStatus, id: Option<int>, error: Option<string>)

  /** A record cancelled by `cancel`: FAILED with message "Cancelled"; unlike
      `fail`, no completion time is set. */
  function CancelledRecord(r: RecordState): (c: RecordState)
    ensures c.status == FAILED && c.errorMessage == Some("Cancelled")
    ensures c.completedAt == r.completedAt && c.jobId == r.jobId && c.id == r.id
    ensures c.storagePath == r.storagePath && c.manifestPath == r.manifestPath && SameInputs(c, r)
  {
    r.(status := FAILED, errorMessage := Some("Cancelled"))
  }

  /** `updateById` writes the cancelled record as it is: it sets only
      non-null columns over the loaded row. */
  lemma CancelWrite(r: RecordState)
    ensures Merged(r, CancelledRecord(r)) == CancelledRecord(r)
  {
    MergedIsEntity(r, CancelledRecord(r));
  }

  class VideoCodeController {
    const repo: RecordStore
    const registry: JobRegistry

    constructor (repo: RecordStore, registry: JobRegistry)
      ensures this.repo == repo && this.registry == registry
    {
      this.repo := repo;
      this.registry := registry;
    }

    /** `downloadByJobId`. */
    function DownloadByJobId(jobId: string, kind: string, rangeHeader: Option<string>,
                             files: map<string, Bytes>, delivered: nat): (r: Response)
      requires delivered >= 1
      reads this, repo
      ensures r == NotFound <==> jobId !in repo.rows
    {
      Download(repo.FindByJobId(jobId), kind, rangeHeader, files, delivered)
    }

    /** `status`: 404 (`None`) without a record, otherwise the record's
        status, id and error message under the asked job id. */
    function Status(jobId: string): (r: Option<StatusBody>)
      reads this, repo
      ensures r.None? <==> jobId !in repo.rows
      ensures r.Some? ==> r.value == StatusBody(jobId, repo.rows[jobId].status, repo.rows[jobId].id, repo.rows[jobId].errorMessage)
    {
      var vr := repo.FindByJobId(jobId);
      if vr.None? then None else Some(StatusBody(jobId, vr.value.status, vr.value.id, vr.value.errorMessage))
    }

    /** `cancel`: 404 (`None`) without a record; otherwise the registry's
        answer, and only when it killed a process is the record marked
        FAILED "Cancelled" and written back. */
    method Cancel(jobId: string) returns (r: Option<bool>)
      requires repo.Valid()
      modifies repo, registry, registry.Handle(jobId)
      ensures repo.Valid()
      ensures r.None? <==> jobId !in old(repo.rows)
      ensures r.None? ==> repo.rows == old(repo.rows) && registry.processes == old(registry.processes)
      ensures r.Some? ==> (r.value <==> jobId in old(registry.processes))
      ensures r == Some(true) ==> old(registry.processes)[jobId].destroyed
      ensures r == Some(true) ==> repo.rows == old(repo.rows)[jobId := CancelledRecord(old(repo.rows)[jobId])]
      ensures r == Some(false) ==> repo.rows == old(repo.rows) && registry.processes == old(registry.processes)
      ensures r.Some? ==> registry.processes == old(registry.processes) - {jobId}
    {
      var found := repo.FindByJobId(jobId);
      if found.None? {
        return None;
      }
      var vr := new VideoRecord.Load(found.value);
      ghost var rows := repo.rows;
      var ok := registry.Cancel(jobId);
      assert repo.rows == rows && vr.View() == found.value;
      if ok {
        vr.SetStatus(FAILED);
        vr.SetErrorMessage(Some("Cancelled"));
        assert vr.View() == CancelledRecord(found.value);
        CancelWrite(found.value);
        repo.UpdateById(vr);
      }
      return Some(ok);
    }
  }

  /** After a cancel that killed the job's process, `status` reports the job
      FAILED with error "Cancelled". */
  method CancelThenStatus(c: VideoCodeController, jobId: string) returns (cancelled: Option<bool>, s: Option<StatusBody>)
    requires c.repo.Valid()
    modifies c.repo, c.registry, c.registry.Handle(jobId)
    ensures cancelled == Some(true) ==> s.Some? && s.value.status == FAILED && s.value.error == Some("Cancelled")
    ensures cancelled.None? <==> s.None?
  {
    cancelled := c.Cancel(jobId);
    s := c.Status(jobId);
  }
}
