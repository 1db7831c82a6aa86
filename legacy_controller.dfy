/** The download endpoints of the earlier application,
    src/main/java/com/lucas/lucasdemo/web/VideoCodeController.java: no byte
    ranges, the whole stored file as an attachment. Its `encode` defaults
    its parameters exactly as `Controller.Submission` does and hands them
    to `LegacyService`. */
module LegacyController {
  import opened Wrappers
  import opened Records
  import Controller

  /** 404, 500 (an exception from `Paths.get(null)` or a path without a file
      name), or 200 with the file at `path` as an attachment. */
  datatype LegacyResponse =
    | NotFound
    | ServerError
    | Attachment(media: Controller.MediaType, filename: string, path: string)

  /** `downloadById` / `downloadByJobId` once the record is looked up. */
  function LegacyDownload(found: Option<RecordState>, kind: string): (r: LegacyResponse)
    ensures r == NotFound <==> found.None?
    ensures found.Some? ==>
              (r.Attachment? <==> Controller.SelectedPath(found.value, kind).Some?
                                  && Controller.FileName(Controller.SelectedPath(found.value, kind).value).Some?)
    ensures r.Attachment? ==>
              && Some(r.path) == Controller.SelectedPath(found.value, kind)
              && Some(r.filename) == Controller.FileName(r.path)
              && r.media == Controller.MediaTypeOf(kind)
  {
    if found.None? then NotFound
    else
      var path := Controller.SelectedPath(found.value, kind);
      if path.None? then ServerError
      else
        var name := Controller.FileName(path.value);
        if name.None? then ServerError
        else Attachment(Controller.MediaTypeOf(kind), name.value, path.value)
  }

  /** A completed job's manifest, stored as `<dir>/<jobId>-manifest.json`,
      is served as JSON under that name for "manifest" in any letter case;
      any other type serves the video. */
  lemma ManifestServedUnderStoredName(row: RecordState, dir: string, jobId: string, kind: string)
    requires '/' !in jobId
    requires row.manifestPath == Some(dir + "/" + (jobId + "-manifest.json"))
    requires Controller.IsManifest(kind)
    ensures LegacyDownload(Some(row), kind) ==
              Attachment(Controller.ApplicationJson, jobId + "-manifest.json", dir + "/" + (jobId + "-manifest.json"))
  {
    var name := jobId + "-manifest.json";
    assert '/' !in name by {
      assert forall i :: 0 <= i < |jobId| ==> name[i] == jobId[i];
      assert forall i :: |jobId| <= i < |name| ==> name[i] == "-manifest.json"[i - |jobId|];
    }
    Controller.FileNameOfResolved(dir, name);
  }
}
