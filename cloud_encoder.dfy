/** The simulated cloud encoder
    (src/main/java/com/Charon/infrastructure/encoder/CloudVideoEncoder.java). */
module CloudEncoder {
  import opened Wrappers
  import opened JavaText
  import opened EncoderPort

  /** The local file system as a map from path to text content. */
  type FileMap = map<string, string>

  const VideoPlaceholder := "Simulated Cloud Video Content"
  const ManifestPlaceholder := "{\"frames\": 100, \"mock\": true}"
  const CompletionLog := "Cloud transcoding completed successfully (Simulated)"

  /** `supports(mode)`: the mode is "CLOUD" in any letter case. */
  function Supports(mode: Option<string>): (b: bool)
    ensures b <==> mode.Some? && UpperAsciiString(mode.value) == "CLOUD"
  {
    EqualsIgnoreCaseUpper("CLOUD", if mode.Some? then mode.value else "");
    LiteralEqualsIgnoreCase("CLOUD", mode)
  }

  /** `encode(request)`: creates the output video and the manifest with
      placeholder content where they do not exist yet, and returns the fixed
      completion text. */
  function Encode(files: FileMap, req: VideoEncodingRequest): (r: (FileMap, string))
    ensures r.0.Keys == files.Keys + {req.outputVideo, req.manifestJson}
    ensures forall p :: p in files ==> r.0[p] == files[p]
    ensures req.outputVideo !in files ==> r.0[req.outputVideo] == VideoPlaceholder
    ensures req.manifestJson !in files && req.manifestJson != req.outputVideo ==> r.0[req.manifestJson] == ManifestPlaceholder
    ensures r.1 == CompletionLog
  {
    var afterVideo := if req.outputVideo in files then files else files[req.outputVideo := VideoPlaceholder];
    var afterManifest := if req.manifestJson in afterVideo then afterVideo else afterVideo[req.manifestJson := ManifestPlaceholder];
    (afterManifest, CompletionLog)
  }

  /** Running the encoder twice changes nothing the first run did not. */
  lemma EncodeIdempotent(files: FileMap, req: VideoEncodingRequest)
    ensures Encode(Encode(files, req).0, req) == Encode(files, req)
  {
  }
}
