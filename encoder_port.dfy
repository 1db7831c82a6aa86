/** The encoder port shared by the service and its two encoders:
    the request record (src/main/java/com/Charon/service/port/VideoEncodingRequest.java)
    and the ways `encode` can fail. */
module EncoderPort {
  import opened Wrappers
  import opened Bytes
  import opened JavaText

  /** The sixteen components of the request. Paths are never null once
      built with `Path.of`/`resolve`, so they are plain strings. */
  datatype VideoEncodingRequest = VideoEncodingRequest(
    jobId: string,
    inputZip: string,
    outputVideo: string,
    manifestJson: string,
    obfPath: Option<string>,
    gridN: int,
    fps: int,
    resolution: Option<string>,
    width: Option<int>,
    height: Option<int>,
    enableFec: bool,
    fecParityPercent: Option<int>,
    passphrase: Option<string>,
    publicKeyHint: Option<string>,
    privateKeyFrameIndex: Option<int>,
    privateKeyFramePassword: Option<string>)

  /** Why `encode` threw. */
  datatype EncodeError =
    | NullArgument                      // ProcessBuilder.start on a null command word
    | ExitFailure(code: int, log: Bytes) // the script exited with a nonzero code

  /** `e.getMessage()` of the exception; `decode` is the platform charset
      decoding of the captured log. A bare NullPointerException has no
      message. */
  function Message(e: EncodeError, decode: Bytes -> string): (m: Option<string>)
    ensures m.None? <==> e.NullArgument?
    ensures e.ExitFailure? ==> JavaText.StartsWith(m.value, "Encoding failed with code ")
  {
    match e
    case NullArgument => None
    case ExitFailure(code, log) => Some("Encoding failed with code " + IntToString(code) + ": " + decode(log))
  }
}
