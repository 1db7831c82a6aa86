/** The encoder that runs scripts/encode_qr_video.py in a child process
    (src/main/java/com/Charon/infrastructure/encoder/PythonScriptVideoEncoder.java). */
module ScriptEncoder {
  import opened Wrappers
  import opened Bytes
  import opened JavaText
  import opened Argv
  import opened EncoderPort
  import opened Registry

  /** Largest number of log bytes kept from the child's output. */
  const LogLimit: nat := 32768

  /** The flags every command carries, in the order they are added. */
  const MandatoryFlags: seq<Option<string>> := [
    Some("--input"), Some("--output"), Some("--manifest"), Some("--grid"), Some("--fps"),
    Some("--resolution"), Some("--enable-fec"), Some("--fec-ratio"), Some("--passphrase"),
    Some("--pubkey-hint"), Some("--privkey-frame")]

  /** The flags a request's command carries: the mandatory ones, then the
      optional pairs whose values are present. */
  function ExpectedFlags(req: VideoEncodingRequest): seq<Option<string>> {
    MandatoryFlags
    + (if req.privateKeyFramePassword.Some? then [Some("--privkey-frame-pass")] else [])
    + (if req.width.Some? && req.height.Some? then [Some("--width"), Some("--height")] else [])
    + (if req.obfPath.Some? then [Some("--obfuscation")] else [])
  }

  /** The command words `ProcessBuilder.start` accepts: none is null. */
  predicate Startable(req: VideoEncodingRequest) {
    req.resolution.Some? && req.passphrase.Some? && req.publicKeyHint.Some?
  }

  /** The `--privkey-frame` word: "0" for a null index. */
  function FrameText(index: Option<int>): string {
    if index.None? then "0" else IntToString(index.value)
  }

  /** The pairs every command carries, in the order they are added. */
  function MandatoryArgs(req: VideoEncodingRequest): Words {
    LeadingArgs(req) + TrailingArgs(req)
  }

  /** The last five mandatory pairs. */
  function TrailingArgs(req: VideoEncodingRequest): Words {
    Pair("--enable-fec", Some(BoolText(req.enableFec)))
    + Pair("--fec-ratio", Some(RatioText(req.fecParityPercent)))
    + Pair("--passphrase", req.passphrase)
    + Pair("--pubkey-hint", req.publicKeyHint)
    + Pair("--privkey-frame", Some(FrameText(req.privateKeyFrameIndex)))
  }

  /** The first six mandatory pairs. */
  function LeadingArgs(req: VideoEncodingRequest): Words {
    Pair("--input", Some(req.inputZip))
    + Pair("--output", Some(req.outputVideo))
    + Pair("--manifest", Some(req.manifestJson))
    + Pair("--grid", Some(IntToString(req.gridN)))
    + Pair("--fps", Some(IntToString(req.fps)))
    + Pair("--resolution", req.resolution)
  }

  function PassArgs(req: VideoEncodingRequest): Words {
    if req.privateKeyFramePassword.Some? then Pair("--privkey-frame-pass", req.privateKeyFramePassword) else []
  }

  function SizeArgs(req: VideoEncodingRequest): Words {
    if req.width.Some? && req.height.Some?
    then Pair("--width", Some(IntToString(req.width.value))) + Pair("--height", Some(IntToString(req.height.value)))
    else []
  }

  function ObfArgs(req: VideoEncodingRequest): Words {
    if req.obfPath.Some? then Pair("--obfuscation", req.obfPath) else []
  }

  /** The flag/value words of the command, after interpreter and script. */
  function CommandArgs(req: VideoEncodingRequest): Words {
    MandatoryArgs(req) + PassArgs(req) + SizeArgs(req) + ObfArgs(req)
  }

  /** Builds the child's command word by word: interpreter, script, then
      the flag/value pairs. */
  method BuildCommand(req: VideoEncodingRequest, pythonCmd: string, scriptPath: string) returns (cmd: Words)
    ensures cmd == [Some(pythonCmd), Some(scriptPath)] + CommandArgs(req)
  {
    var args: Words := Pair("--input", Some(req.inputZip));
    args := args + Pair("--output", Some(req.outputVideo));
    args := args + Pair("--manifest", Some(req.manifestJson));
    args := args + Pair("--grid", Some(IntToString(req.gridN)));
    args := args + Pair("--fps", Some(IntToString(req.fps)));
    args := args + Pair("--resolution", req.resolution);
    assert args == LeadingArgs(req);
    ghost var lead := args;
    ghost var tail: Words := [];
    args := args + Pair("--enable-fec", Some(BoolText(req.enableFec)));
    tail := tail + Pair("--enable-fec", Some(BoolText(req.enableFec)));
    assert args == lead + tail;
    var fecRatio := RatioText(req.fecParityPercent);
    args := args + Pair("--fec-ratio", Some(fecRatio));
    tail := tail + Pair("--fec-ratio", Some(fecRatio));
    assert args == lead + tail;
    args := args + Pair("--passphrase", req.passphrase);
    tail := tail + Pair("--passphrase", req.passphrase);
    assert args == lead + tail;
    args := args + Pair("--pubkey-hint", req.publicKeyHint);
    tail := tail + Pair("--pubkey-hint", req.publicKeyHint);
    assert args == lead + tail;
    var frame := if req.privateKeyFrameIndex.None? then "0" else IntToString(req.privateKeyFrameIndex.value);
    args := args + Pair("--privkey-frame", Some(frame));
    tail := tail + Pair("--privkey-frame", Some(frame));
    assert args == lead + tail;
    assert tail == TrailingArgs(req);
    if req.privateKeyFramePassword.Some? {
      args := args + Pair("--privkey-frame-pass", req.privateKeyFramePassword);
    } else {
      assert args == args + [];
    }
    assert args == MandatoryArgs(req) + PassArgs(req);
    if req.width.Some? && req.height.Some? {
      args := args + (Pair("--width", Some(IntToString(req.width.value))) + Pair("--height", Some(IntToString(req.height.value))));
    } else {
      assert args == args + [];
    }
    assert args == MandatoryArgs(req) + PassArgs(req) + SizeArgs(req);
    if req.obfPath.Some? {
      args := args + Pair("--obfuscation", req.obfPath);
    } else {
      assert args == args + [];
    }
    cmd := [Some(pythonCmd), Some(scriptPath)] + args;
  }

  /** The value the script receives for each flag, `None` for a flag the
      command does not carry: the table the command is built from. */
  function ExpectedValue(req: VideoEncodingRequest, f: string): Option<Option<string>> {
    var m := MandatoryValue(req, f);
    if m.Some? then m else OptionalValue(req, f)
  }

  /** The values of the optional flags. */
  function OptionalValue(req: VideoEncodingRequest, f: string): Option<Option<string>> {
    if f == "--privkey-frame-pass" then
      (if req.privateKeyFramePassword.Some? then Some(req.privateKeyFramePassword) else None)
    else if f == "--width" then
      (if req.width.Some? && req.height.Some? then Some(Some(IntToString(req.width.value))) else None)
    else if f == "--height" then
      (if req.width.Some? && req.height.Some? then Some(Some(IntToString(req.height.value))) else None)
    else if f == "--obfuscation" then (if req.obfPath.Some? then Some(req.obfPath) else None)
    else None
  }

  /** The values of the mandatory flags. */
  function MandatoryValue(req: VideoEncodingRequest, f: string): Option<Option<string>> {
    var l := LeadingValue(req, f);
    if l.Some? then l else TrailingValue(req, f)
  }

  function TrailingValue(req: VideoEncodingRequest, f: string): Option<Option<string>> {
    if f == "--enable-fec" then Some(Some(BoolText(req.enableFec)))
    else if f == "--fec-ratio" then Some(Some(RatioText(req.fecParityPercent)))
    else if f == "--passphrase" then Some(req.passphrase)
    else if f == "--pubkey-hint" then Some(req.publicKeyHint)
    else if f == "--privkey-frame" then Some(Some(FrameText(req.privateKeyFrameIndex)))
    else None
  }

  function LeadingValue(req: VideoEncodingRequest, f: string): Option<Option<string>> {
    if f == "--input" then Some(Some(req.inputZip))
    else if f == "--output" then Some(Some(req.outputVideo))
    else if f == "--manifest" then Some(Some(req.manifestJson))
    else if f == "--grid" then Some(Some(IntToString(req.gridN)))
    else if f == "--fps" then Some(Some(IntToString(req.fps)))
    else if f == "--resolution" then Some(req.resolution)
    else None
  }

  lemma LeadingLookup(req: VideoEncodingRequest, f: string)
    ensures |LeadingArgs(req)| == 12
    ensures Lookup(LeadingArgs(req), f) == LeadingValue(req, f)
  {
    var a: Words := Pair("--input", Some(req.inputZip));
    LookupPair("--input", Some(req.inputZip), f);
    LookupExtend(a, "--output", Some(req.outputVideo), f);
    a := a + Pair("--output", Some(req.outputVideo));
    LookupExtend(a, "--manifest", Some(req.manifestJson), f);
    a := a + Pair("--manifest", Some(req.manifestJson));
    LookupExtend(a, "--grid", Some(IntToString(req.gridN)), f);
    a := a + Pair("--grid", Some(IntToString(req.gridN)));
    LookupExtend(a, "--fps", Some(IntToString(req.fps)), f);
    a := a + Pair("--fps", Some(IntToString(req.fps)));
    LookupExtend(a, "--resolution", req.resolution, f);
    a := a + Pair("--resolution", req.resolution);
  }

  /** Lookup of one flag in the mandatory pairs. */
  lemma MandatoryLookup(req: VideoEncodingRequest, f: string)
    ensures |MandatoryArgs(req)| == 22
    ensures Lookup(MandatoryArgs(req), f) == MandatoryValue(req, f)
  {
    LeadingLookup(req, f);
    TrailingLookup(req, f);
    LookupAppend(LeadingArgs(req), TrailingArgs(req), f);
  }

  lemma TrailingLookup(req: VideoEncodingRequest, f: string)
    ensures |TrailingArgs(req)| == 10
    ensures Lookup(TrailingArgs(req), f) == TrailingValue(req, f)
  {
    var a: Words := Pair("--enable-fec", Some(BoolText(req.enableFec)));
    LookupPair("--enable-fec", Some(BoolText(req.enableFec)), f);
    LookupExtend(a, "--fec-ratio", Some(RatioText(req.fecParityPercent)), f);
    a := a + Pair("--fec-ratio", Some(RatioText(req.fecParityPercent)));
    LookupExtend(a, "--passphrase", req.passphrase, f);
    a := a + Pair("--passphrase", req.passphrase);
    LookupExtend(a, "--pubkey-hint", req.publicKeyHint, f);
    a := a + Pair("--pubkey-hint", req.publicKeyHint);
    LookupExtend(a, "--privkey-frame", Some(FrameText(req.privateKeyFrameIndex)), f);
  }

  /** The mandatory pairs carry the mandatory flags in order. */
  lemma MandatoryFlagOrder(req: VideoEncodingRequest)
    ensures Flags(MandatoryArgs(req)) == MandatoryFlags
  {
    LeadingFlagOrder(req);
    TrailingFlagOrder(req);
    FlagsAppend(LeadingArgs(req), TrailingArgs(req));
  }

  lemma TrailingFlagOrder(req: VideoEncodingRequest)
    ensures Flags(TrailingArgs(req)) == MandatoryFlags[6..]
  {
    var a: Words := Pair("--enable-fec", Some(BoolText(req.enableFec)));
    LookupPair("--enable-fec", Some(BoolText(req.enableFec)), "");
    LookupPair("--fec-ratio", Some(RatioText(req.fecParityPercent)), "");
    FlagsAppend(a, Pair("--fec-ratio", Some(RatioText(req.fecParityPercent))));
    a := a + Pair("--fec-ratio", Some(RatioText(req.fecParityPercent)));
    LookupPair("--passphrase", req.passphrase, "");
    FlagsAppend(a, Pair("--passphrase", req.passphrase));
    a := a + Pair("--passphrase", req.passphrase);
    LookupPair("--pubkey-hint", req.publicKeyHint, "");
    FlagsAppend(a, Pair("--pubkey-hint", req.publicKeyHint));
    a := a + Pair("--pubkey-hint", req.publicKeyHint);
    LookupPair("--privkey-frame", Some(FrameText(req.privateKeyFrameIndex)), "");
    FlagsAppend(a, Pair("--privkey-frame", Some(FrameText(req.privateKeyFrameIndex))));
  }

  lemma LeadingFlagOrder(req: VideoEncodingRequest)
    ensures |LeadingArgs(req)| == 12
    ensures Flags(LeadingArgs(req)) == MandatoryFlags[..6]
  {
    var a: Words := Pair("--input", Some(req.inputZip));
    LookupPair("--input", Some(req.inputZip), "");
    LookupPair("--output", Some(req.outputVideo), "");
    FlagsAppend(a, Pair("--output", Some(req.outputVideo)));
    a := a + Pair("--output", Some(req.outputVideo));
    LookupPair("--manifest", Some(req.manifestJson), "");
    FlagsAppend(a, Pair("--manifest", Some(req.manifestJson)));
    a := a + Pair("--manifest", Some(req.manifestJson));
    LookupPair("--grid", Some(IntToString(req.gridN)), "");
    FlagsAppend(a, Pair("--grid", Some(IntToString(req.gridN))));
    a := a + Pair("--grid", Some(IntToString(req.gridN)));
    LookupPair("--fps", Some(IntToString(req.fps)), "");
    FlagsAppend(a, Pair("--fps", Some(IntToString(req.fps))));
    a := a + Pair("--fps", Some(IntToString(req.fps)));
    LookupPair("--resolution", req.resolution, "");
    FlagsAppend(a, Pair("--resolution", req.resolution));
  }

  /** The optional pairs bind their flags exactly when their values are
      present. */
  lemma OptionalLookup(req: VideoEncodingRequest, f: string)
    ensures |PassArgs(req)| % 2 == 0 && |SizeArgs(req)| % 2 == 0
    ensures Lookup(PassArgs(req), f) ==
      if f == "--privkey-frame-pass" && req.privateKeyFramePassword.Some? then Some(req.privateKeyFramePassword) else None
    ensures Lookup(SizeArgs(req), f) ==
      if req.width.Some? && req.height.Some? && f == "--width" then Some(Some(IntToString(req.width.value)))
      else if req.width.Some? && req.height.Some? && f == "--height" then Some(Some(IntToString(req.height.value)))
      else None
    ensures Lookup(ObfArgs(req), f) == if f == "--obfuscation" && req.obfPath.Some? then Some(req.obfPath) else None
  {
    if req.privateKeyFramePassword.Some? {
      LookupPair("--privkey-frame-pass", req.privateKeyFramePassword, f);
    }
    if req.width.Some? && req.height.Some? {
      LookupPair("--width", Some(IntToString(req.width.value)), f);
      LookupExtend(Pair("--width", Some(IntToString(req.width.value))), "--height", Some(IntToString(req.height.value)), f);
    }
    if req.obfPath.Some? {
      LookupPair("--obfuscation", req.obfPath, f);
    }
  }

  /** Lookup of one flag in the whole command. */
  lemma CommandLookup(req: VideoEncodingRequest, f: string)
    ensures Lookup(CommandArgs(req), f) == ExpectedValue(req, f)
  {
    MandatoryLookup(req, f);
    OptionalLookup(req, f);
    var m := MandatoryArgs(req);
    var p := PassArgs(req);
    var z := SizeArgs(req);
    LookupAppend(m, p, f);
    LookupAppend(m + p, z, f);
    LookupAppend(m + p + z, ObfArgs(req), f);
    if MandatoryValue(req, f).None? {
      OptionalValueLookup(req, f);
    }
  }

  /** A flag outside the mandatory ones is found in the optional pairs. */
  lemma OptionalValueLookup(req: VideoEncodingRequest, f: string)
    ensures OptionalValue(req, f) ==
      if Lookup(PassArgs(req), f).Some? then Lookup(PassArgs(req), f)
      else if Lookup(SizeArgs(req), f).Some? then Lookup(SizeArgs(req), f)
      else Lookup(ObfArgs(req), f)
  {
    OptionalLookup(req, f);
  }

  /** What the script receives for each flag. */
  lemma CommandLookups(req: VideoEncodingRequest)
    ensures forall f :: Lookup(CommandArgs(req), f) == ExpectedValue(req, f)
  {
    forall f
      ensures Lookup(CommandArgs(req), f) == ExpectedValue(req, f)
    {
      CommandLookup(req, f);
    }
  }

  /** The flags of the optional pairs. */
  lemma OptionalFlags(req: VideoEncodingRequest)
    ensures |PassArgs(req)| % 2 == 0 && |SizeArgs(req)| % 2 == 0
    ensures Flags(PassArgs(req)) == if req.privateKeyFramePassword.Some? then [Some("--privkey-frame-pass")] else []
    ensures Flags(SizeArgs(req)) == if req.width.Some? && req.height.Some? then [Some("--width"), Some("--height")] else []
    ensures Flags(ObfArgs(req)) == if req.obfPath.Some? then [Some("--obfuscation")] else []
  {
    if req.privateKeyFramePassword.Some? {
      LookupPair("--privkey-frame-pass", req.privateKeyFramePassword, "");
    }
    if req.width.Some? && req.height.Some? {
      LookupPair("--width", Some(IntToString(req.width.value)), "");
      LookupPair("--height", Some(IntToString(req.height.value)), "");
      FlagsAppend(Pair("--width", Some(IntToString(req.width.value))), Pair("--height", Some(IntToString(req.height.value))));
    }
    if req.obfPath.Some? {
      LookupPair("--obfuscation", req.obfPath, "");
    }
  }

  /** The order of the flags: the mandatory ones in their fixed order, then
      the optional ones whose values are present. */
  lemma CommandFlags(req: VideoEncodingRequest)
    ensures Flags(CommandArgs(req)) == ExpectedFlags(req)
  {
    MandatoryFlagOrder(req);
    MandatoryLookup(req, "");
    OptionalFlags(req);
    var m := MandatoryArgs(req);
    var p := PassArgs(req);
    var z := SizeArgs(req);
    FlagsAppend(m, p);
    FlagsAppend(m + p, z);
    FlagsAppend(m + p + z, ObfArgs(req));
  }

  /** `ProcessBuilder.start` accepts the command exactly when resolution,
      passphrase and public-key hint are non-null. */
  lemma CommandNoNull(req: VideoEncodingRequest, pythonCmd: string, scriptPath: string)
    ensures NoNull([Some(pythonCmd), Some(scriptPath)] + CommandArgs(req)) <==> Startable(req)
  {
    LeadingNoNull(req);
    TrailingNoNull(req);
    NoNullAppend(LeadingArgs(req), TrailingArgs(req));
    var m := MandatoryArgs(req);
    var p := PassArgs(req);
    var z := SizeArgs(req);
    var o := ObfArgs(req);
    NoNullAppend(m, p);
    NoNullAppend(m + p, z);
    NoNullAppend(m + p + z, o);
    if req.privateKeyFramePassword.Some? {
      NoNullPair("--privkey-frame-pass", req.privateKeyFramePassword);
    }
    if req.obfPath.Some? {
      NoNullPair("--obfuscation", req.obfPath);
    }
    if req.width.Some? && req.height.Some? {
      NoNullPair("--width", Some(IntToString(req.width.value)));
      NoNullPair("--height", Some(IntToString(req.height.value)));
      NoNullAppend(Pair("--width", Some(IntToString(req.width.value))), Pair("--height", Some(IntToString(req.height.value))));
    }
    NoNullAppend([Some(pythonCmd), Some(scriptPath)], CommandArgs(req));
  }

  lemma LeadingNoNull(req: VideoEncodingRequest)
    ensures NoNull(LeadingArgs(req)) <==> req.resolution.Some?
  {
    var p1 := Pair("--input", Some(req.inputZip));
    var p2 := Pair("--output", Some(req.outputVideo));
    var p3 := Pair("--manifest", Some(req.manifestJson));
    var p4 := Pair("--grid", Some(IntToString(req.gridN)));
    var p5 := Pair("--fps", Some(IntToString(req.fps)));
    var p6 := Pair("--resolution", req.resolution);
    NoNullPair("--input", Some(req.inputZip));
    NoNullPair("--output", Some(req.outputVideo));
    NoNullPair("--manifest", Some(req.manifestJson));
    NoNullPair("--grid", Some(IntToString(req.gridN)));
    NoNullPair("--fps", Some(IntToString(req.fps)));
    NoNullPair("--resolution", req.resolution);
    NoNullAppend(p1, p2);
    NoNullAppend(p1 + p2, p3);
    NoNullAppend(p1 + p2 + p3, p4);
    NoNullAppend(p1 + p2 + p3 + p4, p5);
    NoNullAppend(p1 + p2 + p3 + p4 + p5, p6);
  }

  lemma TrailingNoNull(req: VideoEncodingRequest)
    ensures NoNull(TrailingArgs(req)) <==> req.passphrase.Some? && req.publicKeyHint.Some?
  {
    var p7 := Pair("--enable-fec", Some(BoolText(req.enableFec)));
    var p8 := Pair("--fec-ratio", Some(RatioText(req.fecParityPercent)));
    var p9 := Pair("--passphrase", req.passphrase);
    var p10 := Pair("--pubkey-hint", req.publicKeyHint);
    var p11 := Pair("--privkey-frame", Some(FrameText(req.privateKeyFrameIndex)));
    NoNullPair("--enable-fec", Some(BoolText(req.enableFec)));
    NoNullPair("--fec-ratio", Some(RatioText(req.fecParityPercent)));
    NoNullPair("--passphrase", req.passphrase);
    NoNullPair("--pubkey-hint", req.publicKeyHint);
    NoNullPair("--privkey-frame", Some(FrameText(req.privateKeyFrameIndex)));
    NoNullAppend(p7, p8);
    NoNullAppend(p7 + p8, p9);
    NoNullAppend(p7 + p8 + p9, p10);
    NoNullAppend(p7 + p8 + p9 + p10, p11);
  }

  /** `min(|s|, k)` leading elements of `s`. */
  function Take(s: Bytes, k: nat): (r: Bytes)
    ensures |r| == if |s| < k then |s| else k
    ensures r == s[..|r|]
  {
    if |s| < k then s else s[..k]
  }

  lemma TakeAppend(a: Bytes, b: Bytes, k: nat)
    ensures |a| < k ==> Take(a + b, k) == a + Take(b, k - |a|)
    ensures |a| >= k ==> Take(a + b, k) == Take(a, k)
  {
    if |a| < k {
      assert (a + b)[..|a|] == a;
    } else {
      assert (a + b)[..k] == a[..k];
    }
  }

  /** `readProcessOutputLimited`: keeps the first `maxBytes` bytes and keeps
      reading, discarding the rest, until end of stream. `chunks` are the
      successive results of `read(chunk)`; the returned count is the number
      of `read` calls made, the last one seeing end of stream. */
  method ReadOutputLimited(chunks: seq<Bytes>, maxBytes: int) returns (log: Bytes, calls: nat)
    requires maxBytes >= 0
    ensures log == Take(Concat(chunks), maxBytes)
    ensures calls == |chunks| + 1
  {
    var buffer: Bytes := [];
    var total := 0;
    var i := 0;
    calls := 1;
    while i < |chunks|
      invariant 0 <= i <= |chunks|
      invariant 0 <= total <= maxBytes && |buffer| == total
      invariant buffer == Take(Concat(chunks[..i]), maxBytes)
      invariant calls == i + 1
    {
      var chunk := chunks[i];
      var n := |chunk|;
      calls := calls + 1;
      assert chunks[..i + 1] == chunks[..i] + [chunk];
      ConcatAppend(chunks[..i], [chunk]);
      ConcatOne(chunk);
      TakeAppend(Concat(chunks[..i]), chunk, maxBytes);
      if total < maxBytes {
        var toWrite := if n < maxBytes - total then n else maxBytes - total;
        buffer := buffer + chunk[..toWrite];
        total := total + toWrite;
      }
      i := i + 1;
    }
    assert chunks[..i] == chunks;
    log := buffer;
  }

  /** `encode(request)`: starts the child, registers it under the job id,
      captures at most `LogLimit` bytes of its output, waits for the exit
      code and deregisters it. `output` and `exitCode` are what the child
      produces; `p` is the handle `start` returns. */
  method Encode(registry: JobRegistry, req: VideoEncodingRequest, pythonCmd: string, scriptPath: string,
                p: Process, output: seq<Bytes>, exitCode: int) returns (r: Result<Bytes, EncodeError>)
    modifies registry
    ensures !Startable(req) ==> r == Failure(NullArgument) && registry.processes == old(registry.processes)
    ensures Startable(req) ==> registry.processes == old(registry.processes) - {req.jobId}
    ensures Startable(req) && exitCode == 0 ==> r == Success(Take(Concat(output), LogLimit))
    ensures Startable(req) && exitCode != 0 ==> r == Failure(ExitFailure(exitCode, Take(Concat(output), LogLimit)))
  {
    var cmd := BuildCommand(req, pythonCmd, scriptPath);
    CommandNoNull(req, pythonCmd, scriptPath);
    if !NoNull(cmd) {
      return Failure(NullArgument);
    }
    registry.Register(req.jobId, p);
    var log, _ := ReadOutputLimited(output, LogLimit);
    var code := exitCode;
    registry.Remove(req.jobId);
    if code != 0 {
      return Failure(ExitFailure(code, log));
    }
    return Success(log);
  }
}
