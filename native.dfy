/**
 * The JNI entry points of the patcher: `encode`, `decode` and
 * `getDescription`. Each builds an `XDeltaPatch`, fills in its
 * configuration from the arguments the app passes, runs it, forwards
 * xdelta3's messages to the app's log callback and turns an exception into
 * a failure result.
 */
module Native {
  import opened Wrappers
  import opened Bytes
  import opened VarLength
  import opened LineEnds
  import opened Config
  import opened Header
  import opened Command
  import opened Patch

  /** The failure result both entry points return when an exception is caught. */
  const FAILED: Int32 := -1

  /**
   * The window size for a settings choice: choice 0 is "Auto", choice `k`
   * is entry `k - 1` of the window table.
   */
  function WindowSizeFor(choice: Int32): (size: Int32)
    requires 0 <= choice <= SRC_WINDOW_SIZE_LENGTH
    ensures choice == 0 <==> size == SRC_WINDOW_SIZE_AUTO
    ensures choice > 0 ==> size == 8 * Pow2(choice - 1) * MIB
  {
    WindowSizesIncreasing();
    if choice == 0 then SRC_WINDOW_SIZE_AUTO
    else
      WindowSizeIsPowerOfTwo(choice - 1);
      SrcWindowSizes[choice - 1]
  }

  /** The settings choice a window size comes from; the inverse of `WindowSizeFor`. */
  function WindowChoiceOf(size: Int32): Option<Int32> {
    if size == SRC_WINDOW_SIZE_AUTO then Some(0)
    else if size in SrcWindowSizes then Some(IndexOf(SrcWindowSizes, size) as Int32 + 1)
    else None
  }

  /** The position of `x` in `s`. */
  function IndexOf(s: seq<Int32>, x: Int32): (i: nat)
    requires x in s
    ensures i < |s| && s[i] == x
    ensures forall j :: 0 <= j < i ==> s[j] != x
  {
    if s[0] == x then 0 else 1 + IndexOf(s[1..], x)
  }

  /** Distinct choices give distinct window sizes, and the size gives the choice back. */
  lemma WindowChoiceRoundTrip(choice: Int32)
    requires 0 <= choice <= SRC_WINDOW_SIZE_LENGTH
    ensures WindowChoiceOf(WindowSizeFor(choice)) == Some(choice)
  {
    WindowSizesIncreasing();
    if choice > 0 {
      var i := IndexOf(SrcWindowSizes, SrcWindowSizes[choice - 1]);
      assert i == choice - 1;
    }
  }

  /**
   * The configuration `encode` sets up: the defaults of `XDeltaConfig()`
   * with the checksum switch, compression level, secondary compressor and
   * window size taken from the arguments; output is always overwritten.
   */
  function EncodeConfig(useChecksum: bool, compressionLevel: Int32, secondaryCompression: Int32, srcWindowSize: Int32): (c: XDeltaConfig)
    requires 0 <= srcWindowSize <= SRC_WINDOW_SIZE_LENGTH
    ensures c.enableChecksum == useChecksum && c.overwriteOutput
    ensures c.compressionLevel == compressionLevel && c.secondaryCompression == secondaryCompression
    ensures WindowChoiceOf(c.srcWindowSize) == Some(srcWindowSize)
  {
    WindowChoiceRoundTrip(srcWindowSize);
    DefaultConfig().(
      enableChecksum := useChecksum,
      compressionLevel := compressionLevel,
      secondaryCompression := secondaryCompression,
      srcWindowSize := WindowSizeFor(srcWindowSize))
  }

  /** The app's choices that match `XDeltaConfig()` give exactly the default configuration. */
  lemma DefaultChoices()
    ensures EncodeConfig(true, DEFAULT_COMPRESSION_LEVEL, DEFAULT_SECONDARY_COMPRESSION, 0) == DefaultConfig()
  {
  }

  /** What reaches the log callback: the message when there is a callback, nothing otherwise. */
  function Sent(hasCallback: bool, message: string): seq<string> {
    if hasCallback then [message] else []
  }

  /** `sendLogToCallback`: hands one message to the callback when there is one. */
  method SendLogToCallback(log: seq<string>, hasCallback: bool, message: string) returns (r: seq<string>)
    ensures r == log + Sent(hasCallback, message)
    ensures hasCallback ==> |r| == |log| + 1 && r[|log|] == message
  {
    r := log;
    if hasCallback {
      r := r + [message];
    }
  }

  /**
   * `encode` as the app sees it: the return code of xdelta3, or -1 with an
   * "Error: " message in the log when an exception was thrown; the messages
   * of a run that finished go to the log only when there are any.
   */
  function EncodeResult(outcome: CodecOutcome, hasCallback: bool): (r: (Int32, seq<string>))
    ensures outcome.Threw? ==> r.0 == FAILED && r.1 == Sent(hasCallback, "Error: " + outcome.what)
    ensures outcome.Exited? ==> r.0 == outcome.code
    ensures outcome.Exited? && outcome.messages == "" ==> r.1 == []
  {
    match outcome
    case Threw(what) => (FAILED, Sent(hasCallback, "Error: " + what))
    case Exited(code, messages) => (code, if messages != "" then Sent(hasCallback, messages) else [])
  }

  /**
   * `XDeltaPatchJNI::encode`: writes the patch at `output` from `original`
   * and `modified`. A description is set only when it is not empty, which
   * leaves the patch's description equal to the argument either way. The
   * settings choice of the window size indexes the table without a check,
   * as does the secondary compressor when the command line is built.
   */
  method Encode(
    original: string, modified: string, output: string, description: ByteString,
    hasCallback: bool, useChecksum: bool,
    compressionLevel: Int32, secondaryCompression: Int32, srcWindowSize: Int32,
    disk: Disk, heapLimit: nat, codec: Codec)
    returns (result: Int32, log: seq<string>)
    requires 0 <= srcWindowSize <= SRC_WINDOW_SIZE_LENGTH
    requires 0 <= secondaryCompression < SECONDARY_COMP_LENGTH
    ensures (result, log) == EncodeResult(
      codec(CommandLine(EncodeConfig(useChecksum, compressionLevel, secondaryCompression, srcWindowSize),
        description, original, modified, output, true)),
      hasCallback)
  {
    log := [];
    var made := XDeltaPatch.Open(Some(output), Write, disk, heapLimit);
    var patch := made.value;
    if |description| > 0 {
      patch.SetDescription(description);
    }
    patch.config := patch.config.(
      enableChecksum := useChecksum,
      compressionLevel := compressionLevel,
      secondaryCompression := secondaryCompression);
    if srcWindowSize == 0 {
      patch.config := patch.config.(srcWindowSize := SRC_WINDOW_SIZE_AUTO);
    } else {
      patch.config := patch.config.(srcWindowSize := SrcWindowSizes[srcWindowSize - 1]);
    }
    assert patch.config == EncodeConfig(useChecksum, compressionLevel, secondaryCompression, srcWindowSize);
    assert patch.description == description;
    var run := patch.Encode(original, modified, codec);
    if run.Raised? {
      log := SendLogToCallback(log, hasCallback, "Error: " + run.what);
      assert log == Sent(hasCallback, "Error: " + run.what);
      return FAILED, log;
    }
    if run.messages != "" {
      log := SendLogToCallback(log, hasCallback, run.messages);
      assert log == Sent(hasCallback, run.messages);
    }
    return run.code, log;
  }

  /** The command line of a decode does not depend on the description. */
  lemma DecodeIgnoresDescription(config: XDeltaConfig, d1: ByteString, d2: ByteString, original: string, out: string, patch: string)
    ensures CommandLine(config, d1, original, out, patch, false) == CommandLine(config, d2, original, out, patch, false)
  {
  }

  /**
   * `decode` as the app sees it: -1 when opening the patch runs out of
   * memory or xdelta3 throws, with nothing logged; otherwise the return code,
   * with the messages logged when there are any.
   */
  function DecodeResult(read: DescResult, outcome: CodecOutcome, hasCallback: bool): (r: (Int32, seq<string>))
    ensures read == AllocFailure || outcome.Threw? ==> r == (FAILED, [])
    ensures read != AllocFailure && outcome.Exited? ==> r.0 == outcome.code
  {
    if read == AllocFailure then (FAILED, [])
    else
      match outcome
      case Threw(_) => (FAILED, [])
      case Exited(code, messages) => (code, if messages != "" then Sent(hasCallback, messages) else [])
  }

  /**
   * `XDeltaPatchJNI::decode`: applies the patch at `patchPath` to `original`
   * and writes `output`, with checksum verification as the app asks.
   */
  method Decode(
    original: string, output: string, patchPath: string, useChecksum: bool, hasCallback: bool,
    disk: Disk, heapLimit: nat, codec: Codec)
    returns (result: Int32, log: seq<string>)
    ensures (result, log) == DecodeResult(
      ReadDescription(disk, patchPath, heapLimit),
      codec(CommandLine(DefaultConfig().(enableChecksum := useChecksum), "", original, output, patchPath, false)),
      hasCallback)
  {
    log := [];
    var made := XDeltaPatch.Open(Some(patchPath), Read, disk, heapLimit);
    if made.None? {
      return FAILED, log;
    }
    var patch := made.value;
    patch.config := patch.config.(enableChecksum := useChecksum);
    DecodeIgnoresDescription(patch.config, patch.description, "", original, output, patchPath);
    var run := patch.Decode(original, output, codec);
    assert run == Reported(codec(CommandLine(DefaultConfig().(enableChecksum := useChecksum), "", original, output, patchPath, false)));
    if run.Raised? {
      return FAILED, log;
    }
    if run.messages != "" && hasCallback {
      log := SendLogToCallback(log, hasCallback, run.messages);
      assert log == Sent(hasCallback, run.messages);
    }
    return run.code, log;
  }

  /** What `getDescription` returns: the description found, or the empty string. */
  function DescriptionOf(disk: Disk, patchPath: string, heapLimit: nat): (d: string)
    ensures ReadDescription(disk, patchPath, heapLimit).Found? ==> d == ReadDescription(disk, patchPath, heapLimit).text
    ensures !ReadDescription(disk, patchPath, heapLimit).Found? ==> d == ""
  {
    match ReadDescription(disk, patchPath, heapLimit)
    case Found(text) => text
    case _ => ""
  }

  /**
   * `XDeltaPatchJNI::getDescription`: the description of the patch at
   * `patchPath`; the empty string when there is none or reading it runs out
   * of memory.
   */
  method GetDescription(patchPath: string, disk: Disk, heapLimit: nat) returns (desc: string)
    ensures desc == DescriptionOf(disk, patchPath, heapLimit)
  {
    var made := XDeltaPatch.Open(Some(patchPath), Read, disk, heapLimit);
    if made.None? {
      return "";
    }
    desc := made.value.GetDescription();
  }

  /**
   * A patch whose header carries the description the encoder wrote gives
   * that description back, with its line ends normalised; an empty
   * description gives the empty string.
   */
  lemma GetDescriptionRoundTrip(
    disk: Disk, patchPath: string, d: ByteString,
    flags: byte, secondaryId: byte, codeTable: seq<byte>, rest: seq<byte>, heapLimit: nat)
    requires HasAppHeader(flags)
    requires |codeTable| < STREAMOFF_LIMIT && |EncodeDescription(d)| + 1 < SIZE_T_LIMIT
    requires |EncodeDescription(d)| < heapLimit
    requires patchPath in disk
    requires disk[patchPath] == WriteHeader(flags, secondaryId, codeTable, ToBytes(EncodeDescription(d))) + rest
    ensures DescriptionOf(disk, patchPath, heapLimit) == NormalizeLineEnds(d)
  {
    DescriptionRoundTrip(d, flags, secondaryId, codeTable, rest, heapLimit);
  }
}
