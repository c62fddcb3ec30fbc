/**
 * The argument list the patcher hands to xdelta3, and a reader of the
 * shapes that list takes, which reads it back: operation, checksum and
 * overwrite switches, the encoder options, then source, input and output
 * file. The reader is this model's own; xdelta3's option parser is not part
 * of this model.
 */
module Command {
  import opened Wrappers
  import opened Bytes
  import opened Text
  import opened Config
  import opened Header

  /** The encoder options: level, secondary compressor, window size unless automatic, application header. */
  function EncodeOptions(config: XDeltaConfig, description: ByteString): seq<string>
    requires 0 <= config.secondaryCompression < SECONDARY_COMP_LENGTH
  {
    ["-" + IntToDecimal(config.compressionLevel), "-S", SecondaryCompressions[config.secondaryCompression]]
      + (if config.srcWindowSize != SRC_WINDOW_SIZE_AUTO then ["-B", IntToDecimal(config.srcWindowSize)] else [])
      + ["-A=" + EncodeDescription(description)]
  }

  /**
   * The arguments `MakeCommand` builds. The secondary-compressor index is
   * used to index the name table without a check, so encoding needs it in
   * range.
   */
  function CommandLine(
    config: XDeltaConfig, description: ByteString,
    original: string, out: string, patch: string, encode: bool): seq<string>
    requires encode ==> 0 <= config.secondaryCompression < SECONDARY_COMP_LENGTH
  {
    [if encode then "-e" else "-d"]
      + (if !config.enableChecksum then ["-n"] else [])
      + (if config.overwriteOutput then ["-f"] else [])
      + (if encode then EncodeOptions(config, description) else [])
      + (if encode then ["-s", original, out, patch] else ["-s", original, patch, out])
  }

  /** What an xdelta3 command line asks for. */
  datatype Invocation = Invocation(
    encode: bool,
    verifyChecksum: bool,
    overwrite: bool,
    level: Option<int>,
    secondary: Option<string>,
    window: Option<int>,
    appHeader: Option<string>,
    source: string,
    input: string,
    output: string)

  /** The three file names after `-s`: source, input and output. */
  function Files(args: seq<string>): Option<(string, string, string)> {
    if |args| == 4 && args[0] == "-s" then Some((args[1], args[2], args[3])) else None
  }

  /** The application header option and the files after it. */
  function AppHeaderAndFiles(args: seq<string>): Option<(string, (string, string, string))> {
    if |args| == 0 || |args[0]| < 3 || args[0][..3] != "-A=" then None
    else
      match Files(args[1..])
      case None => None
      case Some(files) => Some((args[0][3..], files))
  }

  /** Reads back the encoder options: level, secondary compressor, window size, application header. */
  function ReadEncodeOptions(args: seq<string>): Option<(int, string, Option<int>, string, (string, string, string))> {
    if |args| < 3 || |args[0]| < 1 || args[0][0] != '-' || args[1] != "-S" then None
    else
      match ParseInt(args[0][1..])
      case None => None
      case Some(level) =>
        var more := args[3..];
        if |more| >= 2 && more[0] == "-B" then
          match ParseInt(more[1])
          case None => None
          case Some(window) =>
            match AppHeaderAndFiles(more[2..])
            case None => None
            case Some(rest) => Some((level, args[2], Some(window), rest.0, rest.1))
        else
          match AppHeaderAndFiles(more)
          case None => None
          case Some(rest) => Some((level, args[2], None, rest.0, rest.1))
  }

  /** Whether the arguments start with the switch `flag`, and the arguments after it. */
  function Switch(args: seq<string>, flag: string): (bool, seq<string>) {
    if |args| > 0 && args[0] == flag then (true, args[1..]) else (false, args)
  }

  /** Reads a command line of the shape the patcher builds; None for any other shape. */
  function Interpret(argv: seq<string>): Option<Invocation> {
    if |argv| == 0 || (argv[0] != "-e" && argv[0] != "-d") then None
    else
      var encode := argv[0] == "-e";
      var (noCheck, b) := Switch(argv[1..], "-n");
      var (force, c) := Switch(b, "-f");
      if !encode then
        match Files(c)
        case None => None
        case Some(f) => Some(Invocation(false, !noCheck, force, None, None, None, None, f.0, f.1, f.2))
      else
        match ReadEncodeOptions(c)
        case None => None
        case Some(o) => Some(Invocation(true, !noCheck, force, Some(o.0), Some(o.1), o.2, Some(o.3), o.4.0, o.4.1, o.4.2))
  }

  /**
   * What the patcher means to ask xdelta3 for: the configured switches and
   * options, and the files in the order the operation needs them. An encode
   * reads the modified file against the original and writes the patch; a
   * decode reads the patch against the original and writes the output.
   */
  function Intended(
    config: XDeltaConfig, description: ByteString,
    original: string, out: string, patch: string, encode: bool): Invocation
    requires encode ==> 0 <= config.secondaryCompression < SECONDARY_COMP_LENGTH
  {
    if encode then
      Invocation(
        true, config.enableChecksum, config.overwriteOutput,
        Some(config.compressionLevel as int),
        Some(SecondaryCompressions[config.secondaryCompression]),
        if config.srcWindowSize == SRC_WINDOW_SIZE_AUTO then None else Some(config.srcWindowSize as int),
        Some(EncodeDescription(description)),
        original, out, patch)
    else
      Invocation(false, config.enableChecksum, config.overwriteOutput, None, None, None, None, original, patch, out)
  }

  lemma LevelArgument(level: int)
    ensures ("-" + IntToDecimal(level))[1..] == IntToDecimal(level)
    ensures "-" + IntToDecimal(level) != "-n" && "-" + IntToDecimal(level) != "-f"
    ensures ParseInt(IntToDecimal(level)) == Some(level)
  {
    ParseIntRoundTrip(level);
    var t := "-" + IntToDecimal(level);
    assert t[1] == IntToDecimal(level)[0];
  }

  lemma AppHeaderOf(text: string, files: seq<string>)
    requires |files| == 4 && files[0] == "-s"
    ensures AppHeaderAndFiles(["-A=" + text] + files) == Some((text, (files[1], files[2], files[3])))
  {
    var app := "-A=" + text;
    assert app[..3] == "-A=" && app[3..] == text;
    assert (["-A=" + text] + files)[1..] == files;
  }

  /** Options with a window size read as the level, the compressor, the window and what the tail holds. */
  lemma ReadWithWindow(first: string, name: string, w: string, tail: seq<string>, level: int, window: int, rest: (string, (string, string, string)))
    requires |first| >= 1 && first[0] == '-' && ParseInt(first[1..]) == Some(level)
    requires ParseInt(w) == Some(window) && AppHeaderAndFiles(tail) == Some(rest)
    ensures ReadEncodeOptions([first, "-S", name] + ["-B", w] + tail) == Some((level, name, Some(window), rest.0, rest.1))
  {
    var args := [first, "-S", name] + ["-B", w] + tail;
    assert args[3..] == ["-B", w] + tail;
    assert args[3..][2..] == tail;
  }

  /** Options without a window size, when the tail does not start with `-B`. */
  lemma ReadWithoutWindow(first: string, name: string, tail: seq<string>, level: int, rest: (string, (string, string, string)))
    requires |first| >= 1 && first[0] == '-' && ParseInt(first[1..]) == Some(level)
    requires |tail| > 0 && tail[0] != "-B" && AppHeaderAndFiles(tail) == Some(rest)
    ensures ReadEncodeOptions([first, "-S", name] + tail) == Some((level, name, None, rest.0, rest.1))
  {
    var args := [first, "-S", name] + tail;
    assert args[3..] == tail;
  }

  lemma ReadOptionsOf(level: int, name: string, window: Option<int>, text: string, files: seq<string>)
    requires |files| == 4 && files[0] == "-s"
    ensures ReadEncodeOptions(
              ["-" + IntToDecimal(level), "-S", name]
              + (if window.Some? then ["-B", IntToDecimal(window.value)] else [])
              + ["-A=" + text] + files)
         == Some((level, name, window, text, (files[1], files[2], files[3])))
  {
    var first := "-" + IntToDecimal(level);
    var tail := ["-A=" + text] + files;
    LevelArgument(level);
    AppHeaderOf(text, files);
    if window.Some? {
      ParseIntRoundTrip(window.value);
      var w := IntToDecimal(window.value);
      assert [first, "-S", name] + ["-B", w] + ["-A=" + text] + files == [first, "-S", name] + ["-B", w] + tail;
      ReadWithWindow(first, name, w, tail, level, window.value, (text, (files[1], files[2], files[3])));
    } else {
      var app := "-A=" + text;
      assert app[1] == 'A';
      assert [first, "-S", name] + [] + ["-A=" + text] + files == [first, "-S", name] + tail;
      ReadWithoutWindow(first, name, tail, level, (text, (files[1], files[2], files[3])));
    }
  }

  lemma EncodeTail(config: XDeltaConfig, description: ByteString, files: seq<string>)
    requires 0 <= config.secondaryCompression < SECONDARY_COMP_LENGTH
    requires |files| == 4 && files[0] == "-s"
    ensures ReadEncodeOptions(EncodeOptions(config, description) + files)
         == Some((config.compressionLevel as int,
                  SecondaryCompressions[config.secondaryCompression],
                  if config.srcWindowSize == SRC_WINDOW_SIZE_AUTO then None else Some(config.srcWindowSize as int),
                  EncodeDescription(description),
                  (files[1], files[2], files[3])))
  {
    var window: Option<int> := if config.srcWindowSize == SRC_WINDOW_SIZE_AUTO then None else Some(config.srcWindowSize as int);
    ReadOptionsOf(config.compressionLevel, SecondaryCompressions[config.secondaryCompression],
      window, EncodeDescription(description), files);
  }

  lemma SwitchOf(present: bool, flag: string, rest: seq<string>)
    requires |rest| > 0 && rest[0] != flag
    ensures Switch((if present then [flag] else []) + rest, flag) == (present, rest)
  {
    var args := (if present then [flag] else []) + rest;
    if present {
      assert args[0] == flag && args[1..] == rest;
    } else {
      assert args == rest;
    }
  }

  /** The switches in front of the operands: checksum off, then overwrite. */
  lemma SwitchesOf(op: string, noCheck: bool, force: bool, c: seq<string>)
    requires |c| > 0 && c[0] != "-n" && c[0] != "-f"
    ensures var argv := [op] + (if noCheck then ["-n"] else []) + (if force then ["-f"] else []) + c;
      |argv| > 0 && argv[0] == op
      && Switch(argv[1..], "-n") == (noCheck, (if force then ["-f"] else []) + c)
      && Switch((if force then ["-f"] else []) + c, "-f") == (force, c)
  {
    var checkPart: seq<string> := if noCheck then ["-n"] else [];
    var forcePart: seq<string> := if force then ["-f"] else [];
    var argv := [op] + checkPart + forcePart + c;
    assert argv[1..] == checkPart + (forcePart + c);
    SwitchOf(force, "-f", c);
    SwitchOf(noCheck, "-n", forcePart + c);
  }

  lemma Regroup(a: seq<string>, b: seq<string>, c: seq<string>, d: seq<string>, e: seq<string>)
    ensures a + b + c + d + e == a + b + c + (d + e)
  {
  }

  lemma InterpretDecode(config: XDeltaConfig, description: ByteString, original: string, out: string, patch: string)
    ensures Interpret(CommandLine(config, description, original, out, patch, false))
         == Some(Intended(config, description, original, out, patch, false))
  {
    var files := ["-s", original, patch, out];
    SwitchesOf("-d", !config.enableChecksum, config.overwriteOutput, files);
    assert CommandLine(config, description, original, out, patch, false)
        == ["-d"] + (if !config.enableChecksum then ["-n"] else [])
           + (if config.overwriteOutput then ["-f"] else []) + files;
  }

  lemma InterpretEncode(config: XDeltaConfig, description: ByteString, original: string, out: string, patch: string)
    requires 0 <= config.secondaryCompression < SECONDARY_COMP_LENGTH
    ensures Interpret(CommandLine(config, description, original, out, patch, true))
         == Some(Intended(config, description, original, out, patch, true))
  {
    var files := ["-s", original, out, patch];
    var c := EncodeOptions(config, description) + files;
    LevelArgument(config.compressionLevel);
    assert c[0] == "-" + IntToDecimal(config.compressionLevel);
    EncodeTail(config, description, files);
    SwitchesOf("-e", !config.enableChecksum, config.overwriteOutput, c);
    var checkPart: seq<string> := if !config.enableChecksum then ["-n"] else [];
    var forcePart: seq<string> := if config.overwriteOutput then ["-f"] else [];
    Regroup(["-e"], checkPart, forcePart, EncodeOptions(config, description), files);
  }

  /**
   * The arguments `MakeCommand` builds read back as exactly what the
   * patcher means: checksum verification off only when disabled, overwrite
   * on only when enabled, the encoder options only for an encode, and the
   * files in the order the operation needs.
   */
  lemma InterpretCommandLine(
    config: XDeltaConfig, description: ByteString,
    original: string, out: string, patch: string, encode: bool)
    requires encode ==> 0 <= config.secondaryCompression < SECONDARY_COMP_LENGTH
    ensures Interpret(CommandLine(config, description, original, out, patch, encode))
         == Some(Intended(config, description, original, out, patch, encode))
  {
    if encode {
      InterpretEncode(config, description, original, out, patch);
    } else {
      InterpretDecode(config, description, original, out, patch);
    }
  }
}
