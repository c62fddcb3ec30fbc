/**
 * The `XDeltaPatch` object: a patch file name, a configuration and a
 * description, the reading of the description from the patch header when a
 * patch is opened for reading, and the running of xdelta3 with the command
 * line built from the configuration.
 */
module Patch {
  import opened Wrappers
  import opened Bytes
  import opened Text
  import opened VarLength
  import opened LineEnds
  import opened Config
  import opened Header
  import opened Command
  import opened Messages
  import Base64

  /** The files the patcher can open, by path. A path missing from the map cannot be opened. */
  type Disk = map<string, seq<byte>>

  datatype PatchMode = Read | Write

  /**
   * What one run of xdelta3 gives: `xd3_main_exec`'s return code with the
   * text of `xd3_messages()`, or the exception it throws.
   */
  datatype CodecOutcome = Exited(code: Int32, messages: string) | Threw(what: string)

  /** xdelta3 itself, which this model does not contain: a command line in, an outcome out. */
  type Codec = seq<string> -> CodecOutcome

  /** What `Process` gives: the return code with the reported message and the whole message buffer, or the exception. */
  datatype Run = Finished(code: Int32, message: string, messages: string) | Raised(what: string)

  /** The description the header of the file at `name` yields. */
  function ReadDescription(disk: Disk, name: string, heapLimit: nat): (r: DescResult)
    ensures name !in disk ==> r == Skipped(CannotOpen)
    ensures r.Found? ==> CR !in r.text
  {
    if name !in disk then Skipped(CannotOpen) else ParseDescription(disk[name], heapLimit)
  }

  /**
   * What `Process` reports for an outcome of xdelta3: the return code and the
   * first line of the messages, or the exception unchanged.
   */
  function Reported(e: CodecOutcome): (r: Run)
    ensures e.Threw? <==> r.Raised?
    ensures e.Threw? ==> r.what == e.what
    ensures e.Exited? ==> r.code == e.code && r.messages == e.messages
    ensures e.Exited? ==> r.message == e.messages[..LineEnd(e.messages)]
  {
    match e
    case Threw(what) => Raised(what)
    case Exited(code, messages) =>
      FirstLineIsPrefix(messages);
      Finished(code, FirstLine(messages), messages)
  }

  class XDeltaPatch {
    var patchName: string
    var config: XDeltaConfig
    var description: ByteString

    /** `XDeltaPatch()`: no patch file, the default configuration, no description. */
    constructor ()
      ensures patchName == "" && description == ""
      ensures config == DefaultConfig()
    {
      patchName := "";
      config := DefaultConfig();
      description := "";
    }

    /**
     * `XDeltaPatch(input, mode)`: a patch for `input`; opened for reading, it
     * takes its description from the patch header. None is the
     * `std::bad_alloc` that reading the header can throw.
     */
    static method Open(input: Option<string>, mode: PatchMode, disk: Disk, heapLimit: nat)
      returns (r: Option<XDeltaPatch>)
      ensures r.None? <==> input.Some? && mode == Read && ReadDescription(disk, input.value, heapLimit) == AllocFailure
      ensures r.Some? ==> fresh(r.value) && r.value.config == DefaultConfig()
      ensures r.Some? ==> r.value.patchName == (if input.Some? then input.value else "")
      ensures r.Some? && input.Some? && mode == Read && ReadDescription(disk, input.value, heapLimit).Found?
              ==> r.value.description == ReadDescription(disk, input.value, heapLimit).text
      ensures r.Some? && !(input.Some? && mode == Read && ReadDescription(disk, input.value, heapLimit).Found?)
              ==> r.value.description == ""
    {
      var patch := new XDeltaPatch();
      if input.None? {
        return Some(patch);
      }
      patch.patchName := input.value;
      if mode != Read {
        return Some(patch);
      }
      var outcome := patch.DecodeDescription(disk, heapLimit);
      if outcome == AllocFailure {
        return None;
      }
      return Some(patch);
    }

    /**
     * Reads the description from the header of the patch file and normalises
     * its line ends in place. The description changes only when one is found.
     */
    method DecodeDescription(disk: Disk, heapLimit: nat) returns (outcome: DescResult)
      modifies this
      ensures outcome == ReadDescription(disk, patchName, heapLimit)
      ensures patchName == old(patchName) && config == old(config)
      ensures description == if outcome.Found? then outcome.text else old(description)
    {
      if patchName !in disk {
        return Skipped(CannotOpen);
      }
      var buf;
      outcome, buf := DecodeHeader(disk[patchName], heapLimit);
      if outcome.Found? {
        description := FromBytes(buf);
        ReplacePairs();
        ReplaceLoneCr();
      }
    }

    /** The first in-place pass: every CR LF pair, searched from after the last replacement, becomes LF. */
    method ReplacePairs()
      modifies this
      ensures description == ReplaceCrLf(old(description))
      ensures patchName == old(patchName) && config == old(config)
    {
      var pos: nat := 0;
      while true
        invariant pos <= |description|
        invariant description[..pos] + ReplaceCrLf(description[pos..]) == ReplaceCrLf(old(description))
        invariant patchName == old(patchName) && config == old(config)
        decreases |description| - pos
      {
        var found := Find(description, [CR, LF], pos);
        if found.None? {
          NoPairLeft(description, pos);
          return;
        }
        var at := found.value;
        PairReplaced(description, pos, at);
        SpliceIsByteString(description, at, 2, LF);
        description := description[..at] + [LF] + description[at + 2..];
        pos := at + 1;
      }
    }

    /** The second in-place pass: every remaining CR becomes LF. */
    method ReplaceLoneCr()
      modifies this
      ensures description == ReplaceCr(old(description))
      ensures patchName == old(patchName) && config == old(config)
    {
      ghost var original := description;
      var pos: nat := 0;
      while true
        invariant pos <= |description| == |original|
        invariant forall i :: 0 <= i < pos ==> description[i] == CrToLf(original[i])
        invariant forall i :: pos <= i < |description| ==> description[i] == original[i]
        invariant patchName == old(patchName) && config == old(config)
        decreases |description| - pos
      {
        var found := Find(description, [CR], pos);
        if found.None? {
          forall i | pos <= i < |description|
            ensures description[i] == CrToLf(original[i])
          {
            assert !OccursAt(description, [CR], i);
            assert description[i..i + 1] == [description[i]];
          }
          return;
        }
        var at := found.value;
        var d := description;
        forall i | pos <= i < at
          ensures d[i] == CrToLf(original[i])
        {
          assert !OccursAt(d, [CR], i);
          assert d[i..i + 1] == [d[i]];
        }
        assert d[at..at + 1] == [CR];
        SpliceIsByteString(d, at, 1, LF);
        OverwriteOne(d, at, LF);
        description := d[..at] + [LF] + d[at + 1..];
        forall i | at < i < |description|
          ensures description[i] == original[i]
        {
          assert description[i] == d[i];
        }
        forall i | 0 <= i <= at
          ensures description[i] == CrToLf(original[i])
        {
          assert i < at ==> description[i] == d[i];
        }
        pos := at + 1;
      }
    }

    function GetDescription(): string
      reads this
    {
      description
    }

    method SetDescription(d: ByteString)
      modifies this
      ensures description == d
      ensures patchName == old(patchName) && config == old(config)
    {
      description := d;
    }

    method SetConfig(c: XDeltaConfig)
      modifies this
      ensures config == c
      ensures patchName == old(patchName) && description == old(description)
    {
      config := c;
    }

    /**
     * The arguments for xdelta3, appended in order; they read back as
     * `Intended` (lemma `InterpretCommandLine`).
     */
    method MakeCommand(original: string, out: string, patch: string, encode: bool) returns (params: seq<string>)
      requires encode ==> 0 <= config.secondaryCompression < SECONDARY_COMP_LENGTH
      ensures params == CommandLine(config, description, original, out, patch, encode)
      ensures Interpret(params) == Some(Intended(config, description, original, out, patch, encode))
    {
      params := [];
      if encode {
        params := params + ["-e"];
      } else {
        params := params + ["-d"];
      }
      if !config.enableChecksum {
        params := params + ["-n"];
      }
      if config.overwriteOutput {
        params := params + ["-f"];
      }
      ghost var switches := params;
      assert switches == [if encode then "-e" else "-d"] + (if !config.enableChecksum then ["-n"] else [])
        + (if config.overwriteOutput then ["-f"] else []);
      if encode {
        var compressionFlag := "-" + IntToDecimal(config.compressionLevel);
        var options := [compressionFlag, "-S", SecondaryCompressions[config.secondaryCompression]];
        if config.srcWindowSize != SRC_WINDOW_SIZE_AUTO {
          options := options + ["-B", IntToDecimal(config.srcWindowSize)];
        }
        var base64 := EncodeDescription(description);
        options := options + ["-A=" + base64];
        params := params + options;
      }
      ghost var options := params;
      assert options == switches + (if encode then EncodeOptions(config, description) else []);
      if encode {
        params := params + ["-s", original, out, patch];
      } else {
        params := params + ["-s", original, patch, out];
      }
      assert params == options + (if encode then ["-s", original, out, patch] else ["-s", original, patch, out]);
      InterpretCommandLine(config, description, original, out, patch, encode);
    }

    /** `std::getline` over the buffer with delimiter '\n', collecting every line read. */
    static method SplitMessageByLine(str: string) returns (tokens: seq<string>)
      ensures tokens == Lines(str)
      ensures forall i :: 0 <= i < |tokens| ==> LF !in tokens[i]
      ensures Join(tokens) + TrailingBreak(str) == str
    {
      tokens := [];
      var token: string := [];
      var i := 0;
      while i < |str|
        invariant 0 <= i <= |str|
        invariant tokens + LinesFrom(token, str[i..]) == Lines(str)
      {
        assert str[i..][0] == str[i] && str[i..][1..] == str[i + 1..];
        if str[i] == LF {
          tokens := tokens + [token];
          token := [];
        } else {
          token := token + [str[i]];
        }
        i := i + 1;
      }
      if token != [] {
        tokens := tokens + [token];
      }
      LinesHaveNoBreak(str);
      JoinLines(str);
    }

    /**
     * Runs xdelta3 on the command line for the three files and reports its
     * return code with the first line of its messages.
     */
    method Process(original: string, out: string, patch: string, encode: bool, codec: Codec) returns (r: Run)
      requires encode ==> 0 <= config.secondaryCompression < SECONDARY_COMP_LENGTH
      ensures r == Reported(codec(CommandLine(config, description, original, out, patch, encode)))
    {
      var params := MakeCommand(original, out, patch, encode);
      var outcome := codec(params);
      if outcome.Threw? {
        return Raised(outcome.what);
      }
      var messages := outcome.messages;
      var outArray := SplitMessageByLine(messages);
      var message;
      if |outArray| > 0 {
        message := outArray[0];
      } else {
        message := messages;
      }
      return Finished(outcome.code, message, messages);
    }

    /** Applies the patch: reads the patch file against `original` and writes `out`. */
    method Decode(original: string, out: string, codec: Codec) returns (r: Run)
      ensures r == Reported(codec(CommandLine(config, description, original, out, patchName, false)))
    {
      r := Process(original, out, patchName, false, codec);
    }

    /** Creates the patch: reads `modified` against `original` and writes the patch file. */
    method Encode(original: string, modified: string, codec: Codec) returns (r: Run)
      requires 0 <= config.secondaryCompression < SECONDARY_COMP_LENGTH
      ensures r == Reported(codec(CommandLine(config, description, original, modified, patchName, true)))
    {
      r := Process(original, modified, patchName, true, codec);
    }
  }
}
