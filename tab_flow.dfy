/**
 * What the patch and encode actions of the tabs have in common: the check
 * that every field is filled, the existence and emptiness checks on the two
 * input files, the temporary output path in the cache, the native call
 * (a request in, a return code and log messages out), the log the tab
 * builds from the messages, and the copy of the finished file to the
 * output folder.
 */
module TabFlow {
  import opened Wrappers
  import opened Text
  import opened Config
  import opened LineEnds
  import opened Messages
  import opened FileUtil

  const MISSING_FIELDS := "Please fill in all required fields"
  const ORIGINAL_NOT_FOUND := "Original ROM file not found"
  const ORIGINAL_EMPTY := "Original ROM file is empty"

  /** The second input's label in messages: the patch when applying one, the modified ROM when creating one. */
  const PATCH_LABEL := "Patch"
  const MODIFIED_LABEL := "Modified ROM"

  /**
   * Every field an action needs is set: both paths are non-empty, the
   * output folder is chosen and the output name is not blank.
   */
  predicate FieldsFilled(originalFilePath: string, secondaryFilePath: string, hasOutputDir: bool, outputFileName: string) {
    originalFilePath != "" && secondaryFilePath != "" && hasOutputDir && !IsBlank(outputFileName)
  }

  /**
   * The file checks, in order: the original exists, the second file exists,
   * the original is not empty, the second file is not empty. The first
   * check that fails gives the message; `None` when all pass.
   */
  function FileCheck(fs: FileSystem, originalFilePath: string, secondaryFilePath: string, secondaryLabel: string): Option<string> {
    if originalFilePath !in fs then Some(ORIGINAL_NOT_FOUND)
    else if secondaryFilePath !in fs then Some(secondaryLabel + " file not found")
    else if fs[originalFilePath] == 0 then Some(ORIGINAL_EMPTY)
    else if fs[secondaryFilePath] == 0 then Some(secondaryLabel + " file is empty")
    else None
  }

  /** The file checks pass exactly when both files exist and neither is empty. */
  lemma FileCheckPasses(fs: FileSystem, originalFilePath: string, secondaryFilePath: string, secondaryLabel: string)
    ensures FileCheck(fs, originalFilePath, secondaryFilePath, secondaryLabel).None?
        <==> originalFilePath in fs && secondaryFilePath in fs && fs[originalFilePath] > 0 && fs[secondaryFilePath] > 0
  {
  }

  /**
   * Existence is checked before emptiness: a missing file is reported even
   * when the other file is empty, and the original is reported before the
   * second file.
   */
  lemma FileCheckOrder(fs: FileSystem, originalFilePath: string, secondaryFilePath: string, secondaryLabel: string)
    ensures originalFilePath !in fs ==> FileCheck(fs, originalFilePath, secondaryFilePath, secondaryLabel) == Some(ORIGINAL_NOT_FOUND)
    ensures originalFilePath in fs && secondaryFilePath !in fs
            ==> FileCheck(fs, originalFilePath, secondaryFilePath, secondaryLabel) == Some(secondaryLabel + " file not found")
    ensures originalFilePath in fs && secondaryFilePath in fs && fs[originalFilePath] == 0
            ==> FileCheck(fs, originalFilePath, secondaryFilePath, secondaryLabel) == Some(ORIGINAL_EMPTY)
  {
  }

  /** No file-check message is the missing-fields message, so the two kinds of failure can be told apart. */
  lemma FileCheckIsNotMissingFields(fs: FileSystem, originalFilePath: string, secondaryFilePath: string, secondaryLabel: string)
    ensures FileCheck(fs, originalFilePath, secondaryFilePath, secondaryLabel) != Some(MISSING_FIELDS)
  {
    var r := FileCheck(fs, originalFilePath, secondaryFilePath, secondaryLabel);
    if r.Some? {
      assert r.value == ORIGINAL_NOT_FOUND || r.value == ORIGINAL_EMPTY
          || r.value == secondaryLabel + " file not found" || r.value == secondaryLabel + " file is empty";
      var last := r.value[|r.value| - 1];
      assert last == 'd' || last == 'y';
      assert MISSING_FIELDS[|MISSING_FIELDS| - 1] == 's';
    }
  }

  /** The messages both error classifiers share. */
  const FILE_ACCESS_ERROR := "File access error - check if files exist and are readable"
  const INVALID_ARGUMENTS := "Invalid arguments provided to xdelta3"
  const INPUT_FILE_ERROR := "Input file error - file may be corrupted or inaccessible"
  const OUTPUT_FILE_ERROR := "Output file error - cannot write to destination"
  const MEMORY_ERROR := "Memory allocation failed"
  const UNKNOWN_PREFIX := "Unknown error occurred (code: "
  const FULL_LOG_INFIX := ")\n\nFull log:\n"

  /** The lower-cased log says a file could not be reached. */
  predicate AccessErrorInLog(xdeltaMessages: string) {
    Contains(xdeltaMessages, "no such file") || Contains(xdeltaMessages, "cannot open")
  }

  /** The message for a return code neither classifier knows: the code, then the whole log. */
  function UnknownError(result: Int32, log: string): string {
    UNKNOWN_PREFIX + IntToDecimal(result) + FULL_LOG_INFIX + log
  }

  /** The unknown-error message ends with the whole log, and the code in it reads back as the return code. */
  lemma UnknownErrorReadBack(result: Int32, log: string)
    ensures exists digits ::
      ParseInt(digits) == Some(result as int) && UnknownError(result, log) == UNKNOWN_PREFIX + digits + FULL_LOG_INFIX + log
  {
    ParseIntRoundTrip(result as int);
    var digits := IntToDecimal(result);
    assert ParseInt(digits) == Some(result as int);
  }

  const SEPARATOR: char := '/'

  /** `File(cacheDir, outputFileName).absolutePath`, for an absolute cache directory. */
  function TempOutputPath(cacheDir: string, outputFileName: string): string {
    cacheDir + [SEPARATOR] + outputFileName
  }

  /** `File.name`: the part of a path after its last separator. */
  function BaseName(path: string): (name: string)
    ensures SEPARATOR !in name
  {
    var i := LastIndexOf(path, SEPARATOR);
    path[i + 1..]
  }

  /** The temporary output file is named after the output name, as long as that name has no separator. */
  lemma TempOutputName(cacheDir: string, outputFileName: string)
    requires SEPARATOR !in outputFileName
    ensures BaseName(TempOutputPath(cacheDir, outputFileName)) == outputFileName
  {
    LastIndexOfSplit(cacheDir, SEPARATOR, outputFileName);
    var p := TempOutputPath(cacheDir, outputFileName);
    assert p[|cacheDir| + 1..] == outputFileName;
  }

  /**
   * The native entry points as the app calls them. The first tab generation
   * calls a `decode` without the checksum switch.
   */
  datatype NativeCall =
    | DecodeWithoutChecksum(original: string, output: string, patch: string)
    | Decode(original: string, output: string, patch: string, useChecksum: bool)
    | Encode(original: string, modified: string, output: string, description: string,
             useChecksum: bool, compressionLevel: Int32, secondaryCompression: Int32, srcWindowSize: Int32)

  /** What a native call gives back: its return code and the messages it sent to the log callback, in order. */
  datatype NativeRun = NativeRun(result: Int32, messages: seq<string>)

  /** The native library, which this model does not contain. */
  type Native = NativeCall -> NativeRun

  /**
   * What happens once the native call returned 0: the temporary output file
   * is missing, the output folder refuses the new file, copying it throws,
   * or it is delivered. The lengths are those of the temporary file.
   */
  datatype Delivery = NoTempFile | CannotCreate(length: nat) | CopyThrew(length: nat, message: string) | Delivered(length: nat)

  /** The log line naming the temporary output file and its size. */
  function OutputFileLine(name: string, length: nat): string {
    "Output file: " + name + " (" + NatToDecimal(length) + " bytes)\n"
  }

  /** The log a callback builds that appends each message and a line break. */
  function LogLines(messages: seq<string>): string {
    if messages == [] then "" else messages[0] + [LF] + LogLines(messages[1..])
  }

  lemma {:induction false} LogLinesSnoc(messages: seq<string>, m: string)
    ensures LogLines(messages + [m]) == LogLines(messages) + m + [LF]
  {
    if messages != [] {
      assert (messages + [m])[1..] == messages[1..] + [m];
      LogLinesSnoc(messages[1..], m);
    } else {
      assert LogLines([m]) == m + [LF] + LogLines([]);
    }
  }

  /** Reading a line that ends in a line break gives the line and leaves the rest for later. */
  lemma {:induction false} LinesFromLine(cur: string, m: string, rest: string)
    requires LF !in m
    ensures LinesFrom(cur, m + [LF] + rest) == [cur + m] + LinesFrom([], rest)
    decreases |m|
  {
    if m == [] {
      assert cur + m == cur;
      assert [LF] + rest == m + [LF] + rest;
      assert ([LF] + rest)[1..] == rest;
    } else {
      var s := m + [LF] + rest;
      assert s[0] == m[0] && s[1..] == m[1..] + [LF] + rest;
      LinesFromLine(cur + [m[0]], m[1..], rest);
      assert cur + [m[0]] + m[1..] == cur + m;
    }
  }

  /**
   * Splitting the log at its line breaks gives back the messages, as long
   * as no message holds a line break of its own: every message stays a
   * line of the log.
   */
  lemma {:induction false} LogLinesRoundTrip(messages: seq<string>)
    requires forall i :: 0 <= i < |messages| ==> LF !in messages[i]
    ensures Lines(LogLines(messages)) == messages
  {
    if messages != [] {
      LinesFromLine([], messages[0], LogLines(messages[1..]));
      assert [] + messages[0] == messages[0];
      LogLinesRoundTrip(messages[1..]);
    }
  }

  /** The log callback: appends each message in turn, followed by a line break. */
  method AppendMessages(log: string, messages: seq<string>) returns (r: string)
    ensures r == log + LogLines(messages)
  {
    r := log;
    for i := 0 to |messages|
      invariant r == log + LogLines(messages[..i])
    {
      LogLinesSnoc(messages[..i], messages[i]);
      assert messages[..i + 1] == messages[..i] + [messages[i]];
      r := r + messages[i] + [LF];
    }
    assert messages[..|messages|] == messages;
  }

  /** What a tab shows of an action: the log, the error dialog with its message, and the success dialog. */
  datatype Screen = Screen(log: string, errorMessage: string, showErrorDialog: bool, showSuccessDialog: bool)

  /** `text` appended to the log; what was logged stays. */
  function Logged(s: Screen, text: string): (r: Screen)
    ensures r.log == s.log + text && |s.log| <= |r.log| && r.log[..|s.log|] == s.log
    ensures r.errorMessage == s.errorMessage && r.showErrorDialog == s.showErrorDialog
    ensures r.showSuccessDialog == s.showSuccessDialog
  {
    s.(log := s.log + text)
  }

  /** The error dialog with `message`. */
  function Fail(s: Screen, message: string): (r: Screen)
    ensures r.showErrorDialog && r.errorMessage == message
    ensures r.log == s.log && r.showSuccessDialog == s.showSuccessDialog
  {
    s.(errorMessage := message, showErrorDialog := true)
  }
}
