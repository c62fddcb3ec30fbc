/**
 * The patch tab of the first app generation: the button's enabling
 * condition, the checks made before patching, the call to the native
 * `decode`, the log it fills, the copy of the patched file to the output
 * folder, and the message shown when xdelta3 fails.
 */
module DecodeTab {
  import opened Wrappers
  import opened Text
  import opened Config
  import opened FileUtil
  import opened TabFlow

  const TOO_SHORT := "source file too short"
  const CHECKSUM_MISMATCH := "target window checksum mismatch"
  const WRONG_FILE := "The patch could not be applied:\nThe file you are trying to patch is not the right one."
  const WRONG_FILE_CODE := "The file you are trying to patch is not the right one"

  /** `canApplyPatch`: both files picked, an output folder chosen, an output name that is not blank. */
  predicate CanApplyPatch(originalFilePath: string, patchFilePath: string, hasOutputDir: bool, outputFileName: string) {
    FieldsFilled(originalFilePath, patchFilePath, hasOutputDir, outputFileName)
  }

  /** The checks the patch button makes, in order; the message of the first that fails, `None` when all pass. */
  function DecodeValidation(fs: FileSystem, originalFilePath: string, patchFilePath: string, hasOutputDir: bool, outputFileName: string): Option<string> {
    if !CanApplyPatch(originalFilePath, patchFilePath, hasOutputDir, outputFileName) then Some(MISSING_FIELDS)
    else FileCheck(fs, originalFilePath, patchFilePath, PATCH_LABEL)
  }

  /**
   * Patching is attempted exactly when the button is enabled and both files
   * exist and are not empty; a disabled button is the missing-fields
   * message and nothing else is.
   */
  lemma DecodeValidationPasses(fs: FileSystem, originalFilePath: string, patchFilePath: string, hasOutputDir: bool, outputFileName: string)
    ensures DecodeValidation(fs, originalFilePath, patchFilePath, hasOutputDir, outputFileName).None?
        <==> CanApplyPatch(originalFilePath, patchFilePath, hasOutputDir, outputFileName)
             && originalFilePath in fs && patchFilePath in fs && fs[originalFilePath] > 0 && fs[patchFilePath] > 0
    ensures DecodeValidation(fs, originalFilePath, patchFilePath, hasOutputDir, outputFileName) == Some(MISSING_FIELDS)
        <==> !CanApplyPatch(originalFilePath, patchFilePath, hasOutputDir, outputFileName)
  {
    FileCheckPasses(fs, originalFilePath, patchFilePath, PATCH_LABEL);
    FileCheckIsNotMissingFields(fs, originalFilePath, patchFilePath, PATCH_LABEL);
  }

  /** The lower-cased log says the file being patched is not the one the patch was made from. */
  predicate WrongFileInLog(xdeltaMessages: string) {
    || Contains(xdeltaMessages, TOO_SHORT)
    || Contains(xdeltaMessages, CHECKSUM_MISMATCH)
    || Contains(xdeltaMessages, "found '" + TOO_SHORT + "'")
    || Contains(xdeltaMessages, "found '" + CHECKSUM_MISMATCH + "'")
  }

  /** The two "found '…'" patterns add nothing: each contains one of the two plain ones. */
  lemma FoundPatternsRedundant(xdeltaMessages: string)
    ensures WrongFileInLog(xdeltaMessages)
        <==> Contains(xdeltaMessages, TOO_SHORT) || Contains(xdeltaMessages, CHECKSUM_MISMATCH)
  {
    if Contains(xdeltaMessages, "found '" + TOO_SHORT + "'") {
      ContainsInner(xdeltaMessages, "found '", TOO_SHORT, "'");
    }
    if Contains(xdeltaMessages, "found '" + CHECKSUM_MISMATCH + "'") {
      ContainsInner(xdeltaMessages, "found '", CHECKSUM_MISMATCH, "'");
    }
  }

  /**
   * The message shown when `decode` returns non-zero: the wrong-file
   * message when the lower-cased log mentions a short source or a checksum
   * mismatch, then the access message, then one message per return code,
   * and for any other code the code followed by the whole log.
   */
  function DecodeErrorMessage(log: string, result: Int32): string {
    var xdeltaMessages := Lower(log);
    if WrongFileInLog(xdeltaMessages) then WRONG_FILE
    else if AccessErrorInLog(xdeltaMessages) then FILE_ACCESS_ERROR
    else if result == 1 then "General error occurred during patching"
    else if result == 2 then INVALID_ARGUMENTS
    else if result == 3 then INPUT_FILE_ERROR
    else if result == 4 then OUTPUT_FILE_ERROR
    else if result == 5 then WRONG_FILE_CODE
    else if result == 6 then MEMORY_ERROR
    else UnknownError(result, log)
  }

  /**
   * The log decides before the return code: when it names a wrong file or
   * an access problem, every return code gives the same message, the
   * wrong-file one first.
   */
  lemma DecodeLogBeatsCode(log: string, result1: Int32, result2: Int32)
    requires WrongFileInLog(Lower(log)) || AccessErrorInLog(Lower(log))
    ensures DecodeErrorMessage(log, result1) == DecodeErrorMessage(log, result2)
    ensures WrongFileInLog(Lower(log)) ==> DecodeErrorMessage(log, result1) == WRONG_FILE
    ensures !WrongFileInLog(Lower(log)) ==> DecodeErrorMessage(log, result1) == FILE_ACCESS_ERROR
  {
  }

  /**
   * Matching ignores case: two logs that lower-case alike give the same
   * message, except for unknown codes, whose message quotes the log itself.
   */
  lemma DecodeIgnoresCase(log1: string, log2: string, result: Int32)
    requires Lower(log1) == Lower(log2)
    requires 1 <= result <= 6 || WrongFileInLog(Lower(log1)) || AccessErrorInLog(Lower(log1))
    ensures DecodeErrorMessage(log1, result) == DecodeErrorMessage(log2, result)
  {
  }

  /**
   * With nothing recognised in the log, codes 1 to 6 each have their own
   * message, 5 being a wrong file and 6 a failed allocation; every other
   * code quotes the code and the whole log.
   */
  lemma DecodeCodeTable(log: string, result: Int32)
    requires !WrongFileInLog(Lower(log)) && !AccessErrorInLog(Lower(log))
    ensures result == 5 ==> DecodeErrorMessage(log, result) == WRONG_FILE_CODE
    ensures result == 6 ==> DecodeErrorMessage(log, result) == MEMORY_ERROR
    ensures !(1 <= result <= 6) ==> exists digits ::
      ParseInt(digits) == Some(result as int) && DecodeErrorMessage(log, result) == UNKNOWN_PREFIX + digits + FULL_LOG_INFIX + log
  {
    UnknownErrorReadBack(result, log);
  }

  /** The first two log lines of a patch run. */
  function DecodeLogStart(originalFileName: string, patchFileName: string): string {
    "Original ROM: " + originalFileName + "\n" + "Patch file: " + patchFileName + "\n"
  }

  /** The screen after the copy of a patched file whose run returned 0. */
  function DeliverPatched(s: Screen, delivery: Delivery, tempName: string): (r: Screen)
    ensures |s.log| <= |r.log| && r.log[..|s.log|] == s.log
    ensures r.showSuccessDialog == (s.showSuccessDialog || delivery.Delivered?)
    ensures !delivery.Delivered? ==> r.showErrorDialog
  {
    match delivery
    case NoTempFile => Fail(s, "Patch application failed - no output file generated")
    case CannotCreate(length) => Fail(Logged(s, OutputFileLine(tempName, length)), "Failed to create output file")
    case CopyThrew(length, message) =>
      Fail(Logged(s, OutputFileLine(tempName, length) + "Error copying output file: " + message + "\n"),
        "Error copying output file: " + message)
    case Delivered(length) => Logged(s, OutputFileLine(tempName, length)).(showSuccessDialog := true)
  }

  /**
   * The screen once `decode` returned: the log only grows; the success
   * dialog opens only for return code 0 with the file delivered, and
   * otherwise the error dialog opens; a non-zero code shows the classifier's
   * message for the log as it stood, which the log then records.
   */
  function AfterDecode(s: Screen, result: Int32, delivery: Delivery, tempName: string): (r: Screen)
    ensures |s.log| <= |r.log| && r.log[..|s.log|] == s.log
    ensures r.showSuccessDialog == (s.showSuccessDialog || (result == 0 && delivery.Delivered?))
    ensures !(result == 0 && delivery.Delivered?) ==> r.showErrorDialog
    ensures result != 0 ==>
      r.errorMessage == DecodeErrorMessage(s.log, result) && r.log == s.log + "Patching failed: " + r.errorMessage + "\n"
  {
    if result == 0 then DeliverPatched(s, delivery, tempName)
    else
      var errorMsg := DecodeErrorMessage(s.log, result);
      Fail(Logged(s, "Patching failed: " + errorMsg + "\n"), errorMsg)
  }

  class DecodeTabState {
    var originalFilePath: string
    var originalFileName: string
    var patchFilePath: string
    var patchFileName: string
    var outputDir: Option<string>
    var outputFileName: string
    var screen: Screen
    var isPatching: bool

    constructor ()
      ensures originalFilePath == "" && patchFilePath == "" && outputDir.None? && outputFileName == ""
      ensures screen == Screen("", "", false, false) && !isPatching
    {
      originalFilePath, originalFileName := "", "";
      patchFilePath, patchFileName := "", "";
      outputDir, outputFileName := None, "";
      screen := Screen("", "", false, false);
      isPatching := false;
    }

    /**
     * The patch button. When a check fails its message is shown and the
     * native side is not called (`call` is `None`). Otherwise `decode` runs
     * on the original, a temporary output in the cache and the patch; its
     * messages go to the log after the two opening lines, and its return
     * code decides what is shown. The selection is kept either way.
     */
    method ApplyPatch(fs: FileSystem, cacheDir: string, native: Native, delivery: Delivery) returns (call: Option<NativeCall>)
      modifies this
      ensures originalFilePath == old(originalFilePath) && originalFileName == old(originalFileName)
      ensures patchFilePath == old(patchFilePath) && patchFileName == old(patchFileName)
      ensures outputDir == old(outputDir) && outputFileName == old(outputFileName)
      ensures !isPatching
      ensures var failure := DecodeValidation(fs, originalFilePath, patchFilePath, outputDir.Some?, outputFileName);
        && (failure.Some? ==> call.None? && screen == Fail(old(screen), failure.value))
        && (failure.None? ==>
              var tempOutputPath := TempOutputPath(cacheDir, outputFileName);
              && call == Some(DecodeWithoutChecksum(originalFilePath, tempOutputPath, patchFilePath))
              && var run := native(call.value);
                 screen == AfterDecode(
                   old(screen).(log := DecodeLogStart(originalFileName, patchFileName) + LogLines(run.messages)),
                   run.result, delivery, BaseName(tempOutputPath)))
    {
      var failure := DecodeValidation(fs, originalFilePath, patchFilePath, outputDir.Some?, outputFileName);
      if failure.Some? {
        screen := Fail(screen, failure.value);
        isPatching := false;
        return None;
      }
      var log := DecodeLogStart(originalFileName, patchFileName);
      var tempOutputPath := TempOutputPath(cacheDir, outputFileName);
      isPatching := true;
      call := Some(DecodeWithoutChecksum(originalFilePath, tempOutputPath, patchFilePath));
      var run := native(call.value);
      log := AppendMessages(log, run.messages);
      screen := AfterDecode(screen.(log := log), run.result, delivery, BaseName(tempOutputPath));
      isPatching := false;
    }
  }
}
