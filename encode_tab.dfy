/**
 * The create-patch tab of the first app generation: the button's enabling
 * condition, the checks made before encoding (with the free-space gate),
 * the call to the native `encode` with the settings, the copy of the patch
 * to the output folder, the reset after success, and the message shown
 * when xdelta3 fails.
 */
module EncodeTab {
  import opened Wrappers
  import opened Text
  import opened Config
  import opened FileUtil
  import opened TabFlow
  import Settings
  import DecodeTab

  /** `canCreatePatch`: both files picked, an output folder chosen, an output name that is not blank. */
  predicate CanCreatePatch(originalFilePath: string, modifiedFilePath: string, hasOutputDir: bool, outputFileName: string) {
    FieldsFilled(originalFilePath, modifiedFilePath, hasOutputDir, outputFileName)
  }

  /** How the checks before encoding end: go ahead, an error message, or the low-storage warning. */
  datatype Gate = Proceed | Refused(message: string) | LowStorage

  /** The checks the create button makes, in order: fields, free space, then the two files. */
  function EncodeGate(
    fs: FileSystem, originalFilePath: string, modifiedFilePath: string, hasOutputDir: bool, outputFileName: string,
    freeSpace: Option<int>, required: int): Gate
  {
    if !CanCreatePatch(originalFilePath, modifiedFilePath, hasOutputDir, outputFileName) then Refused(MISSING_FIELDS)
    else if !HasStorageSpace(freeSpace, required) then LowStorage
    else match FileCheck(fs, originalFilePath, modifiedFilePath, MODIFIED_LABEL)
      case Some(message) => Refused(message)
      case None => Proceed
  }

  /**
   * Encoding is attempted exactly when the button is enabled, the cache has
   * room and both files exist and are not empty; missing fields are
   * reported whatever the free space, and low free space is reported
   * whatever the files.
   */
  lemma EncodeGateOrder(
    fs: FileSystem, originalFilePath: string, modifiedFilePath: string, hasOutputDir: bool, outputFileName: string,
    freeSpace: Option<int>, required: int)
    ensures var g := EncodeGate(fs, originalFilePath, modifiedFilePath, hasOutputDir, outputFileName, freeSpace, required);
      && (g == Proceed <==>
            CanCreatePatch(originalFilePath, modifiedFilePath, hasOutputDir, outputFileName)
            && HasStorageSpace(freeSpace, required)
            && originalFilePath in fs && modifiedFilePath in fs && fs[originalFilePath] > 0 && fs[modifiedFilePath] > 0)
      && (g == Refused(MISSING_FIELDS) <==> !CanCreatePatch(originalFilePath, modifiedFilePath, hasOutputDir, outputFileName))
      && (g == LowStorage <==>
            CanCreatePatch(originalFilePath, modifiedFilePath, hasOutputDir, outputFileName) && !HasStorageSpace(freeSpace, required))
  {
    FileCheckPasses(fs, originalFilePath, modifiedFilePath, MODIFIED_LABEL);
    FileCheckIsNotMissingFields(fs, originalFilePath, modifiedFilePath, MODIFIED_LABEL);
  }

  /**
   * The message shown when `encode` returns non-zero: the access message
   * when the lower-cased log says a file could not be opened, then one
   * message per return code from 1 to 5, and for any other code the code
   * followed by the whole log.
   */
  function EncodeErrorMessage(log: string, result: Int32): string {
    var xdeltaMessages := Lower(log);
    if AccessErrorInLog(xdeltaMessages) then FILE_ACCESS_ERROR
    else if result == 1 then "General error occurred during patch creation"
    else if result == 2 then INVALID_ARGUMENTS
    else if result == 3 then INPUT_FILE_ERROR
    else if result == 4 then OUTPUT_FILE_ERROR
    else if result == 5 then MEMORY_ERROR
    else UnknownError(result, log)
  }

  /** The access message wins over every return code, and matching ignores case for the known codes. */
  lemma EncodeLogBeatsCode(log1: string, log2: string, result1: Int32, result2: Int32)
    requires Lower(log1) == Lower(log2) && AccessErrorInLog(Lower(log1))
    ensures EncodeErrorMessage(log1, result1) == EncodeErrorMessage(log2, result2) == FILE_ACCESS_ERROR
  {
  }

  /**
   * The two classifiers disagree on codes 5 and 6: for encoding 5 is a
   * failed allocation and 6 is unknown, for patching 5 is a wrong file and
   * 6 a failed allocation. Nor does encoding recognise a wrong-file log.
   */
  lemma CodesDifferFromDecode(log: string)
    requires !AccessErrorInLog(Lower(log)) && !DecodeTab.WrongFileInLog(Lower(log))
    ensures EncodeErrorMessage(log, 5) == MEMORY_ERROR != DecodeTab.DecodeErrorMessage(log, 5)
    ensures EncodeErrorMessage(log, 6) == UnknownError(6, log) && DecodeTab.DecodeErrorMessage(log, 6) == MEMORY_ERROR
  {
    assert |MEMORY_ERROR| < |DecodeTab.WRONG_FILE_CODE|;
    assert DecodeTab.DecodeErrorMessage(log, 5) == DecodeTab.WRONG_FILE_CODE;
  }

  /** The first two log lines of an encode run. */
  function EncodeLogStart(originalFileName: string, modifiedFileName: string): string {
    "Original ROM: " + originalFileName + "\n" + "Modified ROM: " + modifiedFileName + "\n"
  }

  /** The native request the create button makes: the settings go to `encode` unchanged. */
  function EncodeRequest(
    originalFilePath: string, modifiedFilePath: string, tempOutputPath: string, description: string,
    settings: Settings.Snapshot): (call: NativeCall)
    ensures call.Encode? && call.output == tempOutputPath && call.description == description
    ensures call.useChecksum == settings.useChecksum && call.compressionLevel == settings.level
    ensures call.secondaryCompression == settings.secondary && call.srcWindowSize == settings.window
  {
    Encode(originalFilePath, modifiedFilePath, tempOutputPath, description,
      settings.useChecksum, settings.level, settings.secondary, settings.window)
  }

  const NO_OUTPUT_REPORTED := "Patch creation reported success but no output file was generated\n"
  const NO_OUTPUT := "Patch creation failed - no output file generated"
  const NO_OUTPUT_HINT := ".\nThis may indicate an issue with the input files or compression settings."

  /** The screen after the copy of a patch whose run returned 0. */
  function DeliverPatch(s: Screen, delivery: Delivery, tempName: string): (r: Screen)
    ensures |s.log| <= |r.log| && r.log[..|s.log|] == s.log
    ensures r.showSuccessDialog == (s.showSuccessDialog || delivery.Delivered?)
    ensures !delivery.Delivered? ==> r.showErrorDialog
  {
    match delivery
    case NoTempFile => Fail(s, NO_OUTPUT)
    case CannotCreate(length) => Fail(Logged(s, OutputFileLine(tempName, length) + NO_OUTPUT_REPORTED), NO_OUTPUT + NO_OUTPUT_HINT)
    case CopyThrew(length, message) =>
      Fail(Logged(s, OutputFileLine(tempName, length) + "Error copying output file: " + message + "\n"),
        "Error copying output file: " + message)
    case Delivered(length) => Logged(s, OutputFileLine(tempName, length)).(showSuccessDialog := true)
  }

  /**
   * The screen once `encode` returned: the log only grows; the success
   * dialog opens only for return code 0 with the patch delivered, the error
   * dialog otherwise; a non-zero code shows the classifier's message for the
   * log as it stood, which the log then records.
   */
  function AfterEncode(s: Screen, result: Int32, delivery: Delivery, tempName: string): (r: Screen)
    ensures |s.log| <= |r.log| && r.log[..|s.log|] == s.log
    ensures r.showSuccessDialog == (s.showSuccessDialog || (result == 0 && delivery.Delivered?))
    ensures !(result == 0 && delivery.Delivered?) ==> r.showErrorDialog
    ensures result != 0 ==>
      r.errorMessage == EncodeErrorMessage(s.log, result) && r.log == s.log + "Patch creation failed: " + r.errorMessage + "\n"
  {
    if result == 0 then DeliverPatch(s, delivery, tempName)
    else
      var errorMsg := EncodeErrorMessage(s.log, result);
      Fail(Logged(s, "Patch creation failed: " + errorMsg + "\n"), errorMsg)
  }

  /** The two file slots and the output choices of the tab. */
  datatype Form = Form(
    original: Selection, modified: Selection,
    outputDir: Option<string>, outputFileName: string, description: string)

  const EMPTY_FORM := Form(Selection("", "", false), Selection("", "", false), None, "", "")

  class EncodeTabState {
    var form: Form
    var screen: Screen
    var isCreating: bool
    var showStorageWarning: bool
    /** The tab's own copy of the storage counter. */
    const counter: StorageCounter

    constructor ()
      ensures form == EMPTY_FORM && screen == Screen("", "", false, false)
      ensures !isCreating && !showStorageWarning
      ensures fresh(counter) && counter.Valid() && counter.totalStorageRequired == 0
    {
      form := EMPTY_FORM;
      screen := Screen("", "", false, false);
      isCreating := false;
      showStorageWarning := false;
      counter := new StorageCounter();
    }

    /**
     * The create button. A failed check shows its message, or the storage
     * warning, and the native side is not called (`call` is `None`).
     * Otherwise `encode` runs with the settings on the two files and a
     * temporary output in the cache; its messages go to the log after the
     * two opening lines, and its return code decides what is shown. A
     * delivered patch clears the form and resets the counter; nothing else
     * changes them.
     */
    method CreatePatch(
      fs: FileSystem, cacheDir: string, freeSpace: Option<int>, settings: Settings.Snapshot,
      native: Native, delivery: Delivery)
      returns (call: Option<NativeCall>)
      requires counter.Valid()
      modifies this, counter
      ensures counter.Valid() && !isCreating
      ensures var f := old(form);
        var gate := EncodeGate(fs, f.original.filePath, f.modified.filePath, f.outputDir.Some?, f.outputFileName,
          freeSpace, old(counter.totalStorageRequired));
        && (gate != Proceed ==> call.None? && form == f && counter.totalStorageRequired == old(counter.totalStorageRequired))
        && (gate.Refused? ==> screen == Fail(old(screen), gate.message) && showStorageWarning == old(showStorageWarning))
        && (gate.LowStorage? ==> screen == old(screen) && showStorageWarning)
        && (gate == Proceed ==>
              var tempOutputPath := TempOutputPath(cacheDir, f.outputFileName);
              && call == Some(EncodeRequest(f.original.filePath, f.modified.filePath, tempOutputPath, f.description, settings))
              && showStorageWarning == old(showStorageWarning)
              && var run := native(call.value);
                 && screen == AfterEncode(
                      old(screen).(log := EncodeLogStart(f.original.fileName, f.modified.fileName) + LogLines(run.messages)),
                      run.result, delivery, BaseName(tempOutputPath))
                 && (if run.result == 0 && delivery.Delivered? then form == EMPTY_FORM && counter.totalStorageRequired == 0
                     else form == f && counter.totalStorageRequired == old(counter.totalStorageRequired)))
    {
      var gate := EncodeGate(fs, form.original.filePath, form.modified.filePath, form.outputDir.Some?, form.outputFileName,
        freeSpace, counter.totalStorageRequired);
      if gate.Refused? {
        screen := Fail(screen, gate.message);
        isCreating := false;
        return None;
      }
      if gate.LowStorage? {
        showStorageWarning := true;
        isCreating := false;
        return None;
      }
      var tempOutputPath := TempOutputPath(cacheDir, form.outputFileName);
      var log := EncodeLogStart(form.original.fileName, form.modified.fileName);
      isCreating := true;
      call := Some(EncodeRequest(form.original.filePath, form.modified.filePath, tempOutputPath, form.description, settings));
      var run := native(call.value);
      log := AppendMessages(log, run.messages);
      screen := AfterEncode(screen.(log := log), run.result, delivery, BaseName(tempOutputPath));
      if run.result == 0 && delivery.Delivered? {
        form := EMPTY_FORM;
        counter.ResetStorageCounter();
      }
      isCreating := false;
    }
  }
}
