/**
 * The create-patch tab of the second app generation. Its button first asks
 * the shared storage counter whether the cache has room, then hands the
 * form to the unified patch operation and shows the callbacks that
 * operation invokes. That operation comes from the tab's own package; it is
 * modelled by `PatchOperation`.
 */
module ComposeEncodeTab {
  import opened Wrappers
  import opened Config
  import opened FileUtil
  import opened TabFlow
  import Settings
  import opened EncodeTab
  import opened PatchOperation

  /**
   * The message shown when the form has no output folder: building the
   * parameters dereferences the missing folder, and the exception thrown
   * for it carries no message.
   */
  const NO_OUTPUT_DIR_ERROR := "Error: null"

  /** One callback applied to the tab: a log update appends as is, an error opens the error dialog, a success the success dialog. */
  function Shown(s: Screen, event: Event): Screen {
    match event
    case LogUpdate(text) => Logged(s, text)
    case Error(message) => Fail(s, message)
    case Success => s.(showSuccessDialog := true)
    case _ => s
  }

  /** The tab after the callbacks `events`, in order. */
  function ScreenAfter(s: Screen, events: seq<Event>): Screen {
    if events == [] then s else Shown(ScreenAfter(s, events[..|events| - 1]), events[|events| - 1])
  }

  /**
   * What the callbacks do to the tab: the log only grows, and by the text of
   * the log updates; the success dialog opens exactly when a success is
   * reported and the error dialog exactly when an error is, with the
   * message of the last one.
   */
  lemma {:induction false} ScreenAfterEvents(s: Screen, events: seq<Event>)
    ensures var r := ScreenAfter(s, events);
      && |s.log| <= |r.log| && r.log[..|s.log|] == s.log
      && r.showSuccessDialog == (s.showSuccessDialog || Success in events)
      && r.showErrorDialog == (s.showErrorDialog || exists e :: e in events && e.Error?)
      && (forall i :: 0 <= i < |events| && events[i].Error? && (forall k :: i < k < |events| ==> !events[k].Error?)
            ==> r.errorMessage == events[i].message)
  {
    if events != [] {
      var init := events[..|events| - 1];
      var last := events[|events| - 1];
      ScreenAfterEvents(s, init);
      assert events == init + [last];
      assert forall i :: 0 <= i < |init| ==> init[i] == events[i];
      if last.Error? {
        assert last in events;
      }
      forall e | e in events && e.Error? && e != last
        ensures e in init
      {
      }
    }
  }

  /**
   * What the tab shows after a run of the unified operation: success exactly
   * when the operation succeeds, an error otherwise, the failed check's
   * message when a check fails, and the last error message xdelta3 logged
   * when the native run fails.
   */
  lemma CreatePatchShows(s: Screen, fs: FileSystem, patch: PatchOperationParams, cacheDir: string, native: Native, delivery: Delivery)
    requires !s.showSuccessDialog && !s.showErrorDialog
    ensures var r := ScreenAfter(s, OperationEvents(fs, patch, cacheDir, native, delivery));
      && (r.showSuccessDialog <==> OperationSucceeds(fs, patch, cacheDir, native, delivery))
      && (r.showErrorDialog <==> !OperationSucceeds(fs, patch, cacheDir, native, delivery))
      && (UnifiedValidation(fs, patch).Some? ==> r.errorMessage == UnifiedValidation(fs, patch).value)
      && (UnifiedValidation(fs, patch).None?
          && native(NativeCallFor(patch, TempOutputPath(cacheDir, patch.outputFileName))).result != 0
          ==> r.errorMessage == LastErrorAfter("", native(NativeCallFor(patch, TempOutputPath(cacheDir, patch.outputFileName))).messages))
  {
    var events := OperationEvents(fs, patch, cacheDir, native, delivery);
    OperationOutcome(fs, patch, cacheDir, native, delivery);
    ScreenAfterEvents(s, events);
    match UnifiedValidation(fs, patch)
    case Some(message) =>
      assert events == [Error(message), OperationState(false)];
      assert !events[1].Error?;
    case None =>
      var tempOutputPath := TempOutputPath(cacheDir, patch.outputFileName);
      var run := native(NativeCallFor(patch, tempOutputPath));
      if run.result != 0 {
        var lastError := LastErrorAfter("", run.messages);
        var head: seq<Event> := [LogUpdate(StartMessage(patch)), OperationState(true), NotificationStart] + LogEvents(run.messages);
        var outcome := OutcomeEvents(run.result, delivery, BaseName(tempOutputPath), lastError);
        assert events == head + outcome + [OperationState(false)];
        var i := |head| + 1;
        assert events[i] == Error(lastError);
        assert |events| == i + 2 && !events[i + 1].Error?;
      }
  }

  /** The parameters the button builds from the form; the output folder is given. */
  function EncodeParams(form: Form, outputDirUri: string, settings: Settings.Snapshot): PatchOperationParams {
    PatchOperationParams(
      ENCODE, form.original.filePath, form.original.fileName, form.modified.filePath, form.modified.fileName,
      outputDirUri, form.outputFileName, form.description, settings)
  }

  class ComposeEncodeTabState {
    var form: Form
    var screen: Screen
    var isCreating: bool
    var showStorageWarning: bool
    /** The storage counter of the app's file utilities, shared with the file pickers. */
    const fileUtil: StorageCounter
    /** The register of the last error message, shared by every operation. */
    const patchErrors: PatchErrors

    constructor (fileUtil: StorageCounter, patchErrors: PatchErrors)
      ensures form == EMPTY_FORM && screen == Screen("", "", false, false)
      ensures !isCreating && !showStorageWarning
      ensures this.fileUtil == fileUtil && this.patchErrors == patchErrors
    {
      form := EMPTY_FORM;
      screen := Screen("", "", false, false);
      isCreating := false;
      showStorageWarning := false;
      this.fileUtil := fileUtil;
      this.patchErrors := patchErrors;
    }

    /**
     * `createPatch`. Without room in the cache the storage warning opens and
     * the operation does not run (`call` is `None`); without an output
     * folder the error dialog opens and it does not run either. Otherwise
     * the unified operation encodes the form with the settings, the tab
     * shows its callbacks, and its success clears the form and resets the
     * storage counter.
     */
    method CreatePatch(
      fs: FileSystem, cacheDir: string, freeSpace: Option<int>, settings: Settings.Snapshot,
      native: Native, delivery: Delivery)
      returns (call: Option<NativeCall>)
      requires fileUtil.Valid()
      modifies this, fileUtil, patchErrors
      ensures fileUtil.Valid() && !isCreating
      ensures var f := old(form);
        var room := HasStorageSpace(freeSpace, old(fileUtil.totalStorageRequired));
        && (!room ==>
              && call.None? && showStorageWarning && screen == old(screen) && form == f
              && fileUtil.totalStorageRequired == old(fileUtil.totalStorageRequired)
              && patchErrors.lastErrorDetails == old(patchErrors.lastErrorDetails))
        && (room && f.outputDir.None? ==>
              && call.None? && screen == Fail(old(screen), NO_OUTPUT_DIR_ERROR) && form == f
              && showStorageWarning == old(showStorageWarning)
              && fileUtil.totalStorageRequired == old(fileUtil.totalStorageRequired)
              && patchErrors.lastErrorDetails == old(patchErrors.lastErrorDetails))
        && (room && f.outputDir.Some? ==>
              var patch := EncodeParams(f, f.outputDir.value, settings);
              var events := OperationEvents(fs, patch, cacheDir, native, delivery);
              && call == (if UnifiedValidation(fs, patch).Some? then None
                          else Some(NativeCallFor(patch, TempOutputPath(cacheDir, patch.outputFileName))))
              && showStorageWarning == old(showStorageWarning)
              && patchErrors.lastErrorDetails
                 == (if call.None? then old(patchErrors.lastErrorDetails) else LastErrorAfter("", native(call.value).messages))
              && screen == ScreenAfter(old(screen), events)
              && (if Success in events then form == EMPTY_FORM && fileUtil.totalStorageRequired == 0
                  else form == f && fileUtil.totalStorageRequired == old(fileUtil.totalStorageRequired)))
    {
      var room := fileUtil.CheckStorageSpace(freeSpace);
      if !room {
        showStorageWarning := true;
        isCreating := false;
        return None;
      }
      if form.outputDir.None? {
        screen := Fail(screen, NO_OUTPUT_DIR_ERROR);
        isCreating := false;
        return None;
      }
      var patch := EncodeParams(form, form.outputDir.value, settings);
      isCreating := true;
      var result, events;
      result, call, events := ExecuteUnifiedPatchOperation(patchErrors, patch, fs, cacheDir, native, delivery);
      screen := ScreenAfter(screen, events);
      if Success in events {
        form := EMPTY_FORM;
        fileUtil.ResetStorageCounter();
      }
      isCreating := false;
    }
  }
}
