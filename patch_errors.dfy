/**
 * The patch operation shared by both tabs of the third app generation:
 * the checks made before calling the native side, the dispatch to `decode`
 * or `encode`, the register holding the last error message xdelta3 logged,
 * and the callbacks the operation invokes, in order.
 */
module PatchOperation {
  import opened Wrappers
  import opened Text
  import opened Config
  import opened FileUtil
  import opened TabFlow
  import Settings

  /** The result the operation returns when it stops before the native call. */
  const FAILED: Int32 := -1

  datatype OperationType = DECODE | ENCODE

  /**
   * What a tab hands to the operation: the two files (the patch or the
   * modified ROM being the second), the output folder and name, the
   * description for encoding and the settings.
   */
  datatype PatchOperationParams = PatchOperationParams(
    operationType: OperationType,
    originalFilePath: string, originalFileName: string,
    secondaryFilePath: string, secondaryFileName: string,
    outputDirUri: string, outputFileName: string,
    description: string,
    settings: Settings.Snapshot)

  /** A callback the operation invokes; the operation's effect is the sequence of them. */
  datatype Event =
    | LogUpdate(text: string)
    | OperationState(active: bool)
    | NotificationStart
    | NotificationStop
    | Success
    | Error(message: string)

  /** What the second file is called in messages. */
  function SecondaryLabel(operationType: OperationType): string {
    if operationType == DECODE then PATCH_LABEL else MODIFIED_LABEL
  }

  /**
   * The checks before the native call, in order: both paths set and the
   * output name not blank, then the two files. The output folder is not
   * checked: the parameters cannot lack one.
   */
  function UnifiedValidation(fs: FileSystem, patch: PatchOperationParams): Option<string> {
    if patch.originalFilePath == "" || patch.secondaryFilePath == "" || IsBlank(patch.outputFileName) then Some(MISSING_FIELDS)
    else FileCheck(fs, patch.originalFilePath, patch.secondaryFilePath, SecondaryLabel(patch.operationType))
  }

  /**
   * The native side is reached exactly when the fields are set and both
   * files exist and are not empty; missing fields are reported before any
   * file is looked at; a missing or empty second file is called the patch
   * when decoding and the modified ROM when encoding.
   */
  lemma UnifiedValidationOrder(fs: FileSystem, patch: PatchOperationParams)
    ensures var v := UnifiedValidation(fs, patch);
      var o := patch.originalFilePath;
      var s := patch.secondaryFilePath;
      && (v.None? <==> o != "" && s != "" && !IsBlank(patch.outputFileName) && o in fs && s in fs && fs[o] > 0 && fs[s] > 0)
      && (v == Some(MISSING_FIELDS) <==> o == "" || s == "" || IsBlank(patch.outputFileName))
      && (v != Some(MISSING_FIELDS) && o in fs && s !in fs ==>
            v == Some((if patch.operationType == DECODE then "Patch" else "Modified ROM") + " file not found"))
  {
    FileCheckPasses(fs, patch.originalFilePath, patch.secondaryFilePath, SecondaryLabel(patch.operationType));
    FileCheckIsNotMissingFields(fs, patch.originalFilePath, patch.secondaryFilePath, SecondaryLabel(patch.operationType));
  }

  /** The log line the operation starts with, naming the two files. */
  function StartMessage(patch: PatchOperationParams): string {
    "Original ROM: " + patch.originalFileName + "\n"
      + (if patch.operationType == DECODE then "Patch file: " else "Modified ROM: ")
      + patch.secondaryFileName + "\n"
  }

  /**
   * The native call: `decode(original, output, patch, useChecksum)` or
   * `encode(original, modified, output, description, useChecksum, level,
   * secondary, window)`, with the settings passed unchanged.
   */
  function NativeCallFor(patch: PatchOperationParams, tempOutputPath: string): (call: NativeCall)
    ensures patch.operationType == DECODE ==>
      call == Decode(patch.originalFilePath, tempOutputPath, patch.secondaryFilePath, patch.settings.useChecksum)
    ensures patch.operationType == ENCODE ==>
      && call.Encode? && call.original == patch.originalFilePath && call.modified == patch.secondaryFilePath
      && call.output == tempOutputPath && call.description == patch.description
      && call.useChecksum == patch.settings.useChecksum && call.compressionLevel == patch.settings.level
      && call.secondaryCompression == patch.settings.secondary && call.srcWindowSize == patch.settings.window
  {
    match patch.operationType
    case DECODE => Decode(patch.originalFilePath, tempOutputPath, patch.secondaryFilePath, patch.settings.useChecksum)
    case ENCODE =>
      Encode(patch.originalFilePath, patch.secondaryFilePath, tempOutputPath, patch.description,
        patch.settings.useChecksum, patch.settings.level, patch.settings.secondary, patch.settings.window)
  }

  /** Whether the log callback keeps a message as the last error: case-sensitive substrings. */
  predicate IsErrorLine(message: string) {
    Contains(message, "xdelta3:") || Contains(message, "error") || Contains(message, "Error")
  }

  /** "Error" and "error" are caught, "ERROR" alone is not. */
  lemma ErrorFilterIsCaseSensitive()
    ensures IsErrorLine("Error") && IsErrorLine("error")
    ensures !IsErrorLine("ERROR")
  {
    assert OccursAt("Error", "Error", 0);
    assert OccursAt("error", "error", 0);
    var s := "ERROR";
    forall i: nat | i <= |s|
      ensures !OccursAt(s, "error", i) && !OccursAt(s, "Error", i) && !OccursAt(s, "xdelta3:", i)
    {
      if i == 0 {
        assert s[0] != "error"[0];
        assert s[1] != "Error"[1];
      }
    }
  }

  /** The register after the log callback has seen `messages`: the last error message, trimmed, or `details` when there is none. */
  function LastErrorAfter(details: string, messages: seq<string>): string {
    if messages == [] then details
    else
      var last := messages[|messages| - 1];
      if IsErrorLine(last) then Trim(last) else LastErrorAfter(details, messages[..|messages| - 1])
  }

  /**
   * The latest error message wins: with no error message the register keeps its
   * value, otherwise it holds the trimmed text of the last message that is
   * one, whatever came before.
   */
  lemma {:induction false} LatestErrorWins(details: string, messages: seq<string>, j: nat)
    requires j < |messages| && IsErrorLine(messages[j])
    requires forall k :: j < k < |messages| ==> !IsErrorLine(messages[k])
    ensures LastErrorAfter(details, messages) == Trim(messages[j])
  {
    if j < |messages| - 1 {
      var init := messages[..|messages| - 1];
      assert init[j] == messages[j];
      assert forall k :: j < k < |init| ==> init[k] == messages[k];
      LatestErrorWins(details, init, j);
    }
  }

  lemma {:induction false} NoErrorLineKeepsDetails(details: string, messages: seq<string>)
    requires forall k :: 0 <= k < |messages| ==> !IsErrorLine(messages[k])
    ensures LastErrorAfter(details, messages) == details
  {
    if messages != [] {
      var init := messages[..|messages| - 1];
      assert forall k :: 0 <= k < |init| ==> init[k] == messages[k];
      NoErrorLineKeepsDetails(details, init);
    }
  }

  /** The events of the log callback for each message: the message and a line break go to the tab's log. */
  function LogEvents(messages: seq<string>): (events: seq<Event>)
    ensures |events| == |messages|
    ensures forall i :: 0 <= i < |messages| ==> events[i] == LogUpdate(messages[i] + "\n")
  {
    if messages == [] then [] else LogEvents(messages[..|messages| - 1]) + [LogUpdate(messages[|messages| - 1] + "\n")]
  }

  /** The events once the native call returned 0, by what became of the output. */
  function DeliveryEvents(delivery: Delivery, tempName: string): seq<Event> {
    match delivery
    case NoTempFile =>
      [LogUpdate("Operation reported success but no output file was generated\n"),
       Error("Operation failed - no output file was generated.\nThis may indicate a file system or permission issue.")]
    case CannotCreate(length) =>
      [LogUpdate(OutputFileLine(tempName, length)),
       LogUpdate("Failed to create output file in selected directory\n"),
       Error("Failed to create output file.\nPlease check if you have write permission to the selected directory.")]
    case CopyThrew(length, message) =>
      [LogUpdate(OutputFileLine(tempName, length)),
       LogUpdate("Error copying output file: " + message + "\n"),
       Error("Error copying output file: " + message)]
    case Delivered(length) => [LogUpdate(OutputFileLine(tempName, length)), Success, NotificationStop]
  }

  /**
   * The events after the native call: exactly one of success and error is
   * reported, success only for result 0 with the output delivered, and a
   * non-zero result reports the register's content and nothing else.
   */
  function OutcomeEvents(result: Int32, delivery: Delivery, tempName: string, lastError: string): (events: seq<Event>)
    ensures Success in events <==> result == 0 && delivery.Delivered?
    ensures (exists e :: e in events && e.Error?) <==> !(result == 0 && delivery.Delivered?)
    ensures result != 0 ==> events == [LogUpdate("Operation failed: " + lastError + "\n"), Error(lastError)]
  {
    if result == 0 then
      var events := DeliveryEvents(delivery, tempName);
      assert delivery.CannotCreate? || delivery.CopyThrew? ==> events[2].Error?;
      assert delivery.NoTempFile? ==> events[1].Error?;
      events
    else
      var events := [LogUpdate("Operation failed: " + lastError + "\n"), Error(lastError)];
      assert events[1].Error?;
      events
  }

  /** `object PatchErrors`: the register of the last error message. */
  class PatchErrors {
    var lastErrorDetails: string

    constructor ()
      ensures lastErrorDetails == ""
    {
      lastErrorDetails := "";
    }

    method SetLastErrorDetails(details: string)
      modifies this
      ensures lastErrorDetails == details
    {
      lastErrorDetails := details;
    }

    function GetLastErrorDetails(): string
      reads this
    {
      lastErrorDetails
    }

    /**
     * The log callback, called once per message: an error message replaces the
     * register, trimmed, and every message goes to the tab's log.
     */
    method OnLogUpdates(messages: seq<string>) returns (events: seq<Event>)
      modifies this
      ensures lastErrorDetails == LastErrorAfter(old(lastErrorDetails), messages)
      ensures events == LogEvents(messages)
    {
      events := [];
      for i := 0 to |messages|
        invariant lastErrorDetails == LastErrorAfter(old(lastErrorDetails), messages[..i])
        invariant events == LogEvents(messages[..i])
      {
        assert messages[..i + 1][..i] == messages[..i];
        var message := messages[i];
        if IsErrorLine(message) {
          SetLastErrorDetails(Trim(message));
        }
        events := events + [LogUpdate(message + "\n")];
      }
      assert messages[..|messages|] == messages;
    }
  }

  /**
   * The callbacks one operation invokes, in order: the failed check's
   * message, or the opening log line, the native run's messages and the
   * outcome; then the operation is marked inactive.
   */
  function OperationEvents(
    fs: FileSystem, patch: PatchOperationParams, cacheDir: string, native: Native, delivery: Delivery): seq<Event>
  {
    match UnifiedValidation(fs, patch)
    case Some(message) => [Error(message), OperationState(false)]
    case None =>
      var tempOutputPath := TempOutputPath(cacheDir, patch.outputFileName);
      var run := native(NativeCallFor(patch, tempOutputPath));
      [LogUpdate(StartMessage(patch)), OperationState(true), NotificationStart]
        + LogEvents(run.messages)
        + OutcomeEvents(run.result, delivery, BaseName(tempOutputPath), LastErrorAfter("", run.messages))
        + [OperationState(false)]
  }

  /** Whether an operation ends in success: the checks pass, the native run returns 0 and the output is delivered. */
  predicate OperationSucceeds(fs: FileSystem, patch: PatchOperationParams, cacheDir: string, native: Native, delivery: Delivery) {
    && UnifiedValidation(fs, patch).None?
    && native(NativeCallFor(patch, TempOutputPath(cacheDir, patch.outputFileName))).result == 0
    && delivery.Delivered?
  }

  /**
   * Every operation reports exactly one of success and error, success only
   * when it succeeds; it always ends by marking itself inactive; a failed
   * check reports its message; a failed native run reports its last error
   * line; and every message of the run reaches the log, in order.
   */
  lemma OperationOutcome(fs: FileSystem, patch: PatchOperationParams, cacheDir: string, native: Native, delivery: Delivery)
    ensures var events := OperationEvents(fs, patch, cacheDir, native, delivery);
      && |events| >= 2 && events[|events| - 1] == OperationState(false)
      && (Success in events <==> OperationSucceeds(fs, patch, cacheDir, native, delivery))
      && ((exists e :: e in events && e.Error?) <==> !OperationSucceeds(fs, patch, cacheDir, native, delivery))
      && (UnifiedValidation(fs, patch).Some? ==> Error(UnifiedValidation(fs, patch).value) in events)
    ensures UnifiedValidation(fs, patch).None? ==>
      var run := native(NativeCallFor(patch, TempOutputPath(cacheDir, patch.outputFileName)));
      var events := OperationEvents(fs, patch, cacheDir, native, delivery);
      && events[3..3 + |run.messages|] == LogEvents(run.messages)
      && (run.result != 0 ==> Error(LastErrorAfter("", run.messages)) in events)
  {
    var events := OperationEvents(fs, patch, cacheDir, native, delivery);
    match UnifiedValidation(fs, patch)
    case Some(message) =>
      assert events[0] == Error(message);
    case None =>
      var tempOutputPath := TempOutputPath(cacheDir, patch.outputFileName);
      var run := native(NativeCallFor(patch, tempOutputPath));
      var start: seq<Event> := [LogUpdate(StartMessage(patch)), OperationState(true), NotificationStart];
      var logged := LogEvents(run.messages);
      var outcome := OutcomeEvents(run.result, delivery, BaseName(tempOutputPath), LastErrorAfter("", run.messages));
      assert events == start + logged + outcome + [OperationState(false)];
      FramedOutcome(start, logged, outcome);
      if run.result != 0 {
        assert outcome[1] in outcome;
      }
  }

  /** Start events and log updates around an outcome add neither a success nor an error to it. */
  lemma FramedOutcome(start: seq<Event>, logged: seq<Event>, outcome: seq<Event>)
    requires |start| == 3 && !start[0].Success? && !start[0].Error?
    requires !start[1].Success? && !start[1].Error? && !start[2].Success? && !start[2].Error?
    requires forall i :: 0 <= i < |logged| ==> logged[i].LogUpdate?
    ensures var events := start + logged + outcome + [OperationState(false)];
      && |events| >= 2 && events[|events| - 1] == OperationState(false)
      && (Success in events <==> Success in outcome)
      && ((exists e :: e in events && e.Error?) <==> (exists e :: e in outcome && e.Error?))
      && events[3..3 + |logged|] == logged
      && (forall e :: e in outcome ==> e in events)
  {
    var events := start + logged + outcome + [OperationState(false)];
    var n := 3 + |logged|;
    assert forall i :: 0 <= i < 3 ==> events[i] == start[i];
    assert forall i :: 3 <= i < n ==> events[i] == logged[i - 3];
    assert forall i :: n <= i < n + |outcome| ==> events[i] == outcome[i - n];
    assert events[n + |outcome|] == OperationState(false);
    forall e | e in events && (e.Success? || e.Error?)
      ensures e in outcome
    {
      var i :| 0 <= i < |events| && events[i] == e;
      assert outcome[i - n] == e;
    }
    assert events[3..n] == logged;
  }

  /**
   * `executeUnifiedPatchOperation`. A failed check reports its message and
   * returns -1 without calling the native side (`call` is `None`).
   * Otherwise the register is cleared, the native function runs on the two
   * files and a temporary output in the cache, its messages are logged and
   * filtered, and its result is returned; a non-zero result reports exactly
   * the register's content. Every path ends by marking the operation
   * inactive.
   */
  method ExecuteUnifiedPatchOperation(
    errors: PatchErrors, patch: PatchOperationParams, fs: FileSystem, cacheDir: string,
    native: Native, delivery: Delivery)
    returns (result: Int32, call: Option<NativeCall>, events: seq<Event>)
    modifies errors
    ensures var failure := UnifiedValidation(fs, patch);
      && (failure.Some? ==>
            && result == FAILED && call.None?
            && events == [Error(failure.value), OperationState(false)]
            && errors.lastErrorDetails == old(errors.lastErrorDetails))
      && (failure.None? ==>
            var tempOutputPath := TempOutputPath(cacheDir, patch.outputFileName);
            && call == Some(NativeCallFor(patch, tempOutputPath))
            && var run := native(call.value);
               && result == run.result
               && errors.lastErrorDetails == LastErrorAfter("", run.messages)
               && events == [LogUpdate(StartMessage(patch)), OperationState(true), NotificationStart]
                    + LogEvents(run.messages)
                    + OutcomeEvents(run.result, delivery, BaseName(tempOutputPath), errors.lastErrorDetails)
                    + [OperationState(false)])
    ensures events == OperationEvents(fs, patch, cacheDir, native, delivery)
  {
    var failure := UnifiedValidation(fs, patch);
    if failure.Some? {
      return FAILED, None, [Error(failure.value), OperationState(false)];
    }
    var tempOutputPath := TempOutputPath(cacheDir, patch.outputFileName);
    events := [LogUpdate(StartMessage(patch)), OperationState(true), NotificationStart];
    errors.SetLastErrorDetails("");
    call := Some(NativeCallFor(patch, tempOutputPath));
    var run := native(call.value);
    var logged := errors.OnLogUpdates(run.messages);
    events := events + logged;
    result := run.result;
    var errorMsg := errors.GetLastErrorDetails();
    events := events + OutcomeEvents(result, delivery, BaseName(tempOutputPath), errorMsg);
    events := events + [OperationState(false)];
  }

  /**
   * A failed native run is reported with the trimmed text of the last error
   * line it logged, or with the empty string when it logged none.
   */
  lemma FailureReportsLastErrorMessage(messages: seq<string>, j: nat)
    ensures (forall k :: 0 <= k < |messages| ==> !IsErrorLine(messages[k])) ==> LastErrorAfter("", messages) == ""
    ensures j < |messages| && IsErrorLine(messages[j]) && (forall k :: j < k < |messages| ==> !IsErrorLine(messages[k]))
            ==> LastErrorAfter("", messages) == Trim(messages[j])
  {
    if forall k :: 0 <= k < |messages| ==> !IsErrorLine(messages[k]) {
      NoErrorLineKeepsDetails("", messages);
    }
    if j < |messages| && IsErrorLine(messages[j]) && (forall k :: j < k < |messages| ==> !IsErrorLine(messages[k])) {
      LatestErrorWins("", messages, j);
    }
  }
}
