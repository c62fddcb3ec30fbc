/**
 * The file helpers shared by the tabs: the storage counter that adds up the
 * sizes of the files copied into the cache, the free-space check made before
 * a patch is created, clearing a selected file, and the file picker that
 * replaces a selection and proposes an output name.
 */
module FileUtil {
  import opened Wrappers
  import opened Text
  import opened FileNames

  /** The files that exist, by path, with their lengths in bytes. A path missing from the map does not exist. */
  type FileSystem = map<string, nat>

  /** The counter after `addToStorageCounter(path)`: it never goes down, and a missing file leaves it alone. */
  function Added(total: int, fs: FileSystem, path: string): (r: int)
    ensures r >= total
    ensures path !in fs ==> r == total
  {
    if path in fs then total + fs[path] else total
  }

  /** The counter after `removeFromStorageCounter(path)`: never negative, never above a non-negative count. */
  function Removed(total: int, fs: FileSystem, path: string): (r: int)
    ensures path in fs ==> r >= 0
    ensures total >= 0 ==> 0 <= r <= total
    ensures path !in fs ==> r == total
  {
    if path in fs then
      var less := total - fs[path];
      if less < 0 then 0 else less
    else total
  }

  /** Removing a file just added restores the count. */
  lemma AddThenRemove(total: int, fs: FileSystem, path: string)
    requires total >= 0
    ensures Removed(Added(total, fs, path), fs, path) == total
  {
  }

  /** Removing a file larger than the count clamps at zero instead of going negative. */
  lemma RemoveClamps(total: int, fs: FileSystem, path: string)
    requires path in fs && 0 <= total < fs[path]
    ensures Removed(total, fs, path) == 0
  {
  }

  /**
   * `checkStorageSpace`: there must be strictly more free space in the cache
   * than twice the counted size. `None` is a free-space query that threw,
   * which counts as not enough space.
   */
  predicate HasStorageSpace(freeSpace: Option<int>, required: int) {
    freeSpace.Some? && freeSpace.value > required * 2
  }

  /** The check is strict: exactly twice the count is refused, one byte more is accepted. */
  lemma StorageCheckIsStrict(required: int)
    ensures !HasStorageSpace(Some(2 * required), required)
    ensures HasStorageSpace(Some(2 * required + 1), required)
    ensures !HasStorageSpace(None, required)
  {
  }

  /** More free space or a smaller count never turns a pass into a refusal. */
  lemma StorageCheckMonotone(free1: int, free2: int, required1: int, required2: int)
    requires free1 <= free2 && required2 <= required1
    ensures HasStorageSpace(Some(free1), required1) ==> HasStorageSpace(Some(free2), required2)
  {
  }

  /** The file system after `clearFile(path, isTemp, …)`: only a non-empty temporary path is deleted. */
  function Cleared(fs: FileSystem, path: string, isTemp: bool): (r: FileSystem)
    ensures r.Keys <= fs.Keys
    ensures forall p :: p in r ==> r[p] == fs[p]
    ensures !(isTemp && path != "") ==> r == fs
    ensures isTemp && path != "" ==> path !in r && r.Keys == fs.Keys - {path}
  {
    if isTemp && path != "" then fs - {path} else fs
  }

  /** What a tab shows for one file slot: the path, the display name and whether the file is a cache copy. */
  datatype Selection = Selection(filePath: string, fileName: string, isTemp: bool)

  /** The bytes a selection keeps in the cache: the length of its copy, or nothing for a file used in place. */
  function CachedBytes(fs: FileSystem, s: Selection): nat {
    if s.isTemp && s.filePath in fs then fs[s.filePath] else 0
  }

  /**
   * How a picked document is reached: through its own path, through a copy
   * made in the cache (its path and length), or not at all when the copy
   * failed.
   */
  datatype Access = RealPath(path: string) | Copied(tempPath: string, length: nat) | CopyFailed

  /** The file system once the picked document has been reached. */
  function WithCopy(fs: FileSystem, access: Access): (r: FileSystem)
    ensures access.Copied? ==> r == fs[access.tempPath := access.length]
    ensures !access.Copied? ==> r == fs
  {
    if access.Copied? then fs[access.tempPath := access.length] else fs
  }

  /** The selection a pick leaves: the real path, the cache copy, or nothing. */
  function PickedSelection(access: Access, fileName: string): (s: Selection)
    ensures access.RealPath? ==> s == Selection(access.path, fileName, false)
    ensures access.Copied? ==> s == Selection(access.tempPath, fileName, true)
    ensures access.CopyFailed? ==> s == Selection("", "", false)
  {
    match access
    case RealPath(path) => Selection(path, fileName, false)
    case Copied(tempPath, _) => Selection(tempPath, fileName, true)
    case CopyFailed => Selection("", "", false)
  }

  const PATCHED_SUFFIX := "patched"
  const UNKNOWN_FILE := "Unknown file"
  const NO_DESCRIPTION := "No description available"
  const ACCESS_FAILED := "Failed to access selected file"

  /**
   * The output name the picker proposes for a newly picked file, `None` when
   * it proposes none: the patched-file name when the tab supplies that
   * generator, otherwise the patch name when the tab supplies that one and
   * the other slot holds a file.
   */
  function PickerOutputName(hasOutputGen: bool, hasPatchGen: bool, otherFileName: string, fileName: string): Option<string> {
    if hasOutputGen then Some(OutputFileName(fileName, PATCHED_SUFFIX))
    else if hasPatchGen && otherFileName != "" then Some(PatchFileName(otherFileName, fileName))
    else None
  }

  lemma NoDotInPatched()
    ensures DOT !in PATCHED_SUFFIX
  {
    var s := PATCHED_SUFFIX;
    assert forall i :: 0 <= i < |s| ==> s[i] != DOT;
  }

  /**
   * The patched-file generator wins and keeps the picked file's extension;
   * otherwise a patch name, with extension ".xdelta", is proposed only when
   * the other slot is filled, and no name at all in every other case.
   */
  lemma PickerOutputNameChoice(hasOutputGen: bool, hasPatchGen: bool, otherFileName: string, fileName: string)
    ensures var r := PickerOutputName(hasOutputGen, hasPatchGen, otherFileName, fileName);
      && (r.None? <==> !hasOutputGen && (!hasPatchGen || otherFileName == ""))
      && (hasOutputGen ==>
            Extension(r.value) == Extension(fileName) && Stem(r.value) == Stem(fileName) + "_" + PATCHED_SUFFIX)
      && (!hasOutputGen && r.Some? ==>
            Extension(r.value) == ".xdelta" && Stem(r.value) == Stem(otherFileName) + "_to_" + Stem(fileName))
  {
    if hasOutputGen {
      NoDotInPatched();
      OutputNameParts(fileName, PATCHED_SUFFIX);
    } else if hasPatchGen && otherFileName != "" {
      PatchNameParts(otherFileName, fileName);
    }
  }

  /** What the description callback receives for a picked file: its description, or a fixed text when reading it threw. */
  function PickedDescription(describe: string -> Option<string>, path: string): (d: string)
    ensures describe(path).Some? ==> d == describe(path).value
    ensures describe(path).None? ==> d == NO_DESCRIPTION
  {
    match describe(path)
    case Some(text) => text
    case None => NO_DESCRIPTION
  }

  /**
   * The counter after a pick as the picker's steps leave it: the replaced
   * file is subtracted, `clearFile` then resets the counter to zero, and a
   * new cache copy is added. Whatever the counter held before is lost, the
   * other slot's cache copy included.
   */
  function CounterAfterPick(total: int, fs: FileSystem, replaced: Selection, access: Access): (r: int)
    ensures r == if access.Copied? then access.length else 0
  {
    var afterRemove := if replaced.filePath != "" then Removed(total, fs, replaced.filePath) else total;
    var afterClear := 0;
    if access.Copied? then
      Added(afterClear, WithCopy(Cleared(fs, replaced.filePath, replaced.isTemp), access), access.tempPath)
    else afterClear
  }

  /**
   * The counter after a pick with the reset left out, and only cache copies
   * subtracted: the replaced copy goes, the new copy comes, and the other
   * slot's copy stays counted.
   */
  function IntendedCounterAfterPick(total: int, fs: FileSystem, replaced: Selection, access: Access): int {
    var afterRemove := if replaced.isTemp && replaced.filePath != "" then Removed(total, fs, replaced.filePath) else total;
    if access.Copied? then
      Added(afterRemove, WithCopy(Cleared(fs, replaced.filePath, replaced.isTemp), access), access.tempPath)
    else afterRemove
  }

  /**
   * The intended counter keeps adding up exactly the cache copies the two
   * slots hold: if it did before a pick replaced one slot, it does after.
   */
  lemma IntendedCounterTracksCache(total: int, fs: FileSystem, replaced: Selection, other: Selection, access: Access, fileName: string)
    requires replaced.isTemp ==> replaced.filePath != ""
    requires other.filePath != replaced.filePath
    requires access.Copied? ==> access.tempPath != other.filePath
    requires total == CachedBytes(fs, replaced) + CachedBytes(fs, other)
    ensures var fs' := WithCopy(Cleared(fs, replaced.filePath, replaced.isTemp), access);
      IntendedCounterAfterPick(total, fs, replaced, access)
        == CachedBytes(fs', PickedSelection(access, fileName)) + CachedBytes(fs', other)
  {
    var fs1 := Cleared(fs, replaced.filePath, replaced.isTemp);
    var fs' := WithCopy(fs1, access);
    var afterRemove := if replaced.isTemp && replaced.filePath != "" then Removed(total, fs, replaced.filePath) else total;
    assert afterRemove == CachedBytes(fs, other);
    assert CachedBytes(fs1, other) == CachedBytes(fs, other);
    assert CachedBytes(fs', other) == CachedBytes(fs1, other);
    if access.Copied? {
      assert access.tempPath in fs' && fs'[access.tempPath] == access.length;
    }
  }

  /**
   * With the original's 100-byte copy counted, picking a 50-byte copy for
   * the modified file leaves a count of 50 where 150 bytes sit in the cache,
   * so 250 free bytes pass the check although the two copies need 300.
   */
  lemma PickForgetsOtherFile()
    ensures var fs := map["cache/original" := 100];
      var other := Selection("cache/original", "a.bin", true);
      var replaced := Selection("", "", false);
      var access := Copied("cache/modified", 50);
      && CounterAfterPick(100, fs, replaced, access) == 50
      && IntendedCounterAfterPick(100, fs, replaced, access) == 150
      && HasStorageSpace(Some(250), CounterAfterPick(100, fs, replaced, access))
      && !HasStorageSpace(Some(250), IntendedCounterAfterPick(100, fs, replaced, access))
  {
    var fs := map["cache/original" := 100];
    var access := Copied("cache/modified", 50);
    assert WithCopy(Cleared(fs, "", false), access) == map["cache/original" := 100, "cache/modified" := 50];
  }

  /** The picker's effect on the tab: the new selection and the values sent to the optional callbacks. */
  datatype Picked = Picked(
    selection: Selection,
    outputFileName: Option<string>,
    description: Option<string>,
    error: Option<string>)

  /**
   * `FileUtil.totalStorageRequired` with the functions that change it. The
   * encode tab of the same app keeps its own copy of the counter with the
   * same four functions.
   */
  class StorageCounter {
    var totalStorageRequired: int

    predicate Valid()
      reads this
    {
      totalStorageRequired >= 0
    }

    constructor ()
      ensures Valid() && totalStorageRequired == 0
    {
      totalStorageRequired := 0;
    }

    method AddToStorageCounter(fs: FileSystem, filePath: string)
      requires Valid()
      modifies this
      ensures Valid()
      ensures totalStorageRequired == Added(old(totalStorageRequired), fs, filePath)
    {
      if filePath in fs {
        totalStorageRequired := totalStorageRequired + fs[filePath];
      }
    }

    method RemoveFromStorageCounter(fs: FileSystem, filePath: string)
      requires Valid()
      modifies this
      ensures Valid()
      ensures totalStorageRequired == Removed(old(totalStorageRequired), fs, filePath)
    {
      if filePath in fs {
        totalStorageRequired := totalStorageRequired - fs[filePath];
        if totalStorageRequired < 0 {
          totalStorageRequired := 0;
        }
      }
    }

    method ResetStorageCounter()
      modifies this
      ensures Valid() && totalStorageRequired == 0
    {
      totalStorageRequired := 0;
    }

    /**
     * `clearFile`: deletes the file when it is a non-empty cache copy, always
     * runs `onClear` on the caller's state, and always resets the counter.
     */
    method ClearFile<S>(fs: FileSystem, path: string, isTemp: bool, state: S, onClear: S -> S)
      returns (fs': FileSystem, state': S)
      modifies this
      ensures fs' == Cleared(fs, path, isTemp)
      ensures state' == onClear(state)
      ensures Valid() && totalStorageRequired == 0
    {
      fs' := fs;
      if isTemp && path != "" {
        fs' := fs' - {path};
      }
      state' := onClear(state);
      ResetStorageCounter();
    }

    /** `checkStorageSpace`; `freeSpace` is the cache's free space, `None` when asking for it threw. */
    method CheckStorageSpace(freeSpace: Option<int>) returns (ok: bool)
      ensures ok <==> HasStorageSpace(freeSpace, totalStorageRequired)
    {
      if freeSpace.None? {
        return false;
      }
      ok := freeSpace.value > totalStorageRequired * 2;
    }

    /**
     * `filePicker` once a document has been picked: the old selection is
     * subtracted from the counter and cleared, the document is reached
     * through its own path or a cache copy, and the callbacks receive the
     * new selection, the proposed output name and the patch description.
     * The optional callbacks first receive "" when the old selection is
     * cleared; `None` in `picked` is a callback the tab did not supply.
     * `displayName` is `None` when the document has no display name, and
     * `describe` is the native `getDescription`, `None` when it throws.
     */
    method FilePicker(
      fs: FileSystem, originalFilePath: string, originalFileIsTemp: bool, otherFileName: string,
      displayName: Option<string>, access: Access,
      hasOutputGen: bool, hasPatchGen: bool, hasOutputCallback: bool, hasDescriptionCallback: bool,
      describe: string -> Option<string>)
      returns (fs': FileSystem, picked: Picked)
      requires Valid()
      modifies this
      ensures Valid()
      ensures fs' == WithCopy(Cleared(fs, originalFilePath, originalFileIsTemp), access)
      ensures totalStorageRequired
           == CounterAfterPick(old(totalStorageRequired), fs, Selection(originalFilePath, "", originalFileIsTemp), access)
      ensures var fileName := if displayName.Some? then displayName.value else UNKNOWN_FILE;
        && picked.selection == PickedSelection(access, fileName)
        && picked.outputFileName
             == (if !hasOutputCallback then None
                 else if access.CopyFailed? then Some("")
                 else match PickerOutputName(hasOutputGen, hasPatchGen, otherFileName, fileName)
                      case Some(name) => Some(name)
                      case None => Some(""))
        && picked.description
             == (if !hasDescriptionCallback then None
                 else if access.CopyFailed? then Some("")
                 else Some(PickedDescription(describe, picked.selection.filePath)))
        && picked.error == (if access.CopyFailed? then Some(ACCESS_FAILED) else None)
    {
      if originalFilePath != "" {
        RemoveFromStorageCounter(fs, originalFilePath);
      }
      var cleared;
      fs', cleared := ClearFile(fs, originalFilePath, originalFileIsTemp,
        Picked(Selection("", "", false), None, None, None),
        (p: Picked) => Picked(Selection("", "", false),
          if hasOutputCallback then Some("") else None,
          if hasDescriptionCallback then Some("") else None,
          p.error));
      picked := cleared;
      var fileName := if displayName.Some? then displayName.value else UNKNOWN_FILE;
      if access.CopyFailed? {
        picked := picked.(error := Some(ACCESS_FAILED));
        return;
      }
      var path := if access.RealPath? then access.path else access.tempPath;
      picked := picked.(selection := Selection(path, fileName, access.Copied?));
      if access.Copied? {
        fs' := fs'[access.tempPath := access.length];
        AddToStorageCounter(fs', access.tempPath);
      }
      var name := PickerOutputName(hasOutputGen, hasPatchGen, otherFileName, fileName);
      if hasOutputCallback && name.Some? {
        picked := picked.(outputFileName := Some(name.value));
      }
      if hasDescriptionCallback {
        picked := picked.(description := Some(PickedDescription(describe, path)));
      }
    }
  }
}
