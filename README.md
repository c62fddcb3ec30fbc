# Delta Patcher core, modelled in Dafny

Delta Patcher applies and creates xdelta3 (VCDIFF, RFC 3284) patches for ROM files on Android. This project models the deterministic layer around the xdelta3 codec and proves properties of it. The codec itself is a function parameter.

The native layer:

- **`XDeltaPatch`** (module `Patch`, a class): opening a patch and reading its description from the VCDIFF header. This covers:
  - the magic, version and indicator checks;
  - the optional secondary id and code table;
  - the RFC 3284 variable-length integers (`VarLength`);
  - the `^*` marker and base 64 (`Base64`, RFC 4648 section 4);
  - the CR LF and lone-CR normalisation (`LineEnds`).

  It also writes the description into the application header (`Header`), builds the xdelta3 command line (`Command`, with a reader of its own that reads it back; xdelta3's own option parsing is not modelled), splits the codec's messages into lines (`Messages`) and runs the codec.
- **The configuration** (`Config`): its constants and defaults.
- **The JNI entry points** `encode`, `decode` and `getDescription` (`Native`). They translate the app's settings into a configuration and turn exceptions into return codes.

The Kotlin layer:

- **Settings** (`Settings`): the stored settings, their defaults and setters, and the option tables.
- **File utilities** (`FileNames`, `FileUtil`):
  - output and patch file names;
  - the storage counter and its free-space check;
  - clearing a selected file;
  - the file picker.
- **The first-generation patch and create-patch tabs** (`TabFlow`, `DecodeTab`, `EncodeTab`):
  - the checks before the native call;
  - the call itself, the log and the delivery of the output file;
  - the error classifiers.
- **The third generation's unified patch operation** (`PatchOperation`), with its last-error register. The **second generation's create-patch tab** (`ComposeEncodeTab`) calls an operation of the same name from its own package, which is modelled by this one.

How the model represents the outside world:

- **The codec and the native library.** xdelta3 is a function from a command line to an outcome. The native library, as seen from Kotlin, is a function from a call to a return code and log messages.
- **Files.** The file system is a map from path to length, and a patch file is a byte sequence.
- **Delivery.** Copying the output into the chosen folder is one of four outcomes, given as a parameter.
- **Return values.** Methods return the native call they made, or `None` when they stopped before it.
- **Callbacks.** Their effects appear as a `Screen` value (log, error dialog, success dialog) or as a sequence of callback events.

## Model

| member | source | states |
|---|---|---|
| Bytes.FromToBytes | cpp/XDeltaPatch.cpp:118-124 | a C++ string of bytes read as bytes and back is unchanged |
| Bytes.ToFromBytes | cpp/XDeltaPatch.cpp:118-124 | bytes read as a C++ string and back are unchanged |
| Text.Find | cpp/XDeltaPatch.cpp:127-134 | `std::string::find` from a position: the first occurrence at or after it, or none at all |
| Text.LastIndexOf | app/src/main/java/io/github/innixunix/deltapatcher/utils/FileUtil.kt:238 | `lastIndexOf`: -1 exactly when the character is absent, otherwise its last position |
| Text.Trim | app/src/main/java/io/github/kleidis/deltapatcher/utils/PatchErrors.kt:115 | `trim()` removes blanks at both ends: the result, when not empty, starts and ends with a non-blank |
| Text.TrimEmptyIffBlank | app/src/main/java/io/github/kleidis/deltapatcher/utils/PatchErrors.kt:46-48 | a name trims to nothing exactly when it is blank (`isBlank`) |
| Text.Lower | app/src/main/java/io/github/innixunix/deltapatcher/DecodeTab.kt:437 | `lowercase()` keeps the length, leaves no capital letter, keeps every other character, and turns each capital into its small letter |
| Text.LowerIdempotent | app/src/main/java/io/github/innixunix/deltapatcher/DecodeTab.kt:437 | lower-casing an already lower-cased log changes nothing |
| Text.ParseIntRoundTrip | app/src/main/java/io/github/innixunix/deltapatcher/DecodeTab.kt:453 | the decimal text of any return code reads back as that code |
| Text.DecimalRoundTrip | app/src/main/java/io/github/innixunix/deltapatcher/DecodeTab.kt:453 | the decimal text of a natural number reads back as that number |
| VarLength.DecodeVarLength | cpp/XDeltaPatch.cpp:14-24 | the loop reads 7 bits per byte, most significant group first, while the high bit is set, in a 64-bit `size_t` that drops bits shifted out; it checks the end of the data and reports an integer cut off there as unterminated, where the source's loop never exits (see Findings) |
| VarLength.LoopAsWritten | cpp/XDeltaPatch.cpp:14-24 | the source's do-while loop, with a failed read leaving `byte` unchanged, exits only on a byte without the high bit |
| VarLength.LoopMatchesScan | cpp/XDeltaPatch.cpp:14-24 | on a complete integer the loop as written exits with the value and position the checked reader reports |
| VarLength.TruncatedIntegerSpins | cpp/XDeltaPatch.cpp:17-21 | when the data runs out while the continuation bit is set, the loop as written never exits |
| VarLength.UnterminatedSpins | cpp/XDeltaPatch.cpp:14-24 | every integer the checked reader reports as unterminated, starting inside the data, keeps the loop as written running for ever |
| VarLength.EndOfDataReadsZero | cpp/XDeltaPatch.cpp:14-24 | an integer read with no byte left gives 0, because `byte` starts at 0 and the failed read keeps it |
| VarLength.ScanFrom | cpp/XDeltaPatch.cpp:14-24 | a length is read from the bytes up to and including the first one without the high bit, and the value fits in 64 bits |
| VarLength.EncodeVarLength | cpp/XDeltaPatch.cpp:14-24 | the writer's encoding (RFC 3284 section 2): every byte but the last has the high bit set |
| VarLength.DecodeEncoded | cpp/XDeltaPatch.cpp:14-24 | reading an encoded length gives the length back and stops right after it |
| VarLength.ScanLeadingDigits | cpp/XDeltaPatch.cpp:17-21 | the continuation bytes accumulate the value of the leading groups |
| Base64.ValueOfSymbol | cpp/XDeltaPatch.cpp:122 | each of the 64 symbols of RFC 4648 section 4 decodes to its index |
| Base64.Encode | cpp/XDeltaPatch.cpp:144 | four characters for every three bytes, the last group padded |
| Base64.EncodeIsAscii | cpp/XDeltaPatch.cpp:144 | the encoding is 7-bit text with no NUL, so it survives as a C string |
| Base64.GroupRoundTrip | cpp/XDeltaPatch.cpp:122 | a full group of three bytes decodes back to the same bytes |
| Base64.OneByteRoundTrip | cpp/XDeltaPatch.cpp:122 | a final group holding one byte decodes back to it |
| Base64.TwoBytesRoundTrip | cpp/XDeltaPatch.cpp:122 | a final group holding two bytes decodes back to them |
| Base64.DecodeEncode | cpp/XDeltaPatch.cpp:122-144 | decoding the encoding of any bytes gives the bytes back |
| LineEnds.ReplaceCrLf | cpp/XDeltaPatch.cpp:126-130 | the CR LF pass never lengthens the text nor adds characters |
| LineEnds.ReplaceCr | cpp/XDeltaPatch.cpp:131-135 | the lone-CR pass turns every CR into LF and keeps every other character |
| LineEnds.NormalizeIsOnePass | cpp/XDeltaPatch.cpp:126-135 | the two passes together equal one left-to-right pass that reads CR LF and lone CR as one LF |
| LineEnds.NormalizedHasNoCr | cpp/XDeltaPatch.cpp:126-135 | a normalised description holds no CR |
| LineEnds.NormalizeKeepsCrFree | cpp/XDeltaPatch.cpp:126-135 | a description without CR comes out unchanged |
| LineEnds.NormalizeIdempotent | cpp/XDeltaPatch.cpp:126-135 | normalising twice is normalising once |
| LineEnds.NormalizeCharacters | cpp/XDeltaPatch.cpp:126-135 | normalising adds no character other than LF |
| LineEnds.CrLfCopyUntil | cpp/XDeltaPatch.cpp:127-128 | the text before the next CR LF is copied unchanged |
| LineEnds.PairReplaced | cpp/XDeltaPatch.cpp:127-129 | one `replace` of a CR LF by LF, resuming after it, is one step of the pass |
| LineEnds.NoPairLeft | cpp/XDeltaPatch.cpp:127 | once `find` sees no CR LF, the pass has nothing left to change |
| Header.UntilNul | cpp/XDeltaPatch.cpp:118 | building a `std::string` from the buffer stops at the first NUL |
| Header.AppHeaderText | cpp/XDeltaPatch.cpp:113-135 | a description is found only when the application header starts with `^*`, and it then holds no CR |
| Header.AppHeaderAt | cpp/XDeltaPatch.cpp:104-135 | an application header shorter than 2 is skipped; the length 2^64 - 1, whose `length + 1` wraps to 0, overruns the buffer; one the heap cannot hold is an allocation failure; a found description has no CR |
| Header.ParseDescription | cpp/XDeltaPatch.cpp:68-136 | a description is found only in a file that starts with the VCDIFF magic, version 0 and an indicator with the application-header bit |
| Header.TruncatedHeaderSpins | cpp/XDeltaPatch.cpp:100-104 | the patch `D6 C3 C4 00 04 80` gives `OutOfBytes` to the checked reader, and the source's loop never returns on it |
| Header.ParseAfterIndicator | cpp/XDeltaPatch.cpp:94-104 | after the indicator the optional secondary id byte and the optional code table are skipped before the application header |
| Header.SkipCodeTable | cpp/XDeltaPatch.cpp:98-102 | a code table shorter than 2^63 bytes is skipped by its length prefix and its length |
| Header.CodeTableSeeksBack | cpp/XDeltaPatch.cpp:98-102 | a code-table length of 2^64 - k becomes the `streamoff` -k, so the reader moves k bytes back |
| Header.ReadAppHeader | cpp/XDeltaPatch.cpp:104-116 | the application header is read from its length prefix |
| Header.LocateAppHeader | cpp/XDeltaPatch.cpp:68-116 | in any header written with the application-header bit, the reader finds the application header the writer put there |
| Header.EncodedDescriptionText | cpp/XDeltaPatch.cpp:138-147 | an encoded description always passes the reader's checks and decodes to its normalised text |
| Header.DescriptionRoundTrip | cpp/XDeltaPatch.cpp:68-147 | a description written into a patch header reads back as the description with its line ends normalised |
| Header.SkipTable | cpp/XDeltaPatch.cpp:94-102 | the skipping code computes the position the reader specification names |
| Header.DecodeAppHeaderText | cpp/XDeltaPatch.cpp:113-135 | the marker check, base64 step and both line-end passes compute the specification, and the text found is the normalised buffer |
| Header.ReadApplicationHeader | cpp/XDeltaPatch.cpp:104-135 | reading the application header computes the specification, and a found text is the normalised buffer |
| Header.DecodeHeader | cpp/XDeltaPatch.cpp:68-136 | `DecodeDescription` computes the reader specification, and a found text is the normalised buffer |
| Config.DefaultConfig | cpp/XDeltaPatch.h:41-47 | the default configuration: level 5 within 0..9, secondary compression "none", checksum and overwrite on, automatic window |
| Config.WindowSizesDouble | cpp/XDeltaPatch.cpp:38-47 | eight window sizes, from 8 MiB, each twice the one before |
| Config.WindowSizeIsPowerOfTwo | cpp/XDeltaPatch.cpp:38-47 | window size i is 8 times 2 to the i MiB |
| Config.WindowSizesIncreasing | cpp/XDeltaPatch.cpp:38-47 | the window sizes are strictly increasing, positive, and none is the automatic value |
| Config.SecondaryNames | cpp/XDeltaPatch.h:29-35 | four secondary compressors, the default being the last one |
| Command.InterpretDecode | cpp/XDeltaPatch.cpp:182-230 | the decode command line reads back as a decode of the patch against the original into the output, with the configured switches |
| Command.InterpretEncode | cpp/XDeltaPatch.cpp:182-230 | the encode command line reads back with the level, the compressor name, the window (unless automatic), the encoded description and the patch as output |
| Command.InterpretCommandLine | cpp/XDeltaPatch.cpp:182-230 | every command line reads back as the request the patcher intends |
| Command.LevelArgument | cpp/XDeltaPatch.cpp:198-200 | the level option is never mistaken for a switch and reads back as the level |
| Command.SwitchesOf | cpp/XDeltaPatch.cpp:191-195 | `-n` appears exactly when checksums are off and `-f` exactly when overwriting is on |
| Command.EncodeTail | cpp/XDeltaPatch.cpp:197-221 | the encode options before the files read back as the configuration and the encoded description |
| Messages.LinesHaveNoBreak | cpp/XDeltaPatch.cpp:26-36 | no token of `SplitMessageByLine` holds a line break |
| Messages.JoinLines | cpp/XDeltaPatch.cpp:26-36 | the tokens joined by line breaks, plus a final break when the text ends in one, give back the text |
| Messages.FirstLineIsPrefix | cpp/XDeltaPatch.cpp:162-167 | the message reported is the text up to its first line break |
| Patch.ReadDescription | cpp/XDeltaPatch.cpp:68-72 | a patch name that cannot be opened gives no description; a found one has no CR |
| Patch.Reported | cpp/XDeltaPatch.cpp:157-170 | the run reports the codec's return code and its first message line; a codec that throws is reported as raised |
| Patch.XDeltaPatch.constructor | cpp/XDeltaPatch.h:67 | the default patch: no name, no description, the default configuration |
| Patch.XDeltaPatch.Open | cpp/XDeltaPatch.cpp:56-66 | no name or write mode only records the name; read mode reads the description, keeping it only when found; an allocation failure escapes the constructor |
| Patch.XDeltaPatch.DecodeDescription | cpp/XDeltaPatch.cpp:68-136 | the description becomes the text read from the named file when one is found and is kept otherwise |
| Patch.XDeltaPatch.ReplacePairs | cpp/XDeltaPatch.cpp:126-130 | the loop replaces every CR LF by LF, left to right |
| Patch.XDeltaPatch.ReplaceLoneCr | cpp/XDeltaPatch.cpp:131-135 | the loop replaces every remaining CR by LF |
| Patch.XDeltaPatch.SetDescription | cpp/XDeltaPatch.cpp:153-155 | sets the description; nothing else changes |
| Patch.XDeltaPatch.SetConfig | cpp/XDeltaPatch.cpp:232-234 | sets the configuration; nothing else changes |
| Patch.XDeltaPatch.MakeCommand | cpp/XDeltaPatch.cpp:182-230 | the argument vector built push by push is the command line, and that command line reads back as the intended request |
| Patch.XDeltaPatch.SplitMessageByLine | cpp/XDeltaPatch.cpp:26-36 | the loop splits the messages at line breaks like `getline`; no token holds a break and joining them restores the text |
| Patch.XDeltaPatch.Process | cpp/XDeltaPatch.cpp:157-170 | runs the codec on the command line and reports its code and first message line |
| Patch.XDeltaPatch.Decode | cpp/XDeltaPatch.cpp:172-174 | decodes with the patch name as the patch |
| Patch.XDeltaPatch.Encode | cpp/XDeltaPatch.cpp:176-178 | encodes the modified file against the original into the patch name |
| Native.WindowSizeFor | cpp/native.cpp:49-53 | setting 0 is the automatic window, setting k the k-th window size |
| Native.WindowChoiceRoundTrip | cpp/native.cpp:49-53 | the window setting is recovered from the size passed to xdelta3 |
| Native.EncodeConfig | cpp/native.cpp:44-53 | the Kotlin settings reach the configuration unchanged, overwrite stays on, and the window setting is recoverable |
| Native.DefaultChoices | cpp/native.cpp:44-53 | the app's default settings give exactly the default configuration |
| Native.SendLogToCallback | cpp/native.cpp:15-25 | the message reaches the log callback once when there is a callback, and nothing happens otherwise |
| Native.EncodeResult | cpp/native.cpp:56-81 | an encode returns the codec's code and passes its messages on only when there are any; an exception returns -1 and logs "Error: " and its text |
| Native.Encode | cpp/native.cpp:27-82 | the JNI encode runs the codec on the command line for the translated settings and reports as above |
| Native.DecodeIgnoresDescription | cpp/XDeltaPatch.cpp:182-230 | the description does not affect a decode command line |
| Native.DecodeResult | cpp/native.cpp:92-119 | a decode whose header read runs out of memory, or whose codec throws, returns -1 and logs nothing; otherwise the codec's code |
| Native.Decode | cpp/native.cpp:84-120 | the JNI decode reads the patch header, sets the checksum switch and runs the codec |
| Native.DescriptionOf | cpp/native.cpp:122-137 | the description read from the patch, or empty when none is found or reading fails |
| Native.GetDescription | cpp/native.cpp:122-137 | the JNI `getDescription` computes that description |
| Native.GetDescriptionRoundTrip | cpp/native.cpp:122-137 | a patch written with a description gives that description back, line ends normalised |
| Settings.SettingsEntries.constructor | app/src/main/java/io/github/innixunix/deltapatcher/ui/settings/settingEntries.kt:14-31 | the settings are loaded from the stored preferences, defaults filling the missing keys |
| Settings.SettingsEntries.UpdateUseMonet | app/src/main/java/io/github/innixunix/deltapatcher/ui/settings/settingEntries.kt:33-36 | sets the value and stores it under "use_monet"; nothing else changes |
| Settings.SettingsEntries.UpdateUseChecksum | app/src/main/java/io/github/innixunix/deltapatcher/ui/settings/settingEntries.kt:38-41 | sets the value and stores it under "use_checksum"; nothing else changes |
| Settings.SettingsEntries.UpdateCompressionLevel | app/src/main/java/io/github/innixunix/deltapatcher/ui/settings/settingEntries.kt:43-46 | sets the value and stores it under "compression_level"; nothing else changes |
| Settings.SettingsEntries.UpdateSecondaryCompression | app/src/main/java/io/github/innixunix/deltapatcher/ui/settings/settingEntries.kt:48-51 | sets the value and stores it under "secondary_compression"; nothing else changes |
| Settings.SettingsEntries.UpdateSrcWindowSize | app/src/main/java/io/github/innixunix/deltapatcher/ui/settings/settingEntries.kt:53-56 | sets the value and stores it under "src_window_size"; nothing else changes |
| Settings.UpdateIsPersisted | app/src/main/java/io/github/innixunix/deltapatcher/ui/settings/settingEntries.kt:43-56 | settings loaded after storing an integer setting show its new value and the other settings as before |
| Settings.BoolUpdateIsPersisted | app/src/main/java/io/github/innixunix/deltapatcher/ui/settings/settingEntries.kt:33-41 | settings loaded after storing `use_monet` or `use_checksum` show its new value and the other settings as before |
| Settings.DefaultsAgreeWithNative | app/src/main/java/io/github/innixunix/deltapatcher/ui/settings/settingEntries.kt:18-30 | the default settings translate to the native default configuration |
| Settings.CompressionLevelsTable | app/src/main/java/io/github/innixunix/deltapatcher/ui/settings/settingEntries.kt:59-70 | one entry per level from 0 to 9, labelled with its number |
| Settings.SecondaryCompressionsTable | app/src/main/java/io/github/innixunix/deltapatcher/ui/settings/settingEntries.kt:72-77 | one entry per native compressor, labelled with its upper-cased name |
| Settings.WindowLabel | app/src/main/java/io/github/innixunix/deltapatcher/ui/settings/settingEntries.kt:79-89 | window entry k is labelled with the k-th native window size in MB |
| Settings.SrcWindowSizesTable | app/src/main/java/io/github/innixunix/deltapatcher/ui/settings/settingEntries.kt:79-89 | entry 0 is the automatic window and each other entry is labelled with the size the native side uses for it |
| FileNames.Stem | app/src/main/java/io/github/innixunix/deltapatcher/utils/FileUtil.kt:237-246 | the name before its last dot, which with the extension gives back the name |
| FileNames.Extension | app/src/main/java/io/github/innixunix/deltapatcher/utils/FileUtil.kt:237-246 | the name from its last dot on, empty when there is no dot |
| FileNames.OutputNameParts | app/src/main/java/io/github/innixunix/deltapatcher/utils/FileUtil.kt:237-246 | the output name keeps the input's extension and has the input's stem, `_` and the suffix as stem |
| FileNames.PatchNameParts | app/src/main/java/io/github/innixunix/deltapatcher/EncodeTab.kt:35-39 | the patch name has the extension `.xdelta` and the stem `<original stem>_to_<modified stem>`: only the last extension of each name is dropped (the second generation's copy at app/src/main/java/io/github/nyxynx/deltapatcher/ui/tabs/EncodeTab.kt:44-48 is the same function) |
| FileNames.PatchNameOfPlainNames | app/src/main/java/io/github/nyxynx/deltapatcher/ui/tabs/EncodeTab.kt:44-48 | every patch name ends in `.xdelta`, and names without a dot are used whole on either side of `_to_` |
| FileNames.SplitAtLastDot | app/src/main/java/io/github/innixunix/deltapatcher/DecodeTab.kt:31-40 | a name split at its last dot gives back its stem and its extension |
| FileUtil.Added | app/src/main/java/io/github/innixunix/deltapatcher/utils/FileUtil.kt:210-215 | adding a file never lowers the counter and adding a missing file changes nothing |
| FileUtil.Removed | app/src/main/java/io/github/innixunix/deltapatcher/utils/FileUtil.kt:217-223 | removing a file lowers the counter but not below 0, and removing a missing file changes nothing |
| FileUtil.AddThenRemove | app/src/main/java/io/github/innixunix/deltapatcher/utils/FileUtil.kt:210-223 | removing a file just added restores the counter |
| FileUtil.RemoveClamps | app/src/main/java/io/github/innixunix/deltapatcher/utils/FileUtil.kt:220-221 | removing a file larger than the counter gives 0 |
| FileUtil.StorageCheckIsStrict | app/src/main/java/io/github/innixunix/deltapatcher/utils/FileUtil.kt:44-52 | the cache needs more than twice the counted bytes, and an unreadable free space fails |
| FileUtil.StorageCheckMonotone | app/src/main/java/io/github/innixunix/deltapatcher/utils/FileUtil.kt:44-52 | more free space or fewer counted bytes never turns a pass into a failure |
| FileUtil.Cleared | app/src/main/java/io/github/innixunix/deltapatcher/utils/FileUtil.kt:229-232 | only a temporary file with a path is deleted; every other file stays as it was |
| FileUtil.PickerOutputNameChoice | app/src/main/java/io/github/innixunix/deltapatcher/utils/FileUtil.kt:116-134 | the output name is proposed exactly when a name generator applies: `<stem>_patched<ext>` for an original, `<other stem>_to_<stem>.xdelta` for a modified file |
| FileUtil.PickedDescription | app/src/main/java/io/github/innixunix/deltapatcher/utils/FileUtil.kt:137-143 | the patch description, or "No description available" when reading it fails |
| FileUtil.CounterAfterPick | app/src/main/java/io/github/innixunix/deltapatcher/utils/FileUtil.kt:95-102 | after a pick the counter holds only the new copy's size (0 for a real path), whatever it held before |
| FileUtil.IntendedCounterTracksCache | app/src/main/java/io/github/innixunix/deltapatcher/utils/FileUtil.kt:95-158 | with removal alone, the counter after a pick equals the bytes of both selections still cached |
| FileUtil.PickForgetsOtherFile | app/src/main/java/io/github/innixunix/deltapatcher/EncodeTab.kt:343-384 | a concrete pick where the counter forgets the other slot's 100 bytes and the storage check passes with too little room |
| FileUtil.StorageCounter.constructor | app/src/main/java/io/github/innixunix/deltapatcher/utils/FileUtil.kt:23 | the counter starts at 0 |
| FileUtil.StorageCounter.AddToStorageCounter | app/src/main/java/io/github/innixunix/deltapatcher/utils/FileUtil.kt:210-215 | adds the file's length when it exists |
| FileUtil.StorageCounter.RemoveFromStorageCounter | app/src/main/java/io/github/innixunix/deltapatcher/utils/FileUtil.kt:217-223 | subtracts the file's length when it exists, clamping at 0 |
| FileUtil.StorageCounter.ResetStorageCounter | app/src/main/java/io/github/innixunix/deltapatcher/utils/FileUtil.kt:225-227 | sets the counter to 0 |
| FileUtil.StorageCounter.ClearFile | app/src/main/java/io/github/innixunix/deltapatcher/utils/FileUtil.kt:229-235 | deletes a temporary file, runs the clearing callback and resets the counter |
| FileUtil.StorageCounter.CheckStorageSpace | app/src/main/java/io/github/innixunix/deltapatcher/utils/FileUtil.kt:44-52 | true exactly when the free space is known and more than twice the counter |
| FileUtil.StorageCounter.FilePicker | app/src/main/java/io/github/innixunix/deltapatcher/utils/FileUtil.kt:66-208 | the previous temporary file is deleted, the copy (if any) is added to the cache and the counter; the selection, output name, description and error each follow the access outcome |
| TabFlow.FileCheckPasses | app/src/main/java/io/github/innixunix/deltapatcher/DecodeTab.kt:349-379 | the file checks pass exactly when both files exist and neither is empty |
| TabFlow.FileCheckOrder | app/src/main/java/io/github/innixunix/deltapatcher/DecodeTab.kt:353-370 | the original is checked before the second file, and existence before emptiness |
| TabFlow.FileCheckIsNotMissingFields | app/src/main/java/io/github/innixunix/deltapatcher/DecodeTab.kt:343-372 | no file-check message equals the missing-fields message |
| TabFlow.UnknownErrorReadBack | app/src/main/java/io/github/innixunix/deltapatcher/DecodeTab.kt:453 | the unknown-code message carries a number that reads back as the code, then the whole log |
| TabFlow.BaseName | app/src/main/java/io/github/innixunix/deltapatcher/DecodeTab.kt:406 | `File.name` holds no separator |
| TabFlow.TempOutputName | app/src/main/java/io/github/innixunix/deltapatcher/DecodeTab.kt:386-406 | the temporary output in the cache is named after the output name |
| TabFlow.LogLinesRoundTrip | app/src/main/java/io/github/innixunix/deltapatcher/DecodeTab.kt:389-393 | splitting the log at line breaks gives back the callback messages, when no message has a break of its own |
| TabFlow.AppendMessages | app/src/main/java/io/github/innixunix/deltapatcher/DecodeTab.kt:389-393 | the callback appends each message and a line break to the log, in order |
| TabFlow.Logged | app/src/main/java/io/github/innixunix/deltapatcher/DecodeTab.kt:406 | appending to the log keeps what was logged and changes nothing else |
| TabFlow.Fail | app/src/main/java/io/github/innixunix/deltapatcher/DecodeTab.kt:423-424 | the error dialog opens with the message; the log and the success dialog stay |
| DecodeTab.DecodeValidationPasses | app/src/main/java/io/github/innixunix/deltapatcher/DecodeTab.kt:343-379 | patching is attempted exactly when the fields are filled and both files exist and are not empty; missing fields is reported exactly when the button would be disabled |
| DecodeTab.FoundPatternsRedundant | app/src/main/java/io/github/innixunix/deltapatcher/DecodeTab.kt:439-442 | the two `found '…'` patterns add nothing to the two plain ones |
| DecodeTab.DecodeLogBeatsCode | app/src/main/java/io/github/innixunix/deltapatcher/DecodeTab.kt:438-446 | a wrong-file or access pattern in the log decides the message whatever the code, the wrong-file one first |
| DecodeTab.DecodeIgnoresCase | app/src/main/java/io/github/innixunix/deltapatcher/DecodeTab.kt:437-452 | logs equal after lower-casing give the same message for known codes and patterns |
| DecodeTab.DecodeCodeTable | app/src/main/java/io/github/innixunix/deltapatcher/DecodeTab.kt:447-453 | with no pattern in the log, 5 means a wrong file, 6 a failed allocation, and other codes quote the code and the log |
| DecodeTab.DeliverPatched | app/src/main/java/io/github/innixunix/deltapatcher/DecodeTab.kt:402-434 | the log only grows; the success dialog opens exactly when the file is delivered and the error dialog otherwise |
| DecodeTab.AfterDecode | app/src/main/java/io/github/innixunix/deltapatcher/DecodeTab.kt:402-458 | success exactly for code 0 with the file delivered; a non-zero code shows and logs the classifier's message for the log |
| DecodeTab.DecodeTabState.constructor | app/src/main/java/io/github/innixunix/deltapatcher/DecodeTab.kt:43-63 | an empty tab |
| DecodeTab.DecodeTabState.ApplyPatch | app/src/main/java/io/github/innixunix/deltapatcher/DecodeTab.kt:339-466 | a failed check shows its message and `decode` is not called; otherwise `decode` runs without a checksum switch on a temporary output, the log restarts with the two file lines and the messages, and the code decides the screen; the selection is kept |
| EncodeTab.EncodeGateOrder | app/src/main/java/io/github/innixunix/deltapatcher/EncodeTab.kt:144-200 | encoding is attempted exactly when the fields are filled, the cache has room and both files are present and non-empty; missing fields comes before low storage, which comes before the file checks |
| EncodeTab.EncodeLogBeatsCode | app/src/main/java/io/github/innixunix/deltapatcher/EncodeTab.kt:301-306 | an access pattern in the log decides the message whatever the code or case |
| EncodeTab.CodesDifferFromDecode | app/src/main/java/io/github/innixunix/deltapatcher/EncodeTab.kt:307-313 | for encoding 5 is a failed allocation and 6 unknown, unlike for patching |
| EncodeTab.EncodeRequest | app/src/main/java/io/github/innixunix/deltapatcher/EncodeTab.kt:230-241 | the settings reach `encode` unchanged, with the temporary output and the description |
| EncodeTab.DeliverPatch | app/src/main/java/io/github/innixunix/deltapatcher/EncodeTab.kt:247-299 | the log only grows; the success dialog opens exactly when the patch is delivered and the error dialog otherwise |
| EncodeTab.AfterEncode | app/src/main/java/io/github/innixunix/deltapatcher/EncodeTab.kt:247-319 | success exactly for code 0 with the patch delivered; a non-zero code shows and logs the classifier's message for the log |
| EncodeTab.EncodeTabState.constructor | app/src/main/java/io/github/innixunix/deltapatcher/EncodeTab.kt:42-78 | an empty form and a zero counter |
| EncodeTab.EncodeTabState.CreatePatch | app/src/main/java/io/github/innixunix/deltapatcher/EncodeTab.kt:144-330 | a failed check shows its message or the storage warning and `encode` is not called; otherwise `encode` runs with the settings, the code decides the screen, and only a delivered patch clears the form and resets the counter |
| PatchOperation.UnifiedValidationOrder | app/src/main/java/io/github/kleidis/deltapatcher/utils/PatchErrors.kt:46-94 | the native side is reached exactly when the fields are set and both files exist and are not empty; the second file is called "Patch" or "Modified ROM" by operation |
| PatchOperation.NativeCallFor | app/src/main/java/io/github/kleidis/deltapatcher/utils/PatchErrors.kt:133-157 | decode receives the checksum setting; encode receives the description and all four settings, unchanged |
| PatchOperation.ErrorFilterIsCaseSensitive | app/src/main/java/io/github/kleidis/deltapatcher/utils/PatchErrors.kt:114 | the error-line filter matches "Error" and "error" but not "ERROR" |
| PatchOperation.LatestErrorWins | app/src/main/java/io/github/kleidis/deltapatcher/utils/PatchErrors.kt:112-116 | the register holds the trimmed text of the last error message logged |
| PatchOperation.NoErrorLineKeepsDetails | app/src/main/java/io/github/kleidis/deltapatcher/utils/PatchErrors.kt:112-116 | with no error message, the register keeps its value |
| PatchOperation.LogEvents | app/src/main/java/io/github/kleidis/deltapatcher/utils/PatchErrors.kt:118-120 | every message reaches the tab's log with a line break, in order |
| PatchOperation.OutcomeEvents | app/src/main/java/io/github/kleidis/deltapatcher/utils/PatchErrors.kt:164-213 | exactly one of success and error is reported, success only for code 0 with the output delivered; a failed run reports the register |
| PatchOperation.PatchErrors.constructor | app/src/main/java/io/github/kleidis/deltapatcher/utils/PatchErrors.kt:231 | the register starts empty |
| PatchOperation.PatchErrors.SetLastErrorDetails | app/src/main/java/io/github/kleidis/deltapatcher/utils/PatchErrors.kt:233-235 | sets the register |
| PatchOperation.PatchErrors.OnLogUpdates | app/src/main/java/io/github/kleidis/deltapatcher/utils/PatchErrors.kt:112-122 | the callback loop leaves in the register the last error message, trimmed, and logs every message |
| PatchOperation.OperationOutcome | app/src/main/java/io/github/kleidis/deltapatcher/utils/PatchErrors.kt:43-227 | every operation reports exactly one of success and error and ends inactive; a failed check reports its message; a failed run reports its last error message; the run's messages reach the log in order |
| PatchOperation.ExecuteUnifiedPatchOperation | app/src/main/java/io/github/kleidis/deltapatcher/utils/PatchErrors.kt:43-228 | a failed check returns -1 without the native call; otherwise the register is cleared, the native call is made on a temporary output and its code returned, and the callbacks are those of the operation |
| PatchOperation.FailureReportsLastErrorMessage | app/src/main/java/io/github/kleidis/deltapatcher/utils/PatchErrors.kt:207-211 | a failed run is reported with its last error message, or with an empty message when it logged none |
| ComposeEncodeTab.ScreenAfterEvents | app/src/main/java/io/github/nyxynx/deltapatcher/ui/tabs/EncodeTab.kt:115-136 | the callbacks only grow the log; success and error dialogs open exactly when reported, with the last error's message |
| ComposeEncodeTab.CreatePatchShows | app/src/main/java/io/github/nyxynx/deltapatcher/ui/tabs/EncodeTab.kt:97-147 | after the operation the tab shows success exactly when it succeeded, and otherwise the failed check's message or the last error message |
| ComposeEncodeTab.ComposeEncodeTabState.constructor | app/src/main/java/io/github/nyxynx/deltapatcher/ui/tabs/EncodeTab.kt:61-86 | an empty form sharing the app's storage counter and error register |
| ComposeEncodeTab.ComposeEncodeTabState.CreatePatch | app/src/main/java/io/github/nyxynx/deltapatcher/ui/tabs/EncodeTab.kt:97-147 | without room the storage warning opens and the operation does not run; without an output folder "Error: null" is shown; otherwise the operation encodes the form, its callbacks are shown, and success clears the form and resets the counter |

## Left out

- The xdelta3 codec (`xd3_main_exec`, `xd3_messages`): a function parameter from the command line to a return code and messages, or an exception.
- `xd3_messages()` is called twice per run: by `Process` for the first line (cpp/XDeltaPatch.cpp:161) and again by `encode` and `decode` for the log (cpp/native.cpp:60, 102). The model assumes the second call returns the same buffer as the first; a codec that drained the buffer on reading would leave the app's log empty.
- xdelta3's own parsing of its argument vector: `Command.Interpret` is a reader of the shapes `CommandLine` builds, so the read-back lemmas show the command line is unambiguous, not that xdelta3's option parser agrees with it.
- `utils/base64.h` is not part of this model. Base 64 follows RFC 4648 section 4, and text that this decoder rejects gives no description, whatever a lenient decoder would make of it.
- Reads past the end of a patch file, which `DecodeDescription` does not check, are reported as `OutOfBytes` by the checked reader, and so is a code-table seek to before the start of the file. The out-of-bounds writes of an application header of length 2^64 - 1 are reported as `BufferOverrun`.
- Native.DescriptionOf: on a patch that ends inside a length integer the source hangs (see Findings), and on an application header cut short it decodes the bytes read plus whatever the buffer held; the model gives the empty string in both cases.
- Native.GetDescription: computes `Native.DescriptionOf` with the checked reader, so it returns the empty string where the source hangs or reads indeterminate buffer bytes.
- Native.Decode: with the checked reader, a patch that ends inside a length integer of its header goes on to the codec, where the source hangs before calling it.
- Patch.XDeltaPatch.Open: returns on a patch that ends inside a length integer of its header, where the source's constructor hangs; a truncated application header leaves the description empty where the source decodes indeterminate buffer bytes.
- Header.ParseDescription: uses the checked reader; its `OutOfBytes` stands for both the source's hang and its read of indeterminate buffer bytes.
- The allocation failure of the application-header buffer is a heap limit parameter; no other allocation failure is modelled.
- JNI string conversion (modified UTF-8), local-reference release, and a callback class without `onLogUpdate`: strings cross the boundary unchanged, and a callback is present or absent.
- The Kotlin declarations of the native functions differ between app generations and from `native.cpp` (a progress callback, or a `decode` without the checksum flag). Each caller is modelled with the call it makes.
- Progress callbacks and copy progress: `native.cpp` never calls one, and the float progress values are left out.
- Log updates launched asynchronously on the main thread (the first-generation create tab, the unified operation) are modelled as arriving in order.
- Exceptions thrown by file validation, the content resolver, or code outside the model ("Error validating files", "Error processing file", the outer "Error: " handlers) are not modelled, except the missing output folder of the second-generation create tab.
- Copying the output file through `DocumentFile` is reduced to four outcomes. An output stream that the resolver returns as null copies nothing but is reported as success by the source; it is covered by `Delivered`.
- Notifications, toasts, `delay(100)`, the operation-state callbacks of the first-generation tabs, the copying indicators, `clearCache` and every composable and dialog.
- The first-generation tabs' own file pickers are modelled only for their counter arithmetic (`FileUtil.CounterAfterPick`), not for the fields their clearing callbacks reset.
- `SharedPreferences` is two maps, and asynchronous `apply` is treated as immediate.
- `java.io.File` path handling: the temporary output is the cache directory, a separator and the name, with no normalisation.
- The `Long` storage counter and free space are unbounded integers, so overflow is not modelled.
- The second-generation tab's storage check and file utilities come from a package outside this model. They are modelled by the first generation's `FileUtil` counter and check, which they import under the same names.
- The second-generation tab's `executeUnifiedPatchOperation` also comes from its own package, which is not part of this model. It is assumed to behave as the third generation's operation (`PatchOperation.ExecuteUnifiedPatchOperation`), which `ComposeEncodeTab` calls in its place.
- Text.Lower: lower-cases ASCII letters only, whereas Kotlin's `lowercase()` also maps other letters. The classifier patterns are ASCII, but a non-ASCII log could lower-case differently.
- Text.Trim: the whitespace set is the ASCII controls 9 to 13, 28 to 31 and space, without the other Unicode space characters that Kotlin's `trim()` and `isBlank()` recognise.

## Findings

| source | as written | input that shows it | evidently intended | confidence | as-written member | corrected member |
|---|---|---|---|---|---|---|
| app/src/main/java/io/github/innixunix/deltapatcher/EncodeTab.kt:132-142 | The file picker removes the replaced file from the storage counter, then calls `clearFile`, which resets (as `FileUtil.clearFile` also does) the counter to 0. It then adds the new copy, so the counter holds only the file just picked. | The original slot holds a 100-byte temporary copy; a modified file is then picked and copied to a 50-byte temporary file. The counter is 50, so 250 bytes of free space pass the check. | The counter keeps the other slot's copy: 150 bytes, so the check needs more than 300 bytes and 250 fails. The corrected counter also subtracts only cache copies, whereas line 343 subtracts any existing replaced file, including a real-path file that was never added. | medium, not executed | FileUtil.CounterAfterPick, FileUtil.PickForgetsOtherFile | FileUtil.IntendedCounterAfterPick, FileUtil.IntendedCounterTracksCache |
| cpp/XDeltaPatch.cpp:14-24 | `DecodeVarLength` never checks `file.read`. At the end of the file the read fails and leaves `byte` as it was, so after a last byte with the high bit set `while (byte & 0x80)` never exits. `getDescription` and `decode` (cpp/native.cpp:93, 126) then never return. | A patch file `D6 C3 C4 00 04 80`: magic, version 0, indicator 0x04, then one length byte 0x80 at the end of the file, as a cut-off download can leave it. | The reader stops at the end of the file and the patch has no description, so `getDescription` returns the empty string. | high, not executed | VarLength.LoopAsWritten, VarLength.TruncatedIntegerSpins, Header.TruncatedHeaderSpins | VarLength.DecodeVarLength, VarLength.LoopMatchesScan |
