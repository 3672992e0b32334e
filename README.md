# LuaModifier, modelled in Dafny

EnableModUpdateChecker adds an update check to a Vermintide mod. Its class
`LuaModifier` edits two Lua scripts of the mod. It appends a block of Lua code
to the mod script. It inserts localization entries into the table that the
localization script returns. Each generated block sits between two sentinel
comments, `-- DO NOT MODIFY ::: BEGIN Auto-Generated Mod Update-Checker` and
the matching `END` line. `AddUpdateChecker(modId, force)` behaves as follows:

- it refuses when a script already holds a block, unless `force` is set;
- it backs both scripts up;
- under `force`, it removes the old blocks;
- it adds the two new blocks;
- when the localization edit fails, it removes the mod block again.

`RestoreOriginalLua()` removes both blocks. Each operation returns `null` on
success, or a message that says what failed.

The model has these modules:

- `Text`: the .NET string operations the class relies on.
- `Markers`: the sentinels.
- `Remover`: the removal loop of `RemoveMUCChanges`.
- `Locator` and `Scanner`: the regular expressions and the two walks that
  find where the localization entries go.
- `Payload`: the code generators.
- `Store`: a file store in which any helper call may fail. A map says which
  calls fail.
- `Workflow`: each operation as a function of the files before it.
- `Modifier`: the class itself, with the store as a field that its methods
  update step by step. Each method is proved to agree with its `Workflow`
  function.

The lemmas are in these modules:

- `Guarantees`, `Orchestration` and `Messages`: the order of the steps, the
  failure paths and the texts of the failures.
- `RoundTrip`: inserting a block and then removing it.
- `WholeRun`: whole runs of the two public operations.

The model reads a file as Unix .NET does. Lines end at `'\n'`, a written line
ends with `"\n"`, and only `'/'` separates directories.

## Model

| member | source | states |
|---|---|---|
| Modifier.LuaModifier.constructor | EnableModUpdateChecker/LuaModifier.cs:29-41 | The object holds the given configuration and files, and no call has been made yet. |
| Modifier.LuaModifier.Perform | EnableModUpdateChecker/LuaModifier.cs:395-473 | One helper call. It fails exactly when the fault map names it, and it then changes nothing. Otherwise it writes the content to its path. The call is logged either way. |
| Modifier.LuaModifier.CopyFile | EnableModUpdateChecker/LuaModifier.cs:395-414 | The store and log afterwards are those of `Store.CopyFile`. |
| Modifier.LuaModifier.WriteToFile | EnableModUpdateChecker/LuaModifier.cs:415-433 | The store and log afterwards are those of `Store.WriteFile`. |
| Modifier.LuaModifier.AppendToFile | EnableModUpdateChecker/LuaModifier.cs:434-452 | The store and log afterwards are those of `Store.AppendFile`. |
| Modifier.LuaModifier.MoveFile | EnableModUpdateChecker/LuaModifier.cs:454-473 | The store and log afterwards are those of `Store.ReplaceFile`. The temporary file and its move are one step. |
| Modifier.LuaModifier.BackupFile | EnableModUpdateChecker/LuaModifier.cs:129-131 | The store afterwards is that of `Workflow.Backup`: a copy to the backup path that overwrites any earlier backup. |
| Modifier.LuaModifier.RemoveMUCChanges | EnableModUpdateChecker/LuaModifier.cs:337-393 | The store, log and result are those of `Workflow.RemoveChanges`. That function runs the backup, then the removal loop, and moves the file only when a complete block was removed. |
| Modifier.LuaModifier.GetModVariableName | EnableModUpdateChecker/LuaModifier.cs:199-211 | The loop returns the name that `Payload.ModVariableName` gives: the declaration on the first matching line. |
| Modifier.LuaModifier.AddModScriptCode | EnableModUpdateChecker/LuaModifier.cs:133-148 | The store, log and result are those of `Workflow.AddModScript`. |
| Modifier.LuaModifier.LocateTable | EnableModUpdateChecker/LuaModifier.cs:233-285 | The regular expressions and the forward walk give `Workflow.InsertionPoint`: the table start and the closing brace, or the source's reason for not finding them. |
| Modifier.LuaModifier.AddLocalizationScriptCode | EnableModUpdateChecker/LuaModifier.cs:231-315 | The store, log and result are those of `Workflow.AddLocalization`. |
| Modifier.LuaModifier.DetectBlock | EnableModUpdateChecker/LuaModifier.cs:48-63 | The loop that stops at the first line containing BEGIN returns `Markers.HasBeginLine`. |
| Modifier.LuaModifier.ForcedCleanup | EnableModUpdateChecker/LuaModifier.cs:76-89 | The store, log and result are those of `Workflow.Cleanup`. |
| Modifier.LuaModifier.AddBlocks | EnableModUpdateChecker/LuaModifier.cs:91-110 | The store, log and result are those of `Workflow.AddBlocks`. |
| Modifier.LuaModifier.ModifyScripts | EnableModUpdateChecker/LuaModifier.cs:72-110 | The store, log and result are those of `Workflow.ModifyScripts`. |
| Modifier.LuaModifier.AddUpdateChecker | EnableModUpdateChecker/LuaModifier.cs:44-111 | The store, log and result are those of `Workflow.AddUpdateChecker`, for every store, including one that lacks a script. |
| Modifier.LuaModifier.RestoreOriginalLua | EnableModUpdateChecker/LuaModifier.cs:113-125 | The store, log and result are those of `Workflow.Restore`, for every store, including one that lacks a script. |
| Store.Apply | EnableModUpdateChecker/LuaModifier.cs:395-473 | A helper call is logged. It fails iff the fault map names it, and then the files are unchanged and the failure carries that exception. Otherwise only its path changes. |
| Store.CopyFile | EnableModUpdateChecker/LuaModifier.cs:395-414 | A missing source fails with FileNotFound. A faulted copy fails and changes nothing. Otherwise the destination gets the source's contents. |
| Store.WriteFile | EnableModUpdateChecker/LuaModifier.cs:415-433 | It fails iff faulted. On success the path holds exactly the content. On failure nothing changes. |
| Store.AppendFile | EnableModUpdateChecker/LuaModifier.cs:434-452 | It fails iff faulted. On success the content is appended, or written to a new file. On failure nothing changes. |
| Store.ReplaceFile | EnableModUpdateChecker/LuaModifier.cs:454-473 | The move over the original fails iff faulted. On success the path holds the new content. On failure nothing changes. |
| Text.IndexOf | EnableModUpdateChecker/LuaModifier.cs:357 | The first occurrence: the word occurs there, and at no earlier position. |
| Text.LastIndexOf | EnableModUpdateChecker/LuaModifier.cs:244 | The last occurrence, or -1: the word occurs there, and at no later position. |
| Text.FileName | EnableModUpdateChecker/LuaModifier.cs:39-40 | `Path.GetFileName`: a suffix of the path that holds no separator and is preceded by one, unless it is the whole path. |
| Text.NatToString | EnableModUpdateChecker/LuaModifier.cs:156 | Non-empty decimal digits without a leading zero, whose value (`DecimalValue`) is the number. |
| Markers.SentinelLines | EnableModUpdateChecker/LuaModifier.cs:15-16 | The BEGIN sentinel is a BEGIN line and not an END line, and the END sentinel the other way round. |
| Markers.SentinelsAreSingleLines | EnableModUpdateChecker/LuaModifier.cs:15-16 | Neither sentinel is empty or holds a line break. |
| Markers.HasBeginLineIffContains | EnableModUpdateChecker/LuaModifier.cs:48-63 | Some line holds BEGIN iff the whole text contains BEGIN. |
| Remover.StripBlock | EnableModUpdateChecker/LuaModifier.cs:344-387 | The source's loop, with its two flags and early returns, computes `Remover.Remove`. |
| Remover.OpenAfterMeansUnclosedBegin | EnableModUpdateChecker/LuaModifier.cs:347-381 | `isMUCCode` after n lines holds iff some earlier line began a block and no line since has ended it. |
| Remover.KeptHasNoBegin | EnableModUpdateChecker/LuaModifier.cs:352-366 | No line the loop writes holds BEGIN. |
| Remover.KeptHasNoNewline | EnableModUpdateChecker/LuaModifier.cs:360-365 | The lines written hold no line break when the lines read hold none. |
| Remover.NoBlockIffNoSentinel | EnableModUpdateChecker/LuaModifier.cs:383-387 | The loop reports nothing to do iff no line holds either sentinel. |
| Remover.RemoveAgain | EnableModUpdateChecker/LuaModifier.cs:337-393 | Removing again after a successful removal finds nothing to do, or a stray END, and the first happens iff no kept line holds END. |
| Remover.EndBeforeBegin | EnableModUpdateChecker/LuaModifier.cs:352-374 | A line whose text in front of BEGIN holds END is cut to that text. A second removal then fails with a stray END. So removal is not idempotent. |
| Remover.EndThenBegin | EnableModUpdateChecker/LuaModifier.cs:15-16 | The line END + BEGIN is such a line. |
| Remover.RemovesSingleBlock | EnableModUpdateChecker/LuaModifier.cs:344-387 | For lines holding one block, the kept lines are: those before it; the user's text in front of BEGIN, when it is not blank; and those after, without blank lines unless they are preserved. |
| Locator.NamedReturnIff | EnableModUpdateChecker/LuaModifier.cs:234-235 | The right-to-left match of `return\s+(\w+)\s*$` captures `name` iff the text ends in `return`, white space, `name` and white space. |
| Locator.NamedReturnIsWord | EnableModUpdateChecker/LuaModifier.cs:234-239 | A captured return name is a non-empty word. |
| Locator.LastOpening | EnableModUpdateChecker/LuaModifier.cs:240-254 | The right-to-left match: an opening ends at the position found, and none ends later. |
| Locator.LastIsTheMatch | EnableModUpdateChecker/LuaModifier.cs:244-260 | `LastIndexOf` of the matched text finds the match itself, so `startingIndex` is just past its `{`. |
| Locator.ScanStart | EnableModUpdateChecker/LuaModifier.cs:244-260 | `LastIndexOf(match) + match.Length` is the end of the last match. |
| Locator.TableStart | EnableModUpdateChecker/LuaModifier.cs:234-261 | The table opens at the last `name = {` for a named return, and at the last `return {` otherwise. Its result is an error iff no such opening exists. |
| Scanner.FindTableEnd | EnableModUpdateChecker/LuaModifier.cs:263-285 | The forward walk, with its depth counter and string flag, computes `Scanner.TableEnd`. |
| Scanner.TableEndIff | EnableModUpdateChecker/LuaModifier.cs:264-285 | The walk ends at m iff m is the first position where the depth reaches 0. It fails iff the depth never reaches 0. |
| Scanner.ScanCounts | EnableModUpdateChecker/LuaModifier.cs:267-281 | The string flag is the parity of the quotes read. The depth is 1 plus the `{` outside strings, minus the `}` outside strings. |
| Scanner.ClosedByBrace | EnableModUpdateChecker/LuaModifier.cs:277-282 | The walk ends just after a `}` that lies outside a string. |
| Scanner.BackwardFlags | EnableModUpdateChecker/LuaModifier.cs:287-312 | The backward walk's two flags are `CommaNeeded` and `NewlineNeeded`, its declarative definitions. |
| Scanner.StopDecides | EnableModUpdateChecker/LuaModifier.cs:293-304 | The last `,`, `{` or `}` before the brace decides the comma: one is needed iff it is `}`. Only the line breaks after it count. |
| Scanner.NoStopDecides | EnableModUpdateChecker/LuaModifier.cs:288-293 | With no `,`, `{` or `}` before the brace, the walk keeps the comma. |
| Scanner.EmptyTableTakesComma | EnableModUpdateChecker/LuaModifier.cs:293-299 | A table holding only white space gets a comma from the walk as written. The corrected `IntendedComma` gives it none. |
| Scanner.ReturnOfEmptyTable | EnableModUpdateChecker/LuaModifier.cs:253-299 | For `return { }` the walk as written asks for a comma, and the corrected flag does not. |
| Scanner.ReturnOfTwoEntries | EnableModUpdateChecker/LuaModifier.cs:293-304 | For `return { a = 1, b = 2 }` the walk as written stops at the comma after `1` and asks for no comma after `b = 2`. The corrected flag asks for one. |
| Scanner.IntendedCommaIff | EnableModUpdateChecker/LuaModifier.cs:287-304 | The corrected comma flag holds iff the table holds more than white space and its last character that is not white space is neither `,` nor `{`. |
| Scanner.AgreesAtStop | EnableModUpdateChecker/LuaModifier.cs:293-304 | When the last character that is not white space is `,`, `{` or `}`, the walk as written and the corrected flag agree. |
| Scanner.Insert | EnableModUpdateChecker/LuaModifier.cs:314 | `string.Insert`: the text before k, the inserted text, then the rest. |
| Payload.EntryLinesAreJoined | EnableModUpdateChecker/LuaModifier.cs:323-331 | The foreach over a dictionary writes one line per entry. |
| Payload.LocalizationPayloadIsLines | EnableModUpdateChecker/LuaModifier.cs:316-334 | The generated entries are the optional line break, then the localization lines, each ended by a line break. |
| Payload.LocalizationLinesShape | EnableModUpdateChecker/LuaModifier.cs:316-334 | The lines are: BEGIN, the `MUC_fail` line with the comma iff asked for, one line per entry and the fixed lines, END. The comma changes only the second line. |
| Payload.LocalizationPayloadSplit | EnableModUpdateChecker/LuaModifier.cs:316-334 | Read back as lines, the entries are an empty line when the line break is asked for, then the localization lines, then an empty line. |
| Payload.LocalizationLinesSentinels | EnableModUpdateChecker/LuaModifier.cs:321-332 | The first line begins a block and the last ends it. The lines between hold neither sentinel. |
| Payload.UploadDateTime | EnableModUpdateChecker/LuaModifier.cs:154-156 | The five numbers, joined by commas, hold no line break. |
| Payload.ModPayloadSplit | EnableModUpdateChecker/LuaModifier.cs:150-197 | Read back as lines, the mod block is BEGIN, the lines of the code, END. |
| Payload.CharsOfSubstitute | EnableModUpdateChecker/LuaModifier.cs:189-192 | Replacing the placeholders brings in no character absent from the template and the values. |
| Payload.ModCodeIsPlain | EnableModUpdateChecker/LuaModifier.cs:158-193 | The filled-in code holds no sentinel line. |
| Payload.DeclarationAtIff | EnableModUpdateChecker/LuaModifier.cs:201-207 | The matcher at a position captures `name` iff the line spells `local`, white space, `name`, `=` and `get_mod("…")` from there. |
| Payload.NamedCallIff | EnableModUpdateChecker/LuaModifier.cs:201 | The part of the pattern after `local` captures `name` iff the line spells it from there. |
| Payload.FirstDeclarationIsLeftmost | EnableModUpdateChecker/LuaModifier.cs:204-207 | `Regex.Match` finds a name iff some position of the line matches, and then it is the name of the leftmost match. |
| Payload.FirstDeclarationIn | EnableModUpdateChecker/LuaModifier.cs:202-210 | The name of the first line that matches, or none iff no line matches. |
| Payload.GetModCall | EnableModUpdateChecker/LuaModifier.cs:201 | The text `get_mod("{ModName}")`, which starts with `g`. |
| Workflow.BackupStem | EnableModUpdateChecker/LuaModifier.cs:131 | The file's name without `.lua` holds no directory separator. |
| Workflow.Backup | EnableModUpdateChecker/LuaModifier.cs:129 | The backup fails iff the file is missing or the copy is faulted. Otherwise the backup path holds the file's contents. |
| Workflow.RemoveChanges | EnableModUpdateChecker/LuaModifier.cs:337-393 | The files it leaves include every file there was. |
| Workflow.AddModScript | EnableModUpdateChecker/LuaModifier.cs:133-148 | The files it leaves include every file there was. |
| Workflow.InsertionPoint | EnableModUpdateChecker/LuaModifier.cs:236-285 | The closing brace lies within the text, at or after the table start. |
| Workflow.AddLocalization | EnableModUpdateChecker/LuaModifier.cs:231-315 | The files it leaves include every file there was. |
| Workflow.Backups | EnableModUpdateChecker/LuaModifier.cs:72-73 | Both scripts still exist after the two backups. |
| Workflow.Cleanup | EnableModUpdateChecker/LuaModifier.cs:76-89 | Both scripts still exist after the forced cleanup. |
| Workflow.ReadMissing | EnableModUpdateChecker/LuaModifier.cs:339-345 | Removing from a missing file changes no file and ends with the reader's exception. |
| Guarantees.BackupPathShape | EnableModUpdateChecker/LuaModifier.cs:131 | A backup path lies directly in the backup folder and ends in `.lua`. The modified backup inserts `_MODIFIED` before `.lua`, so the two backups differ. |
| Guarantees.PathShape | EnableModUpdateChecker/LuaModifier.cs:131 | The same shape, for any folder and any stem without separators. |
| Guarantees.GateStops | EnableModUpdateChecker/LuaModifier.cs:65-70 | Without force, a script holding BEGIN means no file changes, no call is made, and the refusal names the scripts with a block. |
| Guarantees.PastTheGate | EnableModUpdateChecker/LuaModifier.cs:72-110 | Past the gate the run is: the backups, then the cleanup, then the mod block, then the localization block, then a rollback when that fails. Each of the four ways out has its result, files and calls. |
| Guarantees.BackupsLog | EnableModUpdateChecker/LuaModifier.cs:72-73 | The two backups copy the mod script, then the localization script, to their unmodified backup paths. |
| Guarantees.BackupsComeFirst | EnableModUpdateChecker/LuaModifier.cs:72-73 | Past the gate, the first two calls are the two backups, whatever fails. |
| Guarantees.RemovalCalls | EnableModUpdateChecker/LuaModifier.cs:339-392 | A removal makes the modified backup's copy, then at most the move over the script. |
| Guarantees.RemovalOutcome | EnableModUpdateChecker/LuaModifier.cs:337-393 | Each outcome of the loop gives its message and leaves the script alone, except a removed block. That rewrites the script iff the move succeeds. |
| Guarantees.RewrittenLines | EnableModUpdateChecker/LuaModifier.cs:344-392 | After a successful removal, the script's lines are exactly the kept lines. |
| Guarantees.NothingToRemove | EnableModUpdateChecker/LuaModifier.cs:377-387 | Without a complete block, only the backup is made. It succeeds iff no sentinel was seen. |
| Guarantees.RemovalTwice | EnableModUpdateChecker/LuaModifier.cs:337-393 | A second removal leaves the script as it is and never moves over it. Its one change is its backup, which overwrites the modified backup with the stripped script. It succeeds iff no kept line holds END, and otherwise reports a stray END. |
| Orchestration.RemovalOnlyCopiesAndMoves | EnableModUpdateChecker/LuaModifier.cs:337-393 | A removal never appends or writes. |
| Orchestration.BackupsOnlyCopy | EnableModUpdateChecker/LuaModifier.cs:72-73 | The backups never append or write. |
| Orchestration.CleanupOnlyCopiesAndMoves | EnableModUpdateChecker/LuaModifier.cs:76-89 | The forced cleanup never appends or writes. |
| Orchestration.ModScriptOnlyAppends | EnableModUpdateChecker/LuaModifier.cs:133-148 | Adding the mod block never overwrites the script. |
| Orchestration.ModScriptAppend | EnableModUpdateChecker/LuaModifier.cs:133-148 | An empty script gives the last-line message and no call. Otherwise one append, which fails iff faulted. On success the script is its old text, a line break when its last line is not blank, and the block. |
| Orchestration.ModBlockOnItsOwnLine | EnableModUpdateChecker/LuaModifier.cs:142-147 | After a last line that is not blank, the block's BEGIN, code and END are lines of their own after the old lines. |
| Orchestration.BlockAfterNewline | EnableModUpdateChecker/LuaModifier.cs:144-147 | A line break and the block, read back as lines, are the old lines, BEGIN, the code and END. |
| Orchestration.LocalizationEditFails | EnableModUpdateChecker/LuaModifier.cs:236-285 | The edit fails iff the table's opening or its closing brace is missing, with the source's message for each. |
| Orchestration.LocalizationEditInserts | EnableModUpdateChecker/LuaModifier.cs:263-314 | A successful edit inserts the entries just before the `}` that closes the table, outside a string, with the two flags of the backward walk as written, `CommaNeeded` and `NewlineNeeded`. |
| Orchestration.CorrectionChangesOnlyComma | EnableModUpdateChecker/LuaModifier.cs:287-314 | The corrected edit fails exactly as the source's edit does. Where both succeed, they differ iff the two comma flags differ. |
| Orchestration.LocalizationWrite | EnableModUpdateChecker/LuaModifier.cs:314 | A failed edit makes no call. Otherwise one write, which replaces the script with the edited text or changes nothing. |
| Orchestration.CleanupFailureAborts | EnableModUpdateChecker/LuaModifier.cs:86-89 | A failed cleanup ends the run with its report, and nothing is appended or written. |
| Orchestration.ModFailureStops | EnableModUpdateChecker/LuaModifier.cs:92-96 | A failed mod block ends the run, names the mod script, and nothing is written. |
| Orchestration.LocalizationFailureRollsBack | EnableModUpdateChecker/LuaModifier.cs:97-108 | A failed localization edit is followed by the removal of the mod block. The report names the mod script as unreverted iff that removal fails. |
| Orchestration.AllStepsSucceed | EnableModUpdateChecker/LuaModifier.cs:91-110 | When every step succeeds, the run returns null and leaves the files of the localization edit. |
| Orchestration.GatheredBlankIff | EnableModUpdateChecker/LuaModifier.cs:76-86 | The reason gathered from the removals that ran is white space iff each of their failures is silent. |
| Orchestration.CleanupFailsIff | EnableModUpdateChecker/LuaModifier.cs:76-89 | The cleanup runs the needed removals in order. It fails iff the gathered reason is not white space, and then reports every removal's failure. |
| Orchestration.RestoreFailsIff | EnableModUpdateChecker/LuaModifier.cs:113-125 | Restore removes the mod block, keeping no blank lines, then the localization block, keeping them. It fails iff the gathered reason is not white space. |
| Orchestration.RemovalFailureClassified | EnableModUpdateChecker/LuaModifier.cs:337-393 | When no exception has a blank message, a removal's failure is silent iff it is none. |
| Orchestration.RestoreNullIff | EnableModUpdateChecker/LuaModifier.cs:113-125 | Then Restore returns null iff both removals succeed. |
| Messages.IoText | EnableModUpdateChecker/LuaModifier.cs:395-470 | A helper's message for a classified exception is a sentence that does not start with white space; any other exception passes its own message on. A missing file is reported as such only by a copy or a move; a write or an append reports it as a failed write. |
| Messages.CauseText | EnableModUpdateChecker/LuaModifier.cs:140-380 | The failures of lines 140, 248, 371 and 380 name what they concern: an unmatched sentinel ends with its script's path, a missing last line names the mod script's path, and a missing table names the variable returned. |
| Messages.RefusalText | EnableModUpdateChecker/LuaModifier.cs:65-69 | The refusal opens with its sentence, and is that sentence alone when it names no script. |
| Messages.WarningText | EnableModUpdateChecker/LuaModifier.cs:103-106 | The warning starts a line of its own and names the unreverted script straight after `WARNING: `. |
| Messages.ReportText | EnableModUpdateChecker/LuaModifier.cs:65-121 | A refusal opens with its sentence and every failure with `Failed to `. A failed addition ends with its cause, or with the warning when the mod script could not be restored. |
| Messages.FailureTextBlankIff | EnableModUpdateChecker/LuaModifier.cs:79-86 | A failure's text is white space iff the failure is none or an exception with a blank message. |
| Messages.ReasonBlankIff | EnableModUpdateChecker/LuaModifier.cs:76-89 | The gathered reason, a line break and a text per removal, is white space iff every failure is silent. |
| Messages.RefusalLines | EnableModUpdateChecker/LuaModifier.cs:65-70 | The refusal reads as its sentence, followed by one line per script that holds a block. |
| Messages.ReportTextNotBlank | EnableModUpdateChecker/LuaModifier.cs:65-124 | Every message the two operations return starts with `T` or `F` and is never blank. |
| RoundTrip.ModRoundTrip | EnableModUpdateChecker/LuaModifier.cs:97-101 | For a sentinel-free script and `G`-free texts (`PlainTexts`, mod id, variable name), removing the just-appended mod block gives back the script's lines. When the last line is not blank, the text comes back with one more final line break, so `"a"` becomes `"a\n"`. When it is blank, only the white space after the script's last line break is dropped, so `"a\n  \n"` comes back byte for byte. |
| RoundTrip.OneBeginInModScript | EnableModUpdateChecker/LuaModifier.cs:133-148 | For a non-empty script with no BEGIN line and `G`-free texts (`PlainTexts`, mod id, variable name), exactly one line of the mod script holds BEGIN after the append. |
| RoundTrip.LocalizationRoundTrip | EnableModUpdateChecker/LuaModifier.cs:113-117 | Removing the inserted entries keeps the lines before the insertion point. Those after it are kept without blanks unless preserved. |
| RoundTrip.LocalizationRestored | EnableModUpdateChecker/LuaModifier.cs:117 | With blank lines preserved, the restore removes the entries. When a line break was inserted, the result is the text before the brace, a line break, and the rest ended by a line break. Otherwise the blank run before the brace is dropped as well. So the restored script is not byte for byte the original. |
| RoundTrip.OneBeginInLocalizationScript | EnableModUpdateChecker/LuaModifier.cs:314-334 | For a script with no BEGIN and `G`-free fixed texts (`PlainTexts`), exactly one line of the localization script holds BEGIN after a successful edit. |
| WholeRun.BackupsKeepScripts | EnableModUpdateChecker/LuaModifier.cs:72-73 | The backups leave both scripts as they were. |
| WholeRun.RemovalKeepsOthers | EnableModUpdateChecker/LuaModifier.cs:337-393 | A removal changes no file other than the script and its modified backup. |
| WholeRun.RemovalLeavesNoBegin | EnableModUpdateChecker/LuaModifier.cs:344-392 | After a successful removal, no line of the script holds BEGIN. |
| WholeRun.CleanupLeavesNoBegin | EnableModUpdateChecker/LuaModifier.cs:76-89 | When the scripts and backup paths are distinct (`SeparatePaths`) and no exception has a blank message (`Orchestration.Classified`), a successful forced cleanup leaves neither script with a BEGIN line. |
| WholeRun.SuccessLeavesOneBlock | EnableModUpdateChecker/LuaModifier.cs:44-111 | A run that returns null leaves exactly one BEGIN line in each script, forced or not. |
| WholeRun.ModifiedScripts | EnableModUpdateChecker/LuaModifier.cs:92-110 | When both additions succeed on scripts without a block, each script has exactly one BEGIN line. |
| WholeRun.RemovalClosedForm | EnableModUpdateChecker/LuaModifier.cs:337-393 | A removal's result depends only on the script and the fault of its move, not on its backup. |
| WholeRun.CleanupAgrees | EnableModUpdateChecker/LuaModifier.cs:76-89 | The forced cleanup's result and scripts do not depend on faults of backup copies. |
| WholeRun.BlocksAgree | EnableModUpdateChecker/LuaModifier.cs:91-110 | The same holds for adding the two blocks, with the rollback. |
| WholeRun.ModifyAgrees | EnableModUpdateChecker/LuaModifier.cs:72-110 | The same holds for the whole run past the gate. |
| WholeRun.BackupFaultsIgnored | EnableModUpdateChecker/LuaModifier.cs:72-73 | AddUpdateChecker's report and scripts are the same whether or not the backup copies fail. |
| WholeRun.RestoreIgnoresBackupFaults | EnableModUpdateChecker/LuaModifier.cs:339 | RestoreOriginalLua's report and scripts are the same whether or not the backup copies fail. |

## Left out

- Text.Split: lines end at `'\n'` only. .NET readers also end a line at a lone `'\r'`, and read `"\r\n"` as one terminator. A script with `'\r'` line ends is read differently. For example, `"x = 1\r  "` has a blank last line in .NET and none here. `Text.Lines`, `Markers.HasBeginLine`, `Remover.StripBlock` and `Workflow.AddModScript` inherit this.
- Text.JoinLines: `WriteLine` writes `"\n"`, which is `Environment.NewLine` on Unix only. On Windows it writes `"\r\n"`.
- Text.FileName: only `'/'` separates directories, as in `Path.GetFileName` on Unix. On Windows `'\\'` does too.
- Text.IsWordChar: `\w` is restricted to ASCII letters, digits and `_`. .NET's `\w` takes every Unicode letter, so `return tablé` names a table in the source but not here. `Locator.NamedReturn` and `Payload.ModVariableName` inherit this.
- Text.IndexOf: ordinal comparison. `string.IndexOf(string)` and `LastIndexOf(string)` compare culture-sensitively, which can differ on ignorable or combining characters. `Text.LastIndexOf` and `Locator.ScanStart` inherit this.
- Payload.GetModCall: the mod name is matched literally. The source puts it into the regular expression unescaped. A name like `a.b` then also matches `get_mod("aXb")`, and `a(b` makes the `Regex` constructor throw.
- Files are decoded text. Encodings, and the byte-order mark that a reader drops and `StreamWriter` does not write, are not modelled.
- Workflow.RemoveChanges: the temporary file is not modelled. The source opens a writer to it on every removal, outside any `try`, so a failure to create it is an exception that nothing catches. Here the only failing step is the move.
- Store.Faults: faults are keyed by operation and destination path, not by call. Two moves over the mod script in one run, the forced cleanup's and the rollback's, therefore both fail or both succeed. The run in which the cleanup removed the mod block, then the rollback failed and the source warns "MANUAL ACTION REQUIRED", is not covered.
- Remover.Remove: its closed form, `RemovesSingleBlock`, covers lines with exactly one block. For several blocks only the loop's definition and the general lemmas (`KeptHasNoBegin`, `NoBlockIffNoSentinel`, `RemoveAgain`) hold.
- Modifier.LuaModifier.RemoveMUCChanges: requires the script to exist. Its callers, `Workflow.Restore` and `Workflow.AddUpdateChecker`, model a missing script as the exception the source lets escape (`Report.Unreadable`).
- RoundTrip.ModRoundTrip: stated for scripts free of sentinels, and for templates, entries, mod ids and variable names without a capital `G` (`PlainTexts`). The sentinels contain a `G`, so these texts cannot form one. `RoundTrip.LocalizationRoundTrip`, `WholeRun.SuccessLeavesOneBlock` and `WholeRun.ModifiedScripts` carry the same hypotheses.
- OneBeginInModScript: `RoundTrip.OneBeginInModScript` is stated only for a non-empty script with no BEGIN line, and for `G`-free texts, mod ids and variable names (`PlainTexts`), for the reason given on the line above; a variable named `MyGreatMod` falls outside it.
- OneBeginInLocalizationScript: `RoundTrip.OneBeginInLocalizationScript` is stated only for a script with no BEGIN and `G`-free fixed texts (`PlainTexts`).
- CleanupLeavesNoBegin: `WholeRun.CleanupLeavesNoBegin` assumes that the scripts and the backup paths differ (`SeparatePaths`), and that no exception has a blank message (`Orchestration.Classified`). Without the latter, a move that fails with a blank message passes the cleanup's check and leaves the BEGIN line in place.
- WholeRun.SuccessLeavesOneBlock: also assumes that the scripts and the backup paths differ (`SeparatePaths`), and that no exception has a blank message (`Orchestration.Classified`). A blank message would let a failed cleanup pass as a success.
- The clock: the upload time, `DateTime.UtcNow` plus two minutes, is a parameter (`Payload.Moment`).
- The generated Lua code's own behaviour (the HTTP request, the date parsing) is text here.
- Program.cs is not part of this model. It chooses between the two operations and prints their result.

## Findings

| source | as written | input that shows it | evidently intended | confidence | as-written member | corrected member |
|---|---|---|---|---|---|---|
| EnableModUpdateChecker/LuaModifier.cs:293-299 | The backward walk stops at `startingIndex`, just past the table's own `{`, so the `'{'` case ("no previous entries") never fires for an empty table. The comma flag stays true. | `return { }` gets the BEGIN comment and then `,MUC_fail = {` as its first entry, which is not valid Lua. | A table that holds nothing but white space takes no comma (`IntendedComma`, used by `Workflow.CorrectedLocalizationEdit`). | not executed | Scanner.ReturnOfEmptyTable | Scanner.IntendedCommaIff |
| EnableModUpdateChecker/LuaModifier.cs:293-304 | The walk takes the first `,` it meets for a comma after the last entry. When that entry does not end in a comma, the `,` found belongs to an earlier entry, and no comma is added. | `return { a = 1, b = 2 }` gets `b = 2`, then the BEGIN comment, then `MUC_fail = {` with no comma between the two entries, which is not valid Lua. | A comma goes in unless the last character before the brace that is not white space is a `,` or `{`. | not executed | Scanner.ReturnOfTwoEntries | Scanner.IntendedCommaIff |
