/** What each operation of LuaModifier does to the files, as functions of the
    files before it and of which helper calls fail (LuaModifier.cs, lines
    44-148, 231-314 and 337-392). The class in Modifier.dfy performs the same
    steps one after the other and is proved to agree with these functions. */
module Workflow {
  import opened Base
  import opened Text
  import opened Markers
  import opened Remover
  import opened Payload
  import opened Locator
  import opened Scanner
  import opened Store

  /** The constructor's arguments. */
  datatype Config = Config(modName: String, modFolder: String, tempFolder: String, backupFolder: String,
                           modScriptPath: String, localizationScriptPath: String)

  function ModScriptFile(c: Config): String {
    c.modFolder + "/" + c.modScriptPath
  }

  function LocalizationScriptFile(c: Config): String {
    c.modFolder + "/" + c.localizationScriptPath
  }

  /** Both scripts exist: the source reads them without catching the exception
      a missing one raises. */
  predicate ScriptsExist(c: Config, files: Files) {
    ModScriptFile(c) in files && LocalizationScriptFile(c) in files
  }

  /** Running one step after another: the files and failure of the second, and
      the calls of both. */
  function Then<F, G>(first: Effect<F>, second: Effect<G>): (r: Effect<G>)
    ensures r.files == second.files && r.failure == second.failure
    ensures r.log == first.log + second.log
  {
    Effect(second.files, first.log + second.log, second.failure)
  }

  // ---------------------------------------------------------------------------
  // Backups

  /** The file's name with every ".lua" removed; it holds no directory
      separator. */
  function BackupStem(filePath: String): (r: String)
    ensures forall i :: 0 <= i < |r| ==> !IsSeparator(r[i])
  {
    var name := FileName(filePath);
    var r := ReplaceAll(name, ".lua", "");
    assert forall i :: 0 <= i < |r| ==> !IsSeparator(r[i]) by {
      forall i | 0 <= i < |r| ensures !IsSeparator(r[i]) {
        CharsOfReplace(name, ".lua", "", r[i]);
        var j :| 0 <= j < |name| && name[j] == r[i];
      }
    }
    r
  }

  /** GetBackupFilePath: the backup folder, the file's name with every ".lua"
      removed, "_MODIFIED" for a backup of a modified file, and ".lua". */
  function BackupPath(c: Config, filePath: String, modified: bool): String {
    c.backupFolder + "/" + BackupStem(filePath) + (if modified then "_MODIFIED" else "") + ".lua"
  }

  /** BackupFile: a copy that overwrites an earlier backup, and fails when the
      file is missing. */
  function Backup(c: Config, files: Files, faults: Faults, filePath: String, modified: bool): (r: Effect<Cause>)
    ensures r.failure.Some? <==> filePath !in files || Access(Copy, BackupPath(c, filePath, modified)) in faults
    ensures r.failure.None? ==> filePath in files && r.files == files[BackupPath(c, filePath, modified) := files[filePath]]
    ensures r.failure.Some? ==> r.files == files
    ensures r.log == [Access(Copy, BackupPath(c, filePath, modified))]
  {
    CopyFile(files, faults, filePath, BackupPath(c, filePath, modified))
  }

  // ---------------------------------------------------------------------------
  // RemoveMUCChanges

  /** RemoveMUCChanges: a backup marked modified, then the removal loop over
      the lines of the file; only a removal that found a complete block replaces
      the file, with each kept line followed by a line terminator. */
  function RemoveChanges(c: Config, files: Files, faults: Faults, filePath: String, preserveEmptyLines: bool): (r: Effect<Cause>)
    requires filePath in files
    ensures files.Keys <= r.files.Keys
  {
    var backup := Backup(c, files, faults, filePath, true);
    match Remove(Lines(backup.files[filePath]), preserveEmptyLines)
    case EndWithoutBegin => backup.(failure := Some(StrayEnd(filePath)))
    case BeginWithoutEnd => backup.(failure := Some(UnclosedBegin(filePath)))
    case NoBlock => backup.(failure := None)
    case Removed(kept) => Then(backup, ReplaceFile(backup.files, faults, filePath, JoinLines(kept)))
  }

  // ---------------------------------------------------------------------------
  // AddModScriptCode

  /** The line terminator put in front of the block, when the last line of the
      script holds something other than white space. */
  function ModSeparator(lines: seq<String>): String
    requires lines != []
  {
    if IsBlank(lines[|lines| - 1]) then "" else "\n"
  }

  /** AddModScriptCode: the mod block, with the name of the variable that holds
      the mod put into it, appended to the mod script. */
  function AddModScript(c: Config, texts: Texts, upload: Moment, files: Files, faults: Faults, modId: String): (r: Effect<Cause>)
    requires ModScriptFile(c) in files
    ensures files.Keys <= r.files.Keys
  {
    var lines := Lines(files[ModScriptFile(c)]);
    var toAppend := ModPayload(texts, modId, ModVariableName(lines, c.modName), upload);
    if lines == [] then Effect(files, [], Some(NoLastLine(c.modScriptPath)))
    else AppendFile(files, faults, ModScriptFile(c), ModSeparator(lines) + toAppend)
  }

  // ---------------------------------------------------------------------------
  // AddLocalizationScriptCode

  /** Where the block goes: the index just after the `{` that opens the
      returned table, and the index of the `}` that closes it; or why the
      table was not found. */
  function InsertionPoint(s: String): (r: Result<(nat, nat), Cause>)
    ensures r.Ok? ==> r.value.0 <= r.value.1 < |s|
  {
    match TableStart(s)
    case Err(AssignOf(name)) => Err(MissingTable(name))
    case Err(ReturnOf) => Err(NoReturn)
    case Ok(start) =>
      match TableEnd(s, start)
      case None => Err(NoTableEnd)
      case Some(j) => TableEndIff(s, start, j); Ok((start, j - 1))
  }

  /** The new text of the localization script: the block goes before the `}`
      that closes the returned table, with a comma and a line break in front of
      it as the backward walk decides. */
  function LocalizationEdit(texts: Texts, s: String): (r: Result<String, Cause>) {
    match InsertionPoint(s)
    case Err(cause) => Err(cause)
    case Ok((start, k)) => Ok(Insert(s, k, LocalizationPayload(texts, CommaNeeded(s, start, k), NewlineNeeded(s, start, k))))
  }

  /** The edit with the comma as the walk's comments mean it (`IntendedComma`):
      none for a table of white space, and one after a last entry that does not
      end in a comma. */
  function CorrectedLocalizationEdit(texts: Texts, s: String): (r: Result<String, Cause>) {
    match InsertionPoint(s)
    case Err(cause) => Err(cause)
    case Ok((start, k)) => Ok(Insert(s, k, LocalizationPayload(texts, IntendedComma(s, start, k), NewlineNeeded(s, start, k))))
  }

  /** AddLocalizationScriptCode: the edited text written over the script. */
  function AddLocalization(c: Config, texts: Texts, files: Files, faults: Faults): (r: Effect<Cause>)
    requires LocalizationScriptFile(c) in files
    ensures files.Keys <= r.files.Keys
  {
    match LocalizationEdit(texts, files[LocalizationScriptFile(c)])
    case Err(cause) => Effect(files, [], Some(cause))
    case Ok(text) => WriteFile(files, faults, LocalizationScriptFile(c), text)
  }

  // ---------------------------------------------------------------------------
  // AddUpdateChecker

  /** What AddUpdateChecker and RestoreOriginalLua return when they fail: the
      refusal naming the scripts that already carry a block, a forced cleanup
      or a restore that failed, with the failure of each removal it ran, and a
      failed addition to the script at `path`, naming the mod script when the
      rollback that follows a failed localization edit failed too. Module
      Messages gives the source's text for each. `Unreadable` is no text: it
      is the exception that reading the missing script at `path` raises, which
      none of the operations catches. */
  datatype Report = Refused(paths: seq<String>)
                  | CleanupFailed(reasons: seq<Option<Cause>>)
                  | AddFailed(path: String, cause: Cause, unreverted: Option<String>)
                  | RestoreFailed(reasons: seq<Option<Cause>>)
                  | Unreadable(path: String)

  /** The refusal when a script already carries a block, naming each such
      script, the mod script first. */
  function Refusal(c: Config, modHas: bool, locHas: bool): Report {
    Refused((if modHas then [ModScriptFile(c)] else []) + (if locHas then [LocalizationScriptFile(c)] else []))
  }

  /** The two backups taken once the gate is passed; whether they fail is
      never looked at. */
  function Backups(c: Config, files: Files, faults: Faults): (r: Effect<Cause>)
    requires ScriptsExist(c, files)
    ensures ScriptsExist(c, r.files)
  {
    var first := Backup(c, files, faults, ModScriptFile(c), false);
    Then(first, Backup(c, first.files, faults, LocalizationScriptFile(c), false))
  }

  /** The forced cleanup of each script that carries a block. The source
      fails when the line terminators and failure messages it gathered are
      not all white space, which is when some removal failed with a message
      that is not blank (lemma Messages.ReasonBlankIff). */
  function Cleanup(c: Config, files: Files, faults: Faults, modHas: bool, locHas: bool): (r: Effect<Report>)
    requires ScriptsExist(c, files)
    ensures ScriptsExist(c, r.files)
  {
    var first := if modHas then RemoveChanges(c, files, faults, ModScriptFile(c), false) else Effect(files, [], None);
    var second := if locHas then RemoveChanges(c, first.files, faults, LocalizationScriptFile(c), false)
                  else Effect(first.files, [], None);
    var reasons := (if modHas then [first.failure] else []) + (if locHas then [second.failure] else []);
    Effect(second.files, first.log + second.log,
           if Silent(first.failure) && Silent(second.failure) then None else Some(CleanupFailed(reasons)))
  }

  /** The mod block, then the localization block; a failed localization
      block is followed by the removal of the mod block, and the failure names
      the mod script as well when that removal fails too. */
  function AddBlocks(c: Config, texts: Texts, upload: Moment, files: Files, faults: Faults, modId: String): (r: Effect<Report>)
    requires ScriptsExist(c, files)
  {
    var added := AddModScript(c, texts, upload, files, faults, modId);
    if added.failure.Some? then Effect(added.files, added.log, Some(AddFailed(ModScriptFile(c), added.failure.value, None)))
    else
      var localized := AddLocalization(c, texts, added.files, faults);
      if localized.failure.None? then Effect(localized.files, added.log + localized.log, None)
      else
        var rollback := RemoveChanges(c, localized.files, faults, ModScriptFile(c), false);
        Effect(rollback.files, added.log + localized.log + rollback.log,
               Some(AddFailed(LocalizationScriptFile(c), localized.failure.value,
                              if rollback.failure.Some? then Some(ModScriptFile(c)) else None)))
  }

  /** The run once past the gate: the two backups, the forced cleanup of the
      scripts that carry a block, and, unless the cleanup failed, the blocks. */
  function ModifyScripts(c: Config, texts: Texts, upload: Moment, files: Files, faults: Faults, modId: String,
                         modHas: bool, locHas: bool): (r: Effect<Report>)
    requires ScriptsExist(c, files)
  {
    var backups := Backups(c, files, faults);
    var cleanup := Cleanup(c, backups.files, faults, modHas, locHas);
    if cleanup.failure.Some? then Then(backups, cleanup)
    else Then(backups, Then(cleanup, AddBlocks(c, texts, upload, cleanup.files, faults, modId)))
  }

  /** AddUpdateChecker: the reading of both scripts, which raises an exception
      for a missing one, the gate, then the changes. */
  function AddUpdateChecker(c: Config, texts: Texts, upload: Moment, files: Files, faults: Faults, modId: String, force: bool): (r: Effect<Report>)
  {
    if ModScriptFile(c) !in files then Effect(files, [], Some(Unreadable(ModScriptFile(c))))
    else if LocalizationScriptFile(c) !in files then Effect(files, [], Some(Unreadable(LocalizationScriptFile(c))))
    else
      var modHas := HasBeginLine(files[ModScriptFile(c)]);
      var locHas := HasBeginLine(files[LocalizationScriptFile(c)]);
      if !force && (modHas || locHas) then Effect(files, [], Some(Refusal(c, modHas, locHas)))
      else ModifyScripts(c, texts, upload, files, faults, modId, modHas, locHas)
  }

  // ---------------------------------------------------------------------------
  // RestoreOriginalLua

  /** RemoveMUCChanges on a missing file: the backup's copy fails for want of
      a source, and opening the file to read it raises the exception that ends
      the operation. */
  function ReadMissing(c: Config, files: Files, faults: Faults, filePath: String): (r: Effect<Report>)
    requires filePath !in files
    ensures r.files == files && r.failure == Some(Unreadable(filePath))
  {
    var backup := Backup(c, files, faults, filePath, true);
    Effect(backup.files, backup.log, Some(Unreadable(filePath)))
  }

  /** RestoreOriginalLua: both removals run; the mod script loses its blank
      lines after the block, the localization script keeps them. A missing
      script ends the operation with the exception its removal raises. */
  function Restore(c: Config, files: Files, faults: Faults): (r: Effect<Report>)
  {
    if ModScriptFile(c) !in files then ReadMissing(c, files, faults, ModScriptFile(c))
    else
      var first := RemoveChanges(c, files, faults, ModScriptFile(c), false);
      if LocalizationScriptFile(c) !in first.files then Then(first, ReadMissing(c, first.files, faults, LocalizationScriptFile(c)))
      else
        var second := RemoveChanges(c, first.files, faults, LocalizationScriptFile(c), true);
        Effect(second.files, first.log + second.log,
               if Silent(first.failure) && Silent(second.failure) then None else Some(RestoreFailed([first.failure, second.failure])))
  }
}
