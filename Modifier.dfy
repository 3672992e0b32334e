/** The class LuaModifier (LuaModifier.cs, lines 12-470) with its operations
    performed step by step on a file store it updates in place. Each method is
    proved to leave the store, and the calls it made, as the function of the
    same name in Workflow says. */
module Modifier {
  import opened Base
  import opened Text
  import opened Markers
  import opened Remover
  import opened Payload
  import opened Locator
  import opened Scanner
  import opened Store
  import opened Workflow
  import opened Messages
  import opened Guarantees
  import opened Orchestration

  class LuaModifier {
    /** The constructor's arguments. */
    const config: Config
    /** The template and the localizations the code generators use. */
    const texts: Texts
    /** The upload time, two minutes after the clock's time. */
    const upload: Moment
    /** The helper calls that throw, and what they throw. */
    const faults: Faults
    /** The files, by path. */
    var files: Files
    /** Every helper call made so far, in order. */
    var log: seq<Access>

    constructor(config: Config, texts: Texts, upload: Moment, faults: Faults, files: Files)
      ensures this.config == config && this.texts == texts && this.upload == upload && this.faults == faults
      ensures this.files == files && this.log == []
    {
      this.config := config;
      this.texts := texts;
      this.upload := upload;
      this.faults := faults;
      this.files := files;
      this.log := [];
    }

    // -------------------------------------------------------------------------
    // The file helpers

    /** One helper call: it either changes `a.path` to `content` or fails with
        the exception `faults` names for it. */
    method Perform(a: Access, content: String) returns (failure: Option<Cause>)
      modifies this
      ensures var e := Apply(old(files), faults, a, content);
        files == e.files && log == old(log) + e.log && failure == e.failure
    {
      if a in faults {
        failure := Some(IoFailed(a.op, faults[a]));
      } else {
        files := files[a.path := content];
        failure := None;
      }
      log := log + [a];
    }

    method CopyFile(source: String, destination: String) returns (failure: Option<Cause>)
      modifies this
      ensures var e := Store.CopyFile(old(files), faults, source, destination);
        files == e.files && log == old(log) + e.log && failure == e.failure
    {
      if source !in files {
        log := log + [Access(Copy, destination)];
        return Some(IoFailed(Copy, FileNotFound));
      }
      failure := Perform(Access(Copy, destination), files[source]);
    }

    method WriteToFile(path: String, content: String) returns (failure: Option<Cause>)
      modifies this
      ensures var e := WriteFile(old(files), faults, path, content);
        files == e.files && log == old(log) + e.log && failure == e.failure
    {
      failure := Perform(Access(Write, path), content);
    }

    method AppendToFile(path: String, content: String) returns (failure: Option<Cause>)
      modifies this
      ensures var e := AppendFile(old(files), faults, path, content);
        files == e.files && log == old(log) + e.log && failure == e.failure
    {
      failure := Perform(Access(Append, path), (if path in files then files[path] else "") + content);
    }

    /** The temporary file's text moved over `path`. */
    method MoveFile(path: String, content: String) returns (failure: Option<Cause>)
      modifies this
      ensures var e := ReplaceFile(old(files), faults, path, content);
        files == e.files && log == old(log) + e.log && failure == e.failure
    {
      failure := Perform(Access(Move, path), content);
    }

    // -------------------------------------------------------------------------
    // BackupFile and RemoveMUCChanges

    method BackupFile(filePath: String, modified: bool) returns (failure: Option<Cause>)
      modifies this
      ensures var e := Backup(config, old(files), faults, filePath, modified);
        files == e.files && log == old(log) + e.log && failure == e.failure
    {
      failure := CopyFile(filePath, BackupPath(config, filePath, modified));
    }

    method RemoveMUCChanges(filePath: String, preserveEmptyLines: bool) returns (failure: Option<Cause>)
      requires filePath in files
      modifies this
      ensures var e := RemoveChanges(config, old(files), faults, filePath, preserveEmptyLines);
        files == e.files && log == old(log) + e.log && failure == e.failure
    {
      var _ := BackupFile(filePath, true);
      var outcome := StripBlock(Lines(files[filePath]), preserveEmptyLines);
      match outcome
      case EndWithoutBegin => failure := Some(StrayEnd(filePath));
      case BeginWithoutEnd => failure := Some(UnclosedBegin(filePath));
      case NoBlock => failure := None;
      case Removed(kept) => failure := MoveFile(filePath, JoinLines(kept));
    }

    // -------------------------------------------------------------------------
    // AddModScriptCode

    /** GetModVariableName: the first line of the mod script that declares the
        mod variable gives its name. */
    method GetModVariableName() returns (name: Option<String>)
      requires ModScriptFile(config) in files
      ensures name == ModVariableName(Lines(files[ModScriptFile(config)]), config.modName)
    {
      var lines := Lines(files[ModScriptFile(config)]);
      var call := GetModCall(config.modName);
      var i := 0;
      while i < |lines|
        invariant 0 <= i <= |lines|
        invariant FirstDeclarationIn(lines, call, 0) == FirstDeclarationIn(lines, call, i)
      {
        var found := FirstDeclarationFrom(lines[i], call, 0);
        if found.Some? {
          return found;
        }
        i := i + 1;
      }
      return None;
    }

    method AddModScriptCode(modId: String) returns (failure: Option<Cause>)
      requires ModScriptFile(config) in files
      modifies this
      ensures var e := AddModScript(config, texts, upload, old(files), faults, modId);
        files == e.files && log == old(log) + e.log && failure == e.failure
    {
      var modVarName := GetModVariableName();
      var toAppend := ModPayload(texts, modId, modVarName, upload);
      var lines := Lines(files[ModScriptFile(config)]);
      if lines == [] {
        return Some(NoLastLine(config.modScriptPath));
      }
      ghost var payload := toAppend;
      if !IsBlank(lines[|lines| - 1]) {
        toAppend := "\n" + toAppend;
      }
      assert toAppend == ModSeparator(lines) + payload;
      failure := AppendToFile(ModScriptFile(config), toAppend);
    }

    // -------------------------------------------------------------------------
    // AddLocalizationScriptCode

    /** The regular expressions that find the opening of the returned table,
        and the forward walk to its closing brace. */
    static method LocateTable(localizationText: String) returns (r: Result<(nat, nat), Cause>)
      ensures r == InsertionPoint(localizationText)
    {
      var startingIndex: nat;
      match TableStart(localizationText)
      case Err(AssignOf(name)) => return Err(MissingTable(name));
      case Err(ReturnOf) => return Err(NoReturn);
      case Ok(start) => startingIndex := start;
      var forwardWalkIndex := FindTableEnd(localizationText, startingIndex);
      if forwardWalkIndex.None? {
        return Err(NoTableEnd);
      }
      TableEndIff(localizationText, startingIndex, forwardWalkIndex.value);
      return Ok((startingIndex, forwardWalkIndex.value - 1));
    }

    method AddLocalizationScriptCode() returns (failure: Option<Cause>)
      requires LocalizationScriptFile(config) in files
      modifies this
      ensures var e := AddLocalization(config, texts, old(files), faults);
        files == e.files && log == old(log) + e.log && failure == e.failure
    {
      var localizationText := files[LocalizationScriptFile(config)];
      var point := LocateTable(localizationText);
      if point.Err? {
        return Some(point.error);
      }
      var (startingIndex, k) := point.value;
      var prependWithComma, needNewLine := BackwardFlags(localizationText, startingIndex, k);
      var payload := LocalizationPayload(texts, prependWithComma, needNewLine);
      failure := WriteToFile(LocalizationScriptFile(config), Insert(localizationText, k, payload));
    }

    // -------------------------------------------------------------------------
    // AddUpdateChecker and RestoreOriginalLua

    /** The loop that looks for a line holding the BEGIN sentinel, stopping at
        the first. */
    static method DetectBlock(text: String) returns (found: bool)
      ensures found == HasBeginLine(text)
    {
      var lines := Lines(text);
      var i := 0;
      while i < |lines|
        invariant 0 <= i <= |lines|
        invariant forall j :: 0 <= j < i ==> !Begins(lines[j])
      {
        if Contains(lines[i], HeaderBegin) {
          return true;
        }
        i := i + 1;
      }
      return false;
    }

    /** The forced cleanup: each removal adds a line terminator and its
        failure to the reason, which decides only when it is not white space. */
    method ForcedCleanup(modHas: bool, locHas: bool) returns (failure: Option<Report>)
      requires ScriptsExist(config, files)
      modifies this
      ensures var e := Cleanup(config, old(files), faults, modHas, locHas);
        files == e.files && log == old(log) + e.log && failure == e.failure
    {
      ghost var first := if modHas then RemoveChanges(config, files, faults, ModScriptFile(config), false) else Effect(files, [], None);
      ghost var second := if locHas then RemoveChanges(config, first.files, faults, LocalizationScriptFile(config), false)
                          else Effect(first.files, [], None);
      var reasons: seq<Option<Cause>> := [];
      if modHas {
        var f := RemoveMUCChanges(ModScriptFile(config), false);
        reasons := reasons + [f];
      }
      assert files == first.files && log == old(log) + first.log;
      assert reasons == if modHas then [first.failure] else [];
      if locHas {
        var f := RemoveMUCChanges(LocalizationScriptFile(config), false);
        reasons := reasons + [f];
      }
      assert files == second.files && log == old(log) + first.log + second.log;
      assert reasons == (if modHas then [first.failure] else []) + (if locHas then [second.failure] else []);
      CleanupFailsIff(config, old(files), faults, modHas, locHas);
      Associative(old(log), first.log, second.log);
      if !IsBlank(ReasonText(reasons)) {
        return Some(CleanupFailed(reasons));
      }
      return None;
    }

    /** The mod block, then the localization block, and the rollback of the
        mod block when the second fails. */
    method AddBlocks(modId: String) returns (result: Option<Report>)
      requires ScriptsExist(config, files)
      modifies this
      ensures var e := Workflow.AddBlocks(config, texts, upload, old(files), faults, modId);
        files == e.files && log == old(log) + e.log && result == e.failure
    {
      ghost var added := AddModScript(config, texts, upload, files, faults, modId);
      var modScriptFailure := AddModScriptCode(modId);
      if modScriptFailure.Some? {
        return Some(AddFailed(ModScriptFile(config), modScriptFailure.value, None));
      }
      ghost var localized := AddLocalization(config, texts, files, faults);
      var localizationFailure := AddLocalizationScriptCode();
      Associative(old(log), added.log, localized.log);
      if localizationFailure.Some? {
        ghost var rollback := RemoveChanges(config, files, faults, ModScriptFile(config), false);
        var cleanupFailureReason := RemoveMUCChanges(ModScriptFile(config), false);
        Associative(old(log), added.log + localized.log, rollback.log);
        var unreverted := if cleanupFailureReason.Some? then Some(ModScriptFile(config)) else None;
        return Some(AddFailed(LocalizationScriptFile(config), localizationFailure.value, unreverted));
      }
      return None;
    }

    /** Past the gate: the backups, the forced cleanup and the blocks. */
    method ModifyScripts(modId: String, modHas: bool, locHas: bool) returns (result: Option<Report>)
      requires ScriptsExist(config, files)
      modifies this
      ensures var e := Workflow.ModifyScripts(config, texts, upload, old(files), faults, modId, modHas, locHas);
        files == e.files && log == old(log) + e.log && result == e.failure
    {
      ghost var backups := Backups(config, files, faults);
      var _ := BackupFile(ModScriptFile(config), false);
      var _ := BackupFile(LocalizationScriptFile(config), false);
      assert files == backups.files && log == old(log) + backups.log;
      ghost var cleanup := Cleanup(config, files, faults, modHas, locHas);
      var cleanupFailure := ForcedCleanup(modHas, locHas);
      Associative(old(log), backups.log, cleanup.log);
      if cleanupFailure.Some? {
        return cleanupFailure;
      }
      ghost var blocks := Workflow.AddBlocks(config, texts, upload, files, faults, modId);
      result := AddBlocks(modId);
      Associative(old(log), backups.log, cleanup.log + blocks.log);
      Associative(old(log) + backups.log, cleanup.log, blocks.log);
    }

    method AddUpdateChecker(modId: String, force: bool) returns (result: Option<Report>)
      modifies this
      ensures var e := Workflow.AddUpdateChecker(config, texts, upload, old(files), faults, modId, force);
        files == e.files && log == old(log) + e.log && result == e.failure
    {
      if ModScriptFile(config) !in files {
        return Some(Unreadable(ModScriptFile(config)));
      }
      var modHas := DetectBlock(files[ModScriptFile(config)]);
      if LocalizationScriptFile(config) !in files {
        return Some(Unreadable(LocalizationScriptFile(config)));
      }
      var locHas := DetectBlock(files[LocalizationScriptFile(config)]);
      if !force && (modHas || locHas) {
        return Some(Refusal(config, modHas, locHas));
      }
      result := ModifyScripts(modId, modHas, locHas);
    }

    method RestoreOriginalLua() returns (result: Option<Report>)
      modifies this
      ensures var e := Restore(config, old(files), faults);
        files == e.files && log == old(log) + e.log && result == e.failure
    {
      if ModScriptFile(config) !in files {
        var _ := BackupFile(ModScriptFile(config), true);
        return Some(Unreadable(ModScriptFile(config)));
      }
      ghost var start := RemoveChanges(config, files, faults, ModScriptFile(config), false);
      var first := RemoveMUCChanges(ModScriptFile(config), false);
      assert files == start.files && log == old(log) + start.log;
      if LocalizationScriptFile(config) !in files {
        ghost var missing := ReadMissing(config, files, faults, LocalizationScriptFile(config));
        var _ := BackupFile(LocalizationScriptFile(config), true);
        Associative(old(log), start.log, missing.log);
        return Some(Unreadable(LocalizationScriptFile(config)));
      }
      ghost var next := RemoveChanges(config, files, faults, LocalizationScriptFile(config), true);
      var second := RemoveMUCChanges(LocalizationScriptFile(config), true);
      RestoreFailsIff(config, old(files), faults);
      Associative(old(log), start.log, next.log);
      if !IsBlank(ReasonText([first, second])) {
        return Some(RestoreFailed([first, second]));
      }
      return None;
    }
  }
}
