/** What a whole run of AddUpdateChecker leaves in the two scripts when it
    succeeds, forced or not (LuaModifier.cs, AddUpdateChecker 76-125 with the
    helpers it calls, 129-148, 231-314 and 337-392). */
module WholeRun {
  import opened Base
  import opened Text
  import opened Markers
  import opened Remover
  import opened Payload
  import opened Store
  import opened Workflow
  import opened Orchestration
  import opened Guarantees
  import opened RoundTrip

  // ---------------------------------------------------------------------------
  // Where the backups go

  predicate NotAScript(c: Config, path: String) {
    path != ModScriptFile(c) && path != LocalizationScriptFile(c)
  }

  /** The two scripts are different files, and no backup of either is written
      over one of them. */
  predicate SeparatePaths(c: Config) {
    && ModScriptFile(c) != LocalizationScriptFile(c)
    && NotAScript(c, BackupPath(c, ModScriptFile(c), false))
    && NotAScript(c, BackupPath(c, ModScriptFile(c), true))
    && NotAScript(c, BackupPath(c, LocalizationScriptFile(c), false))
    && NotAScript(c, BackupPath(c, LocalizationScriptFile(c), true))
  }

  /** The two backups the run starts with leave both scripts as they were. */
  lemma {:induction false} BackupsKeepScripts(c: Config, files: Files, faults: Faults)
    requires ScriptsExist(c, files) && SeparatePaths(c)
    ensures var r := Backups(c, files, faults);
      r.files[ModScriptFile(c)] == files[ModScriptFile(c)]
      && r.files[LocalizationScriptFile(c)] == files[LocalizationScriptFile(c)]
  {
    var first := Backup(c, files, faults, ModScriptFile(c), false);
    assert first.files[ModScriptFile(c)] == files[ModScriptFile(c)];
    assert first.files[LocalizationScriptFile(c)] == files[LocalizationScriptFile(c)];
  }

  // ---------------------------------------------------------------------------
  // The forced cleanup

  /** A removal changes no file but the one it cleans and that file's backup. */
  lemma {:induction false} RemovalKeepsOthers(c: Config, files: Files, faults: Faults, filePath: String, preserveEmptyLines: bool, other: String)
    requires filePath in files && other in files
    requires other != filePath && other != BackupPath(c, filePath, true)
    ensures var r := RemoveChanges(c, files, faults, filePath, preserveEmptyLines);
      other in r.files && r.files[other] == files[other]
  {
    var backup := Backup(c, files, faults, filePath, true);
    assert backup.files[other] == files[other];
  }

  /** A removal that succeeds leaves no line holding the BEGIN sentinel, both
      when it rewrote the file and when the file held no sentinel. */
  lemma {:induction false} RemovalLeavesNoBegin(c: Config, files: Files, faults: Faults, filePath: String, preserveEmptyLines: bool)
    requires filePath in files
    requires RemoveChanges(c, files, faults, filePath, preserveEmptyLines).failure.None?
    ensures var r := RemoveChanges(c, files, faults, filePath, preserveEmptyLines);
      filePath in r.files && !HasBeginLine(r.files[filePath])
  {
    var lines := Lines(files[filePath]);
    var r := RemoveChanges(c, files, faults, filePath, preserveEmptyLines);
    RemovalOutcome(c, files, faults, filePath, preserveEmptyLines);
    NoBlockIffNoSentinel(lines, preserveEmptyLines);
    if Remove(lines, preserveEmptyLines).Removed? {
      RewrittenLines(c, files, faults, filePath, preserveEmptyLines);
      KeptHasNoBegin(lines, |lines|, preserveEmptyLines);
    }
  }

  /** A forced cleanup that succeeds leaves neither script with a line holding
      the BEGIN sentinel, when no exception has a blank message. */
  lemma {:induction false} CleanupLeavesNoBegin(c: Config, files: Files, faults: Faults, modHas: bool, locHas: bool)
    requires ScriptsExist(c, files) && SeparatePaths(c) && Classified(faults)
    requires modHas == HasBeginLine(files[ModScriptFile(c)]) && locHas == HasBeginLine(files[LocalizationScriptFile(c)])
    requires Cleanup(c, files, faults, modHas, locHas).failure.None?
    ensures var r := Cleanup(c, files, faults, modHas, locHas);
      !HasBeginLine(r.files[ModScriptFile(c)]) && !HasBeginLine(r.files[LocalizationScriptFile(c)])
  {
    var m, l := ModScriptFile(c), LocalizationScriptFile(c);
    var first := if modHas then RemoveChanges(c, files, faults, m, false) else Effect(files, [], None);
    if modHas {
      RemovalFailureClassified(c, files, faults, m, false);
      RemovalLeavesNoBegin(c, files, faults, m, false);
      RemovalKeepsOthers(c, files, faults, m, false, l);
    }
    if locHas {
      RemovalFailureClassified(c, first.files, faults, l, false);
      RemovalLeavesNoBegin(c, first.files, faults, l, false);
      RemovalKeepsOthers(c, first.files, faults, l, false, m);
    }
  }

  // ---------------------------------------------------------------------------
  // A successful run

  /** A run that succeeds, forced or not, leaves exactly one line holding the
      BEGIN sentinel in each script: the cleanup took out every block there
      was, and each script then received one. The run must not be able to
      write a backup over a script, no exception may have a blank message
      (an exception with one lets a failed cleanup pass), and
      the generated text must hold no capital G, so that it cannot spell a
      sentinel. */
  lemma {:induction false} SuccessLeavesOneBlock(c: Config, texts: Texts, upload: Moment, files: Files, faults: Faults, modId: String, force: bool,
                                                 backups: Effect<Cause>, cleanup: Effect<Report>, added: Effect<Cause>, localized: Effect<Cause>, rollback: Effect<Cause>)
    requires ScriptsExist(c, files) && SeparatePaths(c) && Classified(faults)
    requires Steps(c, texts, upload, files, faults, modId, backups, cleanup, added, localized, rollback)
    requires PlainTexts(texts) && 'G' !in modId
    requires 'G' !in OrEmpty(ModVariableName(Lines(cleanup.files[ModScriptFile(c)]), c.modName))
    requires AddUpdateChecker(c, texts, upload, files, faults, modId, force).failure.None?
    ensures var r := AddUpdateChecker(c, texts, upload, files, faults, modId, force);
      && ModScriptFile(c) in r.files && LocalizationScriptFile(c) in r.files
      && BeginCount(Lines(r.files[ModScriptFile(c)])) == 1
      && BeginCount(Lines(r.files[LocalizationScriptFile(c)])) == 1
  {
    var m, l := ModScriptFile(c), LocalizationScriptFile(c);
    var modHas, locHas := HasBeginLine(files[m]), HasBeginLine(files[l]);
    if force || (!modHas && !locHas) {
      PastTheGate(c, texts, upload, files, faults, modId, force, backups, cleanup, added, localized, rollback);
      BackupsKeepScripts(c, files, faults);
      CleanupLeavesNoBegin(c, backups.files, faults, modHas, locHas);
      ModifiedScripts(c, texts, upload, faults, modId, cleanup.files, added, localized);
    }
  }

  /** The mod block appended and the localization block inserted into scripts
      without a BEGIN line leave one BEGIN line in each. */
  lemma {:induction false} ModifiedScripts(c: Config, texts: Texts, upload: Moment, faults: Faults, modId: String,
                                           files: Files, added: Effect<Cause>, localized: Effect<Cause>)
    requires ScriptsExist(c, files) && ModScriptFile(c) != LocalizationScriptFile(c)
    requires !HasBeginLine(files[ModScriptFile(c)]) && !HasBeginLine(files[LocalizationScriptFile(c)])
    requires PlainTexts(texts) && 'G' !in modId
    requires 'G' !in OrEmpty(ModVariableName(Lines(files[ModScriptFile(c)]), c.modName))
    requires added == AddModScript(c, texts, upload, files, faults, modId) && added.failure.None?
    requires LocalizationScriptFile(c) in added.files
    requires localized == AddLocalization(c, texts, added.files, faults) && localized.failure.None?
    ensures ModScriptFile(c) in localized.files && LocalizationScriptFile(c) in localized.files
    ensures BeginCount(Lines(localized.files[ModScriptFile(c)])) == 1
    ensures BeginCount(Lines(localized.files[LocalizationScriptFile(c)])) == 1
  {
    var m, l := ModScriptFile(c), LocalizationScriptFile(c);
    var text, script := files[m], files[l];
    ModScriptAppend(c, texts, upload, files, faults, modId);
    assert Split(text) != [];
    HasBeginLineIffContains(text);
    HasBeginLineIffContains(script);
    OneBeginInModScript(text, texts, modId, ModVariableName(Lines(text), c.modName), upload);
    LocalizationWrite(c, texts, added.files, faults);
    var pt := InsertionPoint(script).value;
    OneBeginInLocalizationScript(texts, script, pt.0, pt.1);
  }

  // ---------------------------------------------------------------------------
  // Failed backups change nothing that matters

  /** Faults that may differ only in the copies, which only the backups make. */
  predicate SameBeyondCopies(f1: Faults, f2: Faults) {
    && (forall a :: a in f1 && a.op != Copy ==> a in f2 && f1[a] == f2[a])
    && (forall a :: a in f2 && a.op != Copy ==> a in f1)
  }

  /** Both scripts exist in both stores and hold the same text. */
  predicate SameScripts(c: Config, a: Files, b: Files) {
    && ScriptsExist(c, a) && ScriptsExist(c, b)
    && a[ModScriptFile(c)] == b[ModScriptFile(c)]
    && a[LocalizationScriptFile(c)] == b[LocalizationScriptFile(c)]
  }

  lemma {:induction false} BackupsAgree(c: Config, a: Files, b: Files, f1: Faults, f2: Faults)
    requires SeparatePaths(c) && SameScripts(c, a, b)
    ensures SameScripts(c, Backups(c, a, f1).files, Backups(c, b, f2).files)
  {
    BackupsKeepScripts(c, a, f1);
    BackupsKeepScripts(c, b, f2);
  }

  /** A removal of either script on stores that hold the same scripts fails
      alike and leaves the same scripts, whatever the copies do. */
  lemma {:induction false} RemovalAgrees(c: Config, a: Files, b: Files, f1: Faults, f2: Faults, filePath: String, preserveEmptyLines: bool)
    requires SeparatePaths(c) && SameScripts(c, a, b) && SameBeyondCopies(f1, f2)
    requires filePath == ModScriptFile(c) || filePath == LocalizationScriptFile(c)
    ensures var r1, r2 := RemoveChanges(c, a, f1, filePath, preserveEmptyLines), RemoveChanges(c, b, f2, filePath, preserveEmptyLines);
      r1.failure == r2.failure && SameScripts(c, r1.files, r2.files)
  {
    var other := if filePath == ModScriptFile(c) then LocalizationScriptFile(c) else ModScriptFile(c);
    assert MoveFailure(f1, filePath) == MoveFailure(f2, filePath);
    RemovalClosedForm(c, a, f1, filePath, preserveEmptyLines);
    RemovalClosedForm(c, b, f2, filePath, preserveEmptyLines);
    RemovalKeepsOthers(c, a, f1, filePath, preserveEmptyLines, other);
    RemovalKeepsOthers(c, b, f2, filePath, preserveEmptyLines, other);
  }

  /** The failure of the final move of a rewritten file, if it fails. */
  function MoveFailure(faults: Faults, path: String): Option<Cause> {
    if Access(Move, path) in faults then Some(IoFailed(Move, faults[Access(Move, path)])) else None
  }

  /** A removal fails on a stray sentinel, or on the move of a rewritten file,
      and rewrites the file only when the move succeeds. */
  lemma {:induction false} RemovalClosedForm(c: Config, files: Files, faults: Faults, filePath: String, preserveEmptyLines: bool)
    requires filePath in files
    ensures var out, r := Remove(Lines(files[filePath]), preserveEmptyLines), RemoveChanges(c, files, faults, filePath, preserveEmptyLines);
      && filePath in r.files
      && r.failure == (match out
                       case EndWithoutBegin => Some(StrayEnd(filePath))
                       case BeginWithoutEnd => Some(UnclosedBegin(filePath))
                       case NoBlock => None
                       case Removed(_) => MoveFailure(faults, filePath))
      && r.files[filePath] == (if out.Removed? && MoveFailure(faults, filePath).None? then JoinLines(out.kept) else files[filePath])
  {
    var backup := Backup(c, files, faults, filePath, true);
    assert backup.files[filePath] == files[filePath];
  }

  /** One of the two removals of the cleanup, run only when its script holds
      the sentinel. */
  function CleanupStep(c: Config, files: Files, faults: Faults, has: bool, filePath: String): Effect<Cause>
    requires filePath in files
  {
    if has then RemoveChanges(c, files, faults, filePath, false) else Effect(files, [], None)
  }

  /** The cleanup is the two steps in turn; its failure depends only on
      theirs. */
  lemma {:induction false} CleanupBySteps(c: Config, files: Files, faults: Faults, modHas: bool, locHas: bool)
    requires ScriptsExist(c, files)
    ensures var first := CleanupStep(c, files, faults, modHas, ModScriptFile(c));
      && LocalizationScriptFile(c) in first.files
      && var second := CleanupStep(c, first.files, faults, locHas, LocalizationScriptFile(c));
         var r := Cleanup(c, files, faults, modHas, locHas);
         && r.files == second.files
         && r.failure == (if Silent(first.failure) && Silent(second.failure) then None
                          else Some(CleanupFailed((if modHas then [first.failure] else []) + (if locHas then [second.failure] else []))))
  {
  }

  lemma {:induction false} StepAgrees(c: Config, a: Files, b: Files, f1: Faults, f2: Faults, has: bool, filePath: String)
    requires SeparatePaths(c) && SameScripts(c, a, b) && SameBeyondCopies(f1, f2)
    requires filePath == ModScriptFile(c) || filePath == LocalizationScriptFile(c)
    ensures var r1, r2 := CleanupStep(c, a, f1, has, filePath), CleanupStep(c, b, f2, has, filePath);
      r1.failure == r2.failure && SameScripts(c, r1.files, r2.files)
  {
    if has {
      RemovalAgrees(c, a, b, f1, f2, filePath, false);
    }
  }

  lemma {:induction false} CleanupAgrees(c: Config, a: Files, b: Files, f1: Faults, f2: Faults, modHas: bool, locHas: bool)
    requires SeparatePaths(c) && SameScripts(c, a, b) && SameBeyondCopies(f1, f2)
    ensures var r1, r2 := Cleanup(c, a, f1, modHas, locHas), Cleanup(c, b, f2, modHas, locHas);
      r1.failure == r2.failure && SameScripts(c, r1.files, r2.files)
  {
    var m, l := ModScriptFile(c), LocalizationScriptFile(c);
    CleanupBySteps(c, a, f1, modHas, locHas);
    CleanupBySteps(c, b, f2, modHas, locHas);
    StepAgrees(c, a, b, f1, f2, modHas, m);
    var first1, first2 := CleanupStep(c, a, f1, modHas, m), CleanupStep(c, b, f2, modHas, m);
    StepAgrees(c, first1.files, first2.files, f1, f2, locHas, l);
  }

  lemma {:induction false} BlocksAgree(c: Config, texts: Texts, upload: Moment, a: Files, b: Files, f1: Faults, f2: Faults, modId: String)
    requires SeparatePaths(c) && SameScripts(c, a, b) && SameBeyondCopies(f1, f2)
    ensures var r1, r2 := AddBlocks(c, texts, upload, a, f1, modId), AddBlocks(c, texts, upload, b, f2, modId);
      r1.failure == r2.failure && SameScripts(c, r1.files, r2.files)
  {
    AppendAgrees(c, texts, upload, a, b, f1, f2, modId);
    var added1, added2 := AddModScript(c, texts, upload, a, f1, modId), AddModScript(c, texts, upload, b, f2, modId);
    if added1.failure.None? {
      RollbackAgrees(c, texts, added1.files, added2.files, f1, f2);
    }
  }

  /** The localization block and, when it fails, the rollback of the mod block. */
  lemma {:induction false} RollbackAgrees(c: Config, texts: Texts, a: Files, b: Files, f1: Faults, f2: Faults)
    requires SeparatePaths(c) && SameScripts(c, a, b) && SameBeyondCopies(f1, f2)
    ensures var l1, l2 := AddLocalization(c, texts, a, f1), AddLocalization(c, texts, b, f2);
      && l1.failure == l2.failure && SameScripts(c, l1.files, l2.files)
      && (l1.failure.Some? ==>
            var k1, k2 := RemoveChanges(c, l1.files, f1, ModScriptFile(c), false), RemoveChanges(c, l2.files, f2, ModScriptFile(c), false);
            k1.failure == k2.failure && SameScripts(c, k1.files, k2.files))
  {
    LocalizationAgrees(c, texts, a, b, f1, f2);
    var l1, l2 := AddLocalization(c, texts, a, f1), AddLocalization(c, texts, b, f2);
    if l1.failure.Some? {
      RemovalAgrees(c, l1.files, l2.files, f1, f2, ModScriptFile(c), false);
    }
  }

  lemma {:induction false} AppendAgrees(c: Config, texts: Texts, upload: Moment, a: Files, b: Files, f1: Faults, f2: Faults, modId: String)
    requires SeparatePaths(c) && SameScripts(c, a, b) && SameBeyondCopies(f1, f2)
    ensures var r1, r2 := AddModScript(c, texts, upload, a, f1, modId), AddModScript(c, texts, upload, b, f2, modId);
      r1.failure == r2.failure && SameScripts(c, r1.files, r2.files)
  {
    var m := ModScriptFile(c);
    ModScriptAppend(c, texts, upload, a, f1, modId);
    ModScriptAppend(c, texts, upload, b, f2, modId);
    assert Access(Append, m) in f1 <==> Access(Append, m) in f2;
  }

  lemma {:induction false} LocalizationAgrees(c: Config, texts: Texts, a: Files, b: Files, f1: Faults, f2: Faults)
    requires SeparatePaths(c) && SameScripts(c, a, b) && SameBeyondCopies(f1, f2)
    ensures var r1, r2 := AddLocalization(c, texts, a, f1), AddLocalization(c, texts, b, f2);
      r1.failure == r2.failure && SameScripts(c, r1.files, r2.files)
  {
    var l := LocalizationScriptFile(c);
    LocalizationWrite(c, texts, a, f1);
    LocalizationWrite(c, texts, b, f2);
    assert Access(Write, l) in f1 <==> Access(Write, l) in f2;
  }

  /** Whether the backups succeed does not change what AddUpdateChecker
      reports or what it leaves in the scripts, as long as no backup can be
      written over a script: the source never looks at the outcome of a backup. */
  lemma {:induction false} BackupFaultsIgnored(c: Config, texts: Texts, upload: Moment, files: Files, f1: Faults, f2: Faults, modId: String, force: bool)
    requires SeparatePaths(c) && SameBeyondCopies(f1, f2)
    ensures var r1, r2 := AddUpdateChecker(c, texts, upload, files, f1, modId, force), AddUpdateChecker(c, texts, upload, files, f2, modId, force);
      && r1.failure == r2.failure
      && (ScriptsExist(c, files) ==> SameScripts(c, r1.files, r2.files))
  {
    var m, l := ModScriptFile(c), LocalizationScriptFile(c);
    if ScriptsExist(c, files) {
      var modHas, locHas := HasBeginLine(files[m]), HasBeginLine(files[l]);
      if force || !(modHas || locHas) {
        ModifyAgrees(c, texts, upload, files, f1, f2, modId, modHas, locHas);
      }
    }
  }

  lemma {:induction false} ModifyAgrees(c: Config, texts: Texts, upload: Moment, files: Files, f1: Faults, f2: Faults, modId: String,
                                        modHas: bool, locHas: bool)
    requires SeparatePaths(c) && SameBeyondCopies(f1, f2) && ScriptsExist(c, files)
    ensures var r1, r2 := ModifyScripts(c, texts, upload, files, f1, modId, modHas, locHas), ModifyScripts(c, texts, upload, files, f2, modId, modHas, locHas);
      r1.failure == r2.failure && SameScripts(c, r1.files, r2.files)
  {
    var backups1, backups2 := Backups(c, files, f1), Backups(c, files, f2);
    BackupsAgree(c, files, files, f1, f2);
    CleanupAgrees(c, backups1.files, backups2.files, f1, f2, modHas, locHas);
    var cleanup1 := Cleanup(c, backups1.files, f1, modHas, locHas);
    var cleanup2 := Cleanup(c, backups2.files, f2, modHas, locHas);
    if cleanup1.failure.None? {
      BlocksAgree(c, texts, upload, cleanup1.files, cleanup2.files, f1, f2, modId);
    }
  }

  /** The same holds for RestoreOriginalLua. */
  lemma {:induction false} RestoreIgnoresBackupFaults(c: Config, files: Files, f1: Faults, f2: Faults)
    requires SeparatePaths(c) && SameBeyondCopies(f1, f2)
    ensures var r1, r2 := Restore(c, files, f1), Restore(c, files, f2);
      && r1.failure == r2.failure
      && (ScriptsExist(c, files) ==> SameScripts(c, r1.files, r2.files))
  {
    var m, l := ModScriptFile(c), LocalizationScriptFile(c);
    if ScriptsExist(c, files) {
      RestoreAgrees(c, files, f1, f2);
    } else if m in files {
      RemovalKeepsMissing(c, files, f1, m, false, l);
      RemovalKeepsMissing(c, files, f2, m, false, l);
    }
  }

  lemma {:induction false} RestoreAgrees(c: Config, files: Files, f1: Faults, f2: Faults)
    requires SeparatePaths(c) && SameBeyondCopies(f1, f2) && ScriptsExist(c, files)
    ensures var r1, r2 := Restore(c, files, f1), Restore(c, files, f2);
      r1.failure == r2.failure && SameScripts(c, r1.files, r2.files)
  {
    var m, l := ModScriptFile(c), LocalizationScriptFile(c);
    RemovalAgrees(c, files, files, f1, f2, m, false);
    var first1, first2 := RemoveChanges(c, files, f1, m, false), RemoveChanges(c, files, f2, m, false);
    RemovalAgrees(c, first1.files, first2.files, f1, f2, l, true);
  }

  /** A removal creates no file but the backup of the file it cleans. */
  lemma {:induction false} RemovalKeepsMissing(c: Config, files: Files, faults: Faults, filePath: String, preserveEmptyLines: bool, other: String)
    requires filePath in files && other !in files
    requires other != filePath && other != BackupPath(c, filePath, true)
    ensures other !in RemoveChanges(c, files, faults, filePath, preserveEmptyLines).files
  {
    var backup := Backup(c, files, faults, filePath, true);
    assert other !in backup.files;
  }
}
