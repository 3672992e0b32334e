/** What the operations of Workflow promise: the backup paths, the gate, the
    order of the calls, the cleanup and rollback rules, and what a removal
    leaves behind. */
module Guarantees {
  import opened Base
  import opened Text
  import opened Markers
  import opened Remover
  import opened Payload
  import opened Locator
  import opened Scanner
  import opened Store
  import opened Workflow

  // ---------------------------------------------------------------------------
  // Backup paths

  /** A backup lies directly in the backup folder, has the extension ".lua",
      and the backup of a modified file differs from the plain one by
      "_MODIFIED" in front of the extension. */
  lemma {:induction false} BackupPathShape(c: Config, filePath: String)
    ensures var plain, modified := BackupPath(c, filePath, false), BackupPath(c, filePath, true);
      && |plain| >= |c.backupFolder| + 5
      && plain[..|c.backupFolder| + 1] == c.backupFolder + "/"
      && (forall i :: |c.backupFolder| < i < |plain| ==> !IsSeparator(plain[i]))
      && EndsWith(plain, ".lua") && EndsWith(modified, ".lua")
      && modified == plain[..|plain| - 4] + "_MODIFIED" + ".lua"
      && modified != plain
  {
    var stem := BackupStem(filePath);
    assert BackupPath(c, filePath, false) == c.backupFolder + "/" + stem + ".lua";
    PathShape(c.backupFolder, stem);
  }

  lemma {:induction false} PathShape(folder: String, stem: String)
    requires forall i :: 0 <= i < |stem| ==> !IsSeparator(stem[i])
    ensures var plain, modified := folder + "/" + stem + ".lua", folder + "/" + stem + "_MODIFIED" + ".lua";
      && |plain| >= |folder| + 5
      && plain[..|folder| + 1] == folder + "/"
      && (forall i :: |folder| < i < |plain| ==> !IsSeparator(plain[i]))
      && EndsWith(plain, ".lua") && EndsWith(modified, ".lua")
      && modified == plain[..|plain| - 4] + "_MODIFIED" + ".lua"
      && modified != plain
  {
    var head := folder + "/";
    var plain := head + stem + ".lua";
    forall i | |folder| < i < |plain|
      ensures !IsSeparator(plain[i])
    {
      if i - |head| < |stem| {
        assert plain[i] == stem[i - |head|];
      }
    }
    assert plain[..|plain| - 4] == head + stem;
  }

  // ---------------------------------------------------------------------------
  // The gate

  /** When a script already carries a block and `force` is false, the run stops
      at once: no call is made, no file changes, and the refusal names the
      scripts that carry a block. */
  lemma {:induction false} GateStops(c: Config, texts: Texts, upload: Moment, files: Files, faults: Faults, modId: String)
    requires ScriptsExist(c, files)
    requires Contains(files[ModScriptFile(c)], HeaderBegin) || Contains(files[LocalizationScriptFile(c)], HeaderBegin)
    ensures var r := AddUpdateChecker(c, texts, upload, files, faults, modId, false);
      && r.files == files && r.log == []
      && r.failure == Some(Refusal(c, Contains(files[ModScriptFile(c)], HeaderBegin),
                                      Contains(files[LocalizationScriptFile(c)], HeaderBegin)))
  {
    HasBeginLineIffContains(files[ModScriptFile(c)]);
    HasBeginLineIffContains(files[LocalizationScriptFile(c)]);
  }

  // ---------------------------------------------------------------------------
  // AddUpdateChecker past the gate

  /** The run gets past the gate: `force` is set, or no script carries a block. */
  predicate Passes(c: Config, files: Files, force: bool)
    requires ScriptsExist(c, files)
  {
    force || (!HasBeginLine(files[ModScriptFile(c)]) && !HasBeginLine(files[LocalizationScriptFile(c)]))
  }

  /** The calls AddUpdateChecker makes, each on the files the call before
      left. */
  predicate Steps(c: Config, texts: Texts, upload: Moment, files: Files, faults: Faults, modId: String,
                  backups: Effect<Cause>, cleanup: Effect<Report>, added: Effect<Cause>, localized: Effect<Cause>, rollback: Effect<Cause>)
    requires ScriptsExist(c, files)
  {
    && backups == Backups(c, files, faults)
    && ScriptsExist(c, backups.files)
    && cleanup == Cleanup(c, backups.files, faults, HasBeginLine(files[ModScriptFile(c)]), HasBeginLine(files[LocalizationScriptFile(c)]))
    && ScriptsExist(c, cleanup.files)
    && added == AddModScript(c, texts, upload, cleanup.files, faults, modId)
    && LocalizationScriptFile(c) in added.files
    && localized == AddLocalization(c, texts, added.files, faults)
    && ModScriptFile(c) in localized.files
    && rollback == RemoveChanges(c, localized.files, faults, ModScriptFile(c), false)
  }

  /** Past the gate, the run is decided by its calls in turn: a failed
      cleanup ends it, a failed mod block ends it, a failed localization block
      is followed by the rollback of the mod block, and the calls are made in
      that order. */
  lemma {:induction false} PastTheGate(c: Config, texts: Texts, upload: Moment, files: Files, faults: Faults, modId: String, force: bool,
                                       backups: Effect<Cause>, cleanup: Effect<Report>, added: Effect<Cause>, localized: Effect<Cause>, rollback: Effect<Cause>)
    requires ScriptsExist(c, files) && Passes(c, files, force)
    requires Steps(c, texts, upload, files, faults, modId, backups, cleanup, added, localized, rollback)
    ensures var r := AddUpdateChecker(c, texts, upload, files, faults, modId, force);
      && (cleanup.failure.Some? ==> r == Effect(cleanup.files, backups.log + cleanup.log, cleanup.failure))
      && (cleanup.failure.None? && added.failure.Some? ==>
            r == Effect(added.files, backups.log + cleanup.log + added.log, Some(AddFailed(ModScriptFile(c), added.failure.value, None))))
      && (cleanup.failure.None? && added.failure.None? && localized.failure.None? ==>
            r == Effect(localized.files, backups.log + cleanup.log + added.log + localized.log, None))
      && (cleanup.failure.None? && added.failure.None? && localized.failure.Some? ==>
            r == Effect(rollback.files, backups.log + cleanup.log + added.log + localized.log + rollback.log,
                        Some(AddFailed(LocalizationScriptFile(c), localized.failure.value,
                                       if rollback.failure.Some? then Some(ModScriptFile(c)) else None))))
  {
    var b, cl := backups.log, cleanup.log;
    if cleanup.failure.None? {
      var blocks := AddBlocks(c, texts, upload, cleanup.files, faults, modId);
      Associative(b, cl, blocks.log);
      if added.failure.None? {
        Associative(b + cl, added.log, localized.log);
        if localized.failure.Some? {
          Associative(b + cl, added.log + localized.log, rollback.log);
        }
      }
    }
  }

  /** The calls AddUpdateChecker makes, each on what the one before left. */
  lemma {:induction false} StagesOf(c: Config, texts: Texts, upload: Moment, files: Files, faults: Faults, modId: String)
    returns (backups: Effect<Cause>, cleanup: Effect<Report>, added: Effect<Cause>, localized: Effect<Cause>, rollback: Effect<Cause>)
    requires ScriptsExist(c, files)
    ensures Steps(c, texts, upload, files, faults, modId, backups, cleanup, added, localized, rollback)
  {
    backups := Backups(c, files, faults);
    cleanup := Cleanup(c, backups.files, faults, HasBeginLine(files[ModScriptFile(c)]), HasBeginLine(files[LocalizationScriptFile(c)]));
    added := AddModScript(c, texts, upload, cleanup.files, faults, modId);
    localized := AddLocalization(c, texts, added.files, faults);
    rollback := RemoveChanges(c, localized.files, faults, ModScriptFile(c), false);
  }

  /** The two backups the run starts with, neither marked as modified. */
  lemma {:induction false} BackupsLog(c: Config, files: Files, faults: Faults)
    requires ScriptsExist(c, files)
    ensures Backups(c, files, faults).log == [Access(Copy, BackupPath(c, ModScriptFile(c), false)),
                                              Access(Copy, BackupPath(c, LocalizationScriptFile(c), false))]
  {
  }

  /** Once past the gate, the first two calls are the backups of the mod script
      and of the localization script, before any cleanup or change. */
  lemma {:induction false} BackupsComeFirst(c: Config, texts: Texts, upload: Moment, files: Files, faults: Faults, modId: String, force: bool)
    requires ScriptsExist(c, files) && Passes(c, files, force)
    ensures var r := AddUpdateChecker(c, texts, upload, files, faults, modId, force);
      && |r.log| >= 2
      && r.log[0] == Access(Copy, BackupPath(c, ModScriptFile(c), false))
      && r.log[1] == Access(Copy, BackupPath(c, LocalizationScriptFile(c), false))
  {
    var modHas, locHas := HasBeginLine(files[ModScriptFile(c)]), HasBeginLine(files[LocalizationScriptFile(c)]);
    var r := ModifyScripts(c, texts, upload, files, faults, modId, modHas, locHas);
    assert AddUpdateChecker(c, texts, upload, files, faults, modId, force) == r;
    var backups := Backups(c, files, faults);
    BackupsLog(c, files, faults);
    var cleanup := Cleanup(c, backups.files, faults, modHas, locHas);
    var rest := if cleanup.failure.Some? then cleanup.log else cleanup.log + AddBlocks(c, texts, upload, cleanup.files, faults, modId).log;
    assert r.log == backups.log + rest;
  }

  // ---------------------------------------------------------------------------
  // RemoveMUCChanges

  /** A removal backs the file up first (as modified); the only other call it
      can make is the move that replaces the file. */
  lemma {:induction false} RemovalCalls(c: Config, files: Files, faults: Faults, filePath: String, preserveEmptyLines: bool)
    requires filePath in files
    ensures var r := RemoveChanges(c, files, faults, filePath, preserveEmptyLines);
      && 1 <= |r.log| <= 2 && r.log[0] == Access(Copy, BackupPath(c, filePath, true))
      && (|r.log| == 2 ==> r.log[1] == Access(Move, filePath))
  {
  }

  /** What a removal does with each outcome of the loop: the two errors and
      "no block" leave the file as it was and report that; a complete block
      makes the file the kept lines, each followed by a line terminator, unless
      the move fails. */
  lemma {:induction false} RemovalOutcome(c: Config, files: Files, faults: Faults, filePath: String, preserveEmptyLines: bool)
    requires filePath in files
    ensures var out, r := Remove(Lines(files[filePath]), preserveEmptyLines), RemoveChanges(c, files, faults, filePath, preserveEmptyLines);
      && filePath in r.files
      && (out == EndWithoutBegin ==> r.failure == Some(StrayEnd(filePath)) && r.files[filePath] == files[filePath])
      && (out == BeginWithoutEnd ==> r.failure == Some(UnclosedBegin(filePath)) && r.files[filePath] == files[filePath])
      && (out == NoBlock ==> r.failure.None? && r.files[filePath] == files[filePath])
      && (out.Removed? ==> (r.failure.None? <==> Access(Move, filePath) !in faults))
      && (out.Removed? && r.failure.None? ==> r.files[filePath] == JoinLines(out.kept))
      && (out.Removed? && r.failure.Some? ==> r.files[filePath] == files[filePath])
  {
    var backup := Backup(c, files, faults, filePath, true);
    assert backup.files[filePath] == files[filePath];
  }

  /** A removal that rewrote the file leaves it holding exactly the kept lines. */
  lemma {:induction false} RewrittenLines(c: Config, files: Files, faults: Faults, filePath: String, preserveEmptyLines: bool)
    requires filePath in files
    requires Remove(Lines(files[filePath]), preserveEmptyLines).Removed?
    requires RemoveChanges(c, files, faults, filePath, preserveEmptyLines).failure.None?
    ensures var r := RemoveChanges(c, files, faults, filePath, preserveEmptyLines);
      filePath in r.files && Lines(r.files[filePath]) == Remove(Lines(files[filePath]), preserveEmptyLines).kept
  {
    var lines := Lines(files[filePath]);
    var kept := Remove(lines, preserveEmptyLines).kept;
    RemovalOutcome(c, files, faults, filePath, preserveEmptyLines);
    LinesHaveNoNewline(files[filePath]);
    KeptHasNoNewline(lines, |lines|, preserveEmptyLines);
    LinesOfJoin(kept);
  }

  /** A removal that finds no complete block does not replace the file; it
      succeeds exactly when the file holds no sentinel at all. */
  lemma {:induction false} NothingToRemove(c: Config, files: Files, faults: Faults, filePath: String, preserveEmptyLines: bool)
    requires filePath in files
    requires !Remove(Lines(files[filePath]), preserveEmptyLines).Removed?
    ensures var out, r := Remove(Lines(files[filePath]), preserveEmptyLines), RemoveChanges(c, files, faults, filePath, preserveEmptyLines);
      && r.files[filePath] == files[filePath]
      && r.log == [Access(Copy, BackupPath(c, filePath, true))]
      && (r.failure.None? <==> out == NoBlock)
  {
    RemovalOutcome(c, files, faults, filePath, preserveEmptyLines);
  }

  /** After a removal that rewrote the file, a second removal never rewrites it
      again: it finds nothing to do when no kept line holds an END sentinel,
      and reports the END without a BEGINNING otherwise. Its one change is its
      backup, which puts the stripped script over the modified backup that
      held the script as it was before the first removal. */
  lemma {:induction false} RemovalTwice(c: Config, files: Files, faults: Faults, filePath: String, preserveEmptyLines: bool, again: bool)
    requires filePath in files
    requires Remove(Lines(files[filePath]), preserveEmptyLines).Removed?
    requires RemoveChanges(c, files, faults, filePath, preserveEmptyLines).failure.None?
    ensures var first := RemoveChanges(c, files, faults, filePath, preserveEmptyLines);
      var kept := Remove(Lines(files[filePath]), preserveEmptyLines).kept;
      var second := RemoveChanges(c, first.files, faults, filePath, again);
      && second.files[filePath] == first.files[filePath]
      && second.files == Backup(c, first.files, faults, filePath, true).files
      && (Access(Copy, BackupPath(c, filePath, true)) !in faults ==>
            second.files == first.files[BackupPath(c, filePath, true) := first.files[filePath]])
      && Access(Move, filePath) !in second.log
      && (second.failure.None? <==> forall k :: 0 <= k < |kept| ==> !Ends(kept[k]))
      && (second.failure.Some? ==> second.failure == Some(StrayEnd(filePath)))
  {
    var lines := Lines(files[filePath]);
    var first := RemoveChanges(c, files, faults, filePath, preserveEmptyLines);
    RewrittenLines(c, files, faults, filePath, preserveEmptyLines);
    RemoveAgain(lines, preserveEmptyLines, again);
    NothingToRemove(c, first.files, faults, filePath, again);
    RemovalOutcome(c, first.files, faults, filePath, again);
  }
}
