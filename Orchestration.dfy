/** What AddUpdateChecker and RestoreOriginalLua promise about the order of their
    steps and about what a failure leaves behind (LuaModifier.cs, lines 76-125),
    and what each editing step does on its own (lines 129-148, 231-314). */
module Orchestration {
  import opened Base
  import opened Text
  import opened Markers
  import opened Remover
  import opened Payload
  import opened Locator
  import opened Scanner
  import opened Store
  import opened Workflow
  import opened Messages
  import opened Guarantees

  // ---------------------------------------------------------------------------
  // The calls each step makes

  /** No call in `log` performs `op`. */
  predicate NoCall(log: seq<Access>, op: Op) {
    forall i :: 0 <= i < |log| ==> log[i].op != op
  }

  lemma {:induction false} NoCallAppend(x: seq<Access>, y: seq<Access>, op: Op)
    ensures NoCall(x + y, op) <==> NoCall(x, op) && NoCall(y, op)
  {
    if NoCall(x + y, op) {
      forall i | 0 <= i < |x| ensures x[i].op != op { assert x[i] == (x + y)[i]; }
      forall i | 0 <= i < |y| ensures y[i].op != op { assert y[i] == (x + y)[|x| + i]; }
    }
  }

  /** A removal only copies and moves. */
  lemma {:induction false} RemovalOnlyCopiesAndMoves(c: Config, files: Files, faults: Faults, filePath: String, preserveEmptyLines: bool)
    requires filePath in files
    ensures var log := RemoveChanges(c, files, faults, filePath, preserveEmptyLines).log;
      NoCall(log, Append) && NoCall(log, Write)
  {
    RemovalCalls(c, files, faults, filePath, preserveEmptyLines);
    CopyThenMove(RemoveChanges(c, files, faults, filePath, preserveEmptyLines).log);
  }

  /** A copy, then at most a move, neither appends nor writes. */
  lemma {:induction false} CopyThenMove(log: seq<Access>)
    requires 1 <= |log| <= 2 && log[0].op == Copy && (|log| == 2 ==> log[1].op == Move)
    ensures NoCall(log, Append) && NoCall(log, Write)
  {
  }

  /** The backups only copy. */
  lemma {:induction false} BackupsOnlyCopy(c: Config, files: Files, faults: Faults)
    requires ScriptsExist(c, files)
    ensures var log := Backups(c, files, faults).log;
      NoCall(log, Append) && NoCall(log, Write)
  {
    BackupsLog(c, files, faults);
  }

  /** The cleanup only copies and moves: it neither appends to nor writes over
      a script. */
  lemma {:induction false} CleanupOnlyCopiesAndMoves(c: Config, files: Files, faults: Faults, modHas: bool, locHas: bool)
    requires ScriptsExist(c, files)
    ensures var log := Cleanup(c, files, faults, modHas, locHas).log;
      NoCall(log, Append) && NoCall(log, Write)
  {
    var first := if modHas then RemoveChanges(c, files, faults, ModScriptFile(c), false) else Effect(files, [], None);
    var second := if locHas then RemoveChanges(c, first.files, faults, LocalizationScriptFile(c), false) else Effect(first.files, [], None);
    if modHas {
      RemovalOnlyCopiesAndMoves(c, files, faults, ModScriptFile(c), false);
    }
    if locHas {
      RemovalOnlyCopiesAndMoves(c, first.files, faults, LocalizationScriptFile(c), false);
    }
    NoCallAppend(first.log, second.log, Append);
    NoCallAppend(first.log, second.log, Write);
  }

  /** AddModScriptCode makes at most one call, an append. */
  lemma {:induction false} ModScriptOnlyAppends(c: Config, texts: Texts, upload: Moment, files: Files, faults: Faults, modId: String)
    requires ModScriptFile(c) in files
    ensures NoCall(AddModScript(c, texts, upload, files, faults, modId).log, Write)
  {
  }

  /** AddModScriptCode on an empty mod script fails before any call; otherwise
      it makes one append, of the separator and the block, which fails exactly
      when that call does and otherwise leaves every other file as it was. */
  lemma {:induction false} ModScriptAppend(c: Config, texts: Texts, upload: Moment, files: Files, faults: Faults, modId: String)
    requires ModScriptFile(c) in files
    ensures var r, text := AddModScript(c, texts, upload, files, faults, modId), files[ModScriptFile(c)];
      var lines := Lines(text);
      && (text == [] ==> r == Effect(files, [], Some(NoLastLine(c.modScriptPath))))
      && (text != [] ==>
            && r.log == [Access(Append, ModScriptFile(c))]
            && (r.failure.Some? <==> Access(Append, ModScriptFile(c)) in faults)
            && (r.failure.Some? ==> r.files == files && r.failure == Some(IoFailed(Append, faults[Access(Append, ModScriptFile(c))])))
            && (r.failure.None? ==> r.files == files[ModScriptFile(c) := text + ModSeparator(lines)
                                                       + ModPayload(texts, modId, ModVariableName(lines, c.modName), upload)]))
  {
    var text := files[ModScriptFile(c)];
    if text != [] {
      var lines := Lines(text);
      assert Split(text) != [];
      assert lines != [];
      var sep, payload := ModSeparator(lines), ModPayload(texts, modId, ModVariableName(lines, c.modName), upload);
      assert text + (sep + payload) == text + sep + payload;
    }
  }

  /** When the last line of the mod script holds something other than white
      space, the block starts on a line of its own: the script read back is
      its old lines, the BEGIN sentinel, the lines of the code and the END
      sentinel. */
  lemma {:induction false} ModBlockOnItsOwnLine(text: String, texts: Texts, modId: String, modVarName: Option<String>, upload: Moment)
    requires Lines(text) != [] && !IsBlank(Lines(text)[|Lines(text)| - 1])
    ensures ModSeparator(Lines(text)) == "\n"
    ensures Split(text + ModSeparator(Lines(text)) + ModPayload(texts, modId, modVarName, upload))
      == Split(text) + [HeaderBegin] + Split(ModCode(texts, modId, modVarName, upload)) + [HeaderEnd]
  {
    BlockAfterNewline(text, texts, modId, modVarName, upload);
  }

  lemma {:induction false} BlockAfterNewline(text: String, texts: Texts, modId: String, modVarName: Option<String>, upload: Moment)
    ensures Split(text + "\n" + ModPayload(texts, modId, modVarName, upload))
      == Split(text) + [HeaderBegin] + Split(ModCode(texts, modId, modVarName, upload)) + [HeaderEnd]
  {
    var payload := ModPayload(texts, modId, modVarName, upload);
    var code := Split(ModCode(texts, modId, modVarName, upload));
    ModPayloadSplit(texts, modId, modVarName, upload);
    SplitAcrossNewline(text, payload);
    assert Split(text) + ([HeaderBegin] + code + [HeaderEnd]) == Split(text) + [HeaderBegin] + code + [HeaderEnd];
  }

  /** The localization edit fails exactly when the table is not found (the
      assignment of the returned name, or the `return {` opening) or never
      closes, and reports which. */
  lemma {:induction false} LocalizationEditFails(texts: Texts, s: String)
    ensures var r := LocalizationEdit(texts, s);
      && (r.Err? <==> TableStart(s).Err? || TableEnd(s, TableStart(s).value).None?)
      && (TableStart(s).Err? && TableStart(s).error.AssignOf? ==> r == Err(MissingTable(TableStart(s).error.name)))
      && (TableStart(s) == Err(ReturnOf) ==> r == Err(NoReturn))
      && (TableStart(s).Ok? && TableEnd(s, TableStart(s).value).None? ==> r == Err(NoTableEnd))
  {
  }

  /** A successful localization edit inserts the block in front of the `}`
      (outside any string) that closes the returned table, and keeps every
      character of the script around it. */
  lemma {:induction false} LocalizationEditInserts(texts: Texts, s: String)
    requires LocalizationEdit(texts, s).Ok?
    ensures var start := TableStart(s).value; var j := TableEnd(s, start).value;
      && start < j <= |s| && s[j - 1] == '}' && !ScanTo(s, start, j - 1).inString
      && ClosesAt(s, start, j)
      && LocalizationEdit(texts, s).value
         == Insert(s, j - 1, LocalizationPayload(texts, CommaNeeded(s, start, j - 1), NewlineNeeded(s, start, j - 1)))
  {
    var start := TableStart(s).value;
    var j := TableEnd(s, start).value;
    TableEndIff(s, start, j);
    ClosedByBrace(s, start, j);
  }

  /** The corrected edit fails exactly where the source's edit fails, and
      where both succeed they differ exactly when the two comma flags do. */
  lemma {:induction false} CorrectionChangesOnlyComma(texts: Texts, s: String)
    ensures CorrectedLocalizationEdit(texts, s).Err? ==> CorrectedLocalizationEdit(texts, s) == LocalizationEdit(texts, s)
    ensures LocalizationEdit(texts, s).Err? ==> CorrectedLocalizationEdit(texts, s) == LocalizationEdit(texts, s)
    ensures InsertionPoint(s).Ok? ==>
      var pt := InsertionPoint(s).value;
      (CorrectedLocalizationEdit(texts, s) == LocalizationEdit(texts, s) <==> CommaNeeded(s, pt.0, pt.1) == IntendedComma(s, pt.0, pt.1))
  {
    if InsertionPoint(s).Ok? {
      var pt := InsertionPoint(s).value;
      CommaLengthens(texts, NewlineNeeded(s, pt.0, pt.1));
    }
  }

  /** AddLocalizationScriptCode writes the localization script once, with the
      edited text, and makes no call when the edit fails. */
  lemma {:induction false} LocalizationWrite(c: Config, texts: Texts, files: Files, faults: Faults)
    requires LocalizationScriptFile(c) in files
    ensures var r, edit := AddLocalization(c, texts, files, faults), LocalizationEdit(texts, files[LocalizationScriptFile(c)]);
      && (edit.Err? ==> r == Effect(files, [], Some(edit.error)))
      && (edit.Ok? ==> r.log == [Access(Write, LocalizationScriptFile(c))])
      && (edit.Ok? && r.failure.None? ==> r.files == files[LocalizationScriptFile(c) := edit.value])
      && (r.failure.Some? ==> r.files == files)
  {
  }

  // ---------------------------------------------------------------------------
  // AddUpdateChecker

  /** A failed forced cleanup ends the run with its failure: no block is
      appended and no script is written, and the files are as the cleanup
      left them. */
  lemma {:induction false} CleanupFailureAborts(c: Config, texts: Texts, upload: Moment, files: Files, faults: Faults, modId: String, force: bool,
                                                backups: Effect<Cause>, cleanup: Effect<Report>, added: Effect<Cause>, localized: Effect<Cause>, rollback: Effect<Cause>)
    requires ScriptsExist(c, files) && Passes(c, files, force)
    requires Steps(c, texts, upload, files, faults, modId, backups, cleanup, added, localized, rollback)
    requires cleanup.failure.Some?
    ensures var r := AddUpdateChecker(c, texts, upload, files, faults, modId, force);
      && r.failure == cleanup.failure && r.failure.value.CleanupFailed?
      && r.files == cleanup.files
      && NoCall(r.log, Append) && NoCall(r.log, Write)
  {
    PastTheGate(c, texts, upload, files, faults, modId, force, backups, cleanup, added, localized, rollback);
    BackupsOnlyCopy(c, files, faults);
    CleanupOnlyCopiesAndMoves(c, backups.files, faults, HasBeginLine(files[ModScriptFile(c)]), HasBeginLine(files[LocalizationScriptFile(c)]));
    NoCallAppend(backups.log, cleanup.log, Append);
    NoCallAppend(backups.log, cleanup.log, Write);
  }

  /** A failed mod block ends the run with that failure, before the
      localization script is written and with no rollback. */
  lemma {:induction false} ModFailureStops(c: Config, texts: Texts, upload: Moment, files: Files, faults: Faults, modId: String, force: bool,
                                           backups: Effect<Cause>, cleanup: Effect<Report>, added: Effect<Cause>, localized: Effect<Cause>, rollback: Effect<Cause>)
    requires ScriptsExist(c, files) && Passes(c, files, force)
    requires Steps(c, texts, upload, files, faults, modId, backups, cleanup, added, localized, rollback)
    requires cleanup.failure.None? && added.failure.Some?
    ensures var r := AddUpdateChecker(c, texts, upload, files, faults, modId, force);
      && r.failure == Some(AddFailed(ModScriptFile(c), added.failure.value, None))
      && r.files == added.files
      && r.log == backups.log + cleanup.log + added.log
      && NoCall(r.log, Write)
  {
    PastTheGate(c, texts, upload, files, faults, modId, force, backups, cleanup, added, localized, rollback);
    BackupsOnlyCopy(c, files, faults);
    CleanupOnlyCopiesAndMoves(c, backups.files, faults, HasBeginLine(files[ModScriptFile(c)]), HasBeginLine(files[LocalizationScriptFile(c)]));
    ModScriptOnlyAppends(c, texts, upload, cleanup.files, faults, modId);
    NoCallAppend(backups.log, cleanup.log, Write);
    NoCallAppend(backups.log + cleanup.log, added.log, Write);
  }

  /** A failed localization block is followed by the removal of the mod block;
      the run fails naming the localization script, and adds the warning that
      the mod script needs manual action exactly when that removal failed too. */
  lemma {:induction false} LocalizationFailureRollsBack(c: Config, texts: Texts, upload: Moment, files: Files, faults: Faults, modId: String, force: bool,
                                                        backups: Effect<Cause>, cleanup: Effect<Report>, added: Effect<Cause>, localized: Effect<Cause>, rollback: Effect<Cause>)
    requires ScriptsExist(c, files) && Passes(c, files, force)
    requires Steps(c, texts, upload, files, faults, modId, backups, cleanup, added, localized, rollback)
    requires cleanup.failure.None? && added.failure.None? && localized.failure.Some?
    ensures var r := AddUpdateChecker(c, texts, upload, files, faults, modId, force);
      && r.failure == Some(AddFailed(LocalizationScriptFile(c), localized.failure.value,
                                     if rollback.failure.Some? then Some(ModScriptFile(c)) else None))
      && r.files == rollback.files
      && r.log == backups.log + cleanup.log + added.log + localized.log + rollback.log
  {
    PastTheGate(c, texts, upload, files, faults, modId, force, backups, cleanup, added, localized, rollback);
  }

  /** When every step succeeds the run succeeds, with the files the
      localization write left and the calls of the four steps in order (lemmas
      ModScriptAppend and LocalizationWrite say what those files hold). */
  lemma {:induction false} AllStepsSucceed(c: Config, texts: Texts, upload: Moment, files: Files, faults: Faults, modId: String, force: bool,
                                           backups: Effect<Cause>, cleanup: Effect<Report>, added: Effect<Cause>, localized: Effect<Cause>, rollback: Effect<Cause>)
    requires ScriptsExist(c, files) && Passes(c, files, force)
    requires Steps(c, texts, upload, files, faults, modId, backups, cleanup, added, localized, rollback)
    requires cleanup.failure.None? && added.failure.None? && localized.failure.None?
    ensures var r := AddUpdateChecker(c, texts, upload, files, faults, modId, force);
      && r.failure.None?
      && r.files == localized.files
      && r.log == backups.log + cleanup.log + added.log + localized.log
  {
    PastTheGate(c, texts, upload, files, faults, modId, force, backups, cleanup, added, localized, rollback);
  }

  // ---------------------------------------------------------------------------
  // The gathered reasons

  /** The reason gathered from the removals that ran is white space exactly
      when each of them succeeded or failed with a blank message. */
  lemma {:induction false} GatheredBlankIff(f1: Option<Cause>, f2: Option<Cause>, ran1: bool, ran2: bool)
    requires !ran1 ==> f1.None?
    requires !ran2 ==> f2.None?
    ensures IsBlank(ReasonText((if ran1 then [f1] else []) + (if ran2 then [f2] else []))) <==> Silent(f1) && Silent(f2)
  {
    var reasons := (if ran1 then [f1] else []) + (if ran2 then [f2] else []);
    ReasonBlankIff(reasons);
    if ran1 { assert reasons[0] == f1; }
    if ran2 { assert reasons[|reasons| - 1] == f2; }
  }

  /** The forced cleanup fails exactly when the reason it gathers from the
      removals it ran is not white space, and then names their failures. */
  lemma {:induction false} CleanupFailsIff(c: Config, files: Files, faults: Faults, modHas: bool, locHas: bool)
    requires ScriptsExist(c, files)
    ensures var first := if modHas then RemoveChanges(c, files, faults, ModScriptFile(c), false) else Effect(files, [], None);
      var second := if locHas then RemoveChanges(c, first.files, faults, LocalizationScriptFile(c), false) else Effect(first.files, [], None);
      var reasons := (if modHas then [first.failure] else []) + (if locHas then [second.failure] else []);
      var r := Cleanup(c, files, faults, modHas, locHas);
      && r.files == second.files
      && r.log == first.log + second.log
      && (r.failure.None? <==> IsBlank(ReasonText(reasons)))
      && (r.failure.Some? ==> r.failure == Some(CleanupFailed(reasons)))
  {
    var first := if modHas then RemoveChanges(c, files, faults, ModScriptFile(c), false) else Effect(files, [], None);
    var second := if locHas then RemoveChanges(c, first.files, faults, LocalizationScriptFile(c), false) else Effect(first.files, [], None);
    GatheredBlankIff(first.failure, second.failure, modHas, locHas);
  }

  /** RestoreOriginalLua runs both removals, the mod script first, and fails
      exactly when the reason it gathers from them is not white space. */
  lemma {:induction false} RestoreFailsIff(c: Config, files: Files, faults: Faults)
    requires ModScriptFile(c) in files
    requires LocalizationScriptFile(c) in RemoveChanges(c, files, faults, ModScriptFile(c), false).files
    ensures var first := RemoveChanges(c, files, faults, ModScriptFile(c), false);
      var second := RemoveChanges(c, first.files, faults, LocalizationScriptFile(c), true);
      var r := Restore(c, files, faults);
      && r.log == first.log + second.log
      && r.files == second.files
      && (r.failure.None? <==> IsBlank(ReasonText([first.failure, second.failure])))
      && (r.failure.Some? ==> r.failure == Some(RestoreFailed([first.failure, second.failure])))
  {
    var first := RemoveChanges(c, files, faults, ModScriptFile(c), false);
    var second := RemoveChanges(c, first.files, faults, LocalizationScriptFile(c), true);
    GatheredBlankIff(first.failure, second.failure, true, true);
    assert [first.failure] + [second.failure] == [first.failure, second.failure];
  }

  /** No exception of the faults has a blank message: then RestoreOriginalLua
      succeeds exactly when both removals do. */
  predicate Classified(faults: Faults) {
    forall a :: a in faults && faults[a].Unclassified? ==> !IsBlank(faults[a].message)
  }

  lemma {:induction false} RemovalFailureClassified(c: Config, files: Files, faults: Faults, filePath: String, preserveEmptyLines: bool)
    requires filePath in files && Classified(faults)
    ensures Silent(RemoveChanges(c, files, faults, filePath, preserveEmptyLines).failure)
      <==> RemoveChanges(c, files, faults, filePath, preserveEmptyLines).failure.None?
  {
    var r := RemoveChanges(c, files, faults, filePath, preserveEmptyLines);
    if r.failure.Some? && r.failure.value.IoFailed? {
      RemovalCalls(c, files, faults, filePath, preserveEmptyLines);
      RemovalOutcome(c, files, faults, filePath, preserveEmptyLines);
    }
  }

  lemma {:induction false} RestoreNullIff(c: Config, files: Files, faults: Faults)
    requires ScriptsExist(c, files) && Classified(faults)
    ensures var first := RemoveChanges(c, files, faults, ModScriptFile(c), false);
      var second := RemoveChanges(c, first.files, faults, LocalizationScriptFile(c), true);
      Restore(c, files, faults).failure.None? <==> first.failure.None? && second.failure.None?
  {
    var first := RemoveChanges(c, files, faults, ModScriptFile(c), false);
    RemovalFailureClassified(c, files, faults, ModScriptFile(c), false);
    RemovalFailureClassified(c, first.files, faults, LocalizationScriptFile(c), true);
  }
}
