/** The text of each failure, as the source spells it: the helpers' messages
    (LuaModifier.cs, lines 395-470), those of the three editing operations
    (lines 140, 248, 257, 284, 371 and 380) and those AddUpdateChecker and
    RestoreOriginalLua build from them (lines 66-123). The other modules pass
    failures around as values; the texts, and the one decision the source
    takes on them (whether a gathered reason is white space), are here. */
module Messages {
  import opened Base
  import opened Text
  import opened Store
  import opened Workflow

  /** The opening words shared by several messages: of the refusal, of every
      failure (and of a write failure), of the two unmatched sentinels and of
      the scanner's failures. */
  const RefusalStart: String := "The "
  const FailureStart: String := "Failed to "
  const DetectedStart: String := "Detected "
  const CouldNotStart: String := "Could not "

  /** The message a helper returns for an exception: a classified exception
      has a sentence of its own, and any other passes its own message on.
      `File.WriteAllText` and `File.AppendAllText` do not list
      `FileNotFoundException`, which is an `IOException` as far as they are
      concerned, so only a copy or a move says that a file is missing. */
  function IoText(op: Op, e: IoError): (r: String)
    ensures e.Unclassified? ==> r == e.message
    ensures !e.Unclassified? ==> r != [] && !IsWhiteSpace(r[0])
    ensures e.FileNotFound? ==> (r == "File not found" <==> op == Copy || op == Move)
  {
    match e
    case PathTooLong => "File path too long"
    case DirectoryNotFound => "Part of path not found"
    case FileNotFound => if op == Copy || op == Move then "File not found" else FailureStart + "write to file"
    case OtherIo => FailureStart + "write to file"
    case Unauthorized => "Do not have permission to write to file"
    case Unclassified(message) => message
  }

  /** The text of each cause. A failure that concerns a script names it: an
      unmatched sentinel ends with the path of its script, the missing last
      line names the mod script's path, and a missing table names the
      variable returned. */
  function CauseText(f: Cause): (r: String)
    ensures f.StrayEnd? || f.UnclosedBegin? ==> EndsWith(r, f.path)
    ensures f.NoLastLine? ==> Contains(r, f.path)
    ensures f.MissingTable? ==> Contains(r, f.name)
  {
    match f
    case IoFailed(op, e) => IoText(op, e)
    case StrayEnd(path) =>
      var head := DetectedStart + "END of MUC code without a BEGINNING in ";
      Named(head, path, "");
      head + path
    case UnclosedBegin(path) =>
      var head := DetectedStart + "BEGINNING of MUC code without an END in ";
      Named(head, path, "");
      head + path
    case NoLastLine(path) =>
      var head, tail := CouldNotStart + "determine if ", " alread has some empty space at the end of the file.";
      Named(head, path, tail);
      head + path + tail
    case MissingTable(name) =>
      var head, tail := "Found \"return ", "\" but could not find corresponding Localization table definition";
      Named(head, name, tail);
      head + name + tail
    case NoReturn => CouldNotStart + "figure out how Localization table is returned"
    case NoTableEnd => CouldNotStart + "find end of Localization table"
  }

  /** A sentence that names `x` between `head` and `tail` contains it, and ends
      with it when nothing follows. */
  lemma Named(head: String, x: String, tail: String)
    ensures Contains(head + x + tail, x)
    ensures tail == [] ==> EndsWith(head + x + tail, x)
  {
    assert OccursAt(head + x + tail, x, |head|);
  }

  /** A `string?` result as text: the failure's, or nothing. */
  function FailureText(f: Option<Cause>): String {
    if f.Some? then CauseText(f.value) else ""
  }

  /** What `reason += "\n" + RemoveMUCChanges(...) ?? ""` gathers, one removal
      after the other: C# reads it as `("\n" + failure) ?? ""`, so every
      removal adds a line terminator, followed by its failure if it had one. */
  function ReasonText(reasons: seq<Option<Cause>>): String {
    if reasons == [] then ""
    else ReasonText(reasons[..|reasons| - 1]) + "\n" + FailureText(reasons[|reasons| - 1])
  }

  /** The refusal's first sentence. */
  const GateIntro: String :=
    RefusalStart + "files listed below already contain edits from EnableModUpdateChecker. Please remove auto-generated code from the end of these files, or run this command again with -force."

  /** The file name of each path. */
  function Names(paths: seq<String>): seq<String> {
    seq(|paths|, i requires 0 <= i < |paths| => FileName(paths[i]))
  }

  /** `first`, then each of `rest`, each after a line terminator. */
  function Listing(first: String, rest: seq<String>): String {
    if rest == [] then first else Listing(first, rest[..|rest| - 1]) + "\n" + rest[|rest| - 1]
  }

  /** The refusal: its first sentence, then the file name of each script; a
      refusal that names no script is that sentence alone. */
  function RefusalText(paths: seq<String>): (r: String)
    ensures GateIntro <= r
    ensures paths == [] ==> r == GateIntro
  {
    ListingPrefix(GateIntro, Names(paths));
    Listing(GateIntro, Names(paths))
  }

  /** A listing starts with its first entry. */
  lemma {:induction false} ListingPrefix(first: String, rest: seq<String>)
    ensures first <= Listing(first, rest)
    decreases |rest|
  {
    if rest != [] {
      ListingPrefix(first, rest[..|rest| - 1]);
    }
  }

  const WarningStart: String := "\nWARNING: "

  /** The warning added when the mod script cannot be restored: it starts on a
      line of its own and names the script's path straight after `WARNING: `. */
  function WarningText(path: String): (r: String)
    ensures WarningStart <= r && OccursAt(r, path, |WarningStart|)
  {
    WarningStart + path + " WAS MODIFIED AND THE CHANGES COULD NOT BE REVERTED. MANUAL ACTION REQUIRED."
  }

  /** The text AddUpdateChecker or RestoreOriginalLua returns; an exception
      that escapes returns none. A refusal opens with its sentence and every
      failure with `Failed to `; a failed addition ends with its cause, or with
      the warning when the mod script could not be restored. */
  function ReportText(r: Report): (t: String)
    requires !r.Unreadable?
    ensures r.Refused? ==> GateIntro <= t
    ensures !r.Refused? ==> FailureStart <= t
    ensures r.AddFailed? ==> EndsWith(t, if r.unreverted.Some? then WarningText(r.unreverted.value) else CauseText(r.cause))
  {
    match r
    case Refused(paths) => RefusalText(paths)
    case CleanupFailed(reasons) => FailureStart + "clean up existing MUC modifications. Reason: " + ReasonText(reasons)
    case AddFailed(path, cause, unreverted) =>
      FailureStart + "add lua to " + path + ". Reason: " + CauseText(cause)
      + (if unreverted.Some? then WarningText(unreverted.value) else "")
    case RestoreFailed(reasons) => FailureStart + "clean up MUC modifications. Reason: " + ReasonText(reasons)
  }

  /** Every report the two operations return reads as a sentence: its text
      starts with a letter, so it is never blank, whatever failures it
      gathers. */
  lemma {:induction false} ReportTextNotBlank(r: Report)
    requires !r.Unreadable?
    ensures var t := ReportText(r); t != [] && (t[0] == 'T' || t[0] == 'F') && !IsBlank(t)
  {
    var t := ReportText(r);
    if r.Refused? {
      assert t[0] == GateIntro[0] == 'T';
    } else {
      assert t[0] == FailureStart[0] == 'F';
    }
  }

  // ---------------------------------------------------------------------------
  // Blank reasons

  /** Every failure gathered has a blank text, or none. */
  predicate AllSilent(reasons: seq<Option<Cause>>) {
    forall i :: 0 <= i < |reasons| ==> Silent(reasons[i])
  }

  lemma {:induction false} AllSilentSnoc(reasons: seq<Option<Cause>>)
    requires reasons != []
    ensures AllSilent(reasons) <==> AllSilent(reasons[..|reasons| - 1]) && Silent(reasons[|reasons| - 1])
  {
    var init := reasons[..|reasons| - 1];
    assert forall i :: 0 <= i < |init| ==> init[i] == reasons[i];
  }

  lemma {:induction false} BlankAppend(a: String, b: String)
    ensures IsBlank(a + b) <==> IsBlank(a) && IsBlank(b)
  {
    if IsBlank(a + b) {
      forall i | 0 <= i < |a| ensures IsWhiteSpace(a[i]) {
        assert a[i] == (a + b)[i];
      }
      forall i | 0 <= i < |b| ensures IsWhiteSpace(b[i]) {
        assert b[i] == (a + b)[|a| + i];
      }
    }
    if IsBlank(a) && IsBlank(b) {
      forall i | 0 <= i < |a + b| ensures IsWhiteSpace((a + b)[i]) {
        if i < |a| { assert (a + b)[i] == a[i]; } else { assert (a + b)[i] == b[i - |a|]; }
      }
    }
  }

  /** The text of a failure is white space exactly for the failures Silent
      names: every sentence the model spells out starts with a letter. */
  lemma {:induction false} FailureTextBlankIff(f: Option<Cause>)
    ensures IsBlank(FailureText(f)) <==> Silent(f)
  {
    if f.Some? && !(f.value.IoFailed? && f.value.error.Unclassified?) {
      var t := FailureText(f);
      match f.value {
        case IoFailed(_, _) =>
        case StrayEnd(_) => assert t[0] == DetectedStart[0];
        case UnclosedBegin(_) => assert t[0] == DetectedStart[0];
        case NoLastLine(_) => assert t[0] == CouldNotStart[0];
        case MissingTable(_) => assert t[0] == 'F';
        case NoReturn => assert t[0] == CouldNotStart[0];
        case NoTableEnd => assert t[0] == CouldNotStart[0];
      }
      assert !IsWhiteSpace(t[0]);
    }
  }

  /** `string.IsNullOrWhiteSpace` holds of the gathered reason exactly when
      every removal it gathers succeeded or failed with a blank message: the
      line terminators are white space, and so decide nothing. */
  lemma {:induction false} ReasonBlankIff(reasons: seq<Option<Cause>>)
    ensures IsBlank(ReasonText(reasons)) <==> AllSilent(reasons)
  {
    if reasons != [] {
      var init, last := reasons[..|reasons| - 1], reasons[|reasons| - 1];
      ReasonBlankIff(init);
      var a := ReasonText(init);
      assert IsBlank("\n") by { assert "\n"[0] == '\n'; }
      BlankAppend(a, "\n");
      BlankAppend(a + "\n", FailureText(last));
      FailureTextBlankIff(last);
      AllSilentSnoc(reasons);
    }
  }

  // ---------------------------------------------------------------------------
  // The refusal

  /** A listing reads back as the lines of `first`, then each of `rest`, when
      none of those holds a line terminator. */
  lemma {:induction false} ListingLines(first: String, rest: seq<String>)
    requires forall i :: 0 <= i < |rest| ==> NoNewline(rest[i])
    ensures Split(Listing(first, rest)) == Split(first) + rest
  {
    if rest != [] {
      var init, last := rest[..|rest| - 1], rest[|rest| - 1];
      assert forall i :: 0 <= i < |init| ==> NoNewline(init[i]) by {
        forall i | 0 <= i < |init| ensures NoNewline(init[i]) { assert init[i] == rest[i]; }
      }
      ListingLines(first, init);
      var a := Listing(first, init);
      assert Listing(first, rest) == a + "\n" + last;
      SplitAcrossNewline(a, last);
      assert Split(last) == [last];
      assert rest == init + [last];
    }
  }

  /** The refusal, read line by line: the lines of its first sentence, then the
      file name of each script it names, in order, one per line. */
  lemma {:induction false} RefusalLines(paths: seq<String>)
    requires forall i :: 0 <= i < |paths| ==> NoNewline(FileName(paths[i]))
    ensures Split(RefusalText(paths)) == Split(GateIntro) + Names(paths)
  {
    ListingLines(GateIntro, Names(paths));
  }
}
