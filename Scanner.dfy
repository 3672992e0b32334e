/** The two walks over the localization script once the table start is known
    (LuaModifier.cs, AddLocalizationScriptCode, lines 263-312), and the splice
    that puts the localization block before the closing brace (line 314). */
module Scanner {
  import opened Base
  import opened Text

  // ---------------------------------------------------------------------------
  // Forward walk: brace depth, with `"` toggling a string flag

  /** What the forward walk has found so far. */
  datatype Scan = Scan(depth: int, inString: bool)

  /** One character of the forward walk: a `"` flips the string flag; a brace
      outside a string moves the depth; everything else is passed over. */
  function Step(st: Scan, c: char): Scan {
    if c == '"' then st.(inString := !st.inString)
    else if c == '{' && !st.inString then st.(depth := st.depth + 1)
    else if c == '}' && !st.inString then st.(depth := st.depth - 1)
    else st
  }

  /** The state after reading `s[start..j]`, from depth 1 outside a string. */
  function ScanTo(s: String, start: nat, j: nat): Scan
    requires start <= j <= |s|
    decreases j
  {
    if j == start then Scan(1, false) else Step(ScanTo(s, start, j - 1), s[j - 1])
  }

  /** The index the forward walk ends on, if the depth reaches 0 before the
      text runs out: the loop stops once it is at the end or the depth is 0,
      and only the second is a success. */
  function Balanced(s: String, start: nat, j: nat): Option<nat>
    requires start <= j <= |s|
    decreases |s| - j
  {
    if ScanTo(s, start, j).depth <= 0 then Some(j)
    else if j == |s| then None
    else Balanced(s, start, j + 1)
  }

  function TableEnd(s: String, start: nat): Option<nat>
    requires start <= |s|
  {
    Balanced(s, start, start)
  }

  /** The forward walk of the source, with its depth counter and string flag. */
  method FindTableEnd(s: String, start: nat) returns (r: Option<nat>)
    requires start <= |s|
    ensures r == TableEnd(s, start)
  {
    var i := start;
    var depth := 1;
    var inString := false;
    while i < |s| && depth > 0
      invariant start <= i <= |s|
      invariant ScanTo(s, start, i) == Scan(depth, inString)
      invariant Balanced(s, start, i) == TableEnd(s, start)
      decreases |s| - i
    {
      var c := s[i];
      if c == '"' {
        inString := !inString;
      } else if c == '{' {
        if !inString {
          depth := depth + 1;
        }
      } else if c == '}' {
        if !inString {
          depth := depth - 1;
        }
      }
      i := i + 1;
    }
    if i >= |s| && depth > 0 {
      return None;
    }
    return Some(i);
  }

  /** Reading `s[start..m]` brings the depth to 0 for the first time. */
  predicate ClosesAt(s: String, start: nat, m: nat)
    requires start <= |s|
  {
    && start < m <= |s|
    && ScanTo(s, start, m).depth == 0
    && forall i :: start <= i < m ==> ScanTo(s, start, i).depth > 0
  }

  /** No prefix of `s[start..]` brings the depth to 0. */
  predicate NeverCloses(s: String, start: nat)
    requires start <= |s|
  {
    forall i :: start <= i <= |s| ==> ScanTo(s, start, i).depth > 0
  }

  /** The depth moves by at most one per character. */
  lemma {:induction false} StepMovesByOne(st: Scan, c: char)
    ensures st.depth - 1 <= Step(st, c).depth <= st.depth + 1
  {
  }

  lemma {:induction false} BalancedIsFirst(s: String, start: nat, j: nat)
    requires start <= j <= |s|
    requires forall i :: start <= i < j ==> ScanTo(s, start, i).depth > 0
    ensures Balanced(s, start, j).Some? ==>
      j <= Balanced(s, start, j).value && ClosesAt(s, start, Balanced(s, start, j).value)
    ensures Balanced(s, start, j).None? ==> NeverCloses(s, start)
    decreases |s| - j
  {
    if ScanTo(s, start, j).depth <= 0 {
      assert j != start;
      StepMovesByOne(ScanTo(s, start, j - 1), s[j - 1]);
    } else if j < |s| {
      BalancedIsFirst(s, start, j + 1);
    }
  }

  /** The walk ends exactly where the depth first comes down to 0, and fails
      exactly when it never does. */
  lemma {:induction false} TableEndIff(s: String, start: nat, m: nat)
    requires start <= |s|
    ensures TableEnd(s, start) == Some(m) <==> ClosesAt(s, start, m)
    ensures TableEnd(s, start).None? <==> NeverCloses(s, start)
  {
    BalancedIsFirst(s, start, start);
    if ClosesAt(s, start, m) {
      assert !NeverCloses(s, start) by {
        assert ScanTo(s, start, m).depth == 0;
      }
      var m2 := TableEnd(s, start).value;
      assert ClosesAt(s, start, m2);
      assert ScanTo(s, start, m2).depth == 0 && ScanTo(s, start, m).depth == 0;
    }
    if TableEnd(s, start).Some? {
      var m2 := TableEnd(s, start).value;
      assert ClosesAt(s, start, m2);
      assert ScanTo(s, start, m2).depth == 0;
    }
  }

  /** The character the walk ends on is a `}` outside a string. */
  lemma {:induction false} ClosedByBrace(s: String, start: nat, m: nat)
    requires start <= |s| && ClosesAt(s, start, m)
    ensures s[m - 1] == '}' && !ScanTo(s, start, m - 1).inString
  {
    assert ScanTo(s, start, m - 1).depth > 0;
  }

  // An independent account of the walk: the string flag is the parity of the
  // quotes read, and the depth counts only the braces read outside strings.

  /** The number of `"` in `s[start..j]`. */
  function Quotes(s: String, start: nat, j: nat): nat
    requires start <= j <= |s|
    decreases j
  {
    if j == start then 0 else Quotes(s, start, j - 1) + (if s[j - 1] == '"' then 1 else 0)
  }

  /** The number of `c` in `s[start..j]` preceded by an even number of quotes. */
  function Outside(s: String, start: nat, j: nat, c: char): nat
    requires start <= j <= |s|
    decreases j
  {
    if j == start then 0
    else Outside(s, start, j - 1, c) + (if s[j - 1] == c && Quotes(s, start, j - 1) % 2 == 0 then 1 else 0)
  }

  /** Braces between quotes never move the depth. */
  lemma {:induction false} ScanCounts(s: String, start: nat, j: nat)
    requires start <= j <= |s|
    ensures ScanTo(s, start, j).inString <==> Quotes(s, start, j) % 2 == 1
    ensures ScanTo(s, start, j).depth == 1 + Outside(s, start, j, '{') - Outside(s, start, j, '}')
    decreases j
  {
    if j > start {
      ScanCounts(s, start, j - 1);
    }
  }

  // ---------------------------------------------------------------------------
  // Backward walk: comma and line-break flags

  /** The characters that end the backward walk. */
  predicate Stop(c: char) {
    c == ',' || c == '{' || c == '}'
  }

  predicate NoStopIn(s: String, a: nat, k: nat)
    requires a <= k <= |s|
  {
    forall m :: a <= m < k ==> !Stop(s[m])
  }

  predicate NoCloseIn(s: String, a: nat, k: nat)
    requires a <= k <= |s|
  {
    forall m :: a <= m < k ==> s[m] != '}'
  }

  predicate BlankIn(s: String, a: nat, k: nat)
    requires a <= k <= |s|
  {
    forall m :: a <= m < k ==> IsWhiteSpace(s[m])
  }

  /** A comma is needed unless, reading `s[start..k]` backwards, a `,` or `{`
      comes before any `}`. */
  predicate CommaNeeded(s: String, start: nat, k: nat)
    requires start <= k <= |s|
  {
    !exists j :: start <= j < k && (s[j] == ',' || s[j] == '{') && NoCloseIn(s, j + 1, k)
  }

  /** Reading `s[a..k]` backwards, a `\n` comes before anything but white space. */
  predicate NewlineIn(s: String, a: nat, k: nat)
    requires a <= k <= |s|
  {
    exists j :: a <= j < k && s[j] == '\n' && BlankIn(s, j + 1, k)
  }

  /** A line break is needed unless the text before the closing brace ends in a
      line break followed only by white space. */
  predicate NewlineNeeded(s: String, start: nat, k: nat)
    requires start <= k <= |s|
  {
    !NewlineIn(s, start, k)
  }

  /** The backward walk of the source, from `k - 1` down to `start`. */
  method BackwardFlags(s: String, start: nat, k: nat) returns (prependWithComma: bool, needNewLine: bool)
    requires start <= k <= |s|
    ensures prependWithComma == CommaNeeded(s, start, k)
    ensures needNewLine == NewlineNeeded(s, start, k)
  {
    prependWithComma := true;
    var done := false;
    var foundNonWhitespace := false;
    needNewLine := true;
    var i: int := k - 1;
    while i >= start && !done
      invariant start - 1 <= i < k
      invariant !done ==> prependWithComma && NoStopIn(s, i + 1, k)
      invariant !done ==> foundNonWhitespace == !BlankIn(s, i + 1, k) && needNewLine == !NewlineIn(s, i + 1, k)
      invariant done ==> start <= i + 1 < k && Stop(s[i + 1]) && NoStopIn(s, i + 2, k)
      invariant done ==> prependWithComma == (s[i + 1] == '}') && needNewLine == !NewlineIn(s, i + 2, k)
      decreases i + 1
    {
      WalkStep(s, i, k);
      var c := s[i];
      if c == ',' || c == '{' {
        prependWithComma := false;
        done := true;
      } else if c == '}' {
        done := true;
      } else if c == '\n' && !foundNonWhitespace {
        needNewLine := false;
      } else if !IsWhiteSpace(c) {
        foundNonWhitespace := true;
      }
      i := i - 1;
    }
    if done {
      StopDecides(s, start, i + 1, k);
    } else {
      NoStopDecides(s, start, k);
    }
  }

  /** How each predicate of the backward walk grows by one character. */
  lemma {:induction false} WalkStep(s: String, i: nat, k: nat)
    requires i < k <= |s|
    ensures NoStopIn(s, i, k) == (!Stop(s[i]) && NoStopIn(s, i + 1, k))
    ensures BlankIn(s, i, k) == (IsWhiteSpace(s[i]) && BlankIn(s, i + 1, k))
    ensures NewlineIn(s, i, k) == (NewlineIn(s, i + 1, k) || (s[i] == '\n' && BlankIn(s, i + 1, k)))
  {
    if NewlineIn(s, i, k) && !NewlineIn(s, i + 1, k) {
      var j :| i <= j < k && s[j] == '\n' && BlankIn(s, j + 1, k);
      assert j == i;
    }
    if s[i] == '\n' && BlankIn(s, i + 1, k) {
      assert NewlineIn(s, i, k);
    }
  }

  /** White space and a `\n` are not stop characters. */
  lemma {:induction false} StopIsNotBlank(c: char)
    requires Stop(c)
    ensures !IsWhiteSpace(c) && c != '\n'
  {
  }

  /** The walk ended on the stop character at `t`. */
  lemma {:induction false} StopDecides(s: String, start: nat, t: nat, k: nat)
    requires start <= t < k <= |s| && Stop(s[t]) && NoStopIn(s, t + 1, k)
    ensures CommaNeeded(s, start, k) == (s[t] == '}')
    ensures NewlineIn(s, start, k) == NewlineIn(s, t + 1, k)
  {
    StopIsNotBlank(s[t]);
    if s[t] == '}' {
      forall j | start <= j < k && (s[j] == ',' || s[j] == '{')
        ensures !NoCloseIn(s, j + 1, k)
      {
        assert j < t;
        assert s[t] == '}';
      }
    } else {
      assert NoCloseIn(s, t + 1, k);
    }
    if NewlineIn(s, start, k) {
      var j :| start <= j < k && s[j] == '\n' && BlankIn(s, j + 1, k);
      assert t < j;
    }
    if NewlineIn(s, t + 1, k) {
      var j :| t + 1 <= j < k && s[j] == '\n' && BlankIn(s, j + 1, k);
      assert start <= j;
    }
  }

  /** The walk ran down to `start` without meeting a stop character. */
  lemma {:induction false} NoStopDecides(s: String, start: nat, k: nat)
    requires start <= k <= |s| && NoStopIn(s, start, k)
    ensures CommaNeeded(s, start, k)
  {
    forall j | start <= j < k
      ensures !(s[j] == ',' || s[j] == '{')
    {
      assert !Stop(s[j]);
    }
  }

  // ---------------------------------------------------------------------------
  // The comma as the walk's comments mean it

  /** `j` is the last character of `s[start..k]` that is not white space. */
  predicate LastNonWhite(s: String, start: nat, k: nat, j: nat)
    requires start <= k <= |s|
  {
    start <= j < k && !IsWhiteSpace(s[j]) && BlankIn(s, j + 1, k)
  }

  /** The comma flag as the comments of the walk mean it: the new entries
      need a comma after the last entry unless that entry already ends in a
      `,`, or there is no entry at all, because the text before the brace is
      white space or ends, white space aside, in a `{`. */
  predicate IntendedComma(s: String, start: nat, k: nat)
    requires start <= k <= |s|
  {
    exists j: nat :: start <= j < k && LastNonWhite(s, start, k, j) && s[j] != ',' && s[j] != '{'
  }

  lemma {:induction false} LastNonWhiteIsUnique(s: String, start: nat, k: nat, i: nat, j: nat)
    requires start <= k <= |s| && LastNonWhite(s, start, k, i) && LastNonWhite(s, start, k, j)
    ensures i == j
  {
  }

  /** A text that is not all white space has a last character that is not. */
  lemma {:induction false} FindLastNonWhite(s: String, start: nat, k: nat) returns (j: nat)
    requires start <= k <= |s| && !IsBlank(s[start..k])
    ensures LastNonWhite(s, start, k, j)
    decreases k
  {
    var m :| 0 <= m < |s[start..k]| && !IsWhiteSpace(s[start..k][m]);
    assert s[start..k][m] == s[start + m];
    if !IsWhiteSpace(s[k - 1]) {
      j := k - 1;
    } else {
      assert s[start..k - 1][m] == s[start + m];
      j := FindLastNonWhite(s, start, k - 1);
    }
  }

  /** The corrected flag in both directions: a comma goes in exactly when the
      table holds more than white space and its text before the brace does
      not end, white space aside, in a `,` or a `{`. */
  lemma {:induction false} IntendedCommaIff(s: String, start: nat, k: nat)
    requires start <= k <= |s|
    ensures IntendedComma(s, start, k) <==>
      !IsBlank(s[start..k]) && forall j: nat :: LastNonWhite(s, start, k, j) ==> s[j] != ',' && s[j] != '{'
  {
    if IntendedComma(s, start, k) {
      var j: nat :| start <= j < k && LastNonWhite(s, start, k, j) && s[j] != ',' && s[j] != '{';
      assert s[start..k][j - start] == s[j];
      forall i: nat | LastNonWhite(s, start, k, i) ensures s[i] != ',' && s[i] != '{' {
        LastNonWhiteIsUnique(s, start, k, i, j);
      }
    } else if !IsBlank(s[start..k]) {
      var j := FindLastNonWhite(s, start, k);
    }
  }

  /** Where the last character that is not white space is itself a stop
      character, the walk as written and the corrected flag agree. */
  lemma {:induction false} AgreesAtStop(s: String, start: nat, k: nat, j: nat)
    requires start <= k <= |s| && LastNonWhite(s, start, k, j) && Stop(s[j])
    ensures CommaNeeded(s, start, k) == IntendedComma(s, start, k)
  {
    forall m | j + 1 <= m < k ensures !Stop(s[m]) {
      if Stop(s[m]) { StopIsNotBlank(s[m]); }
    }
    StopDecides(s, start, j, k);
    if IntendedComma(s, start, k) {
      var i: nat :| start <= i < k && LastNonWhite(s, start, k, i) && s[i] != ',' && s[i] != '{';
      LastNonWhiteIsUnique(s, start, k, i, j);
    }
  }

  /** The walk as written puts a comma in front of the first entry of a table
      that holds only white space: it stops just past the table's own `{`,
      never reads it, and so keeps its initial `true`. The corrected flag
      gives no comma. */
  lemma {:induction false} EmptyTableTakesComma(s: String, start: nat, k: nat)
    requires start <= k <= |s| && IsBlank(s[start..k])
    ensures CommaNeeded(s, start, k) && !IntendedComma(s, start, k)
  {
    forall m | start <= m < k ensures !Stop(s[m]) {
      assert s[start..k][m - start] == s[m];
      if Stop(s[m]) { StopIsNotBlank(s[m]); }
    }
    NoStopDecides(s, start, k);
    IntendedCommaIff(s, start, k);
  }

  /** `return { }`, whose table opens at 7 and closes at 9: the walk asks for
      a comma, so the table becomes `{ ,MUC_fail = {` after the edit. */
  lemma {:induction false} ReturnOfEmptyTable()
    ensures CommaNeeded("return { }", 8, 9) && !IntendedComma("return { }", 8, 9)
  {
    var s := "return { }";
    assert s[8..9] == " ";
    EmptyTableTakesComma(s, 8, 9);
  }

  /** `return { a = 1, b = 2 }`, whose table opens at 7 and closes at 22: the
      walk passes over `b = 2`, stops at the `,` after `1` and asks for no
      comma, so `b = 2` and `MUC_fail = {` end up with nothing between them.
      The corrected flag asks for the comma. */
  lemma {:induction false} ReturnOfTwoEntries()
    ensures !CommaNeeded("return { a = 1, b = 2 }", 8, 22) && IntendedComma("return { a = 1, b = 2 }", 8, 22)
  {
    var s := "return { a = 1, b = 2 }";
    assert s[14] == ',' && s[20] == '2';
    assert NoCloseIn(s, 15, 22) by {
      forall m | 15 <= m < 22 ensures s[m] != '}' {
        assert s[15..22] == " b = 2 ";
        assert s[m] == s[15..22][m - 15];
      }
    }
    assert LastNonWhite(s, 8, 22, 20) by {
      assert s[21] == ' ';
    }
  }

  // ---------------------------------------------------------------------------
  // The splice

  /** `String.Insert`: `t` goes in before `s[k]`, and every character of `s`
      stays, in order, around it. */
  function Insert(s: String, k: nat, t: String): (r: String)
    requires k <= |s|
    ensures |r| == |s| + |t|
    ensures r[..k] == s[..k] && r[k..k + |t|] == t && r[k + |t|..] == s[k..]
  {
    s[..k] + t + s[k..]
  }
}
