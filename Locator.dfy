/** Where the localization block goes in the localization script, and the
    edit that puts it there (LuaModifier.cs, AddLocalizationScriptCode, lines
    231-315). The regular expressions the source uses are written out as
    matchers over positions, each with the description of a match it is
    proved against. */
module Locator {
  import opened Base
  import opened Text
  import opened Payload

  /** `w` ends just before `s[j]`. */
  predicate EndsAt(s: String, w: String, j: nat) {
    |w| <= j && OccursAt(s, w, j - |w|)
  }

  lemma {:induction false} WordCharIsNotWhiteSpace(c: char)
    requires IsWordChar(c)
    ensures !IsWhiteSpace(c)
  {
  }

  // ---------------------------------------------------------------------------
  // `return\s+(\w+)\s*$`, searched from the right

  /** The variable a script returns last: the name in a match of
      `return\s+(\w+)\s*$`. Searched from the right, with `$` at the end of the
      text (or before a final line break, which `\s*` takes anyway), each
      repetition takes the whole run it can, so the match is found by reading
      the runs backwards from the end. */
  function NamedReturn(s: String): Option<String> {
    var e := |s| - TrailingWhiteSpace(s, |s|);
    var b := e - TrailingWord(s, e);
    var r := b - TrailingWhiteSpace(s, b);
    if b == e || r == b || !EndsAt(s, "return", r) then None else Some(s[b..e])
  }

  /** The text ends with `return` before `s[r]`, white space up to `b`, the name
      in `s[b..e]` and white space to the end. */
  predicate ReturnsAt(s: String, r: nat, b: nat, e: nat) {
    && r < b < e <= |s|
    && EndsAt(s, "return", r)
    && (forall k :: r <= k < b ==> IsWhiteSpace(s[k]))
    && (forall k :: b <= k < e ==> IsWordChar(s[k]))
    && (forall k :: e <= k < |s| ==> IsWhiteSpace(s[k]))
  }

  /** The matcher finds a name exactly when the text ends in a match that
      captures it. */
  lemma {:induction false} NamedReturnIff(s: String, name: String)
    ensures NamedReturn(s) == Some(name) <==>
      exists r: nat, b: nat, e: nat :: ReturnsAt(s, r, b, e) && s[b..e] == name
  {
    if NamedReturn(s) == Some(name) {
      var e := |s| - TrailingWhiteSpace(s, |s|);
      var b := e - TrailingWord(s, e);
      var r := b - TrailingWhiteSpace(s, b);
      ReturnedByRuns(s, r, b, e);
      assert ReturnsAt(s, r, b, e);
    }
    if exists r: nat, b: nat, e: nat :: ReturnsAt(s, r, b, e) && s[b..e] == name {
      var r: nat, b: nat, e: nat :| ReturnsAt(s, r, b, e) && s[b..e] == name;
      ReturnUnique(s, r, b, e);
    }
  }

  lemma {:induction false} ReturnedByRuns(s: String, r: nat, b: nat, e: nat)
    requires e == |s| - TrailingWhiteSpace(s, |s|)
    requires b == e - TrailingWord(s, e) && r == b - TrailingWhiteSpace(s, b)
    requires r < b < e && EndsAt(s, "return", r)
    ensures ReturnsAt(s, r, b, e)
  {
    TrailingWhiteSpaceRun(s, |s|);
    TrailingWordRun(s, e);
    TrailingWhiteSpaceRun(s, b);
  }

  lemma {:induction false} ReturnUnique(s: String, r: nat, b: nat, e: nat)
    requires ReturnsAt(s, r, b, e)
    ensures NamedReturn(s) == Some(s[b..e])
  {
    WordCharIsNotWhiteSpace(s[e - 1]);
    TrailingWhiteSpaceIs(s, |s|, |s| - e);
    OccurrenceCovers(s, "return", r - 6, r - 1);
    assert s[r - 1] == 'n';
    assert s[b - 1] == s[r + (b - r) - 1];
    TrailingWordIs(s, e, e - b);
    TrailingWhiteSpaceIs(s, b, b - r);
    NamedReturnFromRuns(s, r, b, e);
  }

  lemma {:induction false} NamedReturnFromRuns(s: String, r: nat, b: nat, e: nat)
    requires e <= |s| && e == |s| - TrailingWhiteSpace(s, |s|)
    requires b <= e && b == e - TrailingWord(s, e) && r == b - TrailingWhiteSpace(s, b)
    requires r < b < e && EndsAt(s, "return", r)
    ensures NamedReturn(s) == Some(s[b..e])
  {
  }

  lemma {:induction false} NamedReturnIsWord(s: String)
    requires NamedReturn(s).Some?
    ensures NamedReturn(s).value != [] && IsWordChar(NamedReturn(s).value[|NamedReturn(s).value| - 1])
  {
    var e := |s| - TrailingWhiteSpace(s, |s|);
    var b := e - TrailingWord(s, e);
    TrailingWordRun(s, e);
    assert NamedReturn(s).value[e - b - 1] == s[e - 1];
  }

  // ---------------------------------------------------------------------------
  // `{name}\s*=\s*{` and `return\s*{`, searched from the right

  /** The two openings of the returned table the source searches for: an
      assignment `name = {` of the returned variable, or `return {`. */
  datatype Opening = AssignOf(name: String) | ReturnOf

  /** The name of an assignment is not empty, so that each run of white space
      in a match stops inside the match. */
  predicate Anchored(o: Opening) {
    o.AssignOf? ==> o.name != []
  }

  /** Where the words of the opening end before the white space that precedes `{`. */
  function HeadEnd(s: String, p: nat): nat
    requires 1 <= p <= |s|
  {
    p - 1 - TrailingWhiteSpace(s, p - 1)
  }

  /** A match of the opening ends just before `s[p]`. Searched from the right,
      each `\s*` takes the whole run of white space before the character that
      follows it in the pattern, so a match is read backwards from its end. */
  predicate OpensAt(s: String, o: Opening, p: nat)
    requires p <= |s|
  {
    && 1 <= p
    && s[p - 1] == '{'
    && match o
       case ReturnOf => EndsAt(s, "return", HeadEnd(s, p))
       case AssignOf(name) => AssignEndsAt(s, name, HeadEnd(s, p))
  }

  /** `name`, white space and `=` end just before `s[c]`. */
  predicate AssignEndsAt(s: String, name: String, c: nat)
    requires c <= |s|
  {
    1 <= c && s[c - 1] == '=' && EndsAt(s, name, c - 1 - TrailingWhiteSpace(s, c - 1))
  }

  /** Where the match that ends before `s[p]` starts. */
  function OpenStart(s: String, o: Opening, p: nat): (q: nat)
    requires p <= |s| && OpensAt(s, o, p)
    ensures q < p
  {
    var c := HeadEnd(s, p);
    match o
    case ReturnOf => c - 6
    case AssignOf(name) => c - 1 - TrailingWhiteSpace(s, c - 1) - |name|
  }

  /** The match found by searching from the right: the one whose end is last. */
  function LastOpening(s: String, o: Opening, to: nat): (r: Option<nat>)
    requires to <= |s|
    ensures r.Some? ==> r.value <= to && OpensAt(s, o, r.value)
    ensures forall p :: (if r.Some? then r.value else 0) < p <= to ==> !OpensAt(s, o, p)
  {
    if to == 0 then None
    else if OpensAt(s, o, to) then Some(to)
    else LastOpening(s, o, to - 1)
  }

  /** A copy of a match's text elsewhere in `s` is itself a match. */
  lemma {:induction false} CopyOpens(s: String, o: Opening, p: nat, q: nat, q2: nat)
    requires p <= |s| && OpensAt(s, o, p) && Anchored(o)
    requires q == OpenStart(s, o, p) && OccursAt(s, s[q..p], q2)
    ensures q2 + (p - q) <= |s|
    ensures OpensAt(s, o, q2 + (p - q)) && OpenStart(s, o, q2 + (p - q)) == q2
  {
    match o
    case ReturnOf => CopyOpensReturn(s, p, q, q2);
    case AssignOf(name) => CopyOpensAssign(s, name, p, q, q2);
  }

  lemma {:induction false} CopyOpensReturn(s: String, p: nat, q: nat, q2: nat)
    requires p <= |s| && OpensAt(s, ReturnOf, p)
    requires q == OpenStart(s, ReturnOf, p) && OccursAt(s, s[q..p], q2)
    ensures q2 + (p - q) <= |s|
    ensures OpensAt(s, ReturnOf, q2 + (p - q)) && OpenStart(s, ReturnOf, q2 + (p - q)) == q2
  {
    var c := HeadEnd(s, p);
    CopiedRegion(s, q, p, q2);
    CopiedBrace(s, q, p, q2, c);
    CopiedOccurrence(s, q, p, q2, "return", q);
  }

  lemma {:induction false} CopyOpensAssign(s: String, name: String, p: nat, q: nat, q2: nat)
    requires p <= |s| && OpensAt(s, AssignOf(name), p) && name != []
    requires q == OpenStart(s, AssignOf(name), p) && OccursAt(s, s[q..p], q2)
    ensures q2 + (p - q) <= |s|
    ensures OpensAt(s, AssignOf(name), q2 + (p - q)) && OpenStart(s, AssignOf(name), q2 + (p - q)) == q2
  {
    var c := HeadEnd(s, p);
    CopiedRegion(s, q, p, q2);
    CopiedBrace(s, q, p, q2, c);
    CopiedAssign(s, q, p, q2, name, c);
  }

  /** The brace and the white space before it are found again in the copy. */
  lemma {:induction false} CopiedBrace(s: String, q: nat, p: nat, q2: nat, c: nat)
    requires q < p <= |s| && q2 + (p - q) <= |s|
    requires forall k :: q <= k < p ==> s[k - q + q2] == s[k]
    requires s[p - 1] == '{' && c == HeadEnd(s, p) && q < c
    ensures s[q2 + (p - q) - 1] == '{' && HeadEnd(s, q2 + (p - q)) == c - q + q2
  {
    CopiedRun(s, q, p, q2, p - 1, TrailingWhiteSpace(s, p - 1));
    assert s[q2 + (p - q) - 1] == s[p - 1];
  }

  /** The `=`, the white space before it and the name are found again in the copy. */
  lemma {:induction false} CopiedAssign(s: String, q: nat, p: nat, q2: nat, name: String, c: nat)
    requires q < p <= |s| && q2 + (p - q) <= |s|
    requires forall k :: q <= k < p ==> s[k - q + q2] == s[k]
    requires c <= p && AssignEndsAt(s, name, c)
    requires name != [] && q == c - 1 - TrailingWhiteSpace(s, c - 1) - |name|
    ensures c - q + q2 <= |s| && AssignEndsAt(s, name, c - q + q2)
    ensures TrailingWhiteSpace(s, c - q + q2 - 1) == TrailingWhiteSpace(s, c - 1)
  {
    var d2 := TrailingWhiteSpace(s, c - 1);
    assert s[c - q + q2 - 1] == s[c - 1];
    CopiedRun(s, q, p, q2, c - 1, d2);
    CopiedOccurrence(s, q, p, q2, name, q);
  }

  /** `s[q..p]` occurs at `q2`, position by position. */
  lemma {:induction false} CopiedRegion(s: String, q: nat, p: nat, q2: nat)
    requires q <= p <= |s| && OccursAt(s, s[q..p], q2)
    ensures q2 + (p - q) <= |s|
    ensures forall k :: q <= k < p ==> s[k - q + q2] == s[k]
  {
    forall k | q <= k < p
      ensures s[k - q + q2] == s[k]
    {
      OccurrenceCovers(s, s[q..p], q2, k - q + q2);
    }
  }

  /** An occurrence inside a copied region occurs in the copy too. */
  lemma {:induction false} CopiedOccurrence(s: String, q: nat, p: nat, q2: nat, w: String, i: nat)
    requires q <= p <= |s| && q2 + (p - q) <= |s|
    requires forall k :: q <= k < p ==> s[k - q + q2] == s[k]
    requires q <= i && i + |w| <= p && OccursAt(s, w, i)
    ensures OccursAt(s, w, i - q + q2)
  {
    var i2 := i - q + q2;
    forall k | 0 <= k < |w|
      ensures s[i2..i2 + |w|][k] == w[k]
    {
      OccurrenceCovers(s, w, i, i + k);
    }
    assert s[i2..i2 + |w|] == w;
  }

  /** A run of white space that ends before `s[j]` and stops inside a copied
      region has the same length in the copy. */
  lemma {:induction false} CopiedRun(s: String, q: nat, p: nat, q2: nat, j: nat, n: nat)
    requires q <= p <= |s| && q2 + (p - q) <= |s|
    requires forall k :: q <= k < p ==> s[k - q + q2] == s[k]
    requires q + n < j <= p
    requires TrailingWhiteSpace(s, j) == n
    ensures TrailingWhiteSpace(s, j - q + q2) == n
  {
    TrailingWhiteSpaceRun(s, j);
    var j2 := j - q + q2;
    assert s[j2 - n - 1] == s[j - n - 1];
    forall k | j2 - n <= k < j2
      ensures IsWhiteSpace(s[k])
    {
      assert s[k] == s[k + q - q2];
    }
    TrailingWhiteSpaceIs(s, j2, n);
  }

  // ---------------------------------------------------------------------------
  // Where the forward scan starts

  /** The text of the match is not found again after the match: any later copy
      would be a later match. So searching the text for the match's value from
      the right finds the match itself. */
  lemma {:induction false} LastIsTheMatch(s: String, o: Opening, p: nat)
    requires p <= |s| && Anchored(o) && LastOpening(s, o, |s|) == Some(p)
    ensures LastIndexOf(s, s[OpenStart(s, o, p)..p]) == OpenStart(s, o, p)
  {
    var q := OpenStart(s, o, p);
    var v := s[q..p];
    assert OccursAt(s, v, q);
    var r := LastIndexOf(s, v);
    if r != q {
      assert q < r;
      CopyOpens(s, o, p, q, r);
    }
  }

  /** `LastIndexOf(match.Value) + match.Value.Length`, for the last match: the
      index just after its `{`. */
  function ScanStart(s: String, o: Opening, p: nat): (start: nat)
    requires p <= |s| && Anchored(o) && LastOpening(s, o, |s|) == Some(p)
    ensures start == p
  {
    var v := s[OpenStart(s, o, p)..p];
    LastIsTheMatch(s, o, p);
    LastIndexOf(s, v) + |v|
  }

  /** Which opening the source looks for: the assignment of the returned
      variable when the text ends in `return name`, otherwise `return {`. */
  function TableOpening(s: String): (o: Opening)
    ensures Anchored(o)
  {
    match NamedReturn(s)
    case Some(name) => NamedReturnIsWord(s); AssignOf(name)
    case None => ReturnOf
  }

  /** The index just after the `{` that opens the returned table, or, when
      the opening the source looks for is absent, that opening. */
  function TableStart(s: String): (r: Result<nat, Opening>)
    ensures r.Ok? ==> r.value <= |s| && OpensAt(s, TableOpening(s), r.value)
    ensures r.Ok? ==> forall p :: r.value < p <= |s| ==> !OpensAt(s, TableOpening(s), p)
    ensures r.Err? <==> forall p :: 0 < p <= |s| ==> !OpensAt(s, TableOpening(s), p)
    ensures r.Err? ==> r.error == TableOpening(s)
  {
    var o := TableOpening(s);
    match LastOpening(s, o, |s|)
    case Some(p) => Ok(ScanStart(s, o, p))
    case None => Err(o)
  }
}
