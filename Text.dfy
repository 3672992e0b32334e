/** Character- and line-level text operations of the .NET base library that the
    modifier relies on, stated over `seq<char>`. */
module Text {
  import opened Base

  /** `char.IsWhiteSpace`, which is also the regular-expression class `\s`:
      the control characters U+0009..U+000D and U+0085 and the Unicode
      space, line and paragraph separators. */
  predicate IsWhiteSpace(c: char) {
    ('\t' <= c <= '\r') || c == ' ' || c == '\U{0085}' || c == '\U{00A0}' || c == '\U{1680}'
    || ('\U{2000}' <= c <= '\U{200A}') || c == '\U{2028}' || c == '\U{2029}'
    || c == '\U{202F}' || c == '\U{205F}' || c == '\U{3000}'
  }

  /** `string.IsNullOrWhiteSpace` on a non-null string. */
  predicate IsBlank(s: String) {
    forall i :: 0 <= i < |s| ==> IsWhiteSpace(s[i])
  }

  /** The regular-expression class `\w`, restricted to ASCII. */
  predicate IsWordChar(c: char) {
    ('a' <= c <= 'z') || ('A' <= c <= 'Z') || ('0' <= c <= '9') || c == '_'
  }

  predicate OccursAt(s: String, w: String, i: nat) {
    i + |w| <= |s| && s[i..i + |w|] == w
  }

  /** Ordinal `string.Contains`. */
  predicate Contains(s: String, w: String) {
    exists i: nat :: i + |w| <= |s| && OccursAt(s, w, i)
  }

  predicate EndsWith(s: String, w: String) {
    |w| <= |s| && s[|s| - |w|..] == w
  }

  /** Ordinal `string.IndexOf`: the first position at which `w` occurs, searching from `from`. */
  function IndexFrom(s: String, w: String, from: nat): (r: Option<nat>)
    requires from <= |s|
    ensures r.Some? ==> from <= r.value && OccursAt(s, w, r.value)
    ensures forall j: nat :: from <= j && (r.None? || j < r.value) ==> !OccursAt(s, w, j)
    decreases |s| - from
  {
    if from + |w| > |s| then None
    else if s[from..from + |w|] == w then Some(from)
    else IndexFrom(s, w, from + 1)
  }

  function IndexOf(s: String, w: String): (r: nat)
    requires Contains(s, w)
    ensures OccursAt(s, w, r)
    ensures forall j: nat :: j < r ==> !OccursAt(s, w, j)
  {
    var k: nat :| k + |w| <= |s| && OccursAt(s, w, k);
    var found := IndexFrom(s, w, 0);
    found.value
  }

  /** The last position at which `w` occurs ending at or before `to`. */
  function LastIndexTo(s: String, w: String, to: nat): (r: Option<nat>)
    requires to <= |s|
    ensures r.Some? ==> r.value + |w| <= to && OccursAt(s, w, r.value)
    ensures forall j: nat :: j + |w| <= to && (r.None? || r.value < j) ==> !OccursAt(s, w, j)
  {
    if to < |w| then None
    else if s[to - |w|..to] == w then Some(to - |w|)
    else LastIndexTo(s, w, to - 1)
  }

  /** Ordinal `string.LastIndexOf`: the last position at which `w` occurs, or -1. */
  function LastIndexOf(s: String, w: String): (r: int)
    ensures r == -1 || (0 <= r && OccursAt(s, w, r))
    ensures forall j: nat :: r < j ==> !OccursAt(s, w, j)
  {
    match LastIndexTo(s, w, |s|)
    case Some(i) => i
    case None => -1
  }

  /** The text before the first occurrence of `w` does not contain `w`. */
  lemma {:induction false} PrefixBeforeFirstOccurrence(s: String, w: String)
    requires w != [] && Contains(s, w)
    ensures !Contains(s[..IndexOf(s, w)], w)
  {
    var p := s[..IndexOf(s, w)];
    forall i: nat | i + |w| <= |p|
      ensures !OccursAt(p, w, i)
    {
      assert p[i..i + |w|] == s[i..i + |w|];
      assert !OccursAt(s, w, i);
    }
  }

  predicate NoNewline(s: String) {
    '\n' !in s
  }

  /** The position of the first line terminator. */
  function FirstNewline(s: String): (k: nat)
    requires '\n' in s
    ensures k < |s| && s[k] == '\n' && NoNewline(s[..k])
  {
    if s[0] == '\n' then 0
    else
      assert '\n' in s[1..] by { var j :| 0 <= j < |s| && s[j] == '\n'; assert s[1..][j - 1] == '\n'; }
      var k := FirstNewline(s[1..]) + 1;
      assert s[..k] == [s[0]] + s[1..][..k - 1];
      k
  }

  /** Splitting on '\n', keeping every (possibly empty) piece: `Split("a\n") == ["a", ""]`. */
  function Split(s: String): (r: seq<String>)
    ensures |r| >= 1
    decreases |s|
  {
    if '\n' !in s then [s]
    else
      var k := FirstNewline(s);
      [s[..k]] + Split(s[k + 1..])
  }

  /** The lines a `StreamReader` (or `File.ReadLines`) yields: the pieces of
      `Split`, except that a final line terminator does not start a further line. */
  function Lines(s: String): seq<String> {
    if s == [] then []
    else
      var p := Split(s);
      if p[|p| - 1] == [] then p[..|p| - 1] else p
  }

  /** What a `StreamWriter` holds after one `WriteLine` per element. */
  function JoinLines(ls: seq<String>): (r: String)
    ensures ls == [] <==> r == []
  {
    if ls == [] then [] else ls[0] + "\n" + JoinLines(ls[1..])
  }

  /** One step of Split, stated on the first terminator itself: a local copy
      of its position makes the verifier search much longer for the same fact. */
  lemma {:induction false} SplitUnfold(s: String)
    requires '\n' in s
    ensures Split(s) == [s[..FirstNewline(s)]] + Split(s[FirstNewline(s) + 1..])
  {
  }

  lemma {:induction false} FirstNewlineAfterLine(a: String, b: String)
    requires NoNewline(a)
    ensures '\n' in a + "\n" + b && FirstNewline(a + "\n" + b) == |a|
  {
    var s := a + "\n" + b;
    assert s[|a|] == '\n';
    var k := FirstNewline(s);
    forall j | 0 <= j < |a|
      ensures s[j] != '\n'
    {
      assert s[j] == a[j];
    }
    NoNewlineBefore(s, k, |a|);
  }

  lemma {:induction false} NoNewlineBefore(s: String, k: nat, j: nat)
    requires k <= |s| && NoNewline(s[..k])
    ensures j < k ==> s[j] != '\n'
  {
    if j < k {
      assert s[..k][j] == s[j];
    }
  }

  /** A line followed by a terminator is the first piece. */
  lemma {:induction false} SplitAtNewline(a: String, b: String)
    requires NoNewline(a)
    ensures Split(a + "\n" + b) == [a] + Split(b)
  {
    FirstNewlineAfterLine(a, b);
    var s := a + "\n" + b;
    assert s[..|a|] == a;
    assert s[|a| + 1..] == b;
  }

  lemma {:induction false} SplitAcrossNewline(a: String, b: String)
    ensures Split(a + "\n" + b) == Split(a) + Split(b)
    decreases |a|
  {
    if '\n' !in a {
      SplitAtNewline(a, b);
    } else {
      var k := FirstNewline(a);
      SplitUnfold(a);
      var a1, a2 := a[..k], a[k + 1..];
      assert a == a1 + "\n" + a2;
      assert a + "\n" + b == a1 + "\n" + (a2 + "\n" + b);
      SplitAtNewline(a1, a2 + "\n" + b);
      SplitAcrossNewline(a2, b);
      Associative([a1], Split(a2), Split(b));
    }
  }

  lemma {:induction false} SplitOfJoin(ls: seq<String>)
    requires forall i :: 0 <= i < |ls| ==> NoNewline(ls[i])
    ensures Split(JoinLines(ls)) == ls + [[]]
  {
    SplitOfJoinThen(ls, []);
    assert JoinLines(ls) + [] == JoinLines(ls);
  }

  /** Terminated lines followed by further text: the lines come first. */
  lemma {:induction false} SplitOfJoinThen(ls: seq<String>, x: String)
    requires forall i :: 0 <= i < |ls| ==> NoNewline(ls[i])
    ensures Split(JoinLines(ls) + x) == ls + Split(x)
    decreases |ls|
  {
    if ls == [] {
      assert JoinLines(ls) + x == x;
    } else {
      var h, t := ls[0], ls[1..];
      var rest := JoinLines(t) + x;
      assert JoinLines(ls) + x == h + "\n" + rest;
      assert NoNewline(h);
      SplitAtNewline(h, rest);
      assert forall i :: 0 <= i < |t| ==> NoNewline(t[i]) by {
        forall i | 0 <= i < |t|
          ensures NoNewline(t[i])
        {
          assert t[i] == ls[i + 1];
        }
      }
      SplitOfJoinThen(t, x);
      assert ls + Split(x) == [h] + (t + Split(x)) by {
        assert ls == [h] + t;
        Associative([h], t, Split(x));
      }
    }
  }

  /** No line of `ls` holds the character `c`. */
  predicate LinesLack(ls: seq<String>, c: char) {
    forall i :: 0 <= i < |ls| ==> c !in ls[i]
  }

  lemma {:induction false} LinesLackAppend(a: seq<String>, b: seq<String>, c: char)
    requires LinesLack(a, c) && LinesLack(b, c)
    ensures LinesLack(a + b, c)
  {
    forall i | 0 <= i < |a + b|
      ensures c !in (a + b)[i]
    {
      if i < |a| {
        assert (a + b)[i] == a[i];
      } else {
        assert (a + b)[i] == b[i - |a|];
      }
    }
  }

  /** Writing two runs of lines one after the other. */
  lemma {:induction false} JoinLinesAppend(a: seq<String>, b: seq<String>)
    ensures JoinLines(a + b) == JoinLines(a) + JoinLines(b)
    decreases |a|
  {
    if a == [] {
      assert a + b == b;
    } else {
      assert (a + b)[1..] == a[1..] + b;
      JoinLinesAppend(a[1..], b);
      Associative(a[0] + "\n", JoinLines(a[1..]), JoinLines(b));
    }
  }

  /** Text without a line terminator, appended, extends the last piece. */
  lemma {:induction false} SplitThenText(a: String, x: String)
    requires NoNewline(x)
    ensures var p := Split(a); Split(a + x) == p[..|p| - 1] + [p[|p| - 1] + x]
    decreases |a|
  {
    if '\n' in a {
      var k := FirstNewline(a);
      SplitUnfold(a);
      var a1, a2 := a[..k], a[k + 1..];
      FirstPieces(a, x, k);
      SplitThenText(a2, x);
      ExtendLast(a1, Split(a2), x);
    }
  }

  /** The first piece of `a` is also the first piece of `a + x`. */
  lemma {:induction false} FirstPieces(a: String, x: String, k: nat)
    requires '\n' in a && k == FirstNewline(a)
    ensures Split(a) == [a[..k]] + Split(a[k + 1..])
    ensures Split(a + x) == [a[..k]] + Split(a[k + 1..] + x)
  {
    SplitUnfold(a);
    var a1, a2 := a[..k], a[k + 1..];
    AroundNewline(a, k);
    assert a + x == a1 + "\n" + (a2 + x);
    SplitAtNewline(a1, a2 + x);
  }

  lemma {:induction false} ExtendLast(h: String, q: seq<String>, x: String)
    requires q != []
    ensures var p := [h] + q; [h] + (q[..|q| - 1] + [q[|q| - 1] + x]) == p[..|p| - 1] + [p[|p| - 1] + x]
  {
    var p := [h] + q;
    assert p[..|p| - 1] == [h] + q[..|q| - 1];
  }

  /** A text is what comes before a line terminator in it, the terminator and
      what comes after. */
  lemma {:induction false} AroundNewline(s: String, k: nat)
    requires k < |s| && s[k] == '\n'
    ensures s == s[..k] + "\n" + s[k + 1..]
  {
    assert s == s[..k] + [s[k]] + s[k + 1..];
  }

  /** Writing the pieces of a text as lines gives the text and a final terminator. */
  lemma {:induction false} JoinOfSplit(s: String)
    ensures JoinLines(Split(s)) == s + "\n"
    decreases |s|
  {
    if '\n' in s {
      var k := FirstNewline(s);
      SplitUnfold(s);
      var a, b := s[..k], s[k + 1..];
      AroundNewline(s, k);
      SplitAtNewline(a, b);
      JoinOfSplit(b);
      assert ([a] + Split(b))[1..] == Split(b);
    } else {
      assert Split(s)[1..] == [];
    }
  }

  /** The last piece is empty exactly when the text ends in a line terminator. */
  lemma {:induction false} LastPieceEmpty(s: String)
    requires s != []
    ensures var p := Split(s); p[|p| - 1] == [] <==> s[|s| - 1] == '\n'
    decreases |s|
  {
    if '\n' in s {
      LastPieceOfTail(s);
      AfterFirstNewline(s);
      var b := s[FirstNewline(s) + 1..];
      if b != [] {
        LastPieceEmpty(b);
      } else {
        assert Split(b) == [[]];
      }
    } else {
      assert s[|s| - 1] in s;
    }
  }

  /** Past the first line terminator, the last piece is that of the rest. */
  lemma {:induction false} LastPieceOfTail(s: String)
    requires '\n' in s
    ensures var p, q := Split(s), Split(s[FirstNewline(s) + 1..]); p[|p| - 1] == q[|q| - 1]
  {
    SplitUnfold(s);
    LastOfAppend([s[..FirstNewline(s)]], Split(s[FirstNewline(s) + 1..]));
  }

  /** The text after the first line terminator is shorter, ends as the whole
      text does, and is empty only when that terminator is the last character. */
  lemma AfterFirstNewline(s: String)
    requires '\n' in s
    ensures var b := s[FirstNewline(s) + 1..];
      && |b| < |s|
      && (b != [] ==> b[|b| - 1] == s[|s| - 1])
      && (b == [] ==> s[|s| - 1] == '\n')
  {
  }

  lemma {:induction false} LastOfAppend<T>(x: seq<T>, y: seq<T>)
    requires y != []
    ensures (x + y)[|x + y| - 1] == y[|y| - 1]
  {
  }

  /** A text ending in a line terminator, as a writer leaves it. */
  function Terminated(s: String): (r: String)
    ensures r == s || r == s + "\n"
  {
    if s != [] && s[|s| - 1] == '\n' then s else s + "\n"
  }

  /** Reading a text and writing its lines back adds a final line terminator
      when it lacks one, and changes nothing else. */
  lemma {:induction false} JoinOfLines(s: String)
    requires s != []
    ensures JoinLines(Lines(s)) == Terminated(s)
  {
    var p := Split(s);
    JoinOfSplit(s);
    LastPieceEmpty(s);
    if p[|p| - 1] == [] {
      var q := p[..|p| - 1];
      assert p == q + [[]];
      JoinLinesAppend(q, [[]]);
      assert JoinLines([[]]) == "\n";
      assert JoinLines(q) == (s + "\n")[..|s|];
      assert (s + "\n")[..|s|] == s;
    }
  }

  /** When the pieces of a non-empty text end with those of a non-empty
      suffix, so do the lines a reader yields. */
  lemma {:induction false} LinesOfSplit(s: String, ps: seq<String>, y: String)
    requires s != [] && y != [] && Split(s) == ps + Split(y)
    ensures Lines(s) == ps + Lines(y)
  {
    var q := Split(y);
    assert (ps + q)[|ps + q| - 1] == q[|q| - 1];
    assert (ps + q)[..|ps + q| - 1] == ps + q[..|q| - 1];
  }

  /** A word absent from a text is absent from each of its slices. */
  lemma {:induction false} AbsentFromSlice(s: String, a: nat, b: nat, w: String)
    requires a <= b <= |s| && !Contains(s, w)
    ensures !Contains(s[a..b], w)
  {
    var t := s[a..b];
    forall i: nat | i + |w| <= |t|
      ensures !OccursAt(t, w, i)
    {
      OccurrenceShift(s, t, w, i, a);
    }
  }

  /** The pieces of white space are white space. */
  lemma {:induction false} BlankPieces(s: String, i: nat)
    requires IsBlank(s) && i < |Split(s)|
    ensures IsBlank(Split(s)[i])
  {
    var piece := Split(s)[i];
    forall m | 0 <= m < |piece|
      ensures IsWhiteSpace(piece[m])
    {
      CharsOfPiece(s, i, piece[m]);
      var j :| 0 <= j < |s| && s[j] == piece[m];
    }
  }

  /** Writing lines and reading them back gives the same lines. */
  lemma {:induction false} LinesOfJoin(ls: seq<String>)
    requires forall i :: 0 <= i < |ls| ==> NoNewline(ls[i])
    ensures Lines(JoinLines(ls)) == ls
  {
    SplitOfJoin(ls);
  }

  lemma {:induction false} SplitHasNoNewline(s: String)
    ensures forall i :: 0 <= i < |Split(s)| ==> NoNewline(Split(s)[i])
    decreases |s|
  {
    if '\n' in s {
      var k := FirstNewline(s);
      SplitUnfold(s);
      SplitHasNoNewline(s[k + 1..]);
    }
  }

  /** No line that a reader yields contains a line terminator. */
  lemma {:induction false} LinesHaveNoNewline(s: String)
    ensures forall i :: 0 <= i < |Lines(s)| ==> NoNewline(Lines(s)[i])
  {
    SplitHasNoNewline(s);
  }

  lemma {:induction false} OccurrenceShift(s: String, t: String, w: String, i: nat, d: nat)
    requires i + d + |w| <= |s| && i + |w| <= |t|
    requires forall k :: i <= k < i + |w| ==> s[k + d] == t[k]
    ensures OccursAt(s, w, i + d) <==> OccursAt(t, w, i)
  {
    var u, v := s[i + d..i + d + |w|], t[i..i + |w|];
    assert forall k :: 0 <= k < |w| ==> u[k] == s[k + i + d] && v[k] == t[k + i];
    assert u == v;
  }

  lemma {:induction false} OccurrenceCovers(s: String, w: String, i: nat, k: nat)
    requires OccursAt(s, w, i) && i <= k < i + |w|
    ensures w[k - i] == s[k]
  {
    assert s[i..i + |w|][k - i] == s[k];
  }

  /** An occurrence in a prefix is an occurrence in the whole. */
  lemma {:induction false} ContainsInPrefix(s: String, n: nat, w: String)
    requires n <= |s| && Contains(s[..n], w)
    ensures Contains(s, w)
  {
    var i: nat :| i + |w| <= n && OccursAt(s[..n], w, i);
    assert s[..n][i..i + |w|] == s[i..i + |w|];
    assert OccursAt(s, w, i);
  }

  /** When a character of `h` occurs neither in `e` nor earlier in `h`, the
      first occurrence of `h` in `e + h` is the one at the end. */
  lemma {:induction false} FirstOccurrenceAfter(e: String, h: String, n: nat)
    requires n < |h| && h[n] !in e && h[n] !in h[..n]
    ensures Contains(e + h, h) && IndexOf(e + h, h) == |e|
  {
    var s := e + h;
    assert s[|e|..|e| + |h|] == h;
    assert OccursAt(s, h, |e|);
    forall j: nat | j < |e| ensures !OccursAt(s, h, j) {
      if j + n < |e| {
        assert s[j + n] == e[j + n];
      } else {
        assert s[j + n] == h[..n][j + n - |e|];
      }
      assert s[j..j + |h|][n] == s[j + n];
    }
    var k := IndexOf(s, h);
    assert !(k < |e|) && !(|e| < k);
  }

  /** Nothing in front of the first occurrence holds another. */
  lemma {:induction false} BeforeFirstOccurrence(s: String, w: String)
    requires Contains(s, w) && w != []
    ensures !Contains(s[..IndexOf(s, w)], w)
  {
    var k := IndexOf(s, w);
    forall j: nat | j + |w| <= k ensures !OccursAt(s[..k], w, j) {
      assert s[..k][j..j + |w|] == s[j..j + |w|];
      assert !OccursAt(s, w, j);
    }
  }

  /** A word without '\n' occurs in `a + "\n" + b` exactly when it occurs in `a` or in `b`. */
  lemma {:induction false} ContainsAcrossNewline(a: String, b: String, w: String)
    requires NoNewline(w)
    ensures Contains(a + "\n" + b, w) <==> Contains(a, w) || Contains(b, w)
  {
    if Contains(a + "\n" + b, w) {
      ContainedInOneSide(a, b, w);
    }
    if Contains(a, w) {
      var i: nat :| i + |w| <= |a| && OccursAt(a, w, i);
      OccurrenceShift(a + "\n" + b, a, w, i, 0);
    }
    if Contains(b, w) {
      var j: nat :| j + |w| <= |b| && OccursAt(b, w, j);
      OccurrenceShift(a + "\n" + b, b, w, j, |a| + 1);
    }
  }

  lemma {:induction false} ContainedInOneSide(a: String, b: String, w: String)
    requires NoNewline(w) && Contains(a + "\n" + b, w)
    ensures Contains(a, w) || Contains(b, w)
  {
    var s := a + "\n" + b;
    var i: nat :| i + |w| <= |s| && OccursAt(s, w, i);
    if i + |w| <= |a| {
      OccurrenceShift(s, a, w, i, 0);
    } else if i > |a| {
      OccurrenceShift(s, b, w, i - |a| - 1, |a| + 1);
    } else {
      OccurrenceCovers(s, w, i, |a|);
      assert false;
    }
  }

  /** Some element of `ps` contains `w`. */
  predicate SomeContains(ps: seq<String>, w: String) {
    exists i :: 0 <= i < |ps| && Contains(ps[i], w)
  }

  /** A word without '\n' occurs in a text exactly when it occurs in one of its pieces. */
  lemma {:induction false} ContainsIffSomePiece(s: String, w: String)
    requires NoNewline(w)
    ensures Contains(s, w) <==> SomeContains(Split(s), w)
    decreases |s|
  {
    if '\n' !in s {
      var p := Split(s);
      assert p == [s];
      SomePieceOfCons(p, s, [], w);
    } else {
      var k := FirstNewline(s);
      SplitUnfold(s);
      var a, b := s[..k], s[k + 1..];
      AroundNewline(s, k);
      assert Split(s) == [a] + Split(b);
      ContainsAcrossNewline(a, b, w);
      ContainsIffSomePiece(b, w);
      SomePieceOfCons(Split(s), a, Split(b), w);
    }
  }

  lemma {:induction false} SomePieceOfCons(ps: seq<String>, a: String, rest: seq<String>, w: String)
    requires ps == [a] + rest
    ensures SomeContains(ps, w) <==> Contains(a, w) || SomeContains(rest, w)
  {
    if Contains(a, w) {
      assert ps[0] == a;
    }
    if exists i :: 0 <= i < |rest| && Contains(rest[i], w) {
      var i :| 0 <= i < |rest| && Contains(rest[i], w);
      assert ps[i + 1] == rest[i];
    }
    if exists i :: 0 <= i < |ps| && Contains(ps[i], w) {
      var i :| 0 <= i < |ps| && Contains(ps[i], w);
      if i > 0 {
        assert ps[i] == rest[i - 1];
      }
    }
  }

  /** A line that a reader yields contains `w` exactly when the whole text contains it. */
  lemma {:induction false} ContainsIffSomeLine(s: String, w: String)
    requires NoNewline(w) && w != []
    ensures Contains(s, w) <==> SomeContains(Lines(s), w)
  {
    ContainsIffSomePiece(s, w);
    if s != [] {
      var p := Split(s);
      if p[|p| - 1] == [] {
        var ls := p[..|p| - 1];
        assert Lines(s) == ls;
        assert !Contains(p[|p| - 1], w);
        if exists i :: 0 <= i < |p| && Contains(p[i], w) {
          var i :| 0 <= i < |p| && Contains(p[i], w);
          assert i < |p| - 1;
          assert ls[i] == p[i];
        }
        if exists i :: 0 <= i < |ls| && Contains(ls[i], w) {
          var i :| 0 <= i < |ls| && Contains(ls[i], w);
          assert ls[i] == p[i];
        }
      } else {
        assert Lines(s) == p;
      }
    }
  }

  /** Length of the longest run of white space that ends just before `s[j]`. */
  function TrailingWhiteSpace(s: String, j: nat): (n: nat)
    requires j <= |s|
    ensures n <= j
  {
    if j == 0 || !IsWhiteSpace(s[j - 1]) then 0 else TrailingWhiteSpace(s, j - 1) + 1
  }

  /** Length of the longest run of word characters that ends just before `s[j]`. */
  function TrailingWord(s: String, j: nat): (n: nat)
    requires j <= |s|
    ensures n <= j
  {
    if j == 0 || !IsWordChar(s[j - 1]) then 0 else TrailingWord(s, j - 1) + 1
  }

  /** The run TrailingWhiteSpace measures is white space and is preceded by the
      start of `s` or a character that is not. */
  lemma {:induction false} TrailingWhiteSpaceRun(s: String, j: nat)
    requires j <= |s|
    ensures forall k :: j - TrailingWhiteSpace(s, j) <= k < j ==> IsWhiteSpace(s[k])
    ensures TrailingWhiteSpace(s, j) < j ==> !IsWhiteSpace(s[j - TrailingWhiteSpace(s, j) - 1])
  {
    if j > 0 && IsWhiteSpace(s[j - 1]) {
      TrailingWhiteSpaceRun(s, j - 1);
    }
  }

  /** The run TrailingWord measures is made of word characters and is preceded
      by the start of `s` or a character that is not one. */
  lemma {:induction false} TrailingWordRun(s: String, j: nat)
    requires j <= |s|
    ensures forall k :: j - TrailingWord(s, j) <= k < j ==> IsWordChar(s[k])
    ensures TrailingWord(s, j) < j ==> !IsWordChar(s[j - TrailingWord(s, j) - 1])
  {
    if j > 0 && IsWordChar(s[j - 1]) {
      TrailingWordRun(s, j - 1);
    }
  }

  /** A run of white space ending before `s[j]` that is preceded by a character
      that is not white space, or by the start, is the longest one. */
  lemma {:induction false} TrailingWhiteSpaceIs(s: String, j: nat, n: nat)
    requires n <= j <= |s|
    requires forall k :: j - n <= k < j ==> IsWhiteSpace(s[k])
    requires n < j ==> !IsWhiteSpace(s[j - n - 1])
    ensures TrailingWhiteSpace(s, j) == n
    decreases n
  {
    if n > 0 {
      TrailingWhiteSpaceIs(s, j - 1, n - 1);
    }
  }

  /** A run of word characters ending before `s[j]` that is preceded by a
      character that is not one, or by the start, is the longest one. */
  lemma {:induction false} TrailingWordIs(s: String, j: nat, n: nat)
    requires n <= j <= |s|
    requires forall k :: j - n <= k < j ==> IsWordChar(s[k])
    requires n < j ==> !IsWordChar(s[j - n - 1])
    ensures TrailingWord(s, j) == n
    decreases n
  {
    if n > 0 {
      TrailingWordIs(s, j - 1, n - 1);
    }
  }

  /** Length of the longest run of white space that starts at `s[i]`. */
  function LeadingWhiteSpace(s: String, i: nat): (n: nat)
    requires i <= |s|
    ensures i + n <= |s|
    decreases |s| - i
  {
    if i == |s| || !IsWhiteSpace(s[i]) then 0 else LeadingWhiteSpace(s, i + 1) + 1
  }

  /** Length of the longest run of word characters that starts at `s[i]`. */
  function LeadingWord(s: String, i: nat): (n: nat)
    requires i <= |s|
    ensures i + n <= |s|
    decreases |s| - i
  {
    if i == |s| || !IsWordChar(s[i]) then 0 else LeadingWord(s, i + 1) + 1
  }

  /** The run LeadingWhiteSpace measures is white space and is followed by the
      end of `s` or a character that is not. */
  lemma {:induction false} LeadingWhiteSpaceRun(s: String, i: nat)
    requires i <= |s|
    ensures forall j :: i <= j < i + LeadingWhiteSpace(s, i) ==> IsWhiteSpace(s[j])
    ensures i + LeadingWhiteSpace(s, i) < |s| ==> !IsWhiteSpace(s[i + LeadingWhiteSpace(s, i)])
    decreases |s| - i
  {
    if i < |s| && IsWhiteSpace(s[i]) {
      LeadingWhiteSpaceRun(s, i + 1);
    }
  }

  /** The run LeadingWord measures is made of word characters and is followed by
      the end of `s` or a character that is not one. */
  lemma {:induction false} LeadingWordRun(s: String, i: nat)
    requires i <= |s|
    ensures forall j :: i <= j < i + LeadingWord(s, i) ==> IsWordChar(s[j])
    ensures i + LeadingWord(s, i) < |s| ==> !IsWordChar(s[i + LeadingWord(s, i)])
    decreases |s| - i
  {
    if i < |s| && IsWordChar(s[i]) {
      LeadingWordRun(s, i + 1);
    }
  }

  /** A run of white space from `i` that stops before a character that is not
      white space is the longest one. */
  lemma {:induction false} LeadingWhiteSpaceIs(s: String, i: nat, n: nat)
    requires i + n <= |s|
    requires forall j :: i <= j < i + n ==> IsWhiteSpace(s[j])
    requires i + n < |s| ==> !IsWhiteSpace(s[i + n])
    ensures LeadingWhiteSpace(s, i) == n
    decreases n
  {
    if n > 0 {
      LeadingWhiteSpaceIs(s, i + 1, n - 1);
    }
  }

  /** A run of word characters from `i` that stops before a character that is
      not a word character is the longest one. */
  lemma {:induction false} LeadingWordIs(s: String, i: nat, n: nat)
    requires i + n <= |s|
    requires forall j :: i <= j < i + n ==> IsWordChar(s[j])
    requires i + n < |s| ==> !IsWordChar(s[i + n])
    ensures LeadingWord(s, i) == n
    decreases n
  {
    if n > 0 {
      LeadingWordIs(s, i + 1, n - 1);
    }
  }

  /** Ordinal `string.Replace(pat, with)`: every occurrence of `pat`, scanning
      left to right without overlaps, is replaced by `with`. */
  function ReplaceAll(s: String, pat: String, with: String): String
    requires pat != []
  {
    ReplaceFrom(s, pat, with, 0)
  }

  /** The replacement in what follows `s[..i]`. */
  function ReplaceFrom(s: String, pat: String, with: String, i: nat): String
    requires pat != [] && i <= |s|
    decreases |s| - i
  {
    if |s| - i < |pat| then s[i..]
    else if OccursAt(s, pat, i) then with + ReplaceFrom(s, pat, with, i + |pat|)
    else [s[i]] + ReplaceFrom(s, pat, with, i + 1)
  }

  /** Every character of a replacement's result comes from the text or from the replacement. */
  lemma {:induction false} CharsOfReplace(s: String, pat: String, with: String, c: char)
    requires pat != []
    ensures c in ReplaceAll(s, pat, with) ==> c in s || c in with
  {
    CharsOfReplaceFrom(s, pat, with, 0, c);
  }

  lemma {:induction false} CharsOfReplaceFrom(s: String, pat: String, with: String, i: nat, c: char)
    requires pat != [] && i <= |s|
    ensures c in ReplaceFrom(s, pat, with, i) ==> c in s || c in with
    decreases |s| - i
  {
    if |s| - i < |pat| {
      if c in s[i..] {
        var j :| 0 <= j < |s[i..]| && s[i..][j] == c;
        assert s[i + j] == c;
      }
    } else if OccursAt(s, pat, i) {
      CharsOfReplaceFrom(s, pat, with, i + |pat|, c);
    } else {
      CharsOfReplaceFrom(s, pat, with, i + 1, c);
    }
  }

  /** Every character of a piece of a text is a character of the text. */
  lemma {:induction false} CharsOfPiece(s: String, i: nat, c: char)
    requires i < |Split(s)| && c in Split(s)[i]
    ensures c in s
    decreases |s|
  {
    if '\n' in s {
      var k := FirstNewline(s);
      SplitUnfold(s);
      var b := s[k + 1..];
      assert Split(s) == [s[..k]] + Split(b);
      if i == 0 {
        var j :| 0 <= j < k && s[..k][j] == c;
        assert s[j] == c;
      } else {
        assert Split(s)[i] == Split(b)[i - 1];
        CharsOfPiece(b, i - 1, c);
        var j :| 0 <= j < |b| && b[j] == c;
        assert s[j + k + 1] == c;
      }
    }
  }

  /** The directory separator of Unix, the one platform this model follows. */
  predicate IsSeparator(c: char) {
    c == '/'
  }

  /** `Path.GetFileName`: what follows the last directory separator. */
  function FileName(path: String): (r: String)
    ensures EndsWith(path, r)
    ensures forall i :: 0 <= i < |r| ==> !IsSeparator(r[i])
    ensures |r| < |path| ==> IsSeparator(path[|path| - |r| - 1])
  {
    if path == [] || IsSeparator(path[|path| - 1]) then []
    else
      var r := FileName(path[..|path| - 1]) + [path[|path| - 1]];
      assert path[|path| - |r|..] == path[..|path| - 1][|path| - |r|..] + [path[|path| - 1]];
      r
  }

  function DigitChar(d: nat): (c: char)
    requires d < 10
    ensures '0' <= c <= '9' && c as int - '0' as int == d
  {
    ('0' as int + d) as char
  }

  /** The number that a string of decimal digits spells, most significant
      digit first. */
  function DecimalValue(s: String): nat
    requires forall i :: 0 <= i < |s| ==> '0' <= s[i] <= '9'
  {
    if s == [] then 0 else 10 * DecimalValue(s[..|s| - 1]) + (s[|s| - 1] as int - '0' as int)
  }

  /** `int.ToString()` for a non-negative number: its decimal digits, without
      leading zeros, spelling the number. */
  function NatToString(n: nat): (r: String)
    ensures r != []
    ensures forall i :: 0 <= i < |r| ==> '0' <= r[i] <= '9'
    ensures |r| > 1 ==> r[0] != '0'
    ensures DecimalValue(r) == n
  {
    if n < 10 then [DigitChar(n)]
    else
      var p := NatToString(n / 10);
      var r := p + [DigitChar(n % 10)];
      assert r[..|r| - 1] == p;
      r
  }
}
