/** What removal gives back after the blocks were added to scripts that held
    no sentinel, and how many BEGIN lines a successful run leaves in each
    script (LuaModifier.cs, AddModScriptCode 133-148, AddLocalizationScriptCode
    231-315 and RemoveMUCChanges 337-393). */
module RoundTrip {
  import opened Base
  import opened Text
  import opened Markers
  import opened Remover
  import opened Payload
  import opened Scanner
  import opened Store
  import opened Workflow
  import opened Orchestration
  import opened Guarantees

  // ---------------------------------------------------------------------------
  // Lines around a sentinel

  /** The pieces of a text holding no sentinel, and the lines a reader yields
      from it, are plain. */
  lemma {:induction false} SentinelFree(text: String)
    requires !Contains(text, HeaderBegin) && !Contains(text, HeaderEnd)
    ensures Plain(Split(text)) && Plain(Lines(text))
  {
    SentinelsAreSingleLines();
    ContainsIffSomePiece(text, HeaderBegin);
    ContainsIffSomePiece(text, HeaderEnd);
    ContainsIffSomeLine(text, HeaderBegin);
    ContainsIffSomeLine(text, HeaderEnd);
  }

  /** Any text followed by the BEGIN sentinel opens a block. */
  lemma {:induction false} BeginsAfter(w: String)
    ensures Begins(w + HeaderBegin)
  {
    var b := w + HeaderBegin;
    assert b[|w|..|w| + |HeaderBegin|] == HeaderBegin;
    assert OccursAt(b, HeaderBegin, |w|);
  }

  /** After nothing but white space, the BEGIN sentinel opens a block, closes
      none, and leaves no text of the user's in front of it. */
  lemma {:induction false} BlankThenBegin(w: String)
    requires IsBlank(w)
    ensures var b := w + HeaderBegin; Begins(b) && !Ends(b) && PrefixLine(b) == []
  {
    var b := w + HeaderBegin;
    SentinelLines();
    BeginsAfter(w);
    assert b[|w|..|w| + |HeaderBegin|] == HeaderBegin;
    var i := IndexOf(b, HeaderBegin);
    assert i <= |w| by {
      assert OccursAt(b, HeaderBegin, |w|);
    }
    var before := b[..i];
    forall m | 0 <= m < |before|
      ensures IsWhiteSpace(before[m])
    {
      assert before[m] == w[m];
    }
    forall j: nat | j + |HeaderEnd| <= |b|
      ensures !OccursAt(b, HeaderEnd, j)
    {
      if j < |w| {
        assert b[j..j + |HeaderEnd|][0] == w[j];
        assert HeaderEnd[0] == '-';
      } else {
        assert b[j..j + |HeaderEnd|] == HeaderBegin[j - |w|..j - |w| + |HeaderEnd|];
        assert !OccursAt(HeaderBegin, HeaderEnd, j - |w|);
      }
    }
  }

  /** The number of lines that hold the BEGIN sentinel. */
  function BeginCount(ls: seq<String>): (n: nat)
    ensures n == 0 <==> forall k :: 0 <= k < |ls| ==> !Begins(ls[k])
  {
    if ls == [] then 0
    else
      assert forall k :: 1 <= k < |ls| ==> ls[k] == ls[1..][k - 1];
      (if Begins(ls[0]) then 1 else 0) + BeginCount(ls[1..])
  }

  lemma {:induction false} BeginCountAppend(a: seq<String>, b: seq<String>)
    ensures BeginCount(a + b) == BeginCount(a) + BeginCount(b)
    decreases |a|
  {
    if a == [] {
      assert a + b == b;
    } else {
      assert (a + b)[1..] == a[1..] + b;
      BeginCountAppend(a[1..], b);
    }
  }

  /** Lines made of runs of plain lines around one BEGIN line hold one BEGIN line. */
  lemma {:induction false} OneBeginLine(pre: seq<String>, b: String, mid: seq<String>, e: String, post: seq<String>)
    requires forall k :: 0 <= k < |pre| ==> !Begins(pre[k])
    requires Begins(b) && Plain(mid) && !Begins(e)
    requires forall k :: 0 <= k < |post| ==> !Begins(post[k])
    ensures BeginCount(pre + [b] + mid + [e] + post) == 1
  {
    BeginCountAppend(pre, [b]);
    BeginCountAppend(pre + [b], mid);
    BeginCountAppend(pre + [b] + mid, [e]);
    BeginCountAppend(pre + [b] + mid + [e], post);
    assert [b][1..] == [] && [e][1..] == [];
  }

  // ---------------------------------------------------------------------------
  // The mod script

  /** A block of a first line, code and a last line, appended to a text
      without a separator, joins the text's last piece to its first line. */
  lemma {:induction false} AppendedAfterText(text: String, b: String, code: String, e: String)
    requires NoNewline(b) && NoNewline(e)
    ensures var p := Split(text);
      Split(text + (b + "\n" + code + "\n" + e)) == p[..|p| - 1] + [p[|p| - 1] + b] + Split(code) + [e]
  {
    var p := Split(text);
    var y := code + "\n" + e;
    assert text + (b + "\n" + code + "\n" + e) == (text + b) + "\n" + y;
    SplitAcrossNewline(text + b, y);
    SplitAcrossNewline(code, e);
    SplitThenText(text, b);
    Associative(p[..|p| - 1] + [p[|p| - 1] + b], Split(code), [e]);
  }

  /** A text whose last piece is not empty yields its pieces as lines. */
  lemma {:induction false} LinesEndingIn(s: String, ps: seq<String>, e: String)
    requires s != [] && e != [] && Split(s) == ps + [e]
    ensures Lines(s) == ps + [e]
  {
  }

  /** The lines of a mod script after the block was appended: its pieces, the
      last of them joined to the BEGIN line when the last line was blank, the
      lines of the code and the END line. */
  lemma {:induction false} ModScriptLines(text: String, texts: Texts, modId: String, name: Option<String>, upload: Moment)
    requires Lines(text) != []
    ensures var p, ls := Split(text), Lines(text);
      var out := Lines(text + ModSeparator(ls) + ModPayload(texts, modId, name, upload));
      var code := Split(ModCode(texts, modId, name, upload));
      && (IsBlank(ls[|ls| - 1]) ==> IsBlank(p[|p| - 1]) && out == p[..|p| - 1] + [p[|p| - 1] + HeaderBegin] + code + [HeaderEnd])
      && (!IsBlank(ls[|ls| - 1]) ==> out == p + [HeaderBegin] + code + [HeaderEnd])
  {
    var ls := Lines(text);
    var payload := ModPayload(texts, modId, name, upload);
    if IsBlank(ls[|ls| - 1]) {
      assert ModSeparator(ls) == [];
      NothingBetween(text, payload);
      AfterBlankLine(text, texts, modId, name, upload);
    } else {
      AfterLine(text, texts, modId, name, upload);
    }
  }

  lemma {:induction false} NothingBetween<T>(x: seq<T>, y: seq<T>)
    ensures x + [] + y == x + y
  {
  }

  lemma {:induction false} AfterBlankLine(text: String, texts: Texts, modId: String, name: Option<String>, upload: Moment)
    requires Lines(text) != [] && IsBlank(Lines(text)[|Lines(text)| - 1])
    ensures var p := Split(text);
      && IsBlank(p[|p| - 1])
      && Lines(text + ModPayload(texts, modId, name, upload))
         == p[..|p| - 1] + [p[|p| - 1] + HeaderBegin] + Split(ModCode(texts, modId, name, upload)) + [HeaderEnd]
  {
    var code := ModCode(texts, modId, name, upload);
    SentinelsAreSingleLines();
    assert ModPayload(texts, modId, name, upload) == HeaderBegin + "\n" + code + "\n" + HeaderEnd;
    AppendedBlock(text, HeaderBegin, code, HeaderEnd);
  }

  /** A block appended right after a blank last line continues that line. */
  lemma {:induction false} AppendedBlock(text: String, b: String, code: String, e: String)
    requires NoNewline(b) && NoNewline(e) && e != []
    requires Lines(text) != [] && IsBlank(Lines(text)[|Lines(text)| - 1])
    ensures var p := Split(text);
      && IsBlank(p[|p| - 1])
      && Lines(text + (b + "\n" + code + "\n" + e)) == p[..|p| - 1] + [p[|p| - 1] + b] + Split(code) + [e]
  {
    var p, ls := Split(text), Lines(text);
    AppendedAfterText(text, b, code, e);
    LinesEndingIn(text + (b + "\n" + code + "\n" + e), p[..|p| - 1] + [p[|p| - 1] + b] + Split(code), e);
    if p[|p| - 1] != [] {
      assert ls == p;
    }
  }

  lemma {:induction false} AfterLine(text: String, texts: Texts, modId: String, name: Option<String>, upload: Moment)
    ensures Lines(text + "\n" + ModPayload(texts, modId, name, upload))
      == Split(text) + [HeaderBegin] + Split(ModCode(texts, modId, name, upload)) + [HeaderEnd]
  {
    SentinelsAreSingleLines();
    BlockAfterNewline(text, texts, modId, name, upload);
    LinesEndingIn(text + "\n" + ModPayload(texts, modId, name, upload),
                  Split(text) + [HeaderBegin] + Split(ModCode(texts, modId, name, upload)), HeaderEnd);
  }

  /** A block whose BEGIN line starts with white space only, between plain
      lines and at the end of the text, is removed leaving the lines before it. */
  lemma {:induction false} RemovesTrailingBlock(pre: seq<String>, lead: String, code: seq<String>, preserveEmptyLines: bool)
    requires Plain(pre) && Plain(code) && IsBlank(lead)
    ensures Remove(pre + [lead + HeaderBegin] + code + [HeaderEnd], preserveEmptyLines) == Removed(pre)
  {
    var lines := pre + [lead + HeaderBegin] + code + [HeaderEnd];
    SentinelLines();
    BlankThenBegin(lead);
    assert lines == lines + [];
    RemovesSingleBlock(lines, pre, lead + HeaderBegin, code, HeaderEnd, [], preserveEmptyLines);
    assert pre + [] + DropBlank([], preserveEmptyLines) == pre;
  }

  /** The pieces of a text but the last, written as lines, then the last piece,
      give the text back. */
  lemma {:induction false} JoinAllButLast(text: String)
    ensures var p := Split(text); JoinLines(p[..|p| - 1]) + p[|p| - 1] == text
  {
    var p := Split(text);
    var pre, last := p[..|p| - 1], p[|p| - 1];
    JoinOfSplit(text);
    assert p == pre + [last];
    JoinLinesAppend(pre, [last]);
    assert JoinLines([last]) == last + "\n";
    assert JoinLines(pre) + last == (text + "\n")[..|text|];
  }

  lemma {:induction false} PlainPrefix(ls: seq<String>, n: nat)
    requires Plain(ls) && n <= |ls|
    ensures Plain(ls[..n])
  {
    assert forall k :: 0 <= k < n ==> ls[..n][k] == ls[k];
  }

  /** Removing the block right after it was appended to a mod script that held
      no sentinel keeps the script's own lines: when its last line was not
      blank the script comes back with a line terminator more at the end, and
      otherwise without the white space after its last line terminator. */
  lemma {:induction false} ModRoundTrip(text: String, texts: Texts, modId: String, name: Option<String>, upload: Moment, preserveEmptyLines: bool)
    requires Lines(text) != [] && !Contains(text, HeaderBegin) && !Contains(text, HeaderEnd)
    requires PlainTexts(texts) && 'G' !in modId && 'G' !in OrEmpty(name)
    ensures var p, ls := Split(text), Lines(text);
      var out := Remove(Lines(text + ModSeparator(ls) + ModPayload(texts, modId, name, upload)), preserveEmptyLines);
      && (IsBlank(ls[|ls| - 1]) ==> out == Removed(p[..|p| - 1]) && JoinLines(p[..|p| - 1]) + p[|p| - 1] == text)
      && (!IsBlank(ls[|ls| - 1]) ==> out == Removed(p) && JoinLines(p) == text + "\n")
  {
    var p, ls := Split(text), Lines(text);
    var code := Split(ModCode(texts, modId, name, upload));
    var lines := Lines(text + ModSeparator(ls) + ModPayload(texts, modId, name, upload));
    ModScriptLines(text, texts, modId, name, upload);
    SentinelFree(text);
    ModCodeIsPlain(texts, modId, name, upload);
    if IsBlank(ls[|ls| - 1]) {
      RemovedAfterBlank(text, p, code, lines, preserveEmptyLines);
    } else {
      RemovedAfterText(text, p, code, lines, preserveEmptyLines);
    }
  }

  lemma {:induction false} RemovedAfterBlank(text: String, p: seq<String>, code: seq<String>, lines: seq<String>, preserveEmptyLines: bool)
    requires p == Split(text) && Plain(p) && Plain(code) && IsBlank(p[|p| - 1])
    requires lines == p[..|p| - 1] + [p[|p| - 1] + HeaderBegin] + code + [HeaderEnd]
    ensures Remove(lines, preserveEmptyLines) == Removed(p[..|p| - 1]) && JoinLines(p[..|p| - 1]) + p[|p| - 1] == text
  {
    PlainPrefix(p, |p| - 1);
    RemovesTrailingBlock(p[..|p| - 1], p[|p| - 1], code, preserveEmptyLines);
    JoinAllButLast(text);
  }

  lemma {:induction false} RemovedAfterText(text: String, p: seq<String>, code: seq<String>, lines: seq<String>, preserveEmptyLines: bool)
    requires p == Split(text) && Plain(p) && Plain(code)
    requires lines == p + [HeaderBegin] + code + [HeaderEnd]
    ensures Remove(lines, preserveEmptyLines) == Removed(p) && JoinLines(p) == text + "\n"
  {
    RemovesTrailingBlock(p, [], code, preserveEmptyLines);
    assert [] + HeaderBegin == HeaderBegin;
    assert p + [[] + HeaderBegin] + code + [HeaderEnd] == lines;
    JoinOfSplit(text);
  }

  /** After the block was appended to a mod script in which no line held the
      BEGIN sentinel, exactly one line holds it. */
  lemma {:induction false} OneBeginInModScript(text: String, texts: Texts, modId: String, name: Option<String>, upload: Moment)
    requires Lines(text) != [] && !Contains(text, HeaderBegin)
    requires PlainTexts(texts) && 'G' !in modId && 'G' !in OrEmpty(name)
    ensures BeginCount(Lines(text + ModSeparator(Lines(text)) + ModPayload(texts, modId, name, upload))) == 1
  {
    var p, ls := Split(text), Lines(text);
    var code := Split(ModCode(texts, modId, name, upload));
    ModScriptLines(text, texts, modId, name, upload);
    SentinelsAreSingleLines();
    SentinelLines();
    ContainsIffSomePiece(text, HeaderBegin);
    ModCodeIsPlain(texts, modId, name, upload);
    if IsBlank(ls[|ls| - 1]) {
      var pre := p[..|p| - 1];
      assert forall k :: 0 <= k < |pre| ==> pre[k] == p[k];
      BeginsAfter(p[|p| - 1]);
      OneBeginLineAtEnd(pre, p[|p| - 1] + HeaderBegin, code);
    } else {
      OneBeginLineAtEnd(p, HeaderBegin, code);
    }
  }

  lemma {:induction false} OneBeginLineAtEnd(pre: seq<String>, b: String, code: seq<String>)
    requires forall k :: 0 <= k < |pre| ==> !Begins(pre[k])
    requires Begins(b) && Plain(code)
    ensures BeginCount(pre + [b] + code + [HeaderEnd]) == 1
  {
    SentinelLines();
    OneBeginLine(pre, b, code, HeaderEnd, []);
    NothingAfter(pre + [b] + code + [HeaderEnd]);
  }

  lemma {:induction false} NothingAfter<T>(x: seq<T>)
    ensures x + [] == x
  {
  }

  // ---------------------------------------------------------------------------
  // The localization script

  /** Lines inserted after a line terminator come between the pieces before
      and the lines after. */
  lemma {:induction false} InsertedAfterNewline(x: String, ls: seq<String>, y: String)
    requires LinesLack(ls, '\n') && y != []
    ensures Lines(x + ("\n" + JoinLines(ls)) + y) == Split(x) + ls + Lines(y)
  {
    var out := x + ("\n" + JoinLines(ls)) + y;
    assert forall i :: 0 <= i < |ls| ==> NoNewline(ls[i]);
    assert out == x + "\n" + (JoinLines(ls) + y);
    SplitAcrossNewline(x, JoinLines(ls) + y);
    SplitOfJoinThen(ls, y);
    Associative(Split(x), ls, Split(y));
    LinesOfSplit(out, Split(x) + ls, y);
  }

  /** Lines inserted within a line: the first of them continues the last piece before. */
  lemma {:induction false} InsertedWithinLine(x: String, ls: seq<String>, y: String)
    requires LinesLack(ls, '\n') && ls != [] && y != []
    ensures var a := Split(x);
      Lines(x + ([] + JoinLines(ls)) + y) == a[..|a| - 1] + [a[|a| - 1] + ls[0]] + ls[1..] + Lines(y)
  {
    var a := Split(x);
    var out := x + ([] + JoinLines(ls)) + y;
    SplitWithinLine(x, ls, y);
    assert |out| >= |y| > 0;
    LinesOfSplit(out, a[..|a| - 1] + [a[|a| - 1] + ls[0]] + ls[1..], y);
  }

  lemma {:induction false} SplitWithinLine(x: String, ls: seq<String>, y: String)
    requires LinesLack(ls, '\n') && ls != []
    ensures var a := Split(x);
      Split(x + ([] + JoinLines(ls)) + y) == a[..|a| - 1] + [a[|a| - 1] + ls[0]] + ls[1..] + Split(y)
  {
    var a := Split(x);
    SplitAroundFirstLine(x, ls, y);
    assert NoNewline(ls[0]);
    SplitThenText(x, ls[0]);
    SplitOfTail(ls, y);
    Associative(a[..|a| - 1] + [a[|a| - 1] + ls[0]], ls[1..], Split(y));
  }

  lemma {:induction false} SplitAroundFirstLine(x: String, ls: seq<String>, y: String)
    requires ls != []
    ensures Split(x + ([] + JoinLines(ls)) + y) == Split(x + ls[0]) + Split(JoinLines(ls[1..]) + y)
  {
    var j := JoinLines(ls[1..]);
    assert JoinLines(ls) == ls[0] + "\n" + j;
    Regroup(x, ls[0], j, y);
    SplitAcrossNewline(x + ls[0], j + y);
  }

  lemma {:induction false} SplitOfTail(ls: seq<String>, y: String)
    requires LinesLack(ls, '\n') && ls != []
    ensures Split(JoinLines(ls[1..]) + y) == ls[1..] + Split(y)
  {
    var rest := ls[1..];
    forall i | 0 <= i < |rest|
      ensures NoNewline(rest[i])
    {
      assert rest[i] == ls[i + 1];
    }
    SplitOfJoinThen(rest, y);
  }

  lemma {:induction false} Regroup(x: String, l: String, j: String, y: String)
    ensures x + ([] + (l + "\n" + j)) + y == (x + l) + "\n" + (j + y)
  {
  }

  /** The lines of a localization script after the block was inserted at `k`:
      the pieces before, the last of them continued by the first block line
      when no line terminator is put in front, the block's lines, and the
      lines from `k` on. */
  lemma {:induction false} LocalizationScriptLines(text: String, texts: Texts, comma: bool, nl: bool, k: nat)
    requires k < |text| && PlainTexts(texts)
    ensures var a, ls := Split(text[..k]), LocalizationLines(texts, comma);
      var out := Lines(Insert(text, k, LocalizationPayload(texts, comma, nl)));
      && (nl ==> out == a + [ls[0]] + ls[1..] + Lines(text[k..]))
      && (!nl ==> out == a[..|a| - 1] + [a[|a| - 1] + ls[0]] + ls[1..] + Lines(text[k..]))
  {
    if nl {
      NewLineScriptLines(text, texts, comma, nl, k);
    } else {
      SameLineScriptLines(text, texts, comma, nl, k);
    }
  }

  lemma {:induction false} NewLineScriptLines(text: String, texts: Texts, comma: bool, nl: bool, k: nat)
    requires k < |text| && PlainTexts(texts) && nl
    ensures var a, ls := Split(text[..k]), LocalizationLines(texts, comma);
      Lines(Insert(text, k, LocalizationPayload(texts, comma, nl))) == a + [ls[0]] + ls[1..] + Lines(text[k..])
  {
    var x, y := text[..k], text[k..];
    LocalizationPayloadIsLines(texts, comma, nl);
    LocalizationLinesAreLines(texts, comma);
    assert Insert(text, k, LocalizationPayload(texts, comma, nl)) == x + LocalizationPayload(texts, comma, nl) + y;
    ScriptLinesOnNewLine(x, LocalizationLines(texts, comma), y);
  }

  lemma {:induction false} SameLineScriptLines(text: String, texts: Texts, comma: bool, nl: bool, k: nat)
    requires k < |text| && PlainTexts(texts) && !nl
    ensures var a, ls := Split(text[..k]), LocalizationLines(texts, comma);
      Lines(Insert(text, k, LocalizationPayload(texts, comma, nl))) == a[..|a| - 1] + [a[|a| - 1] + ls[0]] + ls[1..] + Lines(text[k..])
  {
    LocalizationPayloadIsLines(texts, comma, nl);
    LocalizationLinesAreLines(texts, comma);
    InsertedWithinLineAt(text, k, LocalizationPayload(texts, comma, nl), LocalizationLines(texts, comma));
  }

  lemma {:induction false} InsertedWithinLineAt(text: String, k: nat, t: String, ls: seq<String>)
    requires k < |text| && t == [] + JoinLines(ls) && LinesLack(ls, '\n') && ls != []
    ensures var a := Split(text[..k]);
      Lines(Insert(text, k, t)) == a[..|a| - 1] + [a[|a| - 1] + ls[0]] + ls[1..] + Lines(text[k..])
  {
    var x, y := text[..k], text[k..];
    assert y != [];
    InsertedWithinLine(x, ls, y);
    assert Insert(text, k, t) == x + ([] + JoinLines(ls)) + y by {
      InsertIsConcat(text, k, t);
    }
  }

  lemma {:induction false} InsertIsConcat(s: String, k: nat, t: String)
    requires k <= |s|
    ensures Insert(s, k, t) == s[..k] + t + s[k..]
  {
  }


  lemma {:induction false} ScriptLinesOnNewLine(x: String, ls: seq<String>, y: String)
    requires LinesLack(ls, '\n') && ls != [] && y != []
    ensures Lines(x + ("\n" + JoinLines(ls)) + y) == Split(x) + [ls[0]] + ls[1..] + Lines(y)
  {
    InsertedAfterNewline(x, ls, y);
    assert ls == [ls[0]] + ls[1..];
    Associative(Split(x), [ls[0]], ls[1..]);
  }

  /** When the text before `k` ends in a line terminator and white space, its
      last piece is white space. */
  lemma {:induction false} BlankAfterNewline(text: String, start: nat, k: nat)
    requires start <= k <= |text| && NewlineIn(text, start, k)
    ensures var a := Split(text[..k]); IsBlank(a[|a| - 1])
  {
    var j :| start <= j < k && text[j] == '\n' && BlankIn(text, j + 1, k);
    WhiteSpaceRun(text, j + 1, k);
    SliceAroundNewline(text, j, k);
    BlankLastPiece(text[..k], text[..j], text[j + 1..k]);
  }

  lemma {:induction false} WhiteSpaceRun(text: String, a: nat, k: nat)
    requires a <= k <= |text| && BlankIn(text, a, k)
    ensures IsBlank(text[a..k])
  {
    forall m | 0 <= m < k - a
      ensures IsWhiteSpace(text[a..k][m])
    {
      assert text[a..k][m] == text[a + m];
    }
  }

  lemma {:induction false} SliceAroundNewline(text: String, j: nat, k: nat)
    requires j < k <= |text| && text[j] == '\n'
    ensures text[..k] == text[..j] + "\n" + text[j + 1..k]
  {
    CutAt(text[..k], j);
    assert text[..k][..j] == text[..j] && text[..k][j + 1..] == text[j + 1..k];
    NewlineAt(text[..j], text[j], text[j + 1..k]);
  }

  lemma {:induction false} BlankLastPiece(s: String, x: String, z: String)
    requires s == x + "\n" + z && IsBlank(z)
    ensures var a := Split(s); IsBlank(a[|a| - 1])
  {
    SplitAcrossNewline(x, z);
    var a, b := Split(x), Split(z);
    assert (a + b)[|a + b| - 1] == b[|b| - 1];
    BlankPieces(z, |b| - 1);
  }


  lemma {:induction false} NewlineAt(x: String, c: char, z: String)
    requires c == '\n'
    ensures x + [c] + z == x + "\n" + z
  {
  }

  lemma {:induction false} CutAt<T>(s: seq<T>, j: nat)
    requires j < |s|
    ensures s == s[..j] + [s[j]] + s[j + 1..]
  {
  }

  /** A block whose BEGIN line starts with white space only, between plain
      lines, is removed leaving the lines before it and those after it, less
      the blank ones unless blank lines are preserved. */
  lemma {:induction false} RemovesInnerBlock(pre: seq<String>, lead: String, body: seq<String>, e: String, post: seq<String>, preserveEmptyLines: bool)
    requires Plain(pre) && Plain(body) && Plain(post) && IsBlank(lead) && Ends(e) && !Begins(e)
    ensures Remove(pre + [lead + HeaderBegin] + body + [e] + post, preserveEmptyLines)
      == Removed(pre + DropBlank(post, preserveEmptyLines))
  {
    BlankThenBegin(lead);
    RemovesSingleBlock(pre + [lead + HeaderBegin] + body + [e] + post, pre, lead + HeaderBegin, body, e, post, preserveEmptyLines);
    NothingBetween(pre, DropBlank(post, preserveEmptyLines));
  }

  lemma {:induction false} BlankThenTab(w: String)
    requires IsBlank(w)
    ensures IsBlank(w + "\t")
  {
    var v := w + "\t";
    forall m | 0 <= m < |v|
      ensures IsWhiteSpace(v[m])
    {
      if m < |w| {
        assert v[m] == w[m];
      }
    }
  }

  /** The first line of the localization block, tab and BEGIN sentinel, after
      some text: the text and the tab, then the sentinel. */
  lemma {:induction false} TabbedBegin(texts: Texts, comma: bool, w: String)
    ensures var ls := LocalizationLines(texts, comma);
      ls[0] == "\t" + HeaderBegin && w + ls[0] == (w + "\t") + HeaderBegin
  {
    Associative(w, "\t", HeaderBegin);
  }

  /** Removing the block right after it was inserted into a localization script
      that held no sentinel keeps the script's own lines: those before the
      table's closing brace, with the white space after their last line
      terminator dropped when the block went there, and the lines from the
      brace on, less the blank ones unless blank lines are preserved. */
  lemma {:induction false} LocalizationRoundTrip(texts: Texts, text: String, start: nat, k: nat, preserveEmptyLines: bool)
    requires PlainTexts(texts) && !Contains(text, HeaderBegin) && !Contains(text, HeaderEnd)
    requires LocalizationEdit(texts, text).Ok? && InsertionPoint(text) == Ok((start, k))
    ensures var a, nl := Split(text[..k]), NewlineNeeded(text, start, k);
      var pre := if nl then a else a[..|a| - 1];
      && Remove(Lines(LocalizationEdit(texts, text).value), preserveEmptyLines)
         == Removed(pre + DropBlank(Lines(text[k..]), preserveEmptyLines))
      && (nl ==> JoinLines(pre) == text[..k] + "\n")
      && (!nl ==> IsBlank(a[|a| - 1]) && JoinLines(pre) + a[|a| - 1] == text[..k])
  {
    var nl := NewlineNeeded(text, start, k);
    EditIsInsert(texts, text);
    if !nl {
      BlankAfterNewline(text, start, k);
    }
    RoundTripAt(texts, text, k, CommaNeeded(text, start, k), nl, preserveEmptyLines);
  }

  /** The round trip for a block inserted at `k`, with or without a line
      terminator in front. */
  lemma {:induction false} RoundTripAt(texts: Texts, text: String, k: nat, comma: bool, nl: bool, preserveEmptyLines: bool)
    requires PlainTexts(texts) && !Contains(text, HeaderBegin) && !Contains(text, HeaderEnd)
    requires k < |text| && (!nl ==> var a := Split(text[..k]); IsBlank(a[|a| - 1]))
    ensures var a := Split(text[..k]);
      var pre := if nl then a else a[..|a| - 1];
      && Remove(Lines(Insert(text, k, LocalizationPayload(texts, comma, nl))), preserveEmptyLines)
         == Removed(pre + DropBlank(Lines(text[k..]), preserveEmptyLines))
      && (nl ==> JoinLines(pre) == text[..k] + "\n")
      && (!nl ==> JoinLines(pre) + a[|a| - 1] == text[..k])
  {
    if nl {
      RoundTripOnNewLine(texts, text, k, comma, nl, preserveEmptyLines);
    } else {
      RoundTripOnSameLine(texts, text, k, comma, nl, preserveEmptyLines);
    }
  }

  /** Neither part of a text without sentinels holds one. */
  lemma {:induction false} PartsSentinelFree(text: String, k: nat)
    requires k <= |text| && !Contains(text, HeaderBegin) && !Contains(text, HeaderEnd)
    ensures !Contains(text[..k], HeaderBegin) && !Contains(text[..k], HeaderEnd)
    ensures !Contains(text[k..], HeaderBegin) && !Contains(text[k..], HeaderEnd)
  {
    AbsentFromSlice(text, 0, k, HeaderBegin);
    AbsentFromSlice(text, 0, k, HeaderEnd);
    AbsentFromSlice(text, k, |text|, HeaderBegin);
    AbsentFromSlice(text, k, |text|, HeaderEnd);
    assert text[..k] == text[0..k] && text[k..] == text[k..|text|];
  }

  lemma {:induction false} RoundTripOnNewLine(texts: Texts, text: String, k: nat, comma: bool, nl: bool, preserveEmptyLines: bool)
    requires PlainTexts(texts) && !Contains(text, HeaderBegin) && !Contains(text, HeaderEnd) && k < |text| && nl
    ensures var a := Split(text[..k]);
      && Remove(Lines(Insert(text, k, LocalizationPayload(texts, comma, nl))), preserveEmptyLines)
         == Removed(a + DropBlank(Lines(text[k..]), preserveEmptyLines))
      && JoinLines(a) == text[..k] + "\n"
  {
    LocalizationScriptLines(text, texts, comma, nl, k);
    PartsSentinelFree(text, k);
    RemovedAfterNewline(texts, comma, text[..k], text[k..], preserveEmptyLines);
  }

  lemma {:induction false} RoundTripOnSameLine(texts: Texts, text: String, k: nat, comma: bool, nl: bool, preserveEmptyLines: bool)
    requires PlainTexts(texts) && !Contains(text, HeaderBegin) && !Contains(text, HeaderEnd) && k < |text| && !nl
    requires var a := Split(text[..k]); IsBlank(a[|a| - 1])
    ensures var a := Split(text[..k]);
      && Remove(Lines(Insert(text, k, LocalizationPayload(texts, comma, nl))), preserveEmptyLines)
         == Removed(a[..|a| - 1] + DropBlank(Lines(text[k..]), preserveEmptyLines))
      && JoinLines(a[..|a| - 1]) + a[|a| - 1] == text[..k]
  {
    var lines := Lines(Insert(text, k, LocalizationPayload(texts, comma, nl)));
    SameLineScriptLines(text, texts, comma, nl, k);
    RemovedWithinLineAt(texts, comma, text, k, preserveEmptyLines, lines);
  }

  /** A successful edit inserts the payload at the insertion point. */
  lemma {:induction false} EditIsInsert(texts: Texts, text: String)
    requires LocalizationEdit(texts, text).Ok?
    ensures InsertionPoint(text).Ok?
    ensures var pt := InsertionPoint(text).value;
      LocalizationEdit(texts, text).value
        == Insert(text, pt.1, LocalizationPayload(texts, CommaNeeded(text, pt.0, pt.1), NewlineNeeded(text, pt.0, pt.1)))
  {
  }

  lemma {:induction false} RemovedAfterNewline(texts: Texts, comma: bool, x: String, y: String, preserveEmptyLines: bool)
    requires PlainTexts(texts)
    requires !Contains(x, HeaderBegin) && !Contains(x, HeaderEnd) && !Contains(y, HeaderBegin) && !Contains(y, HeaderEnd)
    ensures var a, ls := Split(x), LocalizationLines(texts, comma);
      && Remove(a + [ls[0]] + ls[1..] + Lines(y), preserveEmptyLines) == Removed(a + DropBlank(Lines(y), preserveEmptyLines))
      && JoinLines(a) == x + "\n"
  {
    var a, ls := Split(x), LocalizationLines(texts, comma);
    var body, e := LocalizationBody(texts, comma), ls[|ls| - 1];
    LocalizationLinesSentinels(texts, comma);
    assert ls[1..] == body + [e];
    SentinelFree(x);
    SentinelFree(y);
    TabbedBegin(texts, comma, []);
    NothingBefore("\t" + HeaderBegin);
    Associative(a + [ls[0]], body, [e]);
    assert IsBlank("\t");
    RemovesInnerBlock(a, "\t", body, e, Lines(y), preserveEmptyLines);
    JoinOfSplit(x);
  }

  lemma {:induction false} RemovedWithinLine(texts: Texts, comma: bool, x: String, y: String, preserveEmptyLines: bool, lines: seq<String>)
    requires PlainTexts(texts)
    requires !Contains(x, HeaderBegin) && !Contains(x, HeaderEnd) && !Contains(y, HeaderBegin) && !Contains(y, HeaderEnd)
    requires var a := Split(x); IsBlank(a[|a| - 1])
    requires var a, ls := Split(x), LocalizationLines(texts, comma); lines == a[..|a| - 1] + [a[|a| - 1] + ls[0]] + ls[1..] + Lines(y)
    ensures var a := Split(x);
      && Remove(lines, preserveEmptyLines) == Removed(a[..|a| - 1] + DropBlank(Lines(y), preserveEmptyLines))
      && JoinLines(a[..|a| - 1]) + a[|a| - 1] == x
  {
    var a, ls := Split(x), LocalizationLines(texts, comma);
    var body, e := LocalizationBody(texts, comma), ls[|ls| - 1];
    var lead, pre := a[|a| - 1], a[..|a| - 1];
    LocalizationLinesSentinels(texts, comma);
    assert ls[1..] == body + [e];
    SentinelFree(x);
    SentinelFree(y);
    BlankThenTab(lead);
    TabbedBegin(texts, comma, lead);
    Associative(pre + [lead + ls[0]], body, [e]);
    PlainPrefix(a, |a| - 1);
    RemovesInnerBlock(pre, lead + "\t", body, e, Lines(y), preserveEmptyLines);
    JoinAllButLast(x);
  }

  lemma {:induction false} RemovedWithinLineAt(texts: Texts, comma: bool, text: String, k: nat, preserveEmptyLines: bool, lines: seq<String>)
    requires PlainTexts(texts) && !Contains(text, HeaderBegin) && !Contains(text, HeaderEnd) && k < |text|
    requires var a := Split(text[..k]); IsBlank(a[|a| - 1])
    requires var a, ls := Split(text[..k]), LocalizationLines(texts, comma); lines == a[..|a| - 1] + [a[|a| - 1] + ls[0]] + ls[1..] + Lines(text[k..])
    ensures var a := Split(text[..k]);
      && Remove(lines, preserveEmptyLines) == Removed(a[..|a| - 1] + DropBlank(Lines(text[k..]), preserveEmptyLines))
      && JoinLines(a[..|a| - 1]) + a[|a| - 1] == text[..k]
  {
    PartsSentinelFree(text, k);
    RemovedWithinLine(texts, comma, text[..k], text[k..], preserveEmptyLines, lines);
  }

  lemma {:induction false} NothingBefore<T>(x: seq<T>)
    ensures [] + x == x
  {
  }


  lemma {:induction false} DropBlankUpToKeeps(ls: seq<String>, n: nat)
    requires n <= |ls|
    ensures DropBlankUpTo(ls, n, true) == ls[..n]
  {
    if n > 0 {
      DropBlankUpToKeeps(ls, n - 1);
      assert ls[..n] == ls[..n - 1] + [ls[n - 1]];
    }
  }

  /** Restoring the localization script right after the block was inserted
      (blank lines preserved) writes back its text up to the table's closing
      brace, followed by a line terminator when the block was put on a new
      line and otherwise without the white space after the last line
      terminator, then the text from the brace on, ending in a line
      terminator. */
  lemma {:induction false} LocalizationRestored(texts: Texts, text: String, start: nat, k: nat)
    requires PlainTexts(texts) && !Contains(text, HeaderBegin) && !Contains(text, HeaderEnd)
    requires LocalizationEdit(texts, text).Ok? && InsertionPoint(text) == Ok((start, k))
    ensures var out := Remove(Lines(LocalizationEdit(texts, text).value), true);
      var a := Split(text[..k]);
      && out.Removed?
      && (NewlineNeeded(text, start, k) ==> JoinLines(out.kept) == text[..k] + "\n" + Terminated(text[k..]))
      && (!NewlineNeeded(text, start, k) ==>
            && IsBlank(a[|a| - 1]) && text[..k] == JoinLines(a[..|a| - 1]) + a[|a| - 1]
            && JoinLines(out.kept) == JoinLines(a[..|a| - 1]) + Terminated(text[k..]))
  {
    EditIsInsert(texts, text);
    if NewlineNeeded(text, start, k) {
      RestoredOnNewLine(texts, text, k, CommaNeeded(text, start, k), NewlineNeeded(text, start, k));
    } else {
      BlankAfterNewline(text, start, k);
      RestoredOnSameLine(texts, text, k, CommaNeeded(text, start, k), NewlineNeeded(text, start, k));
    }
  }

  /** Blank lines preserved, the lines after the block are kept as they were
      and written back as the text they came from, ending in a line terminator. */
  lemma {:induction false} KeptTail(pre: seq<String>, y: String)
    requires y != []
    ensures JoinLines(pre + DropBlank(Lines(y), true)) == JoinLines(pre) + Terminated(y)
  {
    DropBlankUpToKeeps(Lines(y), |Lines(y)|);
    assert Lines(y)[..|Lines(y)|] == Lines(y);
    JoinLinesAppend(pre, Lines(y));
    JoinOfLines(y);
  }

  lemma {:induction false} RestoredOnNewLine(texts: Texts, text: String, k: nat, comma: bool, nl: bool)
    requires PlainTexts(texts) && !Contains(text, HeaderBegin) && !Contains(text, HeaderEnd) && k < |text| && nl
    ensures var out := Remove(Lines(Insert(text, k, LocalizationPayload(texts, comma, nl))), true);
      out.Removed? && JoinLines(out.kept) == text[..k] + "\n" + Terminated(text[k..])
  {
    RoundTripOnNewLine(texts, text, k, comma, nl, true);
    KeptTail(Split(text[..k]), text[k..]);
  }

  lemma {:induction false} RestoredOnSameLine(texts: Texts, text: String, k: nat, comma: bool, nl: bool)
    requires PlainTexts(texts) && !Contains(text, HeaderBegin) && !Contains(text, HeaderEnd) && k < |text| && !nl
    requires var a := Split(text[..k]); IsBlank(a[|a| - 1])
    ensures var out := Remove(Lines(Insert(text, k, LocalizationPayload(texts, comma, nl))), true);
      var a := Split(text[..k]);
      && out.Removed? && text[..k] == JoinLines(a[..|a| - 1]) + a[|a| - 1]
      && JoinLines(out.kept) == JoinLines(a[..|a| - 1]) + Terminated(text[k..])
  {
    var a := Split(text[..k]);
    RoundTripOnSameLine(texts, text, k, comma, nl, true);
    KeptTail(a[..|a| - 1], text[k..]);
  }

  /** The localization block, its first line continued from `lead`, between
      lines that hold no BEGIN sentinel, leaves exactly one line that does. */
  lemma {:induction false} OneBeginInserted(texts: Texts, comma: bool, pre: seq<String>, lead: String, post: seq<String>)
    requires PlainTexts(texts)
    requires forall i :: 0 <= i < |pre| ==> !Begins(pre[i])
    requires forall i :: 0 <= i < |post| ==> !Begins(post[i])
    ensures var ls := LocalizationLines(texts, comma);
      BeginCount(pre + [lead + ls[0]] + ls[1..] + post) == 1
  {
    var ls := LocalizationLines(texts, comma);
    var body, e := LocalizationBody(texts, comma), ls[|ls| - 1];
    LocalizationLinesSentinels(texts, comma);
    assert ls[1..] == body + [e];
    TabbedBegin(texts, comma, lead);
    BeginsAfter(lead + "\t");
    Associative(pre + [lead + ls[0]], body, [e]);
    OneBeginLine(pre, lead + ls[0], body, e, post);
  }

  /** After the block was inserted into a localization script in which no line
      held the BEGIN sentinel, exactly one line holds it. */
  lemma {:induction false} OneBeginInLocalizationScript(texts: Texts, text: String, start: nat, k: nat)
    requires PlainTexts(texts) && !Contains(text, HeaderBegin)
    requires LocalizationEdit(texts, text).Ok? && InsertionPoint(text) == Ok((start, k))
    ensures BeginCount(Lines(LocalizationEdit(texts, text).value)) == 1
  {
    EditIsInsert(texts, text);
    OneBeginAt(texts, text, k, CommaNeeded(text, start, k), NewlineNeeded(text, start, k));
  }

  /** The same for a block inserted at `k`, with or without a line terminator
      in front. */
  lemma {:induction false} OneBeginAt(texts: Texts, text: String, k: nat, comma: bool, nl: bool)
    requires PlainTexts(texts) && !Contains(text, HeaderBegin) && k < |text|
    ensures BeginCount(Lines(Insert(text, k, LocalizationPayload(texts, comma, nl)))) == 1
  {
    AbsentFromSlice(text, 0, k, HeaderBegin);
    AbsentFromSlice(text, k, |text|, HeaderBegin);
    assert text[..k] == text[0..k] && text[k..] == text[k..|text|];
    if nl {
      LocalizationScriptLines(text, texts, comma, nl, k);
      OneBeginAfterNewline(texts, comma, text[..k], text[k..]);
    } else {
      LocalizationScriptLines(text, texts, comma, nl, k);
      OneBeginWithinLine(texts, comma, text[..k], text[k..]);
    }
  }

  lemma {:induction false} OneBeginAfterNewline(texts: Texts, comma: bool, x: String, y: String)
    requires PlainTexts(texts) && !Contains(x, HeaderBegin) && !Contains(y, HeaderBegin)
    ensures var a, ls := Split(x), LocalizationLines(texts, comma);
      BeginCount(a + [ls[0]] + ls[1..] + Lines(y)) == 1
  {
    var a, ls := Split(x), LocalizationLines(texts, comma);
    SentinelsAreSingleLines();
    ContainsIffSomePiece(x, HeaderBegin);
    ContainsIffSomeLine(y, HeaderBegin);
    NothingBefore(ls[0]);
    OneBeginInserted(texts, comma, a, [], Lines(y));
  }

  lemma {:induction false} OneBeginWithinLine(texts: Texts, comma: bool, x: String, y: String)
    requires PlainTexts(texts) && !Contains(x, HeaderBegin) && !Contains(y, HeaderBegin)
    ensures var a, ls := Split(x), LocalizationLines(texts, comma);
      BeginCount(a[..|a| - 1] + [a[|a| - 1] + ls[0]] + ls[1..] + Lines(y)) == 1
  {
    var a := Split(x);
    var pre := a[..|a| - 1];
    SentinelsAreSingleLines();
    ContainsIffSomePiece(x, HeaderBegin);
    ContainsIffSomeLine(y, HeaderBegin);
    assert forall i :: 0 <= i < |pre| ==> pre[i] == a[i];
    OneBeginInserted(texts, comma, pre, a[|a| - 1], Lines(y));
  }
}

