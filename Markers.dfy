/** The two sentinel comments that delimit the generated block, and the
    line-wise test that decides whether a script already carries one
    (LuaModifier.cs, the constants at the top and the first two loops of
    AddUpdateChecker). */
module Markers {
  import opened Base
  import opened Text

  // The sentinels are written as a concatenation of short pieces, which lets
  // the verifier evaluate facts about their characters.
  const Warning: String := "-- DO NOT MODIFY ::: "
  const Subject: String := " Auto-Generated" + " Mod Update-Checker"

  const HeaderBegin: String := Warning + "BEGIN" + Subject
  const HeaderEnd: String := Warning + "END" + Subject

  predicate Begins(line: String) {
    Contains(line, HeaderBegin)
  }

  predicate Ends(line: String) {
    Contains(line, HeaderEnd)
  }

  /** Lines that hold neither sentinel. */
  predicate Plain(ls: seq<String>) {
    forall k :: 0 <= k < |ls| ==> !Begins(ls[k]) && !Ends(ls[k])
  }

  /** Some line that a reader yields for `text` contains the BEGIN sentinel. */
  predicate HasBeginLine(text: String) {
    exists i :: 0 <= i < |Lines(text)| && Begins(Lines(text)[i])
  }

  lemma SentinelsAreSingleLines()
    ensures NoNewline(HeaderBegin) && NoNewline(HeaderEnd)
    ensures HeaderBegin != [] && HeaderEnd != []
  {
    assert NoNewline(Warning) && NoNewline(Subject);
  }

  /** The BEGIN sentinel line on its own opens a block and does not close one. */
  lemma SentinelLines()
    ensures Begins(HeaderBegin) && !Ends(HeaderBegin)
    ensures Ends(HeaderEnd) && !Begins(HeaderEnd)
  {
    assert OccursAt(HeaderBegin, HeaderBegin, 0);
    assert OccursAt(HeaderEnd, HeaderEnd, 0);
    forall i: nat | i + |HeaderEnd| <= |HeaderBegin|
      ensures !OccursAt(HeaderBegin, HeaderEnd, i)
    {
      assert i == 0 || i == 1 || i == 2;
      var wanted := if i == 0 then 21 else if i == 1 then 1 else 0;
      assert HeaderBegin[i..i + |HeaderEnd|][wanted] != HeaderEnd[wanted];
    }
  }

  /** Testing line by line finds exactly the texts in which the BEGIN sentinel
      occurs anywhere, because the sentinel holds no line terminator. */
  lemma {:induction false} HasBeginLineIffContains(text: String)
    ensures HasBeginLine(text) <==> Contains(text, HeaderBegin)
  {
    SentinelsAreSingleLines();
    ContainsIffSomeLine(text, HeaderBegin);
  }

  /** Both sentinels spell "Generated", so a line without a capital G holds neither. */
  lemma {:induction false} SentinelsNeedCapitalG(line: String)
    ensures Begins(line) || Ends(line) ==> 'G' in line
  {
    if Begins(line) {
      var i: nat :| i + |HeaderBegin| <= |line| && OccursAt(line, HeaderBegin, i);
      OccurrenceCovers(line, HeaderBegin, i, i + 32);
      assert HeaderBegin[32] == 'G';
    }
    if Ends(line) {
      var i: nat :| i + |HeaderEnd| <= |line| && OccursAt(line, HeaderEnd, i);
      OccurrenceCovers(line, HeaderEnd, i, i + 30);
      assert HeaderEnd[30] == 'G';
    }
  }
}
