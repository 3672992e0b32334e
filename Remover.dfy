/** Removal of the generated block from a script, line by line
    (LuaModifier.cs, RemoveMUCChanges, lines 337-393). The file handling around
    the loop (the backup and the temporary file) is in the Workflow module; this
    module holds the loop itself, the definition it is proved against, and what
    follows from that definition. */
module Remover {
  import opened Base
  import opened Text
  import opened Markers

  /** The four ways the loop can end: the two structural errors, "nothing to do",
      and the lines to write back. */
  datatype Outcome = EndWithoutBegin | BeginWithoutEnd | NoBlock | Removed(kept: seq<String>)

  /** `isMUCCode` after the first `n` lines, as long as no stray END was met. */
  predicate OpenAfter(lines: seq<String>, n: nat)
    requires n <= |lines|
  {
    n > 0 && (Begins(lines[n - 1]) || OpenAfter(lines, n - 1)) && !Ends(lines[n - 1])
  }

  /** `isMUCCode` at the moment line `i` is considered for output. */
  predicate InBlock(lines: seq<String>, i: nat)
    requires i < |lines|
  {
    Begins(lines[i]) || OpenAfter(lines, i)
  }

  /** `detectedAnyMUCCode` after the first `n` lines. */
  predicate SeenBegin(lines: seq<String>, n: nat)
    requires n <= |lines|
  {
    exists j :: 0 <= j < n && Begins(lines[j])
  }

  /** An END sentinel on a line that is not inside a block. */
  predicate StrayEndAt(lines: seq<String>, i: nat)
    requires i < |lines|
  {
    Ends(lines[i]) && !InBlock(lines, i)
  }

  predicate HasStrayEnd(lines: seq<String>) {
    exists i :: 0 <= i < |lines| && StrayEndAt(lines, i)
  }

  /** The text in front of the first BEGIN sentinel on a line. */
  function BeforeBegin(line: String): String
    requires Begins(line)
  {
    line[..IndexOf(line, HeaderBegin)]
  }

  /** What the writer receives for line `i`: the user's text in front of a BEGIN
      sentinel, if it is not blank, then the line itself when it is outside every
      block, unless it is blank, a block has already been seen and blank lines
      are not preserved. */
  function Emitted(lines: seq<String>, i: nat, preserveEmptyLines: bool): seq<String>
    requires i < |lines|
  {
    var line := lines[i];
    (if Begins(line) && !IsBlank(BeforeBegin(line)) then [BeforeBegin(line)] else [])
    + (if !InBlock(lines, i) && (!IsBlank(line) || !SeenBegin(lines, i) || preserveEmptyLines) then [line] else [])
  }

  /** What the writer holds after the first `n` lines. */
  function Kept(lines: seq<String>, n: nat, preserveEmptyLines: bool): seq<String>
    requires n <= |lines|
  {
    if n == 0 then [] else Kept(lines, n - 1, preserveEmptyLines) + Emitted(lines, n - 1, preserveEmptyLines)
  }

  /** The outcome of the removal loop on the lines of a file. */
  function Remove(lines: seq<String>, preserveEmptyLines: bool): Outcome {
    if HasStrayEnd(lines) then EndWithoutBegin
    else if OpenAfter(lines, |lines|) then BeginWithoutEnd
    else if !SeenBegin(lines, |lines|) then NoBlock
    else Removed(Kept(lines, |lines|, preserveEmptyLines))
  }

  /** The loop of RemoveMUCChanges with its two flags, writing into `out`
      instead of a temporary file. */
  method StripBlock(lines: seq<String>, preserveEmptyLines: bool) returns (r: Outcome)
    ensures r == Remove(lines, preserveEmptyLines)
  {
    var isMUCCode := false;
    var detectedAnyMUCCode := false;
    var out: seq<String> := [];
    var i := 0;
    while i < |lines|
      invariant 0 <= i <= |lines|
      invariant forall m :: 0 <= m < i ==> !StrayEndAt(lines, m)
      invariant isMUCCode == OpenAfter(lines, i)
      invariant detectedAnyMUCCode == SeenBegin(lines, i)
      invariant out == Kept(lines, i, preserveEmptyLines)
    {
      var line := lines[i];
      ghost var before := out;
      LoopStep(lines, i, preserveEmptyLines);
      if Contains(line, HeaderBegin) {
        isMUCCode := true;
        detectedAnyMUCCode := true;
        var beforeHeader := line[..IndexOf(line, HeaderBegin)];
        if !IsBlank(beforeHeader) {
          out := out + [beforeHeader];
        }
      }
      assert isMUCCode == InBlock(lines, i);
      if !isMUCCode && (!IsBlank(line) || !detectedAnyMUCCode || preserveEmptyLines) {
        out := out + [line];
      }
      assert out == before + Emitted(lines, i, preserveEmptyLines);
      if Contains(line, HeaderEnd) {
        if !isMUCCode {
          assert StrayEndAt(lines, i);
          return EndWithoutBegin;
        }
        isMUCCode := false;
      }
      i := i + 1;
    }
    if isMUCCode {
      return BeginWithoutEnd;
    }
    if !detectedAnyMUCCode {
      return NoBlock;
    }
    return Removed(out);
  }

  /** How the state of the loop after line `i` follows from the state before it. */
  lemma {:induction false} LoopStep(lines: seq<String>, i: nat, preserveEmptyLines: bool)
    requires i < |lines|
    ensures SeenBegin(lines, i + 1) == (SeenBegin(lines, i) || Begins(lines[i]))
    ensures OpenAfter(lines, i + 1) == (InBlock(lines, i) && !Ends(lines[i]))
    ensures Kept(lines, i + 1, preserveEmptyLines) == Kept(lines, i, preserveEmptyLines) + Emitted(lines, i, preserveEmptyLines)
  {
    if Begins(lines[i]) {
      assert SeenBegin(lines, i + 1);
    }
  }

  /** A block is open after `n` lines exactly when some BEGIN among them has no
      END on or after its own line. */
  lemma {:induction false} OpenAfterMeansUnclosedBegin(lines: seq<String>, n: nat)
    requires n <= |lines|
    ensures OpenAfter(lines, n) <==>
      exists j :: 0 <= j < n && Begins(lines[j]) && forall m :: j <= m < n ==> !Ends(lines[m])
  {
    if n > 0 {
      OpenAfterMeansUnclosedBegin(lines, n - 1);
      if OpenAfter(lines, n) && !Begins(lines[n - 1]) {
        var j :| 0 <= j < n - 1 && Begins(lines[j]) && forall m :: j <= m < n - 1 ==> !Ends(lines[m]);
        assert forall m :: j <= m < n ==> !Ends(lines[m]);
      }
      if exists j :: 0 <= j < n && Begins(lines[j]) && forall m :: j <= m < n ==> !Ends(lines[m]) {
        var j :| 0 <= j < n && Begins(lines[j]) && forall m :: j <= m < n ==> !Ends(lines[m]);
        assert !Ends(lines[n - 1]);
        if j < n - 1 {
          assert forall m :: j <= m < n - 1 ==> !Ends(lines[m]);
        }
      }
    }
  }

  /** No line the writer receives contains the BEGIN sentinel. */
  lemma {:induction false} KeptHasNoBegin(lines: seq<String>, n: nat, preserveEmptyLines: bool)
    requires n <= |lines|
    ensures forall k :: 0 <= k < |Kept(lines, n, preserveEmptyLines)| ==> !Begins(Kept(lines, n, preserveEmptyLines)[k])
  {
    if n > 0 {
      KeptHasNoBegin(lines, n - 1, preserveEmptyLines);
      var line := lines[n - 1];
      if Begins(line) {
        SentinelsAreSingleLines();
        PrefixBeforeFirstOccurrence(line, HeaderBegin);
      }
    }
  }

  /** No line the writer receives contains a line terminator, when no input line does. */
  lemma {:induction false} KeptHasNoNewline(lines: seq<String>, n: nat, preserveEmptyLines: bool)
    requires n <= |lines|
    requires forall k :: 0 <= k < |lines| ==> NoNewline(lines[k])
    ensures forall k :: 0 <= k < |Kept(lines, n, preserveEmptyLines)| ==> NoNewline(Kept(lines, n, preserveEmptyLines)[k])
  {
    if n > 0 {
      KeptHasNoNewline(lines, n - 1, preserveEmptyLines);
      var line := lines[n - 1];
      if Begins(line) {
        assert forall c :: c in BeforeBegin(line) ==> c in line;
      }
    }
  }

  /** Lines none of which holds a BEGIN sentinel never open a block. */
  lemma {:induction false} NeverOpen(lines: seq<String>, n: nat)
    requires n <= |lines|
    requires forall k :: 0 <= k < |lines| ==> !Begins(lines[k])
    ensures !OpenAfter(lines, n)
  {
    if n > 0 {
      NeverOpen(lines, n - 1);
    }
  }

  /** Removal finds nothing to do exactly when no line carries either sentinel. */
  lemma {:induction false} NoBlockIffNoSentinel(lines: seq<String>, preserveEmptyLines: bool)
    ensures Remove(lines, preserveEmptyLines) == NoBlock <==>
      forall k :: 0 <= k < |lines| ==> !Begins(lines[k]) && !Ends(lines[k])
  {
    if forall k :: 0 <= k < |lines| ==> !Begins(lines[k]) && !Ends(lines[k]) {
      NeverOpen(lines, |lines|);
    }
    if Remove(lines, preserveEmptyLines) == NoBlock {
      forall k | 0 <= k < |lines|
        ensures !Begins(lines[k]) && !Ends(lines[k])
      {
        if !Begins(lines[k]) {
          NeverOpen(lines, k);
          assert !StrayEndAt(lines, k);
        }
      }
    }
  }

  /** After a successful removal, removing again never rewrites the file: the
      result is "nothing to do", or, when a kept line still holds an END sentinel
      (text that stood in front of a BEGIN sentinel on the same line), the
      END-without-BEGIN error. */
  lemma {:induction false} RemoveAgain(lines: seq<String>, preserveEmptyLines: bool, again: bool)
    requires Remove(lines, preserveEmptyLines).Removed?
    ensures var kept := Remove(lines, preserveEmptyLines).kept;
      && (Remove(kept, again) == NoBlock || Remove(kept, again) == EndWithoutBegin)
      && (Remove(kept, again) == NoBlock <==> forall k :: 0 <= k < |kept| ==> !Ends(kept[k]))
  {
    var kept := Remove(lines, preserveEmptyLines).kept;
    KeptHasNoBegin(lines, |lines|, preserveEmptyLines);
    NoBlockIffNoSentinel(kept, again);
    if !(forall k :: 0 <= k < |kept| ==> !Ends(kept[k])) {
      var k :| 0 <= k < |kept| && Ends(kept[k]);
      NeverOpen(kept, k);
      assert StrayEndAt(kept, k);
    }
  }

  /** A line whose text in front of its first BEGIN sentinel holds an END
      sentinel: the removal keeps that text as a line of its own, and a second
      removal then reports the END without a BEGINNING. Removal is therefore
      not idempotent on such a script. */
  lemma {:induction false} EndBeforeBegin(line: String, preserveEmptyLines: bool, again: bool)
    requires Begins(line) && Ends(BeforeBegin(line))
    ensures Remove([line], preserveEmptyLines) == Removed([BeforeBegin(line)])
    ensures Remove([BeforeBegin(line)], again) == EndWithoutBegin
  {
    var b := BeforeBegin(line);
    ContainsInPrefix(line, |b|, HeaderEnd);
    NotBlankIfEnds(b);
    SentinelsAreSingleLines();
    BeforeFirstOccurrence(line, HeaderBegin);
    OpensAndCloses(line, preserveEmptyLines);
    StrayOnly(b, again);
  }

  /** Text that holds an END sentinel is not white space. */
  lemma {:induction false} NotBlankIfEnds(b: String)
    requires Ends(b)
    ensures !IsBlank(b)
  {
    var i: nat :| i + |HeaderEnd| <= |b| && OccursAt(b, HeaderEnd, i);
    SentinelsAreSingleLines();
    OccurrenceCovers(b, HeaderEnd, i, i);
    assert HeaderEnd[0] == '-';
  }

  /** A single line that opens and closes a block keeps only the text in
      front of its BEGIN sentinel. */
  lemma {:induction false} OpensAndCloses(line: String, preserveEmptyLines: bool)
    requires Begins(line) && Ends(line) && !IsBlank(BeforeBegin(line))
    ensures Remove([line], preserveEmptyLines) == Removed([BeforeBegin(line)])
  {
    var lines := [line];
    assert !StrayEndAt(lines, 0);
    assert SeenBegin(lines, 1);
    assert Kept(lines, 1, preserveEmptyLines) == Emitted(lines, 0, preserveEmptyLines);
  }

  /** A single line with an END sentinel and no BEGIN sentinel is stray. */
  lemma {:induction false} StrayOnly(b: String, again: bool)
    requires Ends(b) && !Begins(b)
    ensures Remove([b], again) == EndWithoutBegin
  {
    assert StrayEndAt([b], 0);
  }

  /** The END sentinel followed by the BEGIN sentinel on one line is such a
      line: the only `B` in it is the one of BEGIN. */
  lemma {:induction false} EndThenBegin()
    ensures var line := HeaderEnd + HeaderBegin; Begins(line) && Ends(BeforeBegin(line))
  {
    var line := HeaderEnd + HeaderBegin;
    assert HeaderBegin[..21] == Warning && HeaderBegin[21] == 'B';
    assert 'B' !in HeaderEnd && 'B' !in Warning;
    FirstOccurrenceAfter(HeaderEnd, HeaderBegin, 21);
    assert BeforeBegin(line) == HeaderEnd;
    SentinelLines();
  }

  /** A line after the block: kept unless it is blank and blank lines are not preserved. */
  function Keep(line: String, preserveEmptyLines: bool): seq<String> {
    if preserveEmptyLines || !IsBlank(line) then [line] else []
  }

  /** The first `n` lines of `ls` without the blank ones, unless blank lines are preserved. */
  function DropBlankUpTo(ls: seq<String>, n: nat, preserveEmptyLines: bool): seq<String>
    requires n <= |ls|
  {
    if n == 0 then [] else DropBlankUpTo(ls, n - 1, preserveEmptyLines) + Keep(ls[n - 1], preserveEmptyLines)
  }

  /** `ls` without its blank lines, unless blank lines are preserved. */
  function DropBlank(ls: seq<String>, preserveEmptyLines: bool): seq<String> {
    DropBlankUpTo(ls, |ls|, preserveEmptyLines)
  }

  /** The user's text kept from a BEGIN line. */
  function PrefixLine(b: String): seq<String>
    requires Begins(b)
  {
    if IsBlank(BeforeBegin(b)) then [] else [BeforeBegin(b)]
  }

  predicate IsSingleBlock(lines: seq<String>, pre: seq<String>, b: String, mid: seq<String>, e: String, post: seq<String>) {
    && lines == pre + [b] + mid + [e] + post
    && Plain(pre) && Plain(mid) && Plain(post)
    && Begins(b) && !Ends(b) && Ends(e) && !Begins(e)
  }

  lemma {:induction false} SingleBlockOpen(lines: seq<String>, pre: seq<String>, b: String, mid: seq<String>, e: String, post: seq<String>, n: nat)
    requires IsSingleBlock(lines, pre, b, mid, e, post)
    requires n <= |lines|
    ensures OpenAfter(lines, n) == (|pre| < n <= |pre| + 1 + |mid|)
  {
    if n > 0 {
      SingleBlockOpen(lines, pre, b, mid, e, post, n - 1);
      var p, q := |pre|, |pre| + 1 + |mid|;
      var i := n - 1;
      if i < p {
        assert lines[i] == pre[i];
      } else if i == p {
        assert lines[i] == b;
      } else if i < q {
        assert lines[i] == mid[i - p - 1];
      } else if i == q {
        assert lines[i] == e;
      } else {
        assert lines[i] == post[i - q - 1];
      }
    }
  }

  /** What the writer receives for line `i` of a file with one block. */
  function SingleBlockPiece(pre: seq<String>, lead: seq<String>, mid: seq<String>, post: seq<String>, i: nat, preserveEmptyLines: bool): seq<String>
    requires i < |pre| + 1 + |mid| + 1 + |post|
  {
    var p, q := |pre|, |pre| + 1 + |mid|;
    if i < p then [pre[i]]
    else if i == p then lead
    else if i <= q then []
    else Keep(post[i - q - 1], preserveEmptyLines)
  }

  lemma {:induction false} SingleBlockEmitted(lines: seq<String>, pre: seq<String>, b: String, mid: seq<String>, e: String, post: seq<String>, preserveEmptyLines: bool, i: nat)
    requires IsSingleBlock(lines, pre, b, mid, e, post)
    requires i < |lines|
    ensures Emitted(lines, i, preserveEmptyLines) == SingleBlockPiece(pre, PrefixLine(b), mid, post, i, preserveEmptyLines)
  {
    var p, q := |pre|, |pre| + 1 + |mid|;
    SingleBlockOpen(lines, pre, b, mid, e, post, i);
    if i < p {
      assert lines[i] == pre[i];
      assert !SeenBegin(lines, i) by {
        forall j | 0 <= j < i ensures !Begins(lines[j]) {
          assert lines[j] == pre[j];
        }
      }
    } else if i == p {
      assert lines[i] == b;
    } else if i < q {
      assert lines[i] == mid[i - p - 1];
    } else if i == q {
      assert lines[i] == e;
    } else {
      assert lines[i] == post[i - q - 1];
      assert lines[p] == b;
      assert SeenBegin(lines, i);
    }
  }

  /** A file with one well-formed block: the lines before the block are kept
      as they are (blank ones included), the BEGIN line leaves only the user's
      text in front of the sentinel, the lines of the block and the END line go,
      and of the lines after the block the blank ones go unless blank lines are
      preserved. */
  lemma {:induction false} RemovesSingleBlock(lines: seq<String>, pre: seq<String>, b: String, mid: seq<String>, e: String, post: seq<String>, preserveEmptyLines: bool)
    requires IsSingleBlock(lines, pre, b, mid, e, post)
    ensures Remove(lines, preserveEmptyLines) == Removed(pre + PrefixLine(b) + DropBlank(post, preserveEmptyLines))
  {
    var p, q := |pre|, |pre| + 1 + |mid|;
    forall i | 0 <= i < |lines|
      ensures !StrayEndAt(lines, i)
    {
      SingleBlockOpen(lines, pre, b, mid, e, post, i);
      if i < p {
        assert lines[i] == pre[i];
      } else if i == p {
        assert lines[i] == b;
      } else if i < q {
        assert lines[i] == mid[i - p - 1];
      } else if i > q {
        assert lines[i] == post[i - q - 1];
      }
    }
    SingleBlockOpen(lines, pre, b, mid, e, post, |lines|);
    assert lines[p] == b;
    SingleBlockKept(lines, pre, b, mid, e, post, preserveEmptyLines);
  }

  /** What the writer holds after the first `n` lines of a file with one block. */
  function SingleBlockKeptUpTo(pre: seq<String>, lead: seq<String>, mid: seq<String>, post: seq<String>, n: nat, preserveEmptyLines: bool): seq<String>
    requires n <= |pre| + 1 + |mid| + 1 + |post|
  {
    var p, q := |pre|, |pre| + 1 + |mid|;
    if n <= p then pre[..n]
    else if n <= q + 1 then pre + lead
    else pre + lead + DropBlankUpTo(post, n - q - 1, preserveEmptyLines)
  }

  lemma {:induction false} KeptInSingleBlock(lines: seq<String>, pre: seq<String>, b: String, mid: seq<String>, e: String, post: seq<String>, preserveEmptyLines: bool, n: nat)
    requires IsSingleBlock(lines, pre, b, mid, e, post)
    requires n <= |lines|
    ensures Kept(lines, n, preserveEmptyLines) == SingleBlockKeptUpTo(pre, PrefixLine(b), mid, post, n, preserveEmptyLines)
  {
    forall i | 0 <= i < |lines|
      ensures Emitted(lines, i, preserveEmptyLines) == SingleBlockPiece(pre, PrefixLine(b), mid, post, i, preserveEmptyLines)
    {
      SingleBlockEmitted(lines, pre, b, mid, e, post, preserveEmptyLines, i);
    }
    KeptOfPieces(lines, pre, PrefixLine(b), mid, post, preserveEmptyLines, n);
  }

  /** The writer's contents after `n` lines, when each line emits its piece. */
  lemma {:induction false} KeptOfPieces(lines: seq<String>, pre: seq<String>, lead: seq<String>, mid: seq<String>, post: seq<String>, preserveEmptyLines: bool, n: nat)
    requires |lines| == |pre| + 1 + |mid| + 1 + |post| && n <= |lines|
    requires forall i :: 0 <= i < |lines| ==> Emitted(lines, i, preserveEmptyLines) == SingleBlockPiece(pre, lead, mid, post, i, preserveEmptyLines)
    ensures Kept(lines, n, preserveEmptyLines) == SingleBlockKeptUpTo(pre, lead, mid, post, n, preserveEmptyLines)
  {
    if n == 0 {
      assert pre[..0] == [];
    } else {
      KeptOfPieces(lines, pre, lead, mid, post, preserveEmptyLines, n - 1);
      var before, piece := Kept(lines, n - 1, preserveEmptyLines), Emitted(lines, n - 1, preserveEmptyLines);
      assert piece == SingleBlockPiece(pre, lead, mid, post, n - 1, preserveEmptyLines);
      KeptStep(lines, n, preserveEmptyLines, before, piece);
      SingleBlockStep(pre, lead, mid, post, n, preserveEmptyLines);
    }
  }

  lemma {:induction false} KeptStep(lines: seq<String>, n: nat, preserveEmptyLines: bool, before: seq<String>, piece: seq<String>)
    requires 0 < n <= |lines|
    requires Kept(lines, n - 1, preserveEmptyLines) == before && Emitted(lines, n - 1, preserveEmptyLines) == piece
    ensures Kept(lines, n, preserveEmptyLines) == before + piece
  {
  }

  /** One more line of a file with one block. */
  lemma {:induction false} SingleBlockStep(pre: seq<String>, lead: seq<String>, mid: seq<String>, post: seq<String>, n: nat, preserveEmptyLines: bool)
    requires 0 < n <= |pre| + 1 + |mid| + 1 + |post|
    ensures SingleBlockKeptUpTo(pre, lead, mid, post, n - 1, preserveEmptyLines) + SingleBlockPiece(pre, lead, mid, post, n - 1, preserveEmptyLines)
      == SingleBlockKeptUpTo(pre, lead, mid, post, n, preserveEmptyLines)
  {
    var p, q := |pre|, |pre| + 1 + |mid|;
    if n - 1 < p {
      assert pre[..n] == pre[..n - 1] + [pre[n - 1]];
    } else if n - 1 == p {
      assert pre[..p] == pre;
    } else if n - 1 > q {
      Associative(pre + lead, DropBlankUpTo(post, n - q - 2, preserveEmptyLines), Keep(post[n - q - 2], preserveEmptyLines));
    }
  }

  /** What the writer holds at the end, for a file with one block. */
  lemma {:induction false} SingleBlockKept(lines: seq<String>, pre: seq<String>, b: String, mid: seq<String>, e: String, post: seq<String>, preserveEmptyLines: bool)
    requires IsSingleBlock(lines, pre, b, mid, e, post)
    ensures Kept(lines, |lines|, preserveEmptyLines) == pre + PrefixLine(b) + DropBlank(post, preserveEmptyLines)
  {
    KeptInSingleBlock(lines, pre, b, mid, e, post, preserveEmptyLines, |lines|);
  }
}
