/** What the scanned blocks are: whole lines, in order, disjoint, and every complete helper. */
module JavaScannerProofs {
  import opened Text
  import opened JavaScanner

  // Positions the scan restarts from: the beginning, or after a closing brace's line.
  ghost predicate Restart(source: string, p: nat) {
    p == 0 || (p >= |CLOSING| && At(source, CLOSING, p - |CLOSING|))
  }

  // Blocks of whole lines that follow one another, the first one starting no earlier than `from`.
  ghost predicate Ordered(source: string, from: nat, blocks: seq<Block>)
    decreases |blocks|
  {
    blocks == [] ||
    (&& from <= blocks[0].start < blocks[0].end
     && LineBoundary(source, blocks[0].start) && LineBoundary(source, blocks[0].end)
     && Ordered(source, blocks[0].end, blocks[1..]))
  }

  lemma {:induction false} BlocksAfter(source: string, from: nat, blocks: seq<Block>, i: nat)
    requires Ordered(source, from, blocks) && i <= |blocks|
    ensures Ordered(source, if i == 0 then from else blocks[i - 1].end, blocks[i..])
    ensures i > 0 ==> from <= blocks[i - 1].end <= |source|
    ensures i < |blocks| ==> from <= blocks[i].start
    decreases |blocks|
  {
    if i > 0 {
      BlocksAfter(source, blocks[0].end, blocks[1..], i - 1);
      assert blocks[1..][i - 1..] == blocks[i..];
    } else {
      assert blocks[0..] == blocks;
    }
  }

  lemma BraceLineIsNoComment(source: string, p: nat)
    requires 0 < p <= |source| && Restart(source, p)
    ensures LineBoundary(source, p) && LineStart(source, p - 1) == p - 6
    ensures !IsComment(source, LineStart(source, p - 1), p - 1)
    ensures source[p - 2] == '}'
  {
    var c := source[p - 7..p];
    assert c == CLOSING;
    assert source[p - 7] == c[0] && source[p - 2] == c[5] && source[p - 1] == c[6];
    assert source[p - 6] == c[1] && source[p - 5] == c[2] && source[p - 4] == c[3] && source[p - 3] == c[4];
    assert LineStart(source, p - 6) == p - 6;
    assert LineStart(source, p - 4) == p - 6;
    assert LineStart(source, p - 2) == p - 6;
    BraceIsNotTrimmed(source[p - 6..p - 1]);
  }

  lemma BraceIsNotTrimmed(line: string)
    requires line == "    }"
    ensures !("//" <= TrimLeft(line))
  {
    assert line[1..] == "   }" && line[1..][1..] == "  }";
    assert TrimLeft("  }") == TrimLeft(" }") by { assert "  }"[1..] == " }"; }
    assert TrimLeft(" }") == "}" by { assert " }"[1..] == "}"; }
  }

  // The backward walk over comments never crosses the end of the block before.
  lemma {:induction false} WalkStaysAhead(source: string, p: nat, d: nat)
    requires Restart(source, p) && LineBoundary(source, p) && p <= d && LineBoundary(source, d)
    ensures p <= CommentTop(source, d)
    decreases d
  {
    if d == p {
      if p > 0 {
        BraceLineIsNoComment(source, p);
      }
    } else if IsComment(source, LineStart(source, d - 1), d - 1) {
      BoundaryBeforeLine(source, p, d - 1);
      WalkStaysAhead(source, p, LineStart(source, d - 1));
    }
  }

  lemma BlockStaysAhead(source: string, p: nat, d: nat)
    requires Restart(source, p) && LineBoundary(source, p) && p <= d && LineBoundary(source, d)
    ensures p <= BlockTop(source, d)
  {
    WalkStaysAhead(source, p, d);
    if p > 0 {
      BraceLineIsNoComment(source, p);
    }
  }

  lemma EndsAtRestart(source: string, index: nat)
    requires index <= |source| && BlockEnd(source, index) >= 0
    ensures Restart(source, BlockEnd(source, index))
    ensures forall i | index <= i && i + |CLOSING| < BlockEnd(source, index) :: !At(source, CLOSING, i)
  {
    IndexIsFirst(source, CLOSING, index);
  }

  lemma {:induction false} BlocksFromOrdered(source: string, name: string, offset: nat)
    requires Restart(source, offset) && LineBoundary(source, offset)
    ensures Ordered(source, offset, BlocksFrom(source, name, offset))
    decreases |source| - offset
  {
    var index := DeclarationFrom(source, Needle(name), offset);
    BlocksStep(source, name, offset, index);
    if index >= 0 && BlockEnd(source, index) >= 0 {
      var end := BlockEnd(source, index);
      DeclarationIsAhead(source, Needle(name), offset, offset);
      BlockStaysAhead(source, offset, index);
      EndsAtRestart(source, index);
      BlocksFromOrdered(source, name, end);
    }
  }

  // For every source text and every name: the intervals lie in the text, consist of whole lines,
  // are strictly ordered and pairwise disjoint.
  lemma BlocksAreOrderedLines(source: string, name: string)
    ensures var blocks := BlocksFrom(source, name, 0);
            && Ordered(source, 0, blocks)
            && (forall k | 0 <= k < |blocks| ::
                  && blocks[k].start < blocks[k].end <= |source|
                  && LineBoundary(source, blocks[k].start) && LineBoundary(source, blocks[k].end))
            && (forall k, l | 0 <= k < l < |blocks| :: blocks[k].end <= blocks[l].start)
  {
    BlocksFromOrdered(source, name, 0);
    var blocks := BlocksFrom(source, name, 0);
    forall k | 0 <= k < |blocks|
      ensures LineBoundary(source, blocks[k].start) && LineBoundary(source, blocks[k].end)
      ensures blocks[k].start < blocks[k].end
    {
      BlocksAfter(source, 0, blocks, k);
    }
    forall k, l | 0 <= k < l < |blocks| ensures blocks[k].end <= blocks[l].start {
      BlocksAfter(source, 0, blocks, k + 1);
      BlocksAfter(source, blocks[k].end, blocks[k + 1..], l - k - 1);
      assert blocks[k + 1..][l - k - 1] == blocks[l];
    }
  }

  // An occurrence of " name(" whose line opens a member declaration.
  ghost predicate Declaration(source: string, name: string, i: int) {
    At(source, Needle(name), i) && DeclaresAt(source, i)
  }

  lemma CharAt(s: string, p: string, i: int, j: int)
    requires At(s, p, i) && i <= j < i + |p|
    ensures s[j] == p[j - i]
  {
    assert s[i..i + |p|][j - i] == s[j];
  }

  // The needle laid over itself, p characters on: the second occurrence overlaps the first, and
  // stands on the first one's line or on a line of the needle's own that opens a declaration.
  ghost predicate HiddenAt(needle: string, p: int) {
    && 0 < p < |needle| && needle[p..] == needle[..|needle| - p]
    && (LineStart(needle, p) == 0 || OpensDeclaration(needle[LineStart(needle, p)..p]))
  }

  // Whether one declaration of the name can hide in an occurrence that is none.
  ghost predicate HidesItself(name: string) {
    exists p :: HiddenAt(Needle(name), p)
  }

  lemma {:induction false} LineInside(source: string, p: string, i: nat, end: nat)
    requires At(source, p, i) && end <= |p| && LineStart(p, end) > 0
    ensures LineStart(source, i + end) == i + LineStart(p, end)
  {
    CharAt(source, p, i, i + end - 1);
    if p[end - 1] != '\n' {
      LineInside(source, p, i, end - 1);
    }
  }

  lemma SliceInside(source: string, p: string, i: nat, from: nat, until: nat)
    requires At(source, p, i) && from <= until <= |p|
    ensures source[i + from..i + until] == p[from..until]
  {
    forall k | 0 <= k < until - from ensures source[i + from..i + until][k] == p[from..until][k] {
      CharAt(source, p, i, i + from + k);
    }
  }

  lemma OverlapIsBorder(source: string, needle: string, i: nat, p: nat)
    requires At(source, needle, i) && At(source, needle, i + p) && p < |needle|
    ensures needle[p..] == needle[..|needle| - p]
  {
    forall k | 0 <= k < |needle| - p ensures needle[p..][k] == needle[..|needle| - p][k] {
      CharAt(source, needle, i, i + p + k);
      CharAt(source, needle, i + p, i + p + k);
    }
  }

  // An occurrence that overlaps an earlier one and is a declaration hides in it.
  lemma OverlapHides(source: string, needle: string, i: nat, p: nat)
    requires At(source, needle, i) && At(source, needle, i + p) && DeclaresAt(source, i + p) && 0 < p < |needle|
    ensures HiddenAt(needle, p)
  {
    OverlapIsBorder(source, needle, i, p);
    if LineStart(needle, p) > 0 {
      OverlapOpens(source, needle, i, p, LineStart(needle, p));
    }
  }

  lemma OverlapOpens(source: string, needle: string, i: nat, p: nat, start: nat)
    requires i + p <= |source| && p < |needle| && 0 < start == LineStart(needle, p)
    requires At(source, needle, i) && DeclaresAt(source, i + p)
    ensures OpensDeclaration(needle[start..p])
  {
    LineInside(source, needle, i, p);
    SliceInside(source, needle, i, start, p);
  }

  // What it means that `r` is the line of the first declaration at or after `search`.
  ghost predicate FirstDeclaration(source: string, name: string, search: nat, r: int) {
    if r < 0 then forall i | search <= i :: !Declaration(source, name, i)
    else
      && (exists i :: search <= i && DeclarationOn(source, name, i, r))
      && forall i | search <= i && Declaration(source, name, i) :: r <= LineStart(source, i)
  }

  ghost predicate DeclarationOn(source: string, name: string, i: int, r: int) {
    Declaration(source, name, i) && r == LineStart(source, i)
  }

  lemma DeclarationNowhere(source: string, name: string, search: nat)
    requires search <= |source| && IndexFrom(source, Needle(name), search) < 0
    ensures FirstDeclaration(source, name, search, -1)
  {
    IndexIsFirst(source, Needle(name), search);
  }

  lemma DeclarationHere(source: string, name: string, search: nat, first: nat)
    requires search <= |source| && first == IndexFrom(source, Needle(name), search) && DeclaresAt(source, first)
    ensures FirstDeclaration(source, name, search, LineStart(source, first))
  {
    IndexIsFirst(source, Needle(name), search);
    assert DeclarationOn(source, name, first, LineStart(source, first));
    forall i | search <= i && Declaration(source, name, i) ensures LineStart(source, first) <= LineStart(source, i) {
      BoundaryBeforeLine(source, LineStart(source, first), i);
    }
  }

  lemma DeclarationLater(source: string, name: string, search: nat, first: nat, r: int)
    requires search <= |source| && first == IndexFrom(source, Needle(name), search) && !DeclaresAt(source, first)
    requires !HidesItself(name) && FirstDeclaration(source, name, first + |Needle(name)|, r)
    ensures FirstDeclaration(source, name, search, r)
  {
    IndexIsFirst(source, Needle(name), search);
    forall i | search <= i && Declaration(source, name, i) ensures first + |Needle(name)| <= i {
      if i > first {
        if i < first + |Needle(name)| {
          OverlapHides(source, Needle(name), first, i - first);
        }
      }
    }
    if r >= 0 {
      var i :| first + |Needle(name)| <= i && DeclarationOn(source, name, i, r);
      assert search <= i;
    }
  }

  // Where no declaration can hide, the scan finds the first one there is.
  lemma {:induction false} FirstDeclarationIsFound(
      source: string, name: string, needle: string, search: nat, found: int)
    requires search <= |source| && needle == Needle(name) && !HidesItself(name)
    requires found == DeclarationFrom(source, needle, search)
    ensures FirstDeclaration(source, name, search, found)
    decreases |source| - search
  {
    var first := IndexFrom(source, needle, search);
    DeclarationStep(source, needle, search, first);
    if first < 0 {
      DeclarationNowhere(source, name, search);
    } else if DeclaresAt(source, first) {
      DeclarationHere(source, name, search, first);
    } else {
      FirstDeclarationIsFound(source, name, needle, first + |needle|, found);
      DeclarationLater(source, name, search, first, found);
    }
  }

  ghost predicate InsideBlock(blocks: seq<Block>, i: int) {
    exists k :: 0 <= k < |blocks| && blocks[k].start <= i < blocks[k].end
  }

  ghost predicate NeverClosed(source: string, i: nat)
    requires i <= |source|
  {
    forall c | LineStart(source, i) <= c :: !At(source, CLOSING, c)
  }

  lemma {:induction false} DeclarationsAreCut(source: string, name: string, offset: nat, i: nat)
    requires LineBoundary(source, offset) && !HidesItself(name) && offset <= i && Declaration(source, name, i)
    ensures InsideBlock(BlocksFrom(source, name, offset), i) || NeverClosed(source, i)
    decreases |source| - offset
  {
    var index := DeclarationFrom(source, Needle(name), offset);
    BlocksStep(source, name, offset, index);
    FirstDeclarationIsFound(source, name, Needle(name), offset, index);
    if BlockEnd(source, index) < 0 {
      IndexIsFirst(source, CLOSING, index);
    } else {
      var end := BlockEnd(source, index);
      var first, later := Block(BlockTop(source, index), end), BlocksFrom(source, name, end);
      if i >= end {
        DeclarationsAreCut(source, name, end, i);
      }
      InsideFirstOrLater(first, later, i);
    }
  }

  lemma InsideFirstOrLater(first: Block, later: seq<Block>, i: int)
    ensures InsideBlock([first] + later, i) <==> first.start <= i < first.end || InsideBlock(later, i)
  {
    var all := [first] + later;
    if first.start <= i < first.end {
      assert all[0] == first;
    } else if k :| 0 <= k < |later| && later[k].start <= i < later[k].end {
      assert all[k + 1] == later[k];
    }
  }
}
