/** What a scanned block consists of, line by line: blank line, comment, declaration, body, brace. */
module JavaBlocks {
  import opened Text
  import opened JavaScanner

  // The line from `p` on ends with the newline before `q`.
  ghost predicate LineIs(source: string, p: int, q: int) {
    0 <= p < q <= |source| && LineBoundary(source, p) && source[q - 1] == '\n' && NoNewlineIn(source, p, q - 1)
  }

  ghost predicate NoNewlineIn(source: string, from: int, to: int)
    requires 0 <= from && to <= |source|
  {
    forall i | from <= i < to :: source[i] != '\n'
  }

  // White space up to `j`, on one line, and then two slashes.
  ghost predicate SlashesAt(source: string, p: int, j: int)
    requires 0 <= p
  {
    && p <= j && j + 2 <= |source| && source[j] == source[j + 1] == '/'
    && forall i | p <= i < j :: IsSpace(source[i]) && source[i] != '\n'
  }

  ghost predicate CommentLine(source: string, p: int)
    requires 0 <= p
  {
    exists j :: SlashesAt(source, p, j)
  }

  // A member declaration of the name: four spaces, its visibility, more, and on the same line the
  // name between a space and a parenthesis.
  ghost predicate HelperLine(source: string, name: string, d: nat) {
    && LineBoundary(source, d)
    && exists i :: NamedAt(source, name, d, i)
  }

  ghost predicate NamedAt(source: string, name: string, d: nat, i: int) {
    && d <= i <= |source| && At(source, " " + name + "(", i) && NoNewlineIn(source, d, i)
    && ("    private " <= source[d..i] || "    protected " <= source[d..i])
  }

  // A line that is nothing but a brace at member indentation.
  ghost predicate ClosingLine(source: string, p: int) {
    LineBoundary(source, p) && p + 6 <= |source| && source[p..p + 6] == "    }\n"
  }

  // `top` is where the comment lines directly above line `d` begin.
  ghost predicate CommentedFrom(source: string, top: nat, d: nat) {
    && top <= d <= |source| && LineBoundary(source, top)
    && (forall p | top <= p < d && LineBoundary(source, p) :: CommentLine(source, p))
    && (forall p | LineIs(source, p, top) :: !CommentLine(source, p))
  }

  // From the comment, with the blank line above it if there is one, to the first closing brace.
  ghost predicate Spans(source: string, name: string, block: Block, top: nat, d: nat) {
    && HelperLine(source, name, d) && CommentedFrom(source, top, d)
    && block.start == (if top >= 2 && source[top - 2] == source[top - 1] == '\n' then top - 1 else top)
    && d < block.end - 6 && ClosingLine(source, block.end - 6)
    && forall p | d < p < block.end - 6 :: !ClosingLine(source, p)
  }

  ghost predicate IsBlock(source: string, name: string, block: Block) {
    exists top, d :: Spans(source, name, block, top, d)
  }

  // ---- Comments.

  lemma {:induction false} TrimLeftIs(s: string) returns (j: nat)
    ensures j <= |s| && TrimLeft(s) == s[j..] && (forall i | 0 <= i < j :: IsSpace(s[i]))
    ensures j < |s| ==> !IsSpace(s[j])
  {
    if s != [] && IsSpace(s[0]) {
      var k := TrimLeftIs(s[1..]);
      j := k + 1;
      assert s[1..][k..] == s[j..];
    } else {
      j := 0;
      assert s[0..] == s;
    }
  }

  lemma PrefixIsSlashes(source: string, p: nat, q: nat, j: nat)
    requires LineIs(source, p, q) && p + j <= q - 1 && forall i | p <= i < p + j :: IsSpace(source[i])
    ensures "//" <= source[p + j..q - 1] ==> SlashesAt(source, p, p + j)
  {
    var rest := source[p + j..q - 1];
    if "//" <= rest {
      assert rest[0] == source[p + j] && rest[1] == source[p + j + 1];
    }
  }

  lemma SlashesArePrefix(source: string, p: nat, q: nat, j: nat, k: int)
    requires LineIs(source, p, q) && p + j <= q - 1 && SlashesAt(source, p, k)
    requires forall i | p <= i < p + j :: IsSpace(source[i])
    requires p + j < q - 1 ==> !IsSpace(source[p + j])
    ensures "//" <= source[p + j..q - 1]
  {
    SlashesStayOnLine(source, p, q, k);
    assert k == p + j;
    var rest := source[p + j..q - 1];
    assert rest[0] == '/' && rest[1] == '/';
  }

  lemma CommentIsLine(source: string, p: nat, q: nat)
    requires LineIs(source, p, q)
    ensures IsComment(source, p, q - 1) <==> CommentLine(source, p)
  {
    var line := source[p..q - 1];
    var j := TrimLeftIs(line);
    assert forall i | 0 <= i < |line| :: line[i] == source[p + i];
    forall i | p <= i < p + j ensures IsSpace(source[i]) {
      assert line[i - p] == source[i];
    }
    assert line[j..] == source[p + j..q - 1];
    PrefixIsSlashes(source, p, q, j);
    if k :| SlashesAt(source, p, k) {
      SlashesArePrefix(source, p, q, j, k);
    }
  }

  lemma SlashesStayOnLine(source: string, p: nat, q: nat, k: int)
    requires LineIs(source, p, q) && SlashesAt(source, p, k)
    ensures k + 2 <= q - 1
  {
    assert source[q - 1] == '\n';
  }

  lemma LineBeforeIs(source: string, p: int, d: nat)
    requires LineIs(source, p, d)
    ensures p == LineStart(source, d - 1)
  {
    BoundaryBeforeLine(source, p, d - 1);
    var start := LineStart(source, d - 1);
    assert start > 0 ==> source[start - 1] == '\n';
  }

  lemma LineBefore(source: string, d: nat)
    requires 0 < d && LineBoundary(source, d)
    ensures LineIs(source, LineStart(source, d - 1), d)
  {
    var end := d - 1;
    assert source[end] == '\n';
    OneLine(source, end);
  }

  lemma NoBoundaryWithin(source: string, p: int, d: nat, i: int)
    requires LineIs(source, p, d) && p < i < d
    ensures !LineBoundary(source, i)
  {
    assert source[i - 1] != '\n';
  }

  // The backward walk stops exactly at the top of the comment.
  lemma {:induction false} WalkFindsComment(source: string, d: nat)
    requires LineBoundary(source, d)
    ensures CommentedFrom(source, CommentTop(source, d), d)
    decreases d
  {
    if d > 0 {
      var previous := LineStart(source, d - 1);
      LineBefore(source, d);
      CommentIsLine(source, previous, d);
      if IsComment(source, previous, d - 1) {
        WalkFindsComment(source, previous);
        forall p | previous < p < d ensures !LineBoundary(source, p) {
          NoBoundaryWithin(source, previous, d, p);
        }
      } else {
        forall p | LineIs(source, p, d) ensures p == previous {
          LineBeforeIs(source, p, d);
        }
      }
    }
  }

  // ---- Declarations and closing braces.

  lemma DeclaringIsHelper(source: string, name: string, i: nat)
    requires At(source, Needle(name), i) && DeclaresAt(source, i)
    ensures HelperLine(source, name, LineStart(source, i))
  {
    OneLine(source, i);
    assert NamedAt(source, name, LineStart(source, i), i);
  }

  lemma {:induction false} ScanFindsHelper(source: string, name: string, needle: string, search: nat, found: nat)
    requires search <= |source| && needle == Needle(name) && found == DeclarationFrom(source, needle, search)
    ensures HelperLine(source, name, found)
    decreases |source| - search
  {
    var i := IndexFrom(source, needle, search);
    DeclarationStep(source, needle, search, i);
    IndexIsFirst(source, needle, search);
    if DeclaresAt(source, i) {
      DeclaringIsHelper(source, name, i);
    } else {
      ScanFindsHelper(source, name, needle, i + |needle|, found);
    }
  }

  lemma ClosingIsLine(source: string, c: nat)
    requires c < |source|
    ensures At(source, CLOSING, c) <==> source[c] == '\n' && ClosingLine(source, c + 1)
  {
    if At(source, CLOSING, c) {
      assert source[c..c + 7][0] == '\n' && source[c..c + 7][1..] == source[c + 1..c + 7] == "    }\n";
    }
    if source[c] == '\n' && ClosingLine(source, c + 1) {
      assert source[c..c + 7] == [source[c]] + source[c + 1..c + 7];
    }
  }

  lemma EndIsFirstClosing(source: string, d: nat)
    requires d <= |source| && BlockEnd(source, d) >= 0
    ensures var end := BlockEnd(source, d);
            && d < end - 6 && ClosingLine(source, end - 6)
            && forall p | d < p < end - 6 :: !ClosingLine(source, p)
  {
    var c := IndexFrom(source, CLOSING, d);
    IndexIsFirst(source, CLOSING, d);
    ClosingIsLine(source, c);
    forall p | d < p < c + 1 ensures !ClosingLine(source, p) {
      ClosingIsLine(source, p - 1);
    }
  }

  lemma BlockSpans(source: string, name: string, d: nat)
    requires HelperLine(source, name, d) && BlockEnd(source, d) >= 0
    ensures IsBlock(source, name, Block(BlockTop(source, d), BlockEnd(source, d)))
  {
    WalkFindsComment(source, d);
    EndIsFirstClosing(source, d);
    assert Spans(source, name, Block(BlockTop(source, d), BlockEnd(source, d)), CommentTop(source, d), d);
  }

  // Every block of every scan is a helper with its whole comment and the blank line above.
  lemma {:induction false} BlocksAreIntroduced(source: string, name: string, offset: nat, block: Block)
    requires LineBoundary(source, offset) && block in BlocksFrom(source, name, offset)
    ensures IsBlock(source, name, block)
    decreases |source| - offset
  {
    var index := DeclarationFrom(source, Needle(name), offset);
    BlocksStep(source, name, offset, index);
    ScanFindsHelper(source, name, Needle(name), offset, index);
    BlockSpans(source, name, index);
    if block != Block(BlockTop(source, index), BlockEnd(source, index)) {
      BlocksAreIntroduced(source, name, BlockEnd(source, index), block);
    }
  }
}
