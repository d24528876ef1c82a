/**
 For which names deleting the blocks cannot make a mention out of two pieces: exactly those on one
 line, and so all Java names (gen_java_prune_test.go).
 */
module JavaGlued {
  import opened Text
  import opened JavaScanner
  import opened JavaScannerProofs
  import opened JavaPrune

  lemma CalledMeansMentionedIff(name: string)
    ensures (forall source :: CalledMeansMentioned(source, name)) <==> '\n' !in name
  {
    if '\n' !in name {
      forall source ensures CalledMeansMentioned(source, name) {
        OneLineNamesAreNotGlued(source, name);
      }
    } else {
      var source, a, d, e := SomeGlue(name);
      GlueIsCalled(source, name, a, d, e);
    }
  }

  // ---- A text in which a name of several lines is glued together.

  // A line that opens a declaration and has nothing of the name in it: n letters make sure of that.
  function Opener(n: nat): string {
    "    private " + seq(n, _ => 'x')
  }

  lemma OpenerIs(n: nat)
    ensures OpensDeclaration(Opener(n)) && |Opener(n)| == 12 + n
    ensures forall k | 0 <= k < 12 + n ::
              Opener(n)[k] != '(' && Opener(n)[k] != '\n' && (k >= 12 ==> Opener(n)[k] == 'x')
  {
    assert Opener(n)[4] == 'p' && Opener(n)[..4] == "    " && Opener(n)[..12] == "    private ";
  }

  /**
   A "z" and the start of the mention up to a newline; then, from `a` to `e`, a block whose needle
   is at `d`; then the rest of the mention.
   */
  ghost predicate Pieces(source: string, name: string, a: nat, d: nat, e: nat) {
    var needle, p := Needle(name), name + "(";
    && 2 <= a <= |p| && d == a + 12 + |needle| && d < e <= |source| && |source| - e == |p| - (a - 1)
    && source[0] == 'z' && (forall k | 1 <= k < a :: source[k] == p[k - 1])
    && (forall k | a <= k < d :: source[k] == Opener(|needle|)[k - a])
    && (forall k | e <= k < |source| :: source[k] == p[k - e + a - 1])
  }

  // The first brace from `a` on ends at `e`.
  ghost predicate Closes(source: string, a: nat, e: nat) {
    && At(source, CLOSING, e - |CLOSING|)
    && forall j | a <= j < e - |CLOSING| :: !At(source, CLOSING, j)
  }

  ghost predicate NothingAbove(source: string, a: nat) {
    && 2 <= a && LineBoundary(source, a) && source[a - 2] != '\n' && CommentTop(source, a) == a
  }

  ghost predicate Glue(source: string, name: string, a: nat, d: nat, e: nat) {
    && Pieces(source, name, a, d, e) && At(source, Needle(name), d)
    && d + |CLOSING| <= e && Closes(source, a, e) && NothingAbove(source, a)
  }

  lemma NotFoundBefore(source: string, name: string, a: nat, d: nat, e: nat, j: nat)
    requires Glue(source, name, a, d, e) && j < d
    ensures !At(source, Needle(name), j)
  {
    var needle := Needle(name);
    var last := j + |needle| - 1;
    OpenerIs(|needle|);
    if last < d {
      assert last >= a ==> source[last] == Opener(|needle|)[last - a];
      assert last < a ==> j == 0;
      if At(source, needle, j) {
        CharAt(source, needle, j, if j == 0 then j else last);
      }
    } else {
      assert source[j] == Opener(|needle|)[j - a];
      if At(source, needle, j) {
        CharAt(source, needle, j, j);
      }
    }
  }

  lemma GlueIsDeclared(source: string, name: string, a: nat, d: nat, e: nat)
    requires Glue(source, name, a, d, e)
    ensures DeclarationFrom(source, Needle(name), 0) == a
  {
    var needle := Needle(name);
    IndexIsFirst(source, needle, 0);
    var first := IndexFrom(source, needle, 0);
    if 0 <= first < d {
      NotFoundBefore(source, name, a, d, e, first);
    }
    OpenerIs(|needle|);
    LineFrom(source, a, d);
    assert source[a..d] == Opener(|needle|);
    DeclarationStep(source, needle, 0, d);
  }

  lemma {:induction false} LineFrom(source: string, a: nat, end: nat)
    requires a <= end <= |source| && LineBoundary(source, a) && forall k | a <= k < end :: source[k] != '\n'
    ensures LineStart(source, end) == a
    decreases end
  {
    if a < end {
      LineFrom(source, a, end - 1);
    }
  }

  lemma GlueIsClosed(source: string, name: string, a: nat, d: nat, e: nat)
    requires Glue(source, name, a, d, e)
    ensures BlockEnd(source, a) == e && BlockTop(source, a) == a
  {
    IndexIsFirst(source, CLOSING, a);
  }

  lemma NothingAfterGlue(source: string, name: string, a: nat, d: nat, e: nat)
    requires Glue(source, name, a, d, e)
    ensures LineBoundary(source, e) && BlocksFrom(source, name, e) == []
  {
    GlueIsClosed(source, name, a, d, e);
    DeclarationStep(source, Needle(name), e, IndexFrom(source, Needle(name), e));
    BlocksStep(source, name, e, -1);
  }

  lemma GlueIsOneBlock(source: string, name: string, a: nat, d: nat, e: nat)
    requires Glue(source, name, a, d, e)
    ensures BlocksFrom(source, name, 0) == [Block(a, e)]
  {
    GlueIsDeclared(source, name, a, d, e);
    GlueIsClosed(source, name, a, d, e);
    NothingAfterGlue(source, name, a, d, e);
    OneBlock(source, name, a, e);
  }

  lemma OneBlock(source: string, name: string, a: nat, e: nat)
    requires e <= |source| && LineBoundary(source, e) && LineBoundary(source, a)
    requires DeclarationFrom(source, Needle(name), 0) == a && BlockEnd(source, a) == e && BlockTop(source, a) == a
    requires BlocksFrom(source, name, e) == []
    ensures BlocksFrom(source, name, 0) == [Block(a, e)]
  {
    BlocksStep(source, name, 0, a);
  }

  lemma AtByChars(s: string, p: string, i: nat)
    requires i + |p| <= |s| && forall k | 0 <= k < |p| :: s[i + k] == p[k]
    ensures At(s, p, i)
  {
    assert s[i..i + |p|] == p;
  }

  lemma MentionIsGlued(source: string, name: string, a: nat, d: nat, e: nat)
    requires Glue(source, name, a, d, e)
    ensures At(source[0..a] + source[e..], name + "(", 1)
  {
    var left, p := source[0..a] + source[e..], name + "(";
    forall k | 0 <= k < |p| ensures left[1 + k] == p[k] {
      assert left[1 + k] == if 1 + k < a then source[1 + k] else source[e + (1 + k - a)];
    }
    AtByChars(left, p, 1);
  }

  lemma NothingIsClear(source: string, name: string, a: nat, d: nat, e: nat, i: int)
    requires Glue(source, name, a, d, e)
    ensures !Clear(source, [Block(a, e)], name + "(", i)
  {
    var p := name + "(";
    if 0 <= i && i + |p| <= a {
      assert i == 0 && source[|p| - 1] == '\n';
      if At(source, p, i) {
        CharAt(source, p, i, |p| - 1);
      }
    } else {
      assert [Block(a, e)][0] == Block(a, e);
    }
  }

  lemma GlueIsCalled(source: string, name: string, a: nat, d: nat, e: nat)
    requires Glue(source, name, a, d, e)
    ensures !CalledMeansMentioned(source, name)
  {
    var blocks, p := [Block(a, e)], name + "(";
    GlueIsOneBlock(source, name, a, d, e);
    BlocksAreOrderedLines(source, name);
    assert blocks[1..] == [] && Outside(source, blocks[1..], e) == source[e..];
    assert Outside(source, blocks, 0) == source[0..a] + source[e..];
    MentionIsGlued(source, name, a, d, e);
    forall i ensures !Clear(source, blocks, p, i) {
      NothingIsClear(source, name, a, d, e, i);
    }
  }

  // ---- There is such a text.

  // The closing brace is not found before position d + m if the name does not hold it before.
  lemma NoBraceBefore(source: string, name: string, a: nat, d: nat, m: nat, j: nat)
    requires At(source, Needle(name), d) && m <= |Needle(name)| && a <= j < d + m
    requires forall k | a <= k < d :: source[k] != '\n'
    requires forall i | 0 <= i < m - 1 :: !At(name, CLOSING, i)
    ensures !At(source, CLOSING, j)
  {
    var needle, n := Needle(name), |Needle(name)|;
    if j <= d {
      CharAt(source, needle, d, d);
      assert source[j] != '\n';
      if At(source, CLOSING, j) {
        CharAt(source, CLOSING, j, j);
      }
    } else if j + |CLOSING| >= d + n {
      CharAt(source, needle, d, d + n - 1);
      if At(source, CLOSING, j) {
        CharAt(source, CLOSING, j, d + n - 1);
      }
    } else if At(source, CLOSING, j) {
      forall k | 0 <= k < |CLOSING| ensures name[j - d - 1 + k] == CLOSING[k] {
        CharAt(source, CLOSING, j, j + k);
        CharAt(source, needle, d, j + k);
        assert needle[j + k - d] == name[j + k - d - 1];
      }
      AtByChars(name, CLOSING, j - d - 1);
    }
  }

  // The text, given where the mention is cut and what the block holds after its opener.
  lemma SomePieces(name: string, cut: nat, body: string) returns (source: string)
    requires 0 < cut <= |name| && body != ""
    ensures var a := 1 + cut;
            var d := a + 12 + |Needle(name)|;
            && Pieces(source, name, a, d, d + |body|)
            && forall k | d <= k < d + |body| :: source[k] == body[k - d]
  {
    OpenerIs(|Needle(name)|);
    source := "z" + name[..cut] + Opener(|Needle(name)|) + body + (name + "(")[cut..];
  }

  lemma SomeGlue(name: string) returns (source: string, a: nat, d: nat, e: nat)
    requires '\n' in name
    ensures Glue(source, name, a, d, e)
  {
    IndexIsFirst(name, CLOSING, 0);
    var c := IndexFrom(name, CLOSING, 0);
    if c < 0 {
      source, a, d, e := GlueAtNewline(name);
    } else {
      source, a, d, e := GlueAtBrace(name, c);
    }
  }

  lemma FirstNewline(name: string) returns (k: nat)
    requires '\n' in name
    ensures k < |name| && name[k] == '\n' && forall i | 0 <= i < k :: name[i] != '\n'
  {
    k := 0;
    while name[k] != '\n'
      invariant k < |name| && forall i | 0 <= i < k :: name[i] != '\n'
      decreases |name| - k
    {
      assert exists i :: 0 <= i < |name| && name[i] == '\n';
      k := k + 1;
    }
  }

  // The first line of the name, after a "z", is no comment.
  lemma ZIsNoComment(source: string, a: nat)
    requires 2 <= a <= |source| && source[0] == 'z' && source[a - 1] == '\n'
    requires forall k | 0 <= k < a - 1 :: source[k] != '\n'
    ensures NothingAbove(source, a)
  {
    LineFrom(source, 0, a - 1);
    assert source[0..a - 1][0] == 'z';
  }

  lemma NoBraceInGlue(source: string, name: string, a: nat, d: nat, e: nat, m: nat)
    requires Pieces(source, name, a, d, e) && At(source, Needle(name), d) && m <= |Needle(name)|
    requires forall i | 0 <= i < m - 1 :: !At(name, CLOSING, i)
    ensures forall j | a <= j < d + m :: !At(source, CLOSING, j)
  {
    OpenerIs(|Needle(name)|);
    forall j | a <= j < d + m ensures !At(source, CLOSING, j) {
      NoBraceBefore(source, name, a, d, m, j);
    }
  }

  lemma NeedleThenBrace(source: string, needle: string, d: nat)
    requires d + |needle| + |CLOSING| <= |source|
    requires forall k | d <= k < d + |needle| + |CLOSING| :: source[k] == (needle + CLOSING)[k - d]
    ensures At(source, needle, d) && At(source, CLOSING, d + |needle|)
  {
    AtByChars(source, needle, d);
    AtByChars(source, CLOSING, d + |needle|);
  }

  lemma GlueAtNewline(name: string) returns (source: string, a: nat, d: nat, e: nat)
    requires '\n' in name && forall i | 0 <= i :: !At(name, CLOSING, i)
    ensures Glue(source, name, a, d, e)
  {
    var needle := Needle(name);
    var k := FirstNewline(name);
    a := k + 2;
    d := a + 12 + |needle|;
    e := d + |needle| + |CLOSING|;
    source := SomePieces(name, k + 1, needle + CLOSING);
    NeedleThenBrace(source, needle, d);
    NoBraceInGlue(source, name, a, d, e, |needle|);
    ZAbove(source, name, a, d, e);
  }

  lemma ZAbove(source: string, name: string, a: nat, d: nat, e: nat)
    requires Pieces(source, name, a, d, e) && name[a - 2] == '\n' && forall i | 0 <= i < a - 2 :: name[i] != '\n'
    ensures NothingAbove(source, a)
  {
    assert source[a - 1] == name[a - 2];
    forall k | 1 <= k < a - 1 ensures source[k] != '\n' {
      assert source[k] == name[k - 1];
    }
    ZIsNoComment(source, a);
  }

  lemma GlueAtBrace(name: string, c: nat) returns (source: string, a: nat, d: nat, e: nat)
    requires At(name, CLOSING, c) && forall i | 0 <= i < c :: !At(name, CLOSING, i)
    ensures Glue(source, name, a, d, e)
  {
    var needle := Needle(name);
    a := 1 + c + |CLOSING|;
    d := a + 12 + |needle|;
    e := d + a;
    source := SomePieces(name, a - 1, needle[..a]);
    WholeNeedle(source, name, a, d, e);
    NoBraceInGlue(source, name, a, d, e, c + 1);
    BraceInBlock(source, name, c, a, d, e);
    BraceAbove(source, name, c, a, d, e);
  }

  lemma BraceInBlock(source: string, name: string, c: nat, a: nat, d: nat, e: nat)
    requires At(name, CLOSING, c) && Pieces(source, name, a, d, e) && e == d + a && a == 1 + c + |CLOSING|
    requires forall k | d <= k < e :: source[k] == Needle(name)[k - d]
    ensures At(source, CLOSING, e - |CLOSING|)
  {
    forall k | d + 1 <= k < e ensures source[k] == name[k - (d + 1)] {
      assert Needle(name)[k - d] == name[k - d - 1];
    }
    BraceAt(source, name, c, d + 1);
  }

  lemma BraceAbove(source: string, name: string, c: nat, a: nat, d: nat, e: nat)
    requires At(name, CLOSING, c) && Pieces(source, name, a, d, e) && a == 1 + c + |CLOSING|
    ensures NothingAbove(source, a)
  {
    BraceAt(source, name, c, 1);
    BraceLineIsNoComment(source, a);
  }

  // The needle goes on behind the block with the rest of the mention.
  lemma WholeNeedle(source: string, name: string, a: nat, d: nat, e: nat)
    requires Pieces(source, name, a, d, e) && e == d + a && forall k | d <= k < e :: source[k] == Needle(name)[k - d]
    ensures At(source, Needle(name), d)
  {
    var needle := Needle(name);
    forall k | 0 <= k < |needle| ensures source[d + k] == needle[k] {
      if k >= a {
        assert needle[k] == (name + "(")[k - 1];
      }
    }
    AtByChars(source, needle, d);
  }

  lemma BraceAt(source: string, name: string, c: nat, at: nat)
    requires At(name, CLOSING, c) && at + c + |CLOSING| <= |source|
    requires forall k | at <= k < at + c + |CLOSING| :: source[k] == name[k - at]
    ensures At(source, CLOSING, at + c)
  {
    forall k | 0 <= k < |CLOSING| ensures source[at + c + k] == CLOSING[k] {
      CharAt(name, CLOSING, c, c + k);
    }
    AtByChars(source, CLOSING, at + c);
  }
}
