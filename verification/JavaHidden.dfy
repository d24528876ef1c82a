/**
 For which names the scanner finds every helper: exactly those that cannot hide in an overlapping
 occurrence of themselves, and so all Java names (java_prune_helpers_test.go).
 */
module JavaHidden {
  import opened Text
  import opened JavaScanner
  import opened JavaScannerProofs

  // Every declaration of the helper that is ever closed lies inside a block.
  ghost predicate AllAreCut(name: string) {
    forall source, i: nat | Declaration(source, name, i) ::
      InsideBlock(BlocksFrom(source, name, 0), i) || NeverClosed(source, i)
  }

  // A closed declaration that no block covers.
  ghost predicate Missed(source: string, name: string, i: nat) {
    Declaration(source, name, i) && !InsideBlock(BlocksFrom(source, name, 0), i) && !NeverClosed(source, i)
  }

  lemma EveryHelperIsCutIff(name: string)
    ensures AllAreCut(name) <==> !HidesItself(name)
  {
    if !HidesItself(name) {
      forall source, i: nat | Declaration(source, name, i)
        ensures InsideBlock(BlocksFrom(source, name, 0), i) || NeverClosed(source, i)
      {
        DeclarationsAreCut(source, name, 0, i);
      }
    } else {
      var p :| HiddenAt(Needle(name), p);
      var source, a := SceneFor(Needle(name), p);
      SceneIsMissed(source, name, a, p);
    }
  }

  lemma HiddenEnds(needle: string, p: int)
    requires HiddenAt(needle, p)
    ensures needle[p] == needle[0] && needle[|needle| - 1 - p] == needle[|needle| - 1]
  {
    var n := |needle|;
    assert needle[p..][0] == needle[..n - p][0] && needle[p..][n - p - 1] == needle[..n - p][n - p - 1];
  }

  // A Java name has neither a space nor a parenthesis; without one of the two nothing can hide.
  lemma JavaNamesDoNotHide(name: string)
    requires ' ' !in name || '(' !in name
    ensures !HidesItself(name)
  {
    if p :| HiddenAt(Needle(name), p) {
      HiddenEnds(Needle(name), p);
    }
  }

  // The name "( ", which overlaps itself two characters on, is one that can.
  lemma SpacedNameIsMissed()
    ensures !AllAreCut("( ")
  {
    var needle := Needle("( ");
    assert needle == " ( (" && needle[2..] == " (" == needle[..2];
    assert LineStart(needle, 1) == 0 && LineStart(needle, 2) == 0;
    assert HiddenAt(needle, 2);
    EveryHelperIsCutIff("( ");
  }

  // ---- A missed helper for every name that hides itself.

  const PRIVATE := "    private"
  const PROTECTED := "    protected"

  predicate IsOpener(prefix: string) {
    prefix == PRIVATE || prefix == PROTECTED
  }

  lemma OpenerChars(prefix: string)
    requires IsOpener(prefix)
    ensures |prefix| > 6 && '(' !in prefix && '\n' !in prefix
    ensures forall k | 0 <= k < |prefix| :: prefix[k] == ' ' <==> k < 4
    ensures prefix[4] == 'p' && prefix[6] == if prefix == PRIVATE then 'i' else 'o'
  {
  }

  lemma OpenerOpens(prefix: string, rest: string)
    requires IsOpener(prefix) && rest != "" && rest[0] == ' '
    ensures OpensDeclaration(prefix + rest)
  {
    var line := prefix + rest;
    assert line[4] == 'p' && "     "[4] == ' ';
    assert line[..4] == "    ";
    if prefix == PRIVATE {
      assert line[..12] == "    private ";
    } else {
      assert line[..14] == "    protected ";
    }
  }

  lemma OpenerAlone(prefix: string)
    requires IsOpener(prefix)
    ensures !OpensDeclaration(prefix)
  {
    assert "    private "[6] == 'i' && PROTECTED[6] == 'o';
  }

  lemma StartsLike(needle: string, prefix: string, j: nat)
    requires IsOpener(prefix) && j < 4 && prefix[j..] <= needle
    ensures |needle| > 6 - j && needle[4 - j] == 'p' && needle[6 - j] == if prefix == PRIVATE then 'i' else 'o'
    ensures forall x | 0 <= x < 4 - j :: needle[x] == ' '
  {
    OpenerChars(prefix);
    forall x | 0 <= x < |prefix| - j ensures needle[x] == prefix[j + x] {
      assert prefix[j..][x] == prefix[j + x];
    }
  }

  // One of the two openers is not how the needle itself starts.
  lemma SomeOpener(needle: string) returns (prefix: string)
    ensures IsOpener(prefix) && forall j | 0 <= j < 4 :: !(prefix[j..] <= needle)
  {
    prefix := PRIVATE;
    if j :| 0 <= j < 4 && PRIVATE[j..] <= needle {
      StartsLike(needle, PRIVATE, j);
      prefix := PROTECTED;
      forall k | 0 <= k < 4 ensures !(PROTECTED[k..] <= needle) {
        if PROTECTED[k..] <= needle {
          StartsLike(needle, PROTECTED, k);
        }
      }
    }
  }

  lemma NoNewline(s: string, end: nat)
    requires end <= |s| && forall k | 0 <= k < end :: s[k] != '\n'
    ensures LineStart(s, end) == 0
  {
  }

  // The text that is scanned: an opener, the needle's first p characters, the needle, the brace.
  function Hiding(prefix: string, needle: string, p: nat): string
    requires p <= |needle|
  {
    prefix + (needle[..p] + (needle + CLOSING))
  }

  lemma HidingHas(prefix: string, needle: string, p: nat)
    requires HiddenAt(needle, p)
    ensures var source := Hiding(prefix, needle, p);
            && At(source, needle, |prefix|) && At(source, needle, |prefix| + p)
            && At(source, CLOSING, |prefix| + p + |needle|)
  {
    var source, n := Hiding(prefix, needle, p), |needle|;
    assert needle == needle[..p] + needle[p..];
    assert source[|prefix|..|prefix| + n] == needle[..p] + needle[..n - p];
    assert source[|prefix| + p..|prefix| + p + n] == needle;
  }

  // Nothing is found after the first occurrence: the needle ends in a parenthesis, and the text
  // does not.
  lemma NothingLater(prefix: string, needle: string, p: nat, j: nat)
    requires 0 < p < |needle| && needle[|needle| - 1] == '(' && |prefix| + |needle| <= j
    ensures !At(Hiding(prefix, needle, p), needle, j)
  {
    var source, n := Hiding(prefix, needle, p), |needle|;
    var last := j + n - 1;
    if last < |source| {
      assert source[last] == CLOSING[last - (|prefix| + p + n)] != '(';
      if At(source, needle, j) {
        CharAt(source, needle, j, last);
      }
    }
  }

  // The opener, then the needle's first p characters.
  ghost predicate StartsAs(source: string, prefix: string, needle: string, p: nat)
    requires p <= |needle|
  {
    && |prefix| + p <= |source| && (forall k | 0 <= k < |prefix| :: source[k] == prefix[k])
    && forall k | |prefix| <= k < |prefix| + p :: source[k] == needle[k - |prefix|]
  }

  lemma CoversPrefix(source: string, prefix: string, needle: string, p: nat, j: nat)
    requires p <= |needle| && StartsAs(source, prefix, needle, p)
    requires At(source, needle, j) && j < |prefix| < j + |needle|
    ensures prefix[j..] <= needle
  {
    forall k | 0 <= k < |prefix| - j ensures prefix[j..][k] == needle[k] {
      CharAt(source, needle, j, j + k);
    }
  }

  // Nothing is found before it either.
  lemma NothingEarlier(source: string, prefix: string, needle: string, p: nat, j: nat)
    requires IsOpener(prefix) && forall k | 0 <= k < 4 :: !(prefix[k..] <= needle)
    requires p <= |needle| && StartsAs(source, prefix, needle, p)
    requires needle != "" && needle[0] == ' ' && needle[|needle| - 1] == '(' && j < |prefix|
    ensures !At(source, needle, j)
  {
    var last := j + |needle| - 1;
    OpenerChars(prefix);
    assert source[j] == prefix[j];
    if j >= 4 {
      if At(source, needle, j) {
        CharAt(source, needle, j, j);
      }
    } else if last < |prefix| {
      assert source[last] == prefix[last];
      if At(source, needle, j) {
        CharAt(source, needle, j, last);
      }
    } else if At(source, needle, j) {
      CoversPrefix(source, prefix, needle, p, j);
    }
  }

  lemma DeclaresByLine(source: string, start: nat, i: nat, line: string)
    requires start <= i <= |source| && LineStart(source, i) == start && source[start..i] == line
    ensures DeclaresAt(source, i) <==> OpensDeclaration(line)
  {
  }

  lemma OnFirstLine(source: string, prefix: string, needle: string, p: nat)
    requires '\n' !in prefix && p <= |needle| && LineStart(needle, p) == 0 && StartsAs(source, prefix, needle, p)
    ensures LineStart(source, |prefix|) == 0 && LineStart(source, |prefix| + p) == 0
  {
    OneLine(needle, p);
    NoNewline(source, |prefix|);
    NoNewline(source, |prefix| + p);
  }

  lemma FirstLineIs(source: string, prefix: string, rest: string)
    requires |prefix| + |rest| <= |source| && forall k | 0 <= k < |prefix| :: source[k] == prefix[k]
    requires forall k | |prefix| <= k < |prefix| + |rest| :: source[k] == rest[k - |prefix|]
    ensures source[0..|prefix|] == prefix && source[0..|prefix| + |rest|] == prefix + rest
  {
  }

  lemma DeclaresOnOneLine(source: string, prefix: string, needle: string, p: nat)
    requires IsOpener(prefix) && 0 < p <= |needle| && needle[0] == ' ' && LineStart(needle, p) == 0
    requires StartsAs(source, prefix, needle, p)
    ensures |prefix| + p <= |source|
    ensures !DeclaresAt(source, |prefix|) && DeclaresAt(source, |prefix| + p)
  {
    OpenerChars(prefix);
    OnFirstLine(source, prefix, needle, p);
    FirstLineIs(source, prefix, needle[..p]);
    OpenerAlone(prefix);
    DeclaresByLine(source, 0, |prefix|, prefix);
    OpenerOpens(prefix, needle[..p]);
    DeclaresByLine(source, 0, |prefix| + p, prefix + needle[..p]);
  }

  lemma DeclaresOnItsOwnLine(source: string, needle: string, p: nat, start: nat, line: string)
    requires p <= |needle| && 0 < start == LineStart(needle, p) && line == needle[start..p]
    requires At(source, needle, 0) && OpensDeclaration(line)
    ensures !DeclaresAt(source, 0) && DeclaresAt(source, p)
  {
    LineInside(source, needle, 0, p);
    SliceInside(source, needle, 0, start, p);
    DeclaresByLine(source, start, p, line);
    DeclaresByLine(source, 0, 0, "");
  }

  /** The needle occurs at `a`, overlapping at a + p, and no later; then comes the brace. */
  ghost predicate Doubled(source: string, needle: string, a: nat, p: nat) {
    && 0 < p < |needle| && At(source, needle, a) && At(source, needle, a + p)
    && At(source, CLOSING, a + p + |needle|)
    && forall j | a + |needle| <= j :: !At(source, needle, j)
  }

  /** It does not occur before `a` either; only the second occurrence is a declaration. */
  ghost predicate Scene(source: string, needle: string, a: nat, p: nat) {
    && Doubled(source, needle, a, p) && a + p <= |source|
    && !DeclaresAt(source, a) && DeclaresAt(source, a + p)
    && forall j | j < a :: !At(source, needle, j)
  }

  lemma NothingBefore(source: string, prefix: string, needle: string, p: nat)
    requires IsOpener(prefix) && forall k | 0 <= k < 4 :: !(prefix[k..] <= needle)
    requires p <= |needle| && StartsAs(source, prefix, needle, p)
    requires needle != "" && needle[0] == ' ' && needle[|needle| - 1] == '('
    ensures forall j | j < |prefix| :: !At(source, needle, j)
  {
    forall j | 0 <= j < |prefix| ensures !At(source, needle, j) {
      NothingEarlier(source, prefix, needle, p, j);
    }
  }

  lemma SomeHiding(prefix: string, needle: string, p: nat) returns (source: string)
    requires HiddenAt(needle, p) && needle[|needle| - 1] == '('
    ensures Doubled(source, needle, |prefix|, p) && StartsAs(source, prefix, needle, p)
  {
    source := Hiding(prefix, needle, p);
    HidingHas(prefix, needle, p);
    forall j | |prefix| + |needle| <= j ensures !At(source, needle, j) {
      NothingLater(prefix, needle, p, j);
    }
  }

  lemma SceneOnOneLine(source: string, prefix: string, needle: string, p: nat)
    requires Doubled(source, needle, |prefix|, p) && StartsAs(source, prefix, needle, p)
    requires IsOpener(prefix) && forall k | 0 <= k < 4 :: !(prefix[k..] <= needle)
    requires needle[0] == ' ' && needle[|needle| - 1] == '(' && LineStart(needle, p) == 0
    ensures Scene(source, needle, |prefix|, p)
  {
    DeclaresOnOneLine(source, prefix, needle, p);
    NothingBefore(source, prefix, needle, p);
  }

  lemma SceneOnItsOwnLine(source: string, needle: string, p: nat, start: nat, line: string)
    requires Doubled(source, needle, 0, p)
    requires 0 < start == LineStart(needle, p) && line == needle[start..p] && OpensDeclaration(line)
    ensures Scene(source, needle, 0, p)
  {
    DeclaresOnItsOwnLine(source, needle, p, start, line);
  }

  lemma SceneFor(needle: string, p: nat) returns (source: string, a: nat)
    requires HiddenAt(needle, p) && needle[0] == ' ' && needle[|needle| - 1] == '('
    ensures Scene(source, needle, a, p)
  {
    var start := LineStart(needle, p);
    var prefix := "";
    if start == 0 {
      prefix := SomeOpener(needle);
    }
    source := SomeHiding(prefix, needle, p);
    a := |prefix|;
    if start == 0 {
      SceneOnOneLine(source, prefix, needle, p);
    } else {
      SceneOnItsOwnLine(source, needle, p, start, needle[start..p]);
    }
  }

  lemma FoundOnce(source: string, needle: string, a: nat)
    requires needle != "" && At(source, needle, a)
    requires forall j | j < a || a + |needle| <= j :: !At(source, needle, j)
    ensures IndexFrom(source, needle, 0) == a && IndexFrom(source, needle, a + |needle|) == -1
  {
    IndexIsFirst(source, needle, 0);
    IndexIsFirst(source, needle, a + |needle|);
  }

  lemma NothingDeclared(source: string, needle: string, a: nat)
    requires needle != "" && a + |needle| <= |source| && !DeclaresAt(source, a)
    requires IndexFrom(source, needle, 0) == a && IndexFrom(source, needle, a + |needle|) == -1
    ensures DeclarationFrom(source, needle, 0) == -1
  {
    DeclarationStep(source, needle, 0, a);
    DeclarationStep(source, needle, a + |needle|, -1);
  }

  lemma SceneIsMissed(source: string, name: string, a: nat, p: nat)
    requires Scene(source, Needle(name), a, p)
    ensures Missed(source, name, a + p)
  {
    FoundOnce(source, Needle(name), a);
    NothingDeclared(source, Needle(name), a);
    BlocksStep(source, name, 0, -1);
  }
}
