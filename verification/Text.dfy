/** Searching in text, as Go's strings package does it, and text as a sequence of lines. */
module Text {
  import opened Wrappers

  predicate At(s: string, p: string, i: int) {
    0 <= i && i + |p| <= |s| && s[i..i + |p|] == p
  }

  ghost predicate Contains(s: string, p: string) {
    exists i :: At(s, p, i)
  }

  // strings.Index(s[from:], p) + from, or -1.
  function IndexFrom(s: string, p: string, from: nat): (r: int)
    requires from <= |s|
    ensures r == -1 || from <= r <= |s| - |p|
    decreases |s| - from
  {
    if At(s, p, from) then from
    else if from == |s| then -1
    else IndexFrom(s, p, from + 1)
  }

  lemma {:induction false} IndexIsFirst(s: string, p: string, from: nat)
    requires from <= |s|
    ensures var r := IndexFrom(s, p, from);
            && (r >= 0 ==> At(s, p, r))
            && forall i | from <= i && (r < 0 || i < r) :: !At(s, p, i)
    decreases |s| - from
  {
    if !At(s, p, from) && from < |s| {
      IndexIsFirst(s, p, from + 1);
    }
  }

  // strings.LastIndexByte(s[:end], '\n') + 1: the start of the line that position `end` is on.
  function LineStart(s: string, end: nat): (start: nat)
    requires end <= |s|
    ensures start <= end && LineBoundary(s, start)
  {
    if end == 0 || s[end - 1] == '\n' then end else LineStart(s, end - 1)
  }

  lemma OneLine(s: string, end: nat)
    requires end <= |s|
    ensures forall i | LineStart(s, end) <= i < end :: s[i] != '\n'
  {
  }

  predicate LineBoundary(s: string, p: int) {
    0 <= p <= |s| && (p == 0 || s[p - 1] == '\n')
  }

  // A boundary before a position is not behind the start of its line.
  lemma BoundaryBeforeLine(s: string, b: nat, end: nat)
    requires b <= end <= |s| && LineBoundary(s, b)
    ensures b <= LineStart(s, end)
  {
  }

  // unicode.IsSpace
  predicate IsSpace(c: char) {
    c in {'\t', '\n', '\U{B}', '\U{C}', '\r', ' ', '\U{85}', '\U{A0}', '\U{1680}', '\U{2028}', '\U{2029}',
          '\U{202F}', '\U{205F}', '\U{3000}'} || '\U{2000}' <= c <= '\U{200A}'
  }

  function TrimLeft(s: string): string {
    if s != [] && IsSpace(s[0]) then TrimLeft(s[1..]) else s
  }

  function TrimRight(s: string): string {
    if s != [] && IsSpace(s[|s| - 1]) then TrimRight(s[..|s| - 1]) else s
  }

  // strings.TrimSpace
  function TrimSpace(s: string): string {
    TrimRight(TrimLeft(s))
  }

  /** The lines of a text, each with its newline; the last one may have none. */
  function Lines(s: string): seq<string> {
    if s == [] then []
    else
      var n := FirstLine(s);
      [s[..n]] + Lines(s[n..])
  }

  function FirstLine(s: string): (n: nat)
    requires s != []
    ensures 0 < n <= |s| && (n < |s| ==> s[n - 1] == '\n')
    ensures forall i | 0 <= i < n - 1 :: s[i] != '\n'
  {
    if s[0] == '\n' || |s| == 1 then 1 else 1 + FirstLine(s[1..])
  }

  ghost predicate Subsequence<T>(xs: seq<T>, ys: seq<T>) {
    xs == [] ||
    (ys != [] && ((xs[0] == ys[0] && Subsequence(xs[1..], ys[1..])) || Subsequence(xs, ys[1..])))
  }

  // Text cut at a line boundary falls apart into the lines before and the lines after.
  lemma {:induction false} LinesConcat(a: string, b: string)
    requires a == [] || a[|a| - 1] == '\n'
    ensures Lines(a + b) == Lines(a) + Lines(b)
  {
    if a == [] {
      assert a + b == b;
    } else {
      var n := FirstLine(a);
      SameFirstLine(a, b);
      assert (a + b)[..n] == a[..n] && (a + b)[n..] == a[n..] + b;
      LinesConcat(a[n..], b);
      Associative([a[..n]], Lines(a[n..]), Lines(b));
    }
  }

  lemma {:induction false} SameFirstLine(a: string, b: string)
    requires a != [] && a[|a| - 1] == '\n'
    ensures FirstLine(a + b) == FirstLine(a)
  {
    if a[0] != '\n' {
      assert (a + b)[1..] == a[1..] + b;
      SameFirstLine(a[1..], b);
    }
  }

  lemma {:induction false} SubsequenceConcat<T>(a: seq<T>, b: seq<T>, c: seq<T>, d: seq<T>)
    requires Subsequence(a, b) && Subsequence(c, d)
    ensures Subsequence(a + c, b + d)
    decreases |b|
  {
    if b == [] {
      assert a + c == c && b + d == d;
    } else {
      assert (b + d)[1..] == b[1..] + d;
      if a != [] && a[0] == b[0] && Subsequence(a[1..], b[1..]) {
        assert (a + c)[1..] == a[1..] + c;
        SubsequenceConcat(a[1..], b[1..], c, d);
      } else {
        SubsequenceConcat(a, b[1..], c, d);
      }
    }
  }

  lemma {:induction false} SubsequenceSelf<T>(a: seq<T>)
    ensures Subsequence(a, a)
  {
    if a != [] {
      SubsequenceSelf(a[1..]);
    }
  }
}
