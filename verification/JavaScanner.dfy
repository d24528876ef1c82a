/**
 The scanner that cuts a named helper, with the comment that introduces it, out of a generated
 Java class (java_prune_helpers_test.go, gen_java_prune_test.go). Functions say what each of the
 nested scans finds; the methods are the loops that find it.
 */
module JavaScanner {
  import opened Wrappers
  import opened Text

  const CLOSING := "\n    }\n"

  /** A half-open interval of the source. */
  datatype Block = Block(start: nat, end: nat)

  function Needle(name: string): (needle: string)
    ensures |needle| == |name| + 2
  {
    " " + name + "("
  }

  // The text from the start of a line to the space before the name opens a member declaration.
  predicate OpensDeclaration(line: string) {
    && "    " <= line && !("     " <= line)
    && ("    private " <= line || "    protected " <= line)
  }

  predicate DeclaresAt(source: string, i: nat)
    requires i <= |source|
  {
    OpensDeclaration(source[LineStart(source, i)..i])
  }

  // The line on which the scan from `search` finds a declaration: occurrences of the name are
  // taken left to right, each one after the end of the one before.
  function DeclarationFrom(source: string, needle: string, search: nat): (r: int)
    requires search <= |source| && needle != []
    ensures r >= -1
    decreases |source| - search
  {
    var i := IndexFrom(source, needle, search);
    if i < 0 then -1
    else if DeclaresAt(source, i) then LineStart(source, i)
    else DeclarationFrom(source, needle, i + |needle|)
  }

  lemma DeclarationStep(source: string, needle: string, search: nat, i: int)
    requires search <= |source| && needle != [] && i == IndexFrom(source, needle, search)
    ensures i < 0 ==> DeclarationFrom(source, needle, search) == -1
    ensures i >= 0 && DeclaresAt(source, i) ==> DeclarationFrom(source, needle, search) == LineStart(source, i)
    ensures i >= 0 && !DeclaresAt(source, i) ==>
              DeclarationFrom(source, needle, search) == DeclarationFrom(source, needle, i + |needle|)
  {
  }

  lemma {:induction false} DeclarationIsALine(source: string, needle: string, search: nat) returns (i: nat)
    requires search <= |source| && needle != []
    requires DeclarationFrom(source, needle, search) >= 0
    ensures search <= i < |source| && DeclarationFrom(source, needle, search) == LineStart(source, i)
    decreases |source| - search
  {
    i := IndexFrom(source, needle, search);
    if !DeclaresAt(source, i) {
      i := DeclarationIsALine(source, needle, i + |needle|);
    }
  }

  // The scan never looks back past the line boundary it starts from.
  lemma DeclarationIsAhead(source: string, needle: string, search: nat, boundary: nat)
    requires boundary <= search <= |source| && LineBoundary(source, boundary) && needle != []
    ensures var r := DeclarationFrom(source, needle, search);
            r < 0 || (boundary <= r < |source| && LineBoundary(source, r))
  {
    if DeclarationFrom(source, needle, search) >= 0 {
      var i := DeclarationIsALine(source, needle, search);
      BoundaryBeforeLine(source, boundary, i);
    }
  }

  method JavaHelperDeclaration(source: string, name: string, offset: nat) returns (r: int)
    requires offset <= |source|
    ensures r == DeclarationFrom(source, Needle(name), offset)
  {
    var needle := Needle(name);
    ghost var found := DeclarationFrom(source, needle, offset);
    var search := offset;
    while search < |source|
      invariant offset <= search <= |source|
      invariant DeclarationFrom(source, needle, search) == found
    {
      var index := IndexFrom(source, needle, search);
      DeclarationStep(source, needle, search, index);
      if index < 0 {
        return -1;
      }
      if DeclaresAt(source, index) {
        return LineStart(source, index);
      }
      search := index + |needle|;
    }
    DeclarationStep(source, needle, search, -1);
    return -1;
  }

  predicate IsComment(source: string, from: nat, to: nat)
    requires from <= to <= |source|
  {
    "//" <= TrimLeft(source[from..to])
  }

  // The top of the comment lines that stand directly above the line boundary `d`.
  function CommentTop(source: string, d: nat): (top: nat)
    requires LineBoundary(source, d)
    ensures top <= d && LineBoundary(source, top)
    decreases d
  {
    if d > 0 && IsComment(source, LineStart(source, d - 1), d - 1)
    then CommentTop(source, LineStart(source, d - 1))
    else d
  }

  // The comment and one blank line above it.
  function BlockTop(source: string, d: nat): (top: nat)
    requires LineBoundary(source, d)
    ensures top <= d && LineBoundary(source, top)
  {
    var top := CommentTop(source, d);
    if top >= 2 && source[top - 2] == source[top - 1] == '\n' then top - 1 else top
  }

  method JavaHelperBlockStart(source: string, declaration: nat) returns (start: nat)
    requires LineBoundary(source, declaration)
    ensures start == BlockTop(source, declaration)
  {
    start := declaration;
    while start > 0
      invariant start <= declaration && LineBoundary(source, start)
      invariant CommentTop(source, start) == CommentTop(source, declaration)
    {
      var previous := LineStart(source, start - 1);
      var line := TrimLeft(source[previous..start - 1]);
      if !("//" <= line) {
        break;
      }
      start := previous;
    }
    if start >= 2 && source[start - 2] == source[start - 1] == '\n' {
      start := start - 1;
    }
  }

  // Where the helper declared on the line at `index` ends: after its closing brace's newline.
  function BlockEnd(source: string, index: nat): (end: int)
    requires index <= |source|
    ensures end == -1 || (index < end && LineBoundary(source, end))
  {
    var closing := IndexFrom(source, CLOSING, index);
    if closing < 0 then -1
    else
      IndexIsFirst(source, CLOSING, index);
      assert source[closing..closing + |CLOSING|][|CLOSING| - 1] == '\n';
      closing + |CLOSING|
  }

  function BlocksFrom(source: string, name: string, offset: nat): seq<Block>
    requires LineBoundary(source, offset)
    decreases |source| - offset
  {
    DeclarationIsAhead(source, Needle(name), offset, offset);
    var index := DeclarationFrom(source, Needle(name), offset);
    if index < 0 || BlockEnd(source, index) < 0 then []
    else
      var end := BlockEnd(source, index);
      [Block(BlockTop(source, index), end)] + BlocksFrom(source, name, end)
  }

  lemma BlocksStep(source: string, name: string, offset: nat, index: int)
    requires LineBoundary(source, offset) && index == DeclarationFrom(source, Needle(name), offset)
    ensures index >= 0 ==> index < |source| && LineBoundary(source, index)
    ensures index < 0 || BlockEnd(source, index) < 0 ==> BlocksFrom(source, name, offset) == []
    ensures index >= 0 && BlockEnd(source, index) >= 0 ==>
              var end := BlockEnd(source, index);
              && offset < end
              && BlocksFrom(source, name, offset)
                 == [Block(BlockTop(source, index), end)] + BlocksFrom(source, name, end)
  {
    DeclarationIsAhead(source, Needle(name), offset, offset);
  }

  method JavaHelperBlocks(source: string, name: string) returns (blocks: seq<Block>)
    ensures blocks == BlocksFrom(source, name, 0)
  {
    blocks := [];
    ghost var all := BlocksFrom(source, name, 0);
    var offset := 0;
    while offset < |source|
      invariant LineBoundary(source, offset)
      invariant blocks + BlocksFrom(source, name, offset) == all
    {
      var index := JavaHelperDeclaration(source, name, offset);
      BlocksStep(source, name, offset, index);
      if index < 0 {
        return;
      }
      var end := IndexFrom(source, CLOSING, index);
      if end < 0 {
        return;
      }
      end := end + |CLOSING|;
      assert end == BlockEnd(source, index);
      var start := JavaHelperBlockStart(source, index);
      Associative(blocks, [Block(start, end)], BlocksFrom(source, name, end));
      blocks := blocks + [Block(start, end)];
      offset := end;
    }
    BlocksStep(source, name, offset, -1);
  }
}
