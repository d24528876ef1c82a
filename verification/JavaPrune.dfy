/** Deleting the scanned blocks and asking whether the rest still calls the helper (gen_java_prune_test.go). */
module JavaPrune {
  import opened Text
  import opened JavaScanner
  import opened JavaScannerProofs

  /** The source from `from` on without its blocks: the gaps between them, in order. */
  function Outside(source: string, blocks: seq<Block>, from: nat): string
    requires Ordered(source, from, blocks) && from <= |source|
  {
    if blocks == [] then source[from..]
    else
      source[from..blocks[0].start] + Outside(source, blocks[1..], blocks[0].end)
  }

  // The loop deletes the last block first, so the offsets of the blocks before it stay good.
  method DeleteBlocks(source: string, blocks: seq<Block>) returns (remainder: string)
    requires Ordered(source, 0, blocks)
    ensures remainder == Outside(source, blocks, 0)
  {
    remainder := source;
    var i := |blocks|;
    ghost var p: nat := if i == 0 then 0 else blocks[i - 1].end;
    BlocksAfter(source, 0, blocks, i);
    while i > 0
      invariant 0 <= i <= |blocks| && p == if i == 0 then 0 else blocks[i - 1].end
      invariant Ordered(source, p, blocks[i..])
      invariant p <= |source| && remainder == source[..p] + Outside(source, blocks[i..], p)
    {
      i := i - 1;
      BlocksAfter(source, 0, blocks, i);
      assert blocks[i..][1..] == blocks[i + 1..] && blocks[i..][0] == blocks[i];
      ghost var before: nat := if i == 0 then 0 else blocks[i - 1].end;
      DeleteOne(source, remainder, before, blocks[i], Outside(source, blocks[i + 1..], p));
      remainder := remainder[..blocks[i].start] + remainder[blocks[i].end..];
      p := before;
    }
  }

  lemma DeleteOne(source: string, remainder: string, before: nat, block: Block, rest: string)
    requires before <= block.start <= block.end <= |source| && remainder == source[..block.end] + rest
    ensures remainder[..block.start] + remainder[block.end..]
         == source[..before] + (source[before..block.start] + rest)
  {
  }

  method CodecHelperIsCalled(source: string, name: string) returns (called: bool)
    ensures Ordered(source, 0, BlocksFrom(source, name, 0))
    ensures called <==> Contains(Outside(source, BlocksFrom(source, name, 0), 0), name + "(")
  {
    var blocks := JavaHelperBlocks(source, name);
    BlocksAreOrderedLines(source, name);
    var remainder := DeleteBlocks(source, blocks);
    called := IndexFrom(remainder, name + "(", 0) >= 0;
    IndexIsFirst(remainder, name + "(", 0);
  }

  lemma {:induction false} KeptLines(source: string, blocks: seq<Block>, from: nat)
    requires from <= |source| && LineBoundary(source, from) && Ordered(source, from, blocks)
    ensures Subsequence(Lines(Outside(source, blocks, from)), Lines(source[from..]))
    decreases |blocks|
  {
    if blocks == [] {
      SubsequenceSelf(Lines(source[from..]));
    } else {
      var start, end := blocks[0].start, blocks[0].end;
      KeptLines(source, blocks[1..], end);
      CutLines(source[from..start], source[start..end], source[end..], Outside(source, blocks[1..], end));
      ThreeParts(source, from, start, end);
    }
  }

  lemma ThreeParts(s: string, from: nat, start: nat, end: nat)
    requires from <= start <= end <= |s|
    ensures s[from..] == s[from..start] + (s[start..end] + s[end..])
  {
  }

  predicate WholeLines(s: string) {
    s == [] || s[|s| - 1] == '\n'
  }

  lemma CutLines(gap: string, block: string, rest: string, kept: string)
    requires WholeLines(gap) && WholeLines(block) && Subsequence(Lines(kept), Lines(rest))
    ensures Subsequence(Lines(gap + kept), Lines(gap + (block + rest)))
  {
    LinesConcat(gap, block + rest);
    LinesConcat(block, rest);
    LinesConcat(gap, kept);
    SubsequenceSelf(Lines(gap));
    SubsequenceConcat([], Lines(block), Lines(kept), Lines(rest));
    assert [] + Lines(kept) == Lines(kept);
    SubsequenceConcat(Lines(gap), Lines(gap), Lines(kept), Lines(block) + Lines(rest));
  }

  // What is left after the deletion is made of whole lines of the source, in their order.
  lemma LinesAreKept(source: string, name: string)
    ensures Ordered(source, 0, BlocksFrom(source, name, 0))
    ensures Subsequence(Lines(Outside(source, BlocksFrom(source, name, 0), 0)), Lines(source))
  {
    BlocksAreOrderedLines(source, name);
    KeptLines(source, BlocksFrom(source, name, 0), 0);
    assert source[0..] == source;
  }

  /** An occurrence of `p` in the source that touches no block. */
  ghost predicate Clear(source: string, blocks: seq<Block>, p: string, i: int) {
    At(source, p, i) && forall k | 0 <= k < |blocks| :: i + |p| <= blocks[k].start || blocks[k].end <= i
  }

  lemma SliceOfConcat(a: string, b: string, i: nat, j: nat)
    requires i <= j <= |a| + |b| && (j <= |a| || |a| <= i)
    ensures (a + b)[i..j] == if j <= |a| then a[i..j] else b[i - |a|..j - |a|]
  {
  }

  lemma ContainsConcat(a: string, b: string, p: string)
    requires p != [] && '\n' !in p
    requires WholeLines(a)
    ensures Contains(a + b, p) <==> Contains(a, p) || Contains(b, p)
  {
    forall i ensures At(a + b, p, i) <==> At(a, p, i) || At(b, p, i - |a|) {
      if 0 <= i && i + |p| <= |a| {
        SliceOfConcat(a, b, i, i + |p|);
      } else if |a| <= i && i + |p| <= |a| + |b| {
        SliceOfConcat(a, b, i, i + |p|);
      } else if At(a + b, p, i) {
        CharAt(a + b, p, i, |a| - 1);
      }
    }
    if i :| At(b, p, i) {
      assert At(a + b, p, i + |a|);
    }
  }

  lemma SliceOfSlice(s: string, from: nat, to: nat, i: nat, j: nat)
    requires from <= to <= |s| && i <= j <= to - from
    ensures s[from..to][i..j] == s[i + from..j + from]
  {
    forall k | 0 <= k < j - i ensures s[from..to][i..j][k] == s[i + from..j + from][k] {
    }
  }

  lemma ContainsSlice(s: string, from: nat, to: nat, p: string)
    requires from <= to <= |s|
    ensures Contains(s[from..to], p) <==> exists i :: from <= i && i + |p| <= to && At(s, p, i)
  {
    forall i ensures At(s[from..to], p, i) <==> 0 <= i && i + from + |p| <= to && At(s, p, i + from) {
      if 0 <= i && i + |p| <= to - from {
        SliceOfSlice(s, from, to, i, i + |p|);
      }
    }
    if i :| from <= i && i + |p| <= to && At(s, p, i) {
      assert At(s[from..to], p, i - from);
    }
  }

  lemma {:induction false} MentionedOutside(source: string, blocks: seq<Block>, from: nat, p: string)
    requires from <= |source| && LineBoundary(source, from) && Ordered(source, from, blocks)
    requires p != [] && '\n' !in p
    ensures Contains(Outside(source, blocks, from), p) <==> exists i :: from <= i && Clear(source, blocks, p, i)
    decreases |blocks|
  {
    if blocks == [] {
      ContainsSlice(source, from, |source|, p);
      assert source[from..] == source[from..|source|];
      if i :| from <= i && At(source, p, i) {
        assert Clear(source, blocks, p, i);
      }
    } else {
      var start, end := blocks[0].start, blocks[0].end;
      ContainsConcat(source[from..start], Outside(source, blocks[1..], end), p);
      ContainsSlice(source, from, start, p);
      MentionedOutside(source, blocks[1..], end, p);
      ClearGapOrLater(source, blocks, from, p);
    }
  }

  lemma ClearGapOrLater(source: string, blocks: seq<Block>, from: nat, p: string)
    requires Ordered(source, from, blocks) && blocks != [] && p != []
    ensures (exists i :: from <= i && Clear(source, blocks, p, i)) <==>
      || (exists i :: from <= i && i + |p| <= blocks[0].start && At(source, p, i))
      || (exists i :: blocks[0].end <= i && Clear(source, blocks[1..], p, i))
  {
    if i :| from <= i && i + |p| <= blocks[0].start && At(source, p, i) {
      forall k | 0 <= k < |blocks| ensures blocks[0].start <= blocks[k].start {
        BlocksAfter(source, blocks[0].start, blocks, k);
      }
      assert Clear(source, blocks, p, i);
    }
    if i :| blocks[0].end <= i && Clear(source, blocks[1..], p, i) {
      forall k | 0 <= k < |blocks| ensures i + |p| <= blocks[k].start || blocks[k].end <= i {
        if k > 0 {
          assert blocks[1..][k - 1] == blocks[k];
        }
      }
      assert Clear(source, blocks, p, i);
    }
    if i :| from <= i && Clear(source, blocks, p, i) {
      if i + |p| > blocks[0].start {
        assert Clear(source, blocks[1..], p, i);
      }
    }
  }

  // "Called" means what the source says it means: something outside the helper's own blocks
  // mentions it.
  ghost predicate CalledMeansMentioned(source: string, name: string) {
    var blocks := BlocksFrom(source, name, 0);
    && Ordered(source, 0, blocks)
    && (Contains(Outside(source, blocks, 0), name + "(") <==> exists i :: Clear(source, blocks, name + "(", i))
  }

  // Deleting whole lines cannot glue a mention together that has no newline in it.
  lemma OneLineNamesAreNotGlued(source: string, name: string)
    requires '\n' !in name
    ensures CalledMeansMentioned(source, name)
  {
    BlocksAreOrderedLines(source, name);
    MentionedOutside(source, BlocksFrom(source, name, 0), 0, name + "(");
  }
}
