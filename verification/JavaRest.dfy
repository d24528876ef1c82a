/** What is left after the blocks are deleted: the characters in no block, each in its place. */
module JavaRest {
  import opened Wrappers
  import opened JavaScanner
  import opened JavaScannerProofs
  import opened JavaPrune

  // The characters from position `p` on that are in none of the blocks.
  ghost function Uncut(source: string, blocks: seq<Block>, p: nat): string
    requires p <= |source|
    decreases |source| - p
  {
    if p == |source| then ""
    else if InsideBlock(blocks, p) then Uncut(source, blocks, p + 1)
    else [source[p]] + Uncut(source, blocks, p + 1)
  }

  lemma {:induction false} UncutGap(source: string, blocks: seq<Block>, p: nat, q: nat)
    requires p <= q <= |source| && forall i | p <= i < q :: !InsideBlock(blocks, i)
    ensures Uncut(source, blocks, p) == source[p..q] + Uncut(source, blocks, q)
    decreases q - p
  {
    if p < q {
      UncutGap(source, blocks, p + 1, q);
      assert source[p..q] == [source[p]] + source[p + 1..q];
      Associative([source[p]], source[p + 1..q], Uncut(source, blocks, q));
    } else {
      assert source[p..q] + Uncut(source, blocks, q) == Uncut(source, blocks, q);
    }
  }

  lemma {:induction false} UncutBlock(source: string, blocks: seq<Block>, p: nat, q: nat)
    requires p <= q <= |source| && forall i | p <= i < q :: InsideBlock(blocks, i)
    ensures Uncut(source, blocks, p) == Uncut(source, blocks, q)
    decreases q - p
  {
    if p < q {
      UncutBlock(source, blocks, p + 1, q);
    }
  }

  // Where block k begins and ends, and what is between it and the one before.
  ghost predicate InPlace(source: string, blocks: seq<Block>) {
    && (forall k | 0 <= k < |blocks| :: blocks[k].start < blocks[k].end <= |source|)
    && (forall k, l | 0 <= k < l < |blocks| :: blocks[k].end <= blocks[l].start)
  }

  lemma GapIsClear(source: string, blocks: seq<Block>, k: nat, i: nat)
    requires InPlace(source, blocks) && k <= |blocks|
    requires k > 0 ==> blocks[k - 1].end <= i
    requires k < |blocks| ==> i < blocks[k].start
    ensures !InsideBlock(blocks, i)
  {
    forall l | 0 <= l < |blocks| ensures !(blocks[l].start <= i < blocks[l].end) {
      if l < k - 1 {
        assert blocks[l].end <= blocks[k - 1].start;
      } else if k < l {
        assert blocks[k].end <= blocks[l].start;
      }
    }
  }

  lemma {:induction false} RestIsUncut(source: string, blocks: seq<Block>, k: nat, p: nat)
    requires InPlace(source, blocks) && k <= |blocks| && p == (if k == 0 then 0 else blocks[k - 1].end)
    requires p <= |source| && Ordered(source, p, blocks[k..])
    ensures Outside(source, blocks[k..], p) == Uncut(source, blocks, p)
    decreases |blocks| - k
  {
    if k == |blocks| {
      forall i | p <= i < |source| ensures !InsideBlock(blocks, i) {
        GapIsClear(source, blocks, k, i);
      }
      UncutGap(source, blocks, p, |source|);
      assert source[p..] == source[p..|source|] && source[p..] + "" == source[p..];
    } else {
      var block := blocks[k];
      assert blocks[k..][0] == block && blocks[k..][1..] == blocks[k + 1..];
      forall i | p <= i < block.start ensures !InsideBlock(blocks, i) {
        GapIsClear(source, blocks, k, i);
      }
      UncutGap(source, blocks, p, block.start);
      UncutBlock(source, blocks, block.start, block.end);
      RestIsUncut(source, blocks, k + 1, block.end);
    }
  }

  // The remainder that the question is asked of is exactly what is in no block.
  lemma RemainderIsUncut(source: string, name: string)
    ensures var blocks := BlocksFrom(source, name, 0);
            Ordered(source, 0, blocks) && Outside(source, blocks, 0) == Uncut(source, blocks, 0)
  {
    BlocksAreOrderedLines(source, name);
    var blocks := BlocksFrom(source, name, 0);
    assert blocks[0..] == blocks;
    RestIsUncut(source, blocks, 0, 0);
  }
}
