// What the rest of the server relies on about block hashes: a hash fixes its
// predecessor, its position in the chain and the number of tokens in its block.
module Lineages {
  import opened Types

  datatype Lineage = Lineage(parent: Hash -> Hash, depth: Hash -> nat, size: Hash -> u32)

  // A hash list that starts at a root block and follows predecessors.
  ghost predicate Chained(lin: Lineage, hs: seq<Hash>) {
    forall i :: 0 <= i < |hs| ==> Placed(lin, hs, i)
  }

  ghost predicate Placed(lin: Lineage, hs: seq<Hash>, i: nat)
    requires i < |hs|
  {
    && hs[i] != ROOT
    && lin.depth(hs[i]) == i
    && lin.parent(hs[i]) == if i == 0 then ROOT else hs[i - 1]
  }

  ghost predicate Sized(lin: Lineage, hs: seq<Hash>, offsets: seq<u32>) {
    |offsets| == |hs| && forall i :: 0 <= i < |hs| ==> offsets[i] == lin.size(hs[i])
  }

  lemma ChainedIsDistinct(lin: Lineage, hs: seq<Hash>)
    requires Chained(lin, hs)
    ensures Distinct(hs)
  {
    forall i, j | 0 <= i < j < |hs| ensures hs[i] != hs[j] {
      assert Placed(lin, hs, i) && Placed(lin, hs, j);
    }
  }

  // A hash names its whole prefix: chains that share a block share everything before it.
  lemma {:induction false} SharedBlockSharesPrefix(lin: Lineage, hs: seq<Hash>, ks: seq<Hash>, i: nat, j: nat)
    requires Chained(lin, hs) && Chained(lin, ks)
    requires i < |hs| && j < |ks| && hs[i] == ks[j]
    ensures i == j && hs[..i + 1] == ks[..j + 1]
  {
    assert Placed(lin, hs, i) && Placed(lin, ks, j);
    if i > 0 {
      SharedBlockSharesPrefix(lin, hs, ks, i - 1, j - 1);
    }
    assert hs[..i + 1] == hs[..i] + [hs[i]];
    assert ks[..j + 1] == ks[..j] + [ks[j]];
  }

  // Wherever a chain contains a block it contains the block's predecessor.
  lemma ChainContainsParent(lin: Lineage, hs: seq<Hash>, h: Hash)
    requires Chained(lin, hs) && h in hs && lin.parent(h) != ROOT
    ensures lin.parent(h) in hs
  {
    var i :| 0 <= i < |hs| && hs[i] == h;
    assert Placed(lin, hs, i);
  }
}
