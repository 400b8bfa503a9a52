// Selection of the most popular blocks for migration: memoised chain depth, a
// bounded heap, and the ordering that puts chain heads first.
module Popularity {
  import opened Types
  import opened Lineages
  import opened PrefixIndex
  import opened Replicas
  import opened SharedState

  // ---------- chain depth ----------

  // A table whose predecessor links cannot run in circles.
  ghost predicate Ranked(t: Table, rank: Hash -> nat) {
    forall h :: h in t && t[h].preToken != ROOT && t[h].preToken in t ==> rank(t[h].preToken) < rank(h)
  }

  // Following predecessors from a block ends within n steps.
  predicate EndsWithin(t: Table, h: Hash, n: nat)
    decreases n
  {
    h in t && t[h].preToken != ROOT ==> n > 0 && EndsWithin(t, t[h].preToken, n - 1)
  }

  ghost predicate Ends(t: Table, h: Hash) {
    exists n :: EndsWithin(t, h, n)
  }

  ghost predicate ChainsEnd(t: Table) {
    forall h :: Ends(t, h)
  }

  // What a caller can check: from every entry it ends within as many steps as there are
  // entries.
  predicate EndWithinTable(t: Table) {
    forall h :: h in t ==> EndsWithin(t, h, |t|)
  }

  // A ranking exists exactly when following predecessors ends from every block, and that
  // is so exactly when the check succeeds.
  lemma RankedIffChainsEnd(t: Table)
    ensures (exists rank :: Ranked(t, rank)) <==> ChainsEnd(t)
    ensures ChainsEnd(t) <==> EndWithinTable(t)
  {
    RankedIffEnds(t);
    if ChainsEnd(t) {
      var rank :| Ranked(t, rank);
      forall h | h in t ensures EndsWithin(t, h, |t|) {
        EndsAtDepth(t, rank, h);
        DepthWithinTable(t, rank, h);
        EndsLater(t, h, Depth(t, rank, h), |t|);
      }
    }
    if EndWithinTable(t) {
      forall h ensures Ends(t, h) {
        assert EndsWithin(t, h, if h in t then |t| else 0);
      }
    }
  }

  lemma {:induction false} EndsAtDepth(t: Table, rank: Hash -> nat, h: Hash)
    requires Ranked(t, rank)
    ensures EndsWithin(t, h, Depth(t, rank, h))
    decreases if h in t then rank(h) + 1 else 0
  {
    if h in t && t[h].preToken != ROOT { EndsAtDepth(t, rank, t[h].preToken); }
  }

  lemma RankedIffEnds(t: Table)
    ensures (exists rank :: Ranked(t, rank)) <==> ChainsEnd(t)
  {
    if rank :| Ranked(t, rank) {
      forall h ensures Ends(t, h) {
        EndsAtDepth(t, rank, h);
      }
    }
    if ChainsEnd(t) {
      var rank := (h: Hash) => Span(t, h);
      forall h | h in t && t[h].preToken != ROOT && t[h].preToken in t ensures rank(t[h].preToken) < rank(h) {
        assert Ends(t, h);
        var n :| EndsWithin(t, h, n);
        SpanIsLeast(t, h, n);
        SpanIsLeast(t, t[h].preToken, Span(t, h) - 1);
      }
      assert Ranked(t, rank);
    }
  }

  lemma {:induction false} EndsLater(t: Table, h: Hash, m: nat, n: nat)
    requires EndsWithin(t, h, m) && m <= n
    ensures EndsWithin(t, h, n)
    decreases m
  {
    if h in t && t[h].preToken != ROOT {
      EndsLater(t, t[h].preToken, m - 1, n - 1);
    }
  }

  // The least number of steps, where there is one.
  ghost function Span(t: Table, h: Hash): nat {
    if n: nat :| EndsWithin(t, h, n) then LeastSpan(t, h, n) else 0
  }

  ghost function LeastSpan(t: Table, h: Hash, n: nat): (least: nat)
    requires EndsWithin(t, h, n)
    ensures EndsWithin(t, h, least) && forall m: nat :: m < least ==> !EndsWithin(t, h, m)
  {
    if m: nat :| m < n && EndsWithin(t, h, m) then LeastSpan(t, h, m) else n
  }

  lemma SpanIsLeast(t: Table, h: Hash, n: nat)
    requires EndsWithin(t, h, n)
    ensures EndsWithin(t, h, Span(t, h)) && Span(t, h) <= n
  {}

  // Peers can send two blocks that name each other; from them it never ends.
  lemma CircleNeverEnds(a: Hash, b: Hash, s: ServerId)
    requires a != b && a != ROOT && b != ROOT
    ensures var t := RunTable(map[], [PeerMeta(KvBlockMeta(a, 2, b, [], [s])),
                                      PeerMeta(KvBlockMeta(b, 2, a, [], [s]))]);
            && (forall n: nat :: !EndsWithin(t, a, n) && !EndsWithin(t, b, n))
            && !exists rank :: Ranked(t, rank)
  {
    var ops := [PeerMeta(KvBlockMeta(a, 2, b, [], [s])), PeerMeta(KvBlockMeta(b, 2, a, [], [s]))];
    var t := RunTable(map[], ops);
    assert ops[..1] == [ops[0]] && ops[..1][..0] == [];
    assert RunTable(map[], ops[..1]) == map[a := KvBlockMeta(a, 2, b, [], [s])];
    assert t == map[a := KvBlockMeta(a, 2, b, [], [s]), b := KvBlockMeta(b, 2, a, [], [s])];
    forall n: nat ensures !EndsWithin(t, a, n) && !EndsWithin(t, b, n) { RoundAndRound(t, a, b, n); }
    RankedIffChainsEnd(t);
    assert !Ends(t, a);
  }

  lemma {:induction false} RoundAndRound(t: Table, a: Hash, b: Hash, n: nat)
    requires a in t && b in t && a != ROOT && b != ROOT && t[a].preToken == b && t[b].preToken == a
    ensures !EndsWithin(t, a, n) && !EndsWithin(t, b, n)
  {
    if n > 0 { RoundAndRound(t, a, b, n - 1); }
  }

  // Plain recursion over predecessors; an unknown block counts as a root.
  ghost function Depth(t: Table, rank: Hash -> nat, h: Hash): nat
    requires Ranked(t, rank)
    decreases if h in t then rank(h) + 1 else 0
  {
    if h in t && t[h].preToken != ROOT then Depth(t, rank, t[h].preToken) + 1 else 0
  }

  function RankedUpTo(t: Table, rank: Hash -> nat, n: nat): set<Hash> {
    set h | h in t && rank(h) <= n
  }

  lemma {:induction false} DepthWithinRank(t: Table, rank: Hash -> nat, h: Hash)
    requires Ranked(t, rank) && h in t
    ensures Depth(t, rank, h) <= |RankedUpTo(t, rank, rank(h))|
    decreases rank(h)
  {
    var p := t[h].preToken;
    var all := RankedUpTo(t, rank, rank(h));
    assert h in all;
    if p != ROOT {
      var below := if p in t then RankedUpTo(t, rank, rank(p)) else {};
      if p in t { DepthWithinRank(t, rank, p); }
      assert h !in below && below + {h} <= all;
      SubsetSize(below + {h}, all);
    }
  }

  // No depth exceeds the number of entries, so u32::MAX - depth cannot underflow
  // on a table with at most u32::MAX of them.
  lemma DepthWithinTable(t: Table, rank: Hash -> nat, h: Hash)
    requires Ranked(t, rank)
    ensures Depth(t, rank, h) <= |t|
  {
    if h in t {
      DepthWithinRank(t, rank, h);
      assert RankedUpTo(t, rank, rank(h)) <= t.Keys;
      SubsetSize(RankedUpTo(t, rank, rank(h)), t.Keys);
    }
  }

  // The depth is the least number of steps within which following predecessors ends.
  lemma {:induction false} DepthIsLeastSteps(t: Table, rank: Hash -> nat, h: Hash, n: nat)
    requires Ranked(t, rank)
    ensures EndsWithin(t, h, n) <==> Depth(t, rank, h) <= n
    decreases n
  {
    if h in t && t[h].preToken != ROOT && n > 0 { DepthIsLeastSteps(t, rank, t[h].preToken, n - 1); }
  }

  // The depth does not depend on the ranking that shows the recursion ends.
  lemma {:induction false} DepthIsIntrinsic(t: Table, r1: Hash -> nat, r2: Hash -> nat, h: Hash)
    requires Ranked(t, r1) && Ranked(t, r2)
    ensures Depth(t, r1, h) == Depth(t, r2, h)
    decreases if h in t then r1(h) + 1 else 0
  {
    if h in t && t[h].preToken != ROOT {
      DepthIsIntrinsic(t, r1, r2, t[h].preToken);
    }
  }

  class DepthCache {
    var depths: map<Hash, nat>

    constructor ()
      ensures depths == map[]
    {
      depths := map[];
    }

    ghost predicate Correct(t: Table, rank: Hash -> nat)
      reads this
      requires Ranked(t, rank)
    {
      forall h :: h in depths ==> depths[h] == Depth(t, rank, h)
    }

    // compute_chain_depth
    method ComputeChainDepth(t: Table, h: Hash, ghost rank: Hash -> nat) returns (depth: nat)
      requires Ranked(t, rank) && Correct(t, rank)
      modifies this
      ensures Correct(t, rank)
      ensures depth == Depth(t, rank, h) <= |t|
      ensures h in depths && forall k :: k in old(depths) ==> k in depths && depths[k] == old(depths)[k]
      decreases if h in t then rank(h) + 1 else 0
    {
      DepthWithinTable(t, rank, h);
      if h in depths {
        return depths[h];
      }
      if h in t {
        if t[h].preToken == ROOT {
          depth := 0;
        } else {
          depth := ComputeChainDepth(t, t[h].preToken, rank);
          depth := depth + 1;
        }
      } else {
        depth := 0;
      }
      depths := depths[h := depth];
    }
  }

  // ---------- the order of selection ----------

  // What the heap holds: higher counts first, then smaller depths.
  datatype Candidate = Candidate(count: nat, reverseDepth: int, hash: Hash)

  predicate AtLeast(a: Candidate, b: Candidate) {
    a.count > b.count || (a.count == b.count && a.reverseDepth >= b.reverseDepth)
  }

  predicate SameKey(a: Candidate, b: Candidate) {
    a.count == b.count && a.reverseDepth == b.reverseDepth
  }

  predicate InDescendingOrder(r: seq<Candidate>) {
    forall i, j :: 0 <= i < j < |r| ==> AtLeast(r[i], r[j])
  }

  function Min(a: nat, b: nat): nat {
    if a <= b then a else b
  }

  // A best selection of at most k candidates, with nothing better left out.
  ghost predicate Best(chosen: set<Candidate>, k: nat, all: set<Candidate>) {
    && chosen <= all && |chosen| == Min(k, |all|)
    && forall x, e :: x in all - chosen && e in chosen ==> AtLeast(e, x)
  }

  // The specification of the selection.
  ghost predicate IsTopK(r: seq<Candidate>, k: nat, all: set<Candidate>) {
    Distinct(r) && InDescendingOrder(r) && Best(Elements(r), k, all)
  }

  // The result's counts and depths do not depend on the order in which the
  // candidates were visited, nor on how ties were broken.
  lemma TopKKeysAreUnique(r1: seq<Candidate>, r2: seq<Candidate>, k: nat, all: set<Candidate>)
    requires IsTopK(r1, k, all) && IsTopK(r2, k, all)
    ensures |r1| == |r2| && forall i :: 0 <= i < |r1| ==> SameKey(r1[i], r2[i])
  {
    DistinctCardinality(r1);
    DistinctCardinality(r2);
    forall i | 0 <= i < |r1| ensures SameKey(r1[i], r2[i]) {
      TopKDominates(r1, r2, k, all, i);
      TopKDominates(r2, r1, k, all, i);
    }
  }

  // A candidate that beats a selected one was selected before it.
  lemma BetterIsSelectedBefore(r: seq<Candidate>, k: nat, all: set<Candidate>, i: nat, x: Candidate)
    requires IsTopK(r, k, all) && i < |r| && x in all && !AtLeast(r[i], x)
    ensures x in r[..i]
  {}

  lemma TopKDominates(r1: seq<Candidate>, r2: seq<Candidate>, k: nat, all: set<Candidate>, i: nat)
    requires IsTopK(r1, k, all) && IsTopK(r2, k, all) && i < |r1| && i < |r2|
    ensures AtLeast(r2[i], r1[i])
  {
    if !AtLeast(r2[i], r1[i]) {
      var first, fewer := r1[..i + 1], r2[..i];
      forall x | x in first ensures x in fewer {
        var j :| 0 <= j < |first| && first[j] == x;
        assert j < i ==> AtLeast(r1[j], r1[i]);
        assert x in Elements(r1);
        BetterIsSelectedBefore(r2, k, all, i, x);
      }
      DistinctCardinality(first);
      DistinctCardinality(fewer);
      SubsetSize(Elements(first), Elements(fewer));
    }
  }

  // ---------- the bounded heap ----------

  // The least candidate of the heap; which of several equals is not determined.
  method PeekLeast(heap: set<Candidate>) returns (least: Candidate)
    requires heap != {}
    ensures least in heap && forall x :: x in heap ==> AtLeast(x, least)
  {
    least :| least in heap;
    var rest := heap - {least};
    while rest != {}
      invariant least in heap && least !in rest && rest <= heap
      invariant forall x :: x in heap && x !in rest ==> AtLeast(x, least)
      decreases |rest|
    {
      var y :| y in rest;
      if !AtLeast(y, least) {
        least := y;
      }
      rest := rest - {y};
    }
  }

  method PeekGreatest(heap: set<Candidate>) returns (greatest: Candidate)
    requires heap != {}
    ensures greatest in heap && forall x :: x in heap ==> AtLeast(greatest, x)
  {
    greatest :| greatest in heap;
    var rest := heap - {greatest};
    while rest != {}
      invariant greatest in heap && greatest !in rest && rest <= heap
      invariant forall x :: x in heap && x !in rest ==> AtLeast(greatest, x)
      decreases |rest|
    {
      var y :| y in rest;
      if !AtLeast(greatest, y) {
        greatest := y;
      }
      rest := rest - {y};
    }
  }

  // The heap emptied in any order and sorted.
  method SortDescending(heap: set<Candidate>) returns (r: seq<Candidate>)
    ensures Distinct(r) && InDescendingOrder(r) && Elements(r) == heap
  {
    r := [];
    var rest := heap;
    while rest != {}
      invariant rest <= heap && Elements(r) == heap - rest
      invariant Distinct(r) && InDescendingOrder(r)
      invariant forall x, y :: x in r && y in rest ==> AtLeast(x, y)
      decreases |rest|
    {
      var x := PeekGreatest(rest);
      assert x !in r by { assert x !in Elements(r); }
      rest := rest - {x};
      assert Elements(r + [x]) == Elements(r) + {x};
      r := r + [x];
    }
  }

  // Offering one more candidate to a heap of at most k.
  method Offer(heap: set<Candidate>, k: nat, x: Candidate, ghost seen: set<Candidate>) returns (r: set<Candidate>)
    requires Best(heap, k, seen) && x !in seen
    ensures Best(r, k, seen + {x})
  {
    r := heap;
    if |heap| < k {
      r := heap + {x};
      WholeSet(heap, seen);
    } else if heap != {} {
      var least := PeekLeast(heap);
      if x.count > least.count || (x.count == least.count && x.reverseDepth > least.reverseDepth) {
        r := heap - {least} + {x};
        Replaced(heap, k, x, least, seen);
      }
    }
  }

  lemma WholeSet(a: set<Candidate>, b: set<Candidate>)
    requires a <= b && |a| == |b|
    ensures a == b
  {
    if x :| x in b && x !in a {
      SubsetSize(a + {x}, b);
    }
  }

  lemma Replaced(heap: set<Candidate>, k: nat, x: Candidate, least: Candidate, seen: set<Candidate>)
    requires Best(heap, k, seen) && x !in seen && |heap| == k && least in heap
    requires forall y :: y in heap ==> AtLeast(y, least)
    requires AtLeast(x, least)
    ensures Best(heap - {least} + {x}, k, seen + {x})
  {
    var r := heap - {least} + {x};
    assert |r| == k;
    SubsetSize(r, seen + {x});
    forall y, e | y in (seen + {x}) - r && e in r ensures AtLeast(e, y) {
      assert AtLeast(e, least);
      if y != least { assert y in seen - heap; assert AtLeast(least, y); }
    }
  }

  // ---------- top_k_popularity ----------

  // A block qualifies when it is counted more than three times and some local
  // server lacks it; unknown blocks are on no server.
  predicate Eligible(t: Table, counts: map<Hash, nat>, local: set<ServerId>, h: Hash) {
    h in counts && counts[h] > 3 && LackedSomewhere(t, local, h)
  }

  predicate LackedSomewhere(t: Table, local: set<ServerId>, h: Hash) {
    h in t ==> exists s :: s in local && s !in t[h].servers
  }

  // The comment at the threshold asks for a count of more than two.
  predicate EligibleAsCommented(t: Table, counts: map<Hash, nat>, local: set<ServerId>, h: Hash) {
    h in counts && counts[h] > 2 && LackedSomewhere(t, local, h)
  }

  // Code and comment pick the same blocks exactly when none that some local server lacks
  // is counted three times.
  lemma CommentedThresholdIff(t: Table, counts: map<Hash, nat>, local: set<ServerId>)
    ensures (forall h :: Eligible(t, counts, local, h) <==> EligibleAsCommented(t, counts, local, h))
       <==> forall h :: h in counts && counts[h] == 3 ==> !LackedSomewhere(t, local, h)
  {
    if h :| h in counts && counts[h] == 3 && LackedSomewhere(t, local, h) {
      assert EligibleAsCommented(t, counts, local, h) && !Eligible(t, counts, local, h);
    }
  }

  ghost function CandidateOf(t: Table, rank: Hash -> nat, counts: map<Hash, nat>, h: Hash): Candidate
    requires Ranked(t, rank)
  {
    Candidate(Get(counts, h), U32_MAX - Depth(t, rank, h), h)
  }

  ghost function Candidates(t: Table, rank: Hash -> nat, counts: map<Hash, nat>, local: set<ServerId>,
                            keys: set<Hash>): set<Candidate>
    requires Ranked(t, rank)
  {
    set h | h in keys && Eligible(t, counts, local, h) :: CandidateOf(t, rank, counts, h)
  }

  function HashesOf(r: seq<Candidate>): (hs: seq<Hash>)
    ensures |hs| == |r| && forall i :: 0 <= i < |r| ==> hs[i] == r[i].hash
  {
    if r == [] then [] else HashesOf(r[..|r| - 1]) + [r[|r| - 1].hash]
  }

  // The hashes returned are those of a best selection among all eligible blocks.
  ghost predicate Selected(hs: seq<Hash>, t: Table, rank: Hash -> nat, counts: map<Hash, nat>, local: set<ServerId>,
                           k: nat)
    requires Ranked(t, rank)
  {
    exists r :: hs == HashesOf(r) && IsTopK(r, k, Candidates(t, rank, counts, local, counts.Keys))
  }

  // One visit of the loop over the counts.
  method Consider(t: Table, counts: map<Hash, nat>, local: set<ServerId>, k: nat, heap: set<Candidate>,
                  cache: DepthCache, h: Hash, ghost rank: Hash -> nat, ghost before: set<Hash>)
    returns (r: set<Candidate>)
    requires Ranked(t, rank) && cache.Correct(t, rank) && h in counts && h !in before
    requires Best(heap, k, Candidates(t, rank, counts, local, before)) && |t| <= U32_MAX
    modifies cache
    ensures cache.Correct(t, rank)
    ensures Best(r, k, Candidates(t, rank, counts, local, before + {h}))
  {
    hide Best, Candidates, Ranked;
    CandidatesGrow(t, rank, counts, local, before, h);
    r := heap;
    if Eligible(t, counts, local, h) {
      var depth := cache.ComputeChainDepth(t, h, rank);
      var reverseDepth: u32 := U32_MAX - depth;
      r := Offer(heap, k, Candidate(counts[h], reverseDepth, h), Candidates(t, rank, counts, local, before));
    }
  }

  // Visiting the counts in any order, keeping the best k seen so far.
  method SelectBest(t: Table, counts: map<Hash, nat>, local: set<ServerId>, k: nat, ghost rank: Hash -> nat)
    returns (heap: set<Candidate>)
    requires Ranked(t, rank) && |t| <= U32_MAX
    ensures Best(heap, k, Candidates(t, rank, counts, local, counts.Keys))
  {
    var cache := new DepthCache();
    heap := {};
    var todo := counts.Keys;
    ghost var visited: set<Hash> := {};
    assert Candidates(t, rank, counts, local, visited) == {};
    while todo != {}
      invariant todo <= counts.Keys && visited == counts.Keys - todo && cache.Correct(t, rank)
      invariant Best(heap, k, Candidates(t, rank, counts, local, visited))
      decreases |todo|
    {
      hide Best, Candidates, Ranked;
      var h :| h in todo;
      heap := Consider(t, counts, local, k, heap, cache, h, rank, visited);
      todo := todo - {h};
      visited := visited + {h};
    }
    assert visited == counts.Keys;
  }

  lemma CandidatesGrow(t: Table, rank: Hash -> nat, counts: map<Hash, nat>, local: set<ServerId>, keys: set<Hash>,
                       h: Hash)
    requires Ranked(t, rank) && h !in keys
    ensures CandidateOf(t, rank, counts, h) !in Candidates(t, rank, counts, local, keys)
    ensures Candidates(t, rank, counts, local, keys + {h}) ==
            if Eligible(t, counts, local, h)
            then Candidates(t, rank, counts, local, keys) + {CandidateOf(t, rank, counts, h)}
            else Candidates(t, rank, counts, local, keys)
  {}

  method TopKPopularity(shared: Shared, local: set<ServerId>, k: nat, ghost rank: Hash -> nat)
    returns (hashes: seq<Hash>)
    requires Ranked(shared.table, rank) && |shared.table| <= U32_MAX
    ensures Selected(hashes, shared.table, rank, shared.refCount.globalRefs, local, k)
  {
    var heap := SelectBest(shared.table, shared.refCount.globalRefs, local, k, rank);
    var r := SortDescending(heap);
    hashes := [];
    for i := 0 to |r|
      invariant hashes == HashesOf(r[..i])
    {
      assert r[..i + 1][..i] == r[..i];
      hashes := hashes + [r[i].hash];
    }
    assert r[..|r|] == r;
  }

  // ---------- chain heads first ----------

  // Every counted block is in the table, and no block is counted more often than
  // its predecessor.
  ghost predicate CountsFollowChains(t: Table, lin: Lineage, counts: map<Hash, nat>) {
    forall h :: h in counts ==> FollowsAt(t, lin, counts, h)
  }

  ghost predicate FollowsAt(t: Table, lin: Lineage, counts: map<Hash, nat>, h: Hash)
    requires h in counts
  {
    h in t && (lin.parent(h) != ROOT ==> Get(counts, lin.parent(h)) >= counts[h])
  }

  lemma LawfulParent(t: Table, lin: Lineage, h: Hash)
    requires Lawful(t, lin) && h in t && t[h].preToken != ROOT
    ensures t[h].preToken == lin.parent(h) && t[h].preToken in t && lin.depth(h) == lin.depth(t[h].preToken) + 1
  {
    assert LawfulEntry(t, lin, h);
    var s := t[h].servers[0];
    assert s in t[h].servers;
    assert Holds(t, s, lin.parent(h));
  }

  // Predecessors are those the hashes name; who holds what does not matter.
  ghost predicate Traced(t: Table, lin: Lineage) {
    forall h :: h in t ==> TracedEntry(t, lin, h)
  }

  ghost predicate TracedEntry(t: Table, lin: Lineage, h: Hash)
    requires h in t
  {
    t[h].preToken == lin.parent(h) && (lin.parent(h) != ROOT ==> lin.depth(lin.parent(h)) < lin.depth(h))
  }

  lemma LawfulIsTraced(t: Table, lin: Lineage)
    requires Lawful(t, lin)
    ensures Traced(t, lin)
  {
    forall h | h in t ensures TracedEntry(t, lin, h) { assert LawfulEntry(t, lin, h); }
  }

  lemma TracedIsRanked(t: Table, lin: Lineage)
    requires Traced(t, lin)
    ensures Ranked(t, lin.depth)
  {
    forall h | h in t && t[h].preToken != ROOT && t[h].preToken in t ensures lin.depth(t[h].preToken) < lin.depth(h) {
      assert TracedEntry(t, lin, h);
    }
  }

  lemma LawfulIsRanked(t: Table, lin: Lineage)
    requires Lawful(t, lin)
    ensures Ranked(t, lin.depth)
  {
    LawfulIsTraced(t, lin);
    TracedIsRanked(t, lin);
  }

  // On a table built by uploads the computed depth is the position in the chain.
  lemma {:induction false} LawfulDepth(t: Table, lin: Lineage, h: Hash)
    requires Lawful(t, lin) && h in t && Ranked(t, lin.depth)
    ensures Depth(t, lin.depth, h) == lin.depth(h)
    decreases lin.depth(h)
  {
    assert LawfulEntry(t, lin, h);
    if t[h].preToken != ROOT {
      LawfulParent(t, lin, h);
      LawfulDepth(t, lin, t[h].preToken);
    }
  }

  // The predecessor of an eligible block, when it is itself eligible, comes
  // strictly before it in the order of selection.
  lemma ParentComesFirst(t: Table, lin: Lineage, counts: map<Hash, nat>, h: Hash)
    requires Lawful(t, lin) && Ranked(t, lin.depth) && CountsFollowChains(t, lin, counts)
    requires h in counts && t[h].preToken != ROOT
    ensures Get(counts, t[h].preToken) >= counts[h]
    ensures !AtLeast(CandidateOf(t, lin.depth, counts, h), CandidateOf(t, lin.depth, counts, t[h].preToken))
  {}

  // A selected block leaves no hole below it: its predecessor is the root marker, or
  // all local servers hold it already, or it is selected earlier in the list.
  ghost predicate LeavesNoHole(t: Table, local: set<ServerId>, hashes: seq<Hash>, i: nat)
    requires i < |hashes|
  {
    hashes[i] in t &&
    var p := t[hashes[i]].preToken;
    p == ROOT || (forall s :: s in local ==> Holds(t, s, p)) || p in hashes[..i]
  }

  ghost predicate NeverLeavesHole(t: Table, rank: Hash -> nat, counts: map<Hash, nat>, local: set<ServerId>)
    requires Ranked(t, rank)
  {
    forall k: nat, hashes, i :: 0 <= i < |hashes| && Selected(hashes, t, rank, counts, local, k) ==>
      LeavesNoHole(t, local, hashes, i)
  }

  // What a caller can check of a block before selecting: it is known, and its
  // predecessor is the root marker, or on every local server, or counted as often.
  ghost predicate ParentReady(t: Table, counts: map<Hash, nat>, local: set<ServerId>, h: Hash) {
    h in t &&
    var p := t[h].preToken;
    p == ROOT || (forall s :: s in local ==> Holds(t, s, p)) || Get(counts, p) >= Get(counts, h)
  }

  ghost predicate ChainsReady(t: Table, counts: map<Hash, nat>, local: set<ServerId>) {
    forall h :: Eligible(t, counts, local, h) ==> ParentReady(t, counts, local, h)
  }

  // In any state whatever: no selection of any size leaves a hole if and only if every
  // eligible block is ready.
  lemma NoHolesIffChainsReady(t: Table, rank: Hash -> nat, counts: map<Hash, nat>, local: set<ServerId>)
    requires Ranked(t, rank)
    ensures NeverLeavesHole(t, rank, counts, local) <==> ChainsReady(t, counts, local)
  {
    if ChainsReady(t, counts, local) {
      forall k: nat, hashes, i | 0 <= i < |hashes| && Selected(hashes, t, rank, counts, local, k)
        ensures LeavesNoHole(t, local, hashes, i)
      {
        ReadyLeavesNoHole(t, rank, counts, local, k, hashes, i);
      }
    } else {
      var h :| Eligible(t, counts, local, h) && !ParentReady(t, counts, local, h);
      var k, hashes, i := UnreadyLeavesHole(t, rank, counts, local, h);
    }
  }

  lemma ReadyLeavesNoHole(t: Table, rank: Hash -> nat, counts: map<Hash, nat>, local: set<ServerId>,
                          k: nat, hashes: seq<Hash>, i: nat)
    requires Ranked(t, rank) && ChainsReady(t, counts, local)
    requires i < |hashes| && Selected(hashes, t, rank, counts, local, k)
    ensures LeavesNoHole(t, local, hashes, i)
  {
    var all := Candidates(t, rank, counts, local, counts.Keys);
    var r :| hashes == HashesOf(r) && IsTopK(r, k, all);
    SelectedIsEligible(t, rank, counts, local, r, k, i);
    var h := hashes[i];
    assert ParentReady(t, counts, local, h);
    var p := t[h].preToken;
    if p != ROOT && exists s :: s in local && !Holds(t, s, p) {
      MissingParentIsCandidate(t, rank, counts, local, h);
      var c := CandidateOf(t, rank, counts, p);
      hide *;
      BetterIsSelectedBefore(r, k, all, i, c);
      HashOfElement(r, i, c);
    }
  }

  // A predecessor some local server lacks, counted as often, competes too and ranks
  // strictly higher.
  lemma MissingParentIsCandidate(t: Table, rank: Hash -> nat, counts: map<Hash, nat>, local: set<ServerId>, h: Hash)
    requires Ranked(t, rank) && Eligible(t, counts, local, h) && h in t
    requires t[h].preToken != ROOT && exists s :: s in local && !Holds(t, s, t[h].preToken)
    requires Get(counts, t[h].preToken) >= counts[h]
    ensures CandidateOf(t, rank, counts, t[h].preToken) in Candidates(t, rank, counts, local, counts.Keys)
    ensures !AtLeast(CandidateOf(t, rank, counts, h), CandidateOf(t, rank, counts, t[h].preToken))
  {
    assert Eligible(t, counts, local, t[h].preToken);
  }

  // Selecting everything shows the hole below a block that is not ready.
  lemma UnreadyLeavesHole(t: Table, rank: Hash -> nat, counts: map<Hash, nat>, local: set<ServerId>, h: Hash)
    returns (k: nat, hashes: seq<Hash>, i: nat)
    requires Ranked(t, rank) && Eligible(t, counts, local, h) && !ParentReady(t, counts, local, h)
    ensures i < |hashes| && Selected(hashes, t, rank, counts, local, k) && !LeavesNoHole(t, local, hashes, i)
  {
    var all := Candidates(t, rank, counts, local, counts.Keys);
    var r := Sorted(all);
    k, hashes := |all|, HashesOf(r);
    var c := CandidateOf(t, rank, counts, h);
    assert c in Elements(r);
    i :| 0 <= i < |r| && r[i] == c;
    assert IsTopK(r, k, all);
    forall j | 0 <= j < i ensures Get(counts, hashes[j]) >= Get(counts, h) {
      SelectedIsEligible(t, rank, counts, local, r, k, j);
      assert AtLeast(r[j], r[i]);
    }
  }

  lemma {:induction false} Sorted(heap: set<Candidate>) returns (r: seq<Candidate>)
    ensures Distinct(r) && InDescendingOrder(r) && Elements(r) == heap
  {
    r := [];
    if heap != {} {
      var g := Greatest(heap);
      var rest := Sorted(heap - {g});
      assert g !in Elements(rest);
      r := [g] + rest;
      assert Elements(r) == {g} + Elements(rest);
    }
  }

  lemma {:induction false} Greatest(heap: set<Candidate>) returns (g: Candidate)
    requires heap != {}
    ensures g in heap && forall x :: x in heap ==> AtLeast(g, x)
  {
    var x :| x in heap;
    if heap == {x} {
      g := x;
    } else {
      var y := Greatest(heap - {x});
      g := if AtLeast(x, y) then x else y;
      assert forall z :: z in heap ==> z == x || z in heap - {x};
    }
  }

  lemma SingleCandidate(t: Table, rank: Hash -> nat, counts: map<Hash, nat>, local: set<ServerId>, h: Hash)
    requires Ranked(t, rank) && counts.Keys == {h} && Eligible(t, counts, local, h)
    ensures Candidates(t, rank, counts, local, counts.Keys) == {CandidateOf(t, rank, counts, h)}
  {}

  // A block the code migrates: counted more than three times, and unknown or missing on
  // some local server.
  ghost predicate Wanted(t: Table, counts: map<Hash, nat>, local: set<ServerId>, h: Hash) {
    h in counts && counts[h] > 3 && (h !in t || exists s :: s in local && s !in t[h].servers)
  }

  // Block a ranks no lower than block b: counted more often, or as often and no deeper.
  ghost predicate RanksNoLower(t: Table, rank: Hash -> nat, counts: map<Hash, nat>, a: Hash, b: Hash)
    requires Ranked(t, rank)
  {
    || Get(counts, a) > Get(counts, b)
    || (Get(counts, a) == Get(counts, b) && Depth(t, rank, a) <= Depth(t, rank, b))
  }

  // What a selection is, in terms of table and counts alone: at most k wanted blocks, none
  // twice, in order; and a wanted block is left out only when k others rank no lower.
  lemma SelectionMeans(hashes: seq<Hash>, t: Table, rank: Hash -> nat, counts: map<Hash, nat>, local: set<ServerId>,
                       k: nat)
    requires Ranked(t, rank) && Selected(hashes, t, rank, counts, local, k)
    ensures |hashes| <= k && Distinct(hashes)
    ensures forall i :: 0 <= i < |hashes| ==> Wanted(t, counts, local, hashes[i])
    ensures forall i, j :: 0 <= i < j < |hashes| ==> RanksNoLower(t, rank, counts, hashes[i], hashes[j])
    ensures forall h :: Wanted(t, counts, local, h) && h !in hashes ==>
              |hashes| == k && forall i :: 0 <= i < k ==> RanksNoLower(t, rank, counts, hashes[i], h)
  {
    var all := Candidates(t, rank, counts, local, counts.Keys);
    var r :| hashes == HashesOf(r) && IsTopK(r, k, all);
    DistinctCardinality(r);
    forall i | 0 <= i < |r|
      ensures Wanted(t, counts, local, hashes[i]) && r[i] == CandidateOf(t, rank, counts, hashes[i])
    {
      SelectedIsEligible(t, rank, counts, local, r, k, i);
    }
    forall i, j | 0 <= i < j < |r|
      ensures RanksNoLower(t, rank, counts, hashes[i], hashes[j]) && hashes[i] != hashes[j]
    {
      assert AtLeast(r[i], r[j]);
    }
    forall h | Wanted(t, counts, local, h) && h !in hashes
      ensures |hashes| == k && forall i :: 0 <= i < k ==> RanksNoLower(t, rank, counts, hashes[i], h)
    {
      LeftOut(hashes, t, rank, counts, local, k, r, h);
    }
  }

  lemma LeftOut(hashes: seq<Hash>, t: Table, rank: Hash -> nat, counts: map<Hash, nat>, local: set<ServerId>, k: nat,
                r: seq<Candidate>, h: Hash)
    requires Ranked(t, rank) && hashes == HashesOf(r)
    requires IsTopK(r, k, Candidates(t, rank, counts, local, counts.Keys))
    requires Wanted(t, counts, local, h) && h !in hashes
    ensures |hashes| == k && forall i :: 0 <= i < k ==> RanksNoLower(t, rank, counts, hashes[i], h)
  {
    var all := Candidates(t, rank, counts, local, counts.Keys);
    var c := CandidateOf(t, rank, counts, h);
    assert Eligible(t, counts, local, h) && c in all;
    assert forall j :: 0 <= j < |r| ==> r[j].hash == hashes[j];
    assert c !in Elements(r);
    DistinctCardinality(r);
    if |Elements(r)| == |all| { WholeSet(Elements(r), all); }
    forall i | 0 <= i < |r| ensures RanksNoLower(t, rank, counts, hashes[i], h) {
      SelectedIsEligible(t, rank, counts, local, r, k, i);
      assert r[i] in Elements(r) && AtLeast(r[i], c);
    }
  }

  // When a single block is eligible it is all there is to select.
  lemma OnlyCandidate(t: Table, rank: Hash -> nat, counts: map<Hash, nat>, local: set<ServerId>,
                      k: nat, hashes: seq<Hash>, h: Hash)
    requires Ranked(t, rank) && counts.Keys == {h} && Eligible(t, counts, local, h)
    requires k > 0 && Selected(hashes, t, rank, counts, local, k)
    ensures hashes == [h]
  {
    var all := Candidates(t, rank, counts, local, counts.Keys);
    var r :| hashes == HashesOf(r) && IsTopK(r, k, all);
    SingleCandidate(t, rank, counts, local, h);
    DistinctCardinality(r);
    assert |r| == 1;
    hide *;
    SelectedIsEligible(t, rank, counts, local, r, k, 0);
  }

  // Where counts follow the hashes' own chains, every block is ready.
  lemma FollowingIsReady(t: Table, lin: Lineage, counts: map<Hash, nat>, local: set<ServerId>)
    requires Traced(t, lin) && CountsFollowChains(t, lin, counts)
    ensures ChainsReady(t, counts, local)
  {
    forall h | Eligible(t, counts, local, h) ensures ParentReady(t, counts, local, h) {
      assert TracedEntry(t, lin, h);
    }
  }

  // No holes on a table built by uploads.
  lemma NoHoles(t: Table, lin: Lineage, counts: map<Hash, nat>, local: set<ServerId>)
    requires Lawful(t, lin) && CountsFollowChains(t, lin, counts)
    ensures Ranked(t, lin.depth) && NeverLeavesHole(t, lin.depth, counts, local)
  {
    LawfulIsTraced(t, lin);
    TracedLeavesNoHole(t, lin, counts, local);
  }

  lemma TracedLeavesNoHole(t: Table, lin: Lineage, counts: map<Hash, nat>, local: set<ServerId>)
    requires Traced(t, lin) && CountsFollowChains(t, lin, counts)
    ensures Ranked(t, lin.depth) && NeverLeavesHole(t, lin.depth, counts, local)
  {
    TracedIsRanked(t, lin);
    FollowingIsReady(t, lin, counts, local);
    NoHolesIffChainsReady(t, lin.depth, counts, local);
  }

  // A block that has lost its entry but not its count is eligible for any local servers,
  // and is selected without a known predecessor.
  lemma CountWithoutBlockIsUnready(t: Table, counts: map<Hash, nat>, local: set<ServerId>, h: Hash)
    requires h in counts && counts[h] > 3 && h !in t
    ensures !ChainsReady(t, counts, local)
  {
    assert Eligible(t, counts, local, h);
  }

  // A successful migration opens no hole by itself.
  lemma MigrationKeepsReady(t: Table, counts: map<Hash, nat>, local: set<ServerId>, hs: seq<Hash>, s: ServerId)
    requires ChainsReady(t, counts, local)
    ensures ChainsReady(AddAll(t, hs, s), counts, local)
  {
    var t' := AddAll(t, hs, s);
    forall h | Eligible(t', counts, local, h) ensures ParentReady(t', counts, local, h) {
      forall s' ensures Holds(t, s', h) ==> Holds(t', s', h) { AddAllReplicas(t, hs, s, s', h); }
      AddAllReplicas(t, hs, s, s, h);
      assert h in t ==> exists s' :: s' in local && !Holds(t', s', h);
      assert h in t ==> exists s' :: s' in local && !Holds(t, s', h);
      assert Eligible(t, counts, local, h);
      var p := t[h].preToken;
      forall s' ensures Holds(t, s', p) ==> Holds(t', s', p) { AddAllReplicas(t, hs, s, s', p); }
    }
  }

  lemma MigrationKeepsTraced(t: Table, lin: Lineage, counts: map<Hash, nat>, hs: seq<Hash>, s: ServerId)
    requires Traced(t, lin) && CountsFollowChains(t, lin, counts)
    ensures Traced(AddAll(t, hs, s), lin) && CountsFollowChains(AddAll(t, hs, s), lin, counts)
  {
    forall h ensures h in AddAll(t, hs, s) <==> h in t
             ensures h in t ==> AddAll(t, hs, s)[h].preToken == t[h].preToken
    {
      AddAllReplicas(t, hs, s, s, h);
    }
    forall h | h in AddAll(t, hs, s) ensures TracedEntry(AddAll(t, hs, s), lin, h) { assert TracedEntry(t, lin, h); }
  }

  lemma HashOfElement(r: seq<Candidate>, i: nat, c: Candidate)
    requires i <= |r| && c in r[..i]
    ensures c.hash in HashesOf(r)[..i]
  {}

  lemma SelectedIsEligible(t: Table, rank: Hash -> nat, counts: map<Hash, nat>, local: set<ServerId>,
                           r: seq<Candidate>, k: nat, i: nat)
    requires Ranked(t, rank) && IsTopK(r, k, Candidates(t, rank, counts, local, counts.Keys)) && i < |r|
    ensures Eligible(t, counts, local, r[i].hash) && r[i] == CandidateOf(t, rank, counts, r[i].hash)
  {
    assert r[i] in Elements(r);
  }
}
