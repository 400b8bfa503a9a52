// The pieces together: token sequences are hashed, indexed and counted, and the
// properties hold of the whole server over every run of uploads. The main lemmas follow
// from others without induction, so automatic induction over their runs is switched off.
module Server {
  import opened Types
  import opened Lineages
  import opened BlockHash
  import opened PrefixIndex
  import opened Replicas
  import opened RefCounts
  import opened SharedState
  import M = Migration
  import P = Popularity
  import T = Tracking

  datatype TokenUpload = TokenUpload(server: ServerId, tokens: seq<Token>)

  function RequestOf(hasher: TokenHasher, blockSize: nat, up: TokenUpload): UploadRequest
    requires blockSize > 0
  {
    var blocks := hasher.HashBlocks(up.tokens, blockSize);
    UploadRequest(up.server, Offsets(blocks), Hashes(blocks))
  }

  function Requests(hasher: TokenHasher, blockSize: nat, ups: seq<TokenUpload>): (reqs: seq<UploadRequest>)
    requires blockSize > 0
    ensures |reqs| == |ups|
    ensures forall k :: 0 <= k < |ups| ==> reqs[k] == RequestOf(hasher, blockSize, ups[k])
  {
    if ups == [] then []
    else
      var n := |ups| - 1;
      Requests(hasher, blockSize, ups[..n]) + [RequestOf(hasher, blockSize, ups[n])]
  }

  function RunCounts(reqs: seq<UploadRequest>): Counts {
    if reqs == [] then Counts(map[], map[], map[])
    else
      var n := |reqs| - 1;
      Apply(RunCounts(reqs[..n]), AddBatch(reqs[n].hashes, 1))
  }

  ghost predicate InCorpus(ups: seq<TokenUpload>, corpus: iset<seq<Token>>) {
    forall k :: 0 <= k < |ups| ==> ups[k].tokens in corpus
  }

  // ---------- runs of token uploads ----------

  lemma RequestsAreLawful(hasher: TokenHasher, blockSize: nat, ups: seq<TokenUpload>,
                          corpus: iset<seq<Token>>)
    requires 0 < blockSize < TWO_TO_THE_64 && CollisionFree(hasher, corpus, blockSize) && InCorpus(ups, corpus)
    ensures AllLawful(Requests(hasher, blockSize, ups), LineageOf(hasher, corpus, blockSize))
    ensures AllDistinct(Requests(hasher, blockSize, ups))
  {
    var reqs, lin := Requests(hasher, blockSize, ups), LineageOf(hasher, corpus, blockSize);
    forall k | 0 <= k < |reqs|
      ensures Chained(lin, reqs[k].hashes) && Sized(lin, reqs[k].hashes, reqs[k].offsets) && Distinct(reqs[k].hashes)
    {
      HashListsAreChained(hasher, corpus, blockSize, ups[k].tokens);
      ChainedIsDistinct(lin, reqs[k].hashes);
    }
  }

  // In every state reached by uploads a server holding a block holds its whole
  // prefix, and every entry is what its hash says.
  lemma {:induction false} UploadedTableIsLawful(hasher: TokenHasher, blockSize: nat, ups: seq<TokenUpload>,
                                                 corpus: iset<seq<Token>>)
    requires 0 < blockSize < TWO_TO_THE_64 && CollisionFree(hasher, corpus, blockSize) && InCorpus(ups, corpus)
    ensures Lawful(RunUploads(Requests(hasher, blockSize, ups)).table, LineageOf(hasher, corpus, blockSize))
  {
    RequestsAreLawful(hasher, blockSize, ups, corpus);
    RunIsLawful(Requests(hasher, blockSize, ups), LineageOf(hasher, corpus, blockSize));
  }

  // In every such state the two searches agree, for every server and any query.
  lemma {:induction false} SearchesAgreeAfterUploads(hasher: TokenHasher, blockSize: nat, ups: seq<TokenUpload>,
                                                     corpus: iset<seq<Token>>, s: ServerId, query: seq<Hash>)
    requires 0 < blockSize < TWO_TO_THE_64 && CollisionFree(hasher, corpus, blockSize) && InCorpus(ups, corpus)
    ensures var t := RunUploads(Requests(hasher, blockSize, ups)).table;
            Credit(t, s, query, WalkLength(t, query)) == PrefixTokens(t, query, MatchLength(t, s, query))
  {
    UploadedTableIsLawful(hasher, blockSize, ups, corpus);
    SearchesAgree(RunUploads(Requests(hasher, blockSize, ups)).table, LineageOf(hasher, corpus, blockSize), s, query);
  }

  lemma {:induction false} SumOfOffsets(blocks: seq<BlockResult>)
    ensures SumOffsets(Offsets(blocks)) == TotalOffset(blocks)
  {
    if blocks != [] {
      var n := |blocks| - 1;
      SumOfOffsets(blocks[..n]);
      assert Offsets(blocks)[..n] == Offsets(blocks[..n]);
    }
  }

  lemma BlocksHaveTokens(hasher: TokenHasher, tokens: seq<Token>, blockSize: nat)
    requires 0 < blockSize < TWO_TO_THE_32
    ensures var offsets := Offsets(hasher.HashBlocks(tokens, blockSize));
            forall i :: 0 <= i < |offsets| ==> offsets[i] > 0
  {
    HashedChunksCover(hasher, tokens, blockSize);
    OffsetsArePositive(hasher, hasher.HashedChunks(tokens, blockSize));
  }

  // What the token search credits a server with, for a token sequence it uploads next.
  function TokensCredited(hasher: TokenHasher, blockSize: nat, ix: Index, s: ServerId, tokens: seq<Token>): nat
    requires blockSize > 0
  {
    var blocks := hasher.HashBlocks(tokens, blockSize);
    var t := Upload(ix, s, Offsets(blocks), Hashes(blocks)).table;
    Credit(t, s, Hashes(blocks), WalkLength(t, Hashes(blocks)))
  }

  lemma LawfulUploadCreditsTokens(hasher: TokenHasher, blockSize: nat, corpus: iset<seq<Token>>,
                                  ix: Index, s: ServerId, tokens: seq<Token>)
    requires 0 < blockSize < TWO_TO_THE_32 && CollisionFree(hasher, corpus, blockSize) && tokens in corpus
    requires Lawful(ix.table, LineageOf(hasher, corpus, blockSize))
    ensures TokensCredited(hasher, blockSize, ix, s, tokens) == Covered(hasher, tokens, blockSize)
       <==> NoMissingLink(ix.table, s, Hashes(hasher.HashBlocks(tokens, blockSize)))
  {
    var blocks := hasher.HashBlocks(tokens, blockSize);
    HashListsAreChained(hasher, corpus, blockSize, tokens);
    UploadCreditsEveryToken(ix, s, Offsets(blocks), Hashes(blocks), LineageOf(hasher, corpus, blockSize));
    SumOfOffsets(blocks);
    BlocksHaveTokens(hasher, tokens, blockSize);
    OffsetsAddUp(hasher, tokens, blockSize);
  }

  // After any run, an upload credits its server with every token that was hashed
  // exactly when it found no missing link.
  lemma {:induction false} UploadedTokensAreCredited(hasher: TokenHasher, blockSize: nat, ups: seq<TokenUpload>,
                                                     corpus: iset<seq<Token>>, s: ServerId, tokens: seq<Token>)
    requires 0 < blockSize < TWO_TO_THE_32 && CollisionFree(hasher, corpus, blockSize) && InCorpus(ups, corpus)
    requires tokens in corpus
    ensures var ix := RunUploads(Requests(hasher, blockSize, ups));
            TokensCredited(hasher, blockSize, ix, s, tokens)
              == (if hasher.unfullChunk then |tokens| else |tokens| - |tokens| % blockSize)
            <==> NoMissingLink(ix.table, s, Hashes(hasher.HashBlocks(tokens, blockSize)))
  {
    UploadedTableIsLawful(hasher, blockSize, ups, corpus);
    LawfulUploadCreditsTokens(hasher, blockSize, corpus, RunUploads(Requests(hasher, blockSize, ups)), s, tokens);
  }

  // Some upload of the server started with the given blocks.
  ghost predicate UploadedBlocks(hasher: TokenHasher, blockSize: nat, ups: seq<TokenUpload>, s: ServerId,
                                 blocks: seq<Chunk>)
    requires blockSize > 0
  {
    exists k :: 0 <= k < |ups| && ups[k].server == s && blocks <= hasher.HashedChunks(ups[k].tokens, blockSize)
  }

  // A cache hit is genuine: when the search matches n blocks of a query for a
  // server, that server did upload tokens that begin with those n blocks.
  lemma {:induction false} HitsAreGenuine(hasher: TokenHasher, blockSize: nat, ups: seq<TokenUpload>,
                                          corpus: iset<seq<Token>>, s: ServerId, query: seq<Token>)
    requires 0 < blockSize < TWO_TO_THE_64 && CollisionFree(hasher, corpus, blockSize) && InCorpus(ups, corpus)
    requires query in corpus
    ensures var t := RunUploads(Requests(hasher, blockSize, ups)).table;
            var hs := Hashes(hasher.HashBlocks(query, blockSize));
            var n := MatchLength(t, s, hs);
            n > 0 ==> n <= |hasher.HashedChunks(query, blockSize)| &&
                      UploadedBlocks(hasher, blockSize, ups, s, hasher.HashedChunks(query, blockSize)[..n])
  {
    hide RunUploads, MatchLength, Requests, CollisionFree, UploadedBlocks, InCorpus;
    var reqs, hs := Requests(hasher, blockSize, ups), Hashes(hasher.HashBlocks(query, blockSize));
    RequestsAreLawful(hasher, blockSize, ups, corpus);
    MatchedIsUploaded(reqs, s, hs);
    BlockCount(hasher, query, blockSize);
    var n := MatchLength(RunUploads(reqs).table, s, hs);
    if n > 0 {
      UploadedHashComesFromBlocks(hasher, blockSize, ups, corpus, s, query, n - 1);
    }
  }

  lemma UploadedHashComesFromBlocks(hasher: TokenHasher, blockSize: nat, ups: seq<TokenUpload>,
                                    corpus: iset<seq<Token>>, s: ServerId, query: seq<Token>, i: nat)
    requires 0 < blockSize < TWO_TO_THE_64 && CollisionFree(hasher, corpus, blockSize) && InCorpus(ups, corpus)
    requires query in corpus && i < |Hashes(hasher.HashBlocks(query, blockSize))|
    requires UploadedBy(Requests(hasher, blockSize, ups), s, Hashes(hasher.HashBlocks(query, blockSize))[i])
    ensures i < |hasher.HashedChunks(query, blockSize)|
    ensures UploadedBlocks(hasher, blockSize, ups, s, hasher.HashedChunks(query, blockSize)[..i + 1])
  {
    var reqs, h := Requests(hasher, blockSize, ups), Hashes(hasher.HashBlocks(query, blockSize))[i];
    var k :| 0 <= k < |reqs| && reqs[k].server == s && h in reqs[k].hashes;
    assert reqs[k] == RequestOf(hasher, blockSize, ups[k]);
    assert ups[k].tokens in corpus;
    hide CollisionFree, Requests;
    SharedHashSharedBlocks(hasher, blockSize, corpus, query, ups[k].tokens, i);
  }

  lemma MatchedIsUploaded(reqs: seq<UploadRequest>, s: ServerId, hs: seq<Hash>)
    requires AllDistinct(reqs)
    ensures var n := MatchLength(RunUploads(reqs).table, s, hs);
            n <= |hs| && (n > 0 ==> UploadedBy(reqs, s, hs[n - 1]))
  {
    var t := RunUploads(reqs).table;
    var n := MatchLength(t, s, hs);
    MatchFromIsLongest(t, s, hs, 0);
    if n > 0 {
      assert MatchedAt(t, s, hs, n - 1);
      ListedIffUploaded(reqs, s, hs[n - 1]);
    }
  }

  lemma BlockCount(hasher: TokenHasher, tokens: seq<Token>, blockSize: nat)
    requires blockSize > 0
    ensures |Hashes(hasher.HashBlocks(tokens, blockSize))| == |hasher.HashedChunks(tokens, blockSize)|
  {}

  lemma SharedHashSharedBlocks(hasher: TokenHasher, blockSize: nat, corpus: iset<seq<Token>>,
                               q: seq<Token>, t: seq<Token>, i: nat)
    requires 0 < blockSize < TWO_TO_THE_64 && CollisionFree(hasher, corpus, blockSize) && q in corpus && t in corpus
    requires i < |Hashes(hasher.HashBlocks(q, blockSize))|
    requires Hashes(hasher.HashBlocks(q, blockSize))[i] in Hashes(hasher.HashBlocks(t, blockSize))
    ensures i < |hasher.HashedChunks(q, blockSize)|
    ensures hasher.HashedChunks(q, blockSize)[..i + 1] <= hasher.HashedChunks(t, blockSize)
  {
    BlockCount(hasher, q, blockSize);
    BlockCount(hasher, t, blockSize);
    var hs := Hashes(hasher.HashBlocks(t, blockSize));
    var j :| 0 <= j < |hs| && hs[j] == Hashes(hasher.HashBlocks(q, blockSize))[i];
    HashListCharacterisesPrefix(hasher, corpus, blockSize, q, t, i, j);
  }

  // ---------- counts along chains ----------

  lemma UploadKeepsEntries(ix: Index, s: ServerId, offsets: seq<u32>, hs: seq<Hash>, h: Hash)
    requires Distinct(hs)
    ensures h in ix.table || h in hs ==> h in Upload(ix, s, offsets, hs).table
  {
    if h in hs {
      var i :| 0 <= i < |hs| && hs[i] == h;
      UploadAt(ix, s, offsets, hs, i);
    } else {
      UploadElsewhere(ix, s, offsets, hs, h);
    }
  }

  lemma UploadKeepsCountsFollowing(ix: Index, counts: map<Hash, nat>, req: UploadRequest,
                                   lin: Lineage)
    requires P.CountsFollowChains(ix.table, lin, counts)
    requires Chained(lin, req.hashes)
    ensures P.CountsFollowChains(Upload(ix, req.server, req.offsets, req.hashes).table, lin,
                                 BumpAll(counts, req.hashes, 1))
  {
    var hs := req.hashes;
    var t', counts' := Upload(ix, req.server, req.offsets, hs).table, BumpAll(counts, hs, 1);
    ChainedIsDistinct(lin, hs);
    forall h | h in counts'
      ensures h in t' && (lin.parent(h) != ROOT ==> Get(counts', lin.parent(h)) >= counts'[h])
    {
      var p := lin.parent(h);
      BumpAllCounts(counts, hs, 1, h);
      BumpAllCounts(counts, hs, 1, p);
      T.DistinctMultiplicity(hs, h);
      T.DistinctMultiplicity(hs, p);
      UploadKeepsEntries(ix, req.server, req.offsets, hs, h);
      if p != ROOT && h in hs {
        ChainContainsParent(lin, hs, h);
      }
    }
  }

  lemma {:induction false} CountsFollowChainsInRun(reqs: seq<UploadRequest>, lin: Lineage)
    requires AllLawful(reqs, lin)
    ensures P.CountsFollowChains(RunUploads(reqs).table, lin, RunCounts(reqs).global)
  {
    if reqs != [] {
      var n := |reqs| - 1;
      CountsFollowChainsInRun(reqs[..n], lin);
      UploadKeepsCountsFollowing(RunUploads(reqs[..n]), RunCounts(reqs[..n]).global, reqs[n], lin);
    }
  }

  // In every state reached by uploads, every selection of the most popular blocks, of any
  // size, starts its chains at the head: the predecessor of a selected block is the root
  // marker, or on every local server already, or earlier in the selection.
  lemma {:induction false} SelectionHasNoHoles(hasher: TokenHasher, blockSize: nat, ups: seq<TokenUpload>,
                                               corpus: iset<seq<Token>>, local: set<ServerId>)
    requires 0 < blockSize < TWO_TO_THE_64 && CollisionFree(hasher, corpus, blockSize) && InCorpus(ups, corpus)
    ensures var reqs, lin := Requests(hasher, blockSize, ups), LineageOf(hasher, corpus, blockSize);
            var t := RunUploads(reqs).table;
            P.Ranked(t, lin.depth) && P.NeverLeavesHole(t, lin.depth, RunCounts(reqs).global, local)
  {
    var reqs, lin := Requests(hasher, blockSize, ups), LineageOf(hasher, corpus, blockSize);
    UploadedTableIsLawful(hasher, blockSize, ups, corpus);
    RequestsAreLawful(hasher, blockSize, ups, corpus);
    CountsFollowChainsInRun(reqs, lin);
    P.NoHoles(RunUploads(reqs).table, lin, RunCounts(reqs).global, local);
  }

  // ---------- selections in other states ----------

  // An upload, or a successful migration of any blocks to any server.
  datatype Event =
    | Fed(upload: TokenUpload)
    | Granted(hashes: seq<Hash>, server: ServerId)

  datatype Node = Node(index: Index, localIndex: set<Hash>, counts: Counts)

  function AfterEvent(hasher: TokenHasher, blockSize: nat, node: Node, event: Event): Node
    requires blockSize > 0
  {
    match event
    case Fed(up) =>
      var req := RequestOf(hasher, blockSize, up);
      Node(Upload(node.index, req.server, req.offsets, req.hashes), node.localIndex,
           Apply(node.counts, AddBatch(req.hashes, 1)))
    case Granted(hs, s) =>
      var ix := node.index;
      Node(Index(AddAll(ix.table, hs, s), MigratedTally(ix.blockCount, node.localIndex, hs, s), ix.newMetas,
                 AddOps(ix.ops, hs, s)),
           node.localIndex + (set h | h in hs), AddLocalAll(node.counts, hs))
  }

  ghost function AfterEvents(hasher: TokenHasher, blockSize: nat, events: seq<Event>): Node
    requires blockSize > 0
  {
    if events == [] then Node(EMPTY, {}, Counts(map[], map[], map[]))
    else
      var n := |events| - 1;
      AfterEvent(hasher, blockSize, AfterEvents(hasher, blockSize, events[..n]), events[n])
  }

  ghost predicate EventsInCorpus(events: seq<Event>, corpus: iset<seq<Token>>) {
    forall k :: 0 <= k < |events| && events[k].Fed? ==> events[k].upload.tokens in corpus
  }

  ghost predicate Following(node: Node, lin: Lineage) {
    P.Traced(node.index.table, lin) && P.CountsFollowChains(node.index.table, lin, node.counts.global)
  }

  lemma UploadKeepsTraced(ix: Index, req: UploadRequest, lin: Lineage)
    requires P.Traced(ix.table, lin) && Chained(lin, req.hashes)
    ensures P.Traced(Upload(ix, req.server, req.offsets, req.hashes).table, lin)
  {
    var hs := req.hashes;
    var t' := Upload(ix, req.server, req.offsets, hs).table;
    ChainedIsDistinct(lin, hs);
    forall h | h in t' ensures P.TracedEntry(t', lin, h) {
      assert h in ix.table ==> P.TracedEntry(ix.table, lin, h);
      if h in hs {
        var i :| 0 <= i < |hs| && hs[i] == h;
        assert Placed(lin, hs, i) && (i > 0 ==> Placed(lin, hs, i - 1));
        UploadAt(ix, req.server, req.offsets, hs, i);
      } else {
        UploadElsewhere(ix, req.server, req.offsets, hs, h);
      }
    }
  }

  lemma {:induction false} GrantsKeepGlobalCounts(c: Counts, hs: seq<Hash>)
    ensures AddLocalAll(c, hs).global == c.global
  {
    if hs != [] { GrantsKeepGlobalCounts(c, hs[..|hs| - 1]); }
  }

  lemma EventKeepsFollowing(hasher: TokenHasher, blockSize: nat, node: Node, event: Event,
                            corpus: iset<seq<Token>>)
    requires 0 < blockSize < TWO_TO_THE_64 && CollisionFree(hasher, corpus, blockSize)
    requires event.Fed? ==> event.upload.tokens in corpus
    requires Following(node, LineageOf(hasher, corpus, blockSize))
    ensures Following(AfterEvent(hasher, blockSize, node, event), LineageOf(hasher, corpus, blockSize))
  {
    var lin := LineageOf(hasher, corpus, blockSize);
    match event
    case Fed(up) =>
      var req := RequestOf(hasher, blockSize, up);
      HashListsAreChained(hasher, corpus, blockSize, up.tokens);
      UploadKeepsTraced(node.index, req, lin);
      UploadKeepsCountsFollowing(node.index, node.counts.global, req, lin);
    case Granted(hs, s) =>
      P.MigrationKeepsTraced(node.index.table, lin, node.counts.global, hs, s);
      GrantsKeepGlobalCounts(node.counts, hs);
  }

  lemma {:induction false} EventsKeepFollowing(hasher: TokenHasher, blockSize: nat, events: seq<Event>,
                                               corpus: iset<seq<Token>>)
    requires 0 < blockSize < TWO_TO_THE_64 && CollisionFree(hasher, corpus, blockSize) && EventsInCorpus(events, corpus)
    ensures Following(AfterEvents(hasher, blockSize, events), LineageOf(hasher, corpus, blockSize))
  {
    if events != [] {
      var n := |events| - 1;
      EventsKeepFollowing(hasher, blockSize, events[..n], corpus);
      EventKeepsFollowing(hasher, blockSize, AfterEvents(hasher, blockSize, events[..n]), events[n], corpus);
    }
  }

  // Over every run of uploads and successful migrations, in any order, no selection of
  // any size leaves a hole.
  lemma {:induction false} MigrationsOpenNoHole(hasher: TokenHasher, blockSize: nat, events: seq<Event>,
                                                corpus: iset<seq<Token>>, local: set<ServerId>)
    requires 0 < blockSize < TWO_TO_THE_64 && CollisionFree(hasher, corpus, blockSize) && EventsInCorpus(events, corpus)
    ensures var node, lin := AfterEvents(hasher, blockSize, events), LineageOf(hasher, corpus, blockSize);
            && P.Ranked(node.index.table, lin.depth)
            && P.NeverLeavesHole(node.index.table, lin.depth, node.counts.global, local)
  {
    var node, lin := AfterEvents(hasher, blockSize, events), LineageOf(hasher, corpus, blockSize);
    EventsKeepFollowing(hasher, blockSize, events, corpus);
    P.TracedLeavesNoHole(node.index.table, lin, node.counts.global, local);
  }

  function Repeated(req: UploadRequest, n: nat): (reqs: seq<UploadRequest>)
    ensures |reqs| == n
  {
    if n == 0 then [] else Repeated(req, n - 1) + [req]
  }

  lemma {:induction false} PairUploadedAgain(s: ServerId, a: Hash, b: Hash, n: nat)
    requires a != b && n > 0
    ensures var reqs := Repeated(UploadRequest(s, [2, 2], [a, b]), n);
            && RunUploads(reqs).table == PairTable(a, b, [s], [s])
            && RunCounts(reqs).global == map[a := n, b := n]
  {
    var req := UploadRequest(s, [2, 2], [a, b]);
    var before := Repeated(req, n - 1);
    assert Repeated(req, n)[..n - 1] == before;
    BumpPair(RunCounts(before).global, a, b);
    UploadIsMutation(RunUploads(before), s, [2, 2], [a, b]);
    if n == 1 {
      FirstPair(s, a, b);
    } else {
      PairUploadedAgain(s, a, b, n - 1);
      PairIsMatched(s, a, b);
    }
  }

  lemma BumpPair(m: map<Hash, nat>, a: Hash, b: Hash)
    ensures BumpAll(m, [a, b], 1) == Bump(Bump(m, a, 1), b, 1)
  {
    assert [a, b][..1] == [a] && [a][..0] == [];
    assert BumpAll(m, [a], 1) == Bump(BumpAll(m, [], 1), a, 1);
  }

  lemma PairIsMatched(s: ServerId, a: Hash, b: Hash)
    requires a != b
    ensures Mutate(PairTable(a, b, [s], [s]), Uploaded(s, [2, 2], [a, b])) == PairTable(a, b, [s], [s])
  {
    var t := PairTable(a, b, [s], [s]);
    assert MatchedAt(t, s, [a, b], 0) && MatchedAt(t, s, [a, b], 1);
    assert MatchFrom(t, s, [a, b], 1) == 2;
  }

  lemma PairDropped(s: ServerId, a: Hash, b: Hash, c: Counts, n: nat)
    requires a != b && c.global == map[a := n, b := n]
    ensures RemoveAll(PairTable(a, b, [s], [s]), [a], s) == map[b := KvBlockMeta(b, 2, a, [], [s])]
    ensures RemoveAllCounts(PairTable(a, b, [s], [s]), c, [a], s).global == map[b := n]
  {
    var t := PairTable(a, b, [s], [s]);
    RemoveOneBlock(t, a, s);
    assert [s][..0] == [] && [a][..0] == [] && Without([s], s) == [];
    assert RemoveAllCounts(t, c, [a], s) == RemovalCounts(RemoveAll(t, [], s), RemoveAllCounts(t, c, [], s), a, s);
  }

  lemma LoneBlock(s: ServerId, other: ServerId, a: Hash, b: Hash, n: nat, rank: Hash -> nat)
    requires a != b && a != ROOT && s != other && n > 3
    ensures var t: Table, counts: map<Hash, nat> := map[b := KvBlockMeta(b, 2, a, [], [s])], map[b := n];
            && P.Ranked(t, rank) && !P.ChainsReady(t, counts, {other})
            && forall k: nat, hashes :: k > 0 && P.Selected(hashes, t, rank, counts, {other}, k) ==>
                 hashes == [b] && !P.LeavesNoHole(t, {other}, hashes, 0)
  {
    var t: Table, counts: map<Hash, nat> := map[b := KvBlockMeta(b, 2, a, [], [s])], map[b := n];
    hide P.Selected;
    assert P.Eligible(t, counts, {other}, b) && !P.ParentReady(t, counts, {other}, b);
    forall k: nat, hashes | k > 0 && P.Selected(hashes, t, rank, counts, {other}, k)
      ensures hashes == [b] && !P.LeavesNoHole(t, {other}, hashes, 0)
    {
      P.OnlyCandidate(t, rank, counts, {other}, k, hashes, b);
    }
  }

  // A removal does open a hole: a server uploads [a, b] n times and drops a. When n is
  // more than three, any selection for another server is b alone, whose predecessor is
  // neither known nor counted.
  lemma {:induction false} RemovalOpensHole(s: ServerId, other: ServerId, a: Hash, b: Hash, n: nat, rank: Hash -> nat)
    requires a != b && a != ROOT && s != other && n > 3
    ensures var reqs := Repeated(UploadRequest(s, [2, 2], [a, b]), n);
            var t := RemoveAll(RunUploads(reqs).table, [a], s);
            var counts := RemoveAllCounts(RunUploads(reqs).table, RunCounts(reqs), [a], s).global;
            && a !in t && a !in counts && P.Ranked(t, rank) && !P.ChainsReady(t, counts, {other})
            && forall k: nat, hashes :: k > 0 && P.Selected(hashes, t, rank, counts, {other}, k) ==>
                 hashes == [b] && !P.LeavesNoHole(t, {other}, hashes, 0)
  {
    var reqs := Repeated(UploadRequest(s, [2, 2], [a, b]), n);
    PairUploadedAgain(s, a, b, n);
    PairDropped(s, a, b, RunCounts(reqs), n);
    hide RunUploads, RunCounts, Repeated, RemoveAll, RemoveAllCounts, PairTable, P.Selected;
    LoneBlock(s, other, a, b, n, rank);
  }

  // What keeps counts following their chains when a peer reports counts: every block that
  // gains is known and stays within its predecessor's count, both as they are booked.
  ghost predicate ChainKept(t: Table, lin: Lineage, c: Counts, incs: seq<(Hash, nat)>, h: Hash) {
    var p := lin.parent(h);
    Named(incs, h) && h !in c.full ==>
      h in t && (p != ROOT ==> Get(c.global, h) + Booked(c, incs, h) <= Get(c.global, p) + Booked(c, incs, p))
  }

  lemma PeerCountsFollowIff(t: Table, lin: Lineage, c: Counts, incs: seq<(Hash, nat)>)
    requires P.CountsFollowChains(t, lin, c.global)
    ensures P.CountsFollowChains(t, lin, AddGlobalAll(c, incs).global) <==> forall h :: ChainKept(t, lin, c, incs, h)
  {
    hide AddGlobalAll, ChainKept, P.FollowsAt;
    forall h
      ensures ChainKept(t, lin, c, incs, h) <==>
              (h in AddGlobalAll(c, incs).global ==> P.FollowsAt(t, lin, AddGlobalAll(c, incs).global, h))
    {
      PeerCountAt(t, lin, c, incs, h);
    }
  }

  lemma PeerCountAt(t: Table, lin: Lineage, c: Counts, incs: seq<(Hash, nat)>, h: Hash)
    requires P.CountsFollowChains(t, lin, c.global)
    ensures ChainKept(t, lin, c, incs, h) <==>
            (h in AddGlobalAll(c, incs).global ==> P.FollowsAt(t, lin, AddGlobalAll(c, incs).global, h))
  {
    PeerCountsAreBooked(c, incs, h);
    PeerCountsAreBooked(c, incs, lin.parent(h));
    assert h in c.global ==> P.FollowsAt(t, lin, c.global, h);
    hide AddGlobalAll, Named, Added;
  }

  // Equal reports for a block and its predecessor open a hole when the predecessor's
  // counts are local.
  lemma PeerCountsOpenHole(s: ServerId, other: ServerId, a: Hash, b: Hash)
    requires a != b && a != ROOT && s != other
    ensures var t, c := PairTable(a, b, [s], [s]), Counts(map[], map[a := 1], map[a := 1]);
            var after := AddGlobalAll(c, [(a, 4), (b, 4)]).global;
            && P.ChainsReady(t, c.global, {other})
            && after == map[a := 1, b := 4] && !P.ChainsReady(t, after, {other})
  {
    var t, c := PairTable(a, b, [s], [s]), Counts(map[], map[a := 1], map[a := 1]);
    var one, two := [(a, 4)], [(a, 4), (b, 4)];
    assert two[..1] == one && one[..0] == [];
    assert AddGlobalAll(c, one) == Apply(AddGlobalAll(c, []), AddGlobal(a, 4));
    assert AddGlobalAll(c, two) == Apply(AddGlobalAll(c, one), AddGlobal(b, 4));
    var after := map[a := 1, b := 4];
    assert P.Eligible(t, after, {other}, b) && !P.ParentReady(t, after, {other}, b);
  }

  // A not-found reply for the only replica of a block counted more than three times leaves
  // the count without the block, and with it a hole for any local servers.
  lemma NotFoundOpensHole(t: Table, c: Counts, hs: seq<Hash>, h: Hash, s: ServerId, target: ServerId,
                          local: set<ServerId>)
    requires WellFormed(t) && h in t && h in hs && t[h].servers == [s] && h in c.global && c.global[h] > 3
    ensures !P.ChainsReady(M.Settle(t, M.Response(-1), hs, target, s), c.global, local)
  {
    RemoveAllKeepsWellFormed(t, hs, s);
    AnotherReplicaRemains(t, hs, s, h);
    P.CountWithoutBlockIsUnready(RemoveAll(t, hs, s), c.global, local, h);
  }

  // ---------- active requests made by the hasher ----------

  ghost predicate HashedOps(hasher: TokenHasher, blockSize: nat, corpus: iset<seq<Token>>, ops: seq<T.TrackerOp>)
    requires blockSize > 0
  {
    forall i :: 0 <= i < |ops| && ops[i].AddOp? && ops[i].blocks.Some? ==>
      exists t :: t in corpus && ops[i].blocks.value == Hashes(hasher.HashBlocks(t, blockSize))
  }

  // Over every run of a tracker fed by the hasher: the blocks of a request that are
  // held at least twice are its longest such prefix, expiries and frees included.
  lemma {:induction false} HotBlocksOfHashedRequests(hasher: TokenHasher, blockSize: nat, corpus: iset<seq<Token>>,
                                                     timer: int, ops: seq<T.TrackerOp>, tokens: seq<Token>)
    returns (n: nat)
    requires 0 < blockSize < TWO_TO_THE_64 && CollisionFree(hasher, corpus, blockSize) && tokens in corpus
    requires HashedOps(hasher, blockSize, corpus, ops)
    ensures var live, blocks := T.Run(T.View(map[], timer), ops).live, Hashes(hasher.HashBlocks(tokens, blockSize));
            && n <= |blocks|
            && T.HighHold(blocks, T.HoldCounts(live, blocks)) == T.Zip(blocks[..n], T.HoldCounts(live, blocks)[..n])
            && forall i :: 0 <= i < |blocks| ==>
                 (T.HoldCount(live, blocks[i]) >= T.MIGRATION_TRIGGER_THRESHOLD <==> i < n)
  {
    var lin, start := LineageOf(hasher, corpus, blockSize), T.View(map[], timer);
    forall i | 0 <= i < |ops| && ops[i].AddOp? && ops[i].blocks.Some? ensures Chained(lin, ops[i].blocks.value) {
      var t :| t in corpus && ops[i].blocks.value == Hashes(hasher.HashBlocks(t, blockSize));
      HashListsAreChained(hasher, corpus, blockSize, t);
    }
    T.RunKeepsChained(lin, start, ops);
    HashListsAreChained(hasher, corpus, blockSize, tokens);
    n := T.HotBlocksFormPrefix(lin, T.Run(start, ops).live, Hashes(hasher.HashBlocks(tokens, blockSize)));
  }

  // ---------- the running server ----------

  lemma OneMoreRequest(hasher: TokenHasher, blockSize: nat, ups: seq<TokenUpload>, k: nat)
    requires blockSize > 0 && k < |ups|
    ensures var before, after := Requests(hasher, blockSize, ups[..k]), Requests(hasher, blockSize, ups[..k + 1]);
            var blocks := hasher.HashBlocks(ups[k].tokens, blockSize);
            && RunUploads(after) == Upload(RunUploads(before), ups[k].server, Offsets(blocks), Hashes(blocks))
            && RunCounts(after) == Apply(RunCounts(before), AddBatch(Hashes(blocks), 1))
  {
    var before, after := Requests(hasher, blockSize, ups[..k]), Requests(hasher, blockSize, ups[..k + 1]);
    assert ups[..k + 1][..k] == ups[..k];
    assert after[..k] == before;
  }

  // A server fed any list of uploads is in the state the run describes, and its
  // block counters are right.
  method ServeUploads(hasher: TokenHasher, blockSize: nat, ups: seq<TokenUpload>) returns (shared: Shared)
    requires blockSize > 0
    ensures fresh(shared) && fresh(shared.refCount)
    ensures shared.State() == RunUploads(Requests(hasher, blockSize, ups))
    ensures shared.refCount.State() == RunCounts(Requests(hasher, blockSize, ups))
    ensures CountersAgree(shared.State()) && shared.localIndex == {}
  {
    shared := new Shared();
    for k := 0 to |ups|
      invariant fresh(shared) && fresh(shared.refCount) && shared.localIndex == {}
      invariant shared.State() == RunUploads(Requests(hasher, blockSize, ups[..k]))
      invariant shared.refCount.State() == RunCounts(Requests(hasher, blockSize, ups[..k]))
    {
      hide Requests, RunUploads, RunCounts, RequestOf;
      OneMoreRequest(hasher, blockSize, ups, k);
      shared.UploadKvMeta(ups[k].server, ups[k].tokens, hasher, blockSize);
    }
    assert ups[..|ups|] == ups;
    RunKeepsCounters(Requests(hasher, blockSize, ups));
  }

  // A server through any run of uploads and successful migrations is in the state the run
  // describes.
  method ServeEvents(hasher: TokenHasher, blockSize: nat, events: seq<Event>, now: int) returns (shared: Shared)
    requires blockSize > 0
    ensures fresh(shared) && fresh(shared.refCount)
    ensures Node(shared.State(), shared.localIndex, shared.refCount.State()) == AfterEvents(hasher, blockSize, events)
  {
    shared := new Shared();
    for k := 0 to |events|
      invariant fresh(shared) && fresh(shared.refCount)
      invariant Node(shared.State(), shared.localIndex, shared.refCount.State())
             == AfterEvents(hasher, blockSize, events[..k])
    {
      assert events[..k + 1][..k] == events[..k];
      ServeEvent(shared, hasher, blockSize, events[k], now);
    }
    assert events[..|events|] == events;
  }

  method ServeEvent(shared: Shared, hasher: TokenHasher, blockSize: nat, event: Event, now: int)
    requires blockSize > 0
    modifies shared, shared.refCount
    ensures Node(shared.State(), shared.localIndex, shared.refCount.State())
         == AfterEvent(hasher, blockSize, old(Node(shared.State(), shared.localIndex, shared.refCount.State())), event)
  {
    match event {
      case Fed(up) => shared.UploadKvMeta(up.server, up.tokens, hasher, blockSize);
      case Granted(hs, s) => shared.RecordMigrations(hs, s, now);
    }
  }

  // Uploads followed by a selection: what the server migrates next has no holes.
  method UploadsThenSelect(hasher: TokenHasher, blockSize: nat, ups: seq<TokenUpload>, local: set<ServerId>, k: nat,
                           ghost corpus: iset<seq<Token>>)
    returns (shared: Shared, hashes: seq<Hash>)
    requires 0 < blockSize < TWO_TO_THE_64 && CollisionFree(hasher, corpus, blockSize) && InCorpus(ups, corpus)
    requires |RunUploads(Requests(hasher, blockSize, ups)).table| <= U32_MAX
    ensures fresh(shared) && fresh(shared.refCount)
    ensures shared.State() == RunUploads(Requests(hasher, blockSize, ups))
    ensures shared.refCount.State() == RunCounts(Requests(hasher, blockSize, ups))
    ensures var lin := LineageOf(hasher, corpus, blockSize);
            && P.Ranked(shared.table, lin.depth)
            && P.Selected(hashes, shared.table, lin.depth, shared.refCount.globalRefs, local, k)
    ensures forall i :: 0 <= i < |hashes| ==> P.LeavesNoHole(shared.table, local, hashes, i)
  {
    ghost var lin := LineageOf(hasher, corpus, blockSize);
    shared := ServeUploads(hasher, blockSize, ups);
    UploadedTableIsLawful(hasher, blockSize, ups, corpus);
    P.LawfulIsRanked(shared.table, lin);
    hashes := P.TopKPopularity(shared, local, k, lin.depth);
    SelectionHasNoHoles(hasher, blockSize, ups, corpus, local);
  }
}
