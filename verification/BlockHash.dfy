// Chained block hashing: tokens are cut into blocks and every block is hashed
// together with the hash of the block before it. SHA-256 is the field `digest`;
// nothing about it is assumed except where a lemma says so.
module BlockHash {
  import opened Types
  import opened Arithmetic
  import opened Cbor
  import opened Lineages

  type Chunk = seq<Token>

  datatype BlockResult = BlockResult(hash: Hash, offset: u32)

  datatype TokenHasher = TokenHasher(digest: Bytes -> Hash, noneHash: Hash, unfullChunk: bool)
  {
    // The bytes digested for a block that follows the hash prev.
    function BlockBytes(prev: Hash, chunk: Chunk): Bytes {
      Encode(Preimage(prev.bytes, chunk, []))
    }

    // The hash of the last of a list of blocks.
    function ChainHash(chunks: seq<Chunk>): Hash
      decreases |chunks|, 1
    {
      if chunks == [] then noneHash else digest(LastBytes(chunks))
    }

    function LastBytes(chunks: seq<Chunk>): Bytes
      requires chunks != []
      decreases |chunks|, 0
    {
      var n := |chunks| - 1;
      BlockBytes(ChainHash(chunks[..n]), chunks[n])
    }

    // The blocks that get a hash: a short last block only when partial blocks are hashed.
    function HashedChunks(tokens: seq<Token>, blockSize: nat): seq<Chunk>
      requires blockSize > 0
      decreases |tokens|
    {
      if |tokens| < blockSize then
        if unfullChunk && tokens != [] then [tokens] else []
      else
        [tokens[..blockSize]] + HashedChunks(tokens[blockSize..], blockSize)
    }

    // One result per block: its chained hash and its length cast to 32 bits.
    function ResultsFor(chunks: seq<Chunk>): (r: seq<BlockResult>)
      ensures |r| == |chunks|
    {
      if chunks == [] then []
      else
        var n := |chunks| - 1;
        ResultsFor(chunks[..n]) + [BlockResult(ChainHash(chunks), |chunks[n]| % TWO_TO_THE_32)]
    }

    function HashBlocks(tokens: seq<Token>, blockSize: nat): seq<BlockResult>
      requires blockSize > 0
    {
      ResultsFor(HashedChunks(tokens, blockSize))
    }

    // hash_tokens_with_blocks_all, with the sha256_cbor algorithm
    method HashTokensWithBlocksAll(tokens: seq<Token>, blockSize: nat) returns (results: seq<BlockResult>)
      requires blockSize > 0
      ensures results == HashBlocks(tokens, blockSize)
    {
      results := [];
      var current := noneHash;
      var chunks := Chunks(tokens, blockSize);
      ghost var hashed := HashedChunks(tokens, blockSize);
      HashedIsChunksWithoutShortTail(this, tokens, blockSize);
      var idx := 0;
      while idx < |chunks|
        invariant 0 <= idx <= |hashed|
        invariant |results| == idx && current == ChainHash(hashed[..idx])
        invariant results == ResultsFor(hashed[..idx])
      {
        var chunk := chunks[idx];
        if idx == |chunks| - 1 && |chunk| < blockSize && !unfullChunk {
          break;
        }
        assert hashed[..idx + 1][..idx] == hashed[..idx];
        var bytes := BuildPreimage(chunk, current.bytes, None);
        current := digest(bytes);
        results := results + [BlockResult(current, |chunk| % TWO_TO_THE_32)];
        idx := idx + 1;
      }
      assert hashed[..idx] == hashed;
    }
  }

  // The result at an index depends on the blocks up to that index only.
  lemma {:induction false} ResultAt(hasher: TokenHasher, chunks: seq<Chunk>, i: nat)
    requires i < |chunks|
    ensures hasher.ResultsFor(chunks)[i]
         == BlockResult(hasher.ChainHash(chunks[..i + 1]), |chunks[i]| % TWO_TO_THE_32)
  {
    var n := |chunks| - 1;
    if i < n {
      ResultAt(hasher, chunks[..n], i);
      assert chunks[..n][..i + 1] == chunks[..i + 1];
    } else {
      assert chunks[..i + 1] == chunks;
    }
  }

  // The standard library's chunks: every block full except perhaps the last.
  function Chunks(tokens: seq<Token>, blockSize: nat): seq<Chunk>
    requires blockSize > 0
    decreases |tokens|
  {
    if tokens == [] then []
    else if |tokens| <= blockSize then [tokens]
    else [tokens[..blockSize]] + Chunks(tokens[blockSize..], blockSize)
  }

  lemma {:induction false} HashedIsChunksWithoutShortTail(hasher: TokenHasher, tokens: seq<Token>, blockSize: nat)
    requires blockSize > 0
    ensures var chunks := Chunks(tokens, blockSize);
            hasher.HashedChunks(tokens, blockSize) ==
              if chunks != [] && |chunks[|chunks| - 1]| < blockSize && !hasher.unfullChunk
              then chunks[..|chunks| - 1] else chunks
    decreases |tokens|
  {
    if |tokens| == blockSize {
      assert tokens[..blockSize] == tokens && tokens[blockSize..] == [];
    } else if |tokens| > blockSize {
      var rest := Chunks(tokens[blockSize..], blockSize);
      HashedIsChunksWithoutShortTail(hasher, tokens[blockSize..], blockSize);
      var chunks := [tokens[..blockSize]] + rest;
      assert rest != [] ==> chunks[..|chunks| - 1] == [tokens[..blockSize]] + rest[..|rest| - 1];
    }
  }

  // ---------- which tokens are covered ----------

  function Flatten(chunks: seq<Chunk>): seq<Token> {
    if chunks == [] then [] else chunks[0] + Flatten(chunks[1..])
  }

  function TotalOffset(blocks: seq<BlockResult>): nat {
    if blocks == [] then 0 else TotalOffset(blocks[..|blocks| - 1]) + blocks[|blocks| - 1].offset
  }

  function TotalLength(chunks: seq<Chunk>): nat {
    if chunks == [] then 0 else TotalLength(chunks[..|chunks| - 1]) + |chunks[|chunks| - 1]|
  }

  lemma {:induction false} TotalLengthFromFront(chunks: seq<Chunk>)
    ensures TotalLength(chunks) == |Flatten(chunks)|
  {
    if |chunks| > 0 {
      TotalLengthFromFront(chunks[..|chunks| - 1]);
      FlattenAppend(chunks[..|chunks| - 1], chunks[|chunks| - 1]);
      assert chunks == chunks[..|chunks| - 1] + [chunks[|chunks| - 1]];
    }
  }

  lemma {:induction false} FlattenAppend(chunks: seq<Chunk>, last: Chunk)
    ensures Flatten(chunks + [last]) == Flatten(chunks) + last
  {
    if chunks == [] {
      assert chunks + [last] == [last];
      assert Flatten([last]) == last + Flatten([]);
    } else {
      FlattenAppend(chunks[1..], last);
      assert (chunks + [last])[1..] == chunks[1..] + [last];
    }
  }

  // How many leading tokens get a hash.
  function Covered(hasher: TokenHasher, tokens: seq<Token>, blockSize: nat): nat
    requires blockSize > 0
  {
    if hasher.unfullChunk then |tokens| else |tokens| - |tokens| % blockSize
  }

  // The hashed blocks, laid end to end, are the covered tokens, and no block is
  // longer than the block size.
  lemma {:induction false} HashedChunksCover(hasher: TokenHasher, tokens: seq<Token>, blockSize: nat)
    requires blockSize > 0
    ensures Covered(hasher, tokens, blockSize) <= |tokens|
    ensures Flatten(hasher.HashedChunks(tokens, blockSize)) == tokens[..Covered(hasher, tokens, blockSize)]
    ensures forall c :: c in hasher.HashedChunks(tokens, blockSize) ==> 0 < |c| <= blockSize
    decreases |tokens|
  {
    if |tokens| < blockSize {
      ModUnique(|tokens|, blockSize, 0, |tokens|);
      assert Flatten([tokens]) == tokens + Flatten([]);
    } else {
      var rest := tokens[blockSize..];
      HashedChunksCover(hasher, rest, blockSize);
      ModStep(|tokens|, blockSize);
      var chunks := hasher.HashedChunks(rest, blockSize);
      assert ([tokens[..blockSize]] + chunks)[1..] == chunks;
      assert tokens == tokens[..blockSize] + rest;
      assert Covered(hasher, tokens, blockSize) == blockSize + Covered(hasher, rest, blockSize);
    }
  }

  function Least(a: nat, b: nat): nat {
    if a <= b then a else b
  }

  // Block i is the i-th stretch of the input, cut short only at the end.
  lemma {:induction false} BlockAt(hasher: TokenHasher, tokens: seq<Token>, blockSize: nat, i: nat)
    requires blockSize > 0 && i < |hasher.HashedChunks(tokens, blockSize)|
    ensures i * blockSize < |tokens|
    ensures hasher.HashedChunks(tokens, blockSize)[i]
         == tokens[i * blockSize..Least((i + 1) * blockSize, |tokens|)]
    decreases i
  {
    if i > 0 {
      var rest := tokens[blockSize..];
      BlockAt(hasher, rest, blockSize, i - 1);
      Shifted(i, blockSize);
      assert rest[(i - 1) * blockSize..Least(i * blockSize, |rest|)]
          == tokens[i * blockSize..Least((i + 1) * blockSize, |tokens|)];
    }
  }

  lemma Shifted(i: nat, blockSize: nat)
    requires i > 0
    ensures (i - 1) * blockSize + blockSize == i * blockSize
    ensures i * blockSize + blockSize == (i + 1) * blockSize
  {}

  // How many blocks there are: as many as fit, and one more for a short rest when partial
  // blocks are hashed.
  lemma {:induction false} HowManyBlocks(hasher: TokenHasher, tokens: seq<Token>, blockSize: nat)
    requires blockSize > 0
    ensures var n := |hasher.HashedChunks(tokens, blockSize)|;
            if hasher.unfullChunk then n * blockSize >= |tokens| && (n > 0 ==> (n - 1) * blockSize < |tokens|)
            else n * blockSize <= |tokens| < (n + 1) * blockSize
    decreases |tokens|
  {
    if |tokens| >= blockSize {
      HowManyBlocks(hasher, tokens[blockSize..], blockSize);
      Shifted(|hasher.HashedChunks(tokens, blockSize)|, blockSize);
      if |hasher.HashedChunks(tokens, blockSize)| > 1 {
        Shifted(|hasher.HashedChunks(tokens, blockSize)| - 1, blockSize);
      }
    }
  }

  // Each hash is the digest of the encoding of the hash before it, the tokens of the
  // block and no keys; the first follows the initial hash.
  lemma HashIsDigest(hasher: TokenHasher, tokens: seq<Token>, blockSize: nat, i: nat)
    requires blockSize > 0 && i < |hasher.HashBlocks(tokens, blockSize)|
    ensures i * blockSize < |tokens|
    ensures var results, chunk := hasher.HashBlocks(tokens, blockSize),
                                  tokens[i * blockSize..Least((i + 1) * blockSize, |tokens|)];
            var prev := if i == 0 then hasher.noneHash else results[i - 1].hash;
            && results[i].hash == hasher.digest(Encode(Preimage(prev.bytes, chunk, [])))
            && results[i].offset == |chunk| % 0x1_0000_0000
  {
    var chunks := hasher.HashedChunks(tokens, blockSize);
    BlockAt(hasher, tokens, blockSize, i);
    ResultAt(hasher, chunks, i);
    var upTo := chunks[..i + 1];
    assert upTo[..i] == chunks[..i] && upTo[i] == chunks[i];
    assert hasher.ChainHash(upTo) == hasher.digest(hasher.BlockBytes(hasher.ChainHash(chunks[..i]), chunks[i]));
    if i > 0 {
      ResultAt(hasher, chunks, i - 1);
    } else {
      assert chunks[..i] == [];
    }
  }

  // Where a block ends in the input.
  function EndPosition(chunks: seq<Chunk>, i: nat): nat
    requires i < |chunks|
  {
    |Flatten(chunks[..i + 1])|
  }

  // The offset returned for a block is its end position, as documented, for the first
  // block only.
  lemma OffsetIsEndIffFirst(hasher: TokenHasher, tokens: seq<Token>, blockSize: nat, i: nat)
    requires 0 < blockSize < TWO_TO_THE_32 && i < |hasher.HashedChunks(tokens, blockSize)|
    ensures hasher.HashBlocks(tokens, blockSize)[i].offset == EndPosition(hasher.HashedChunks(tokens, blockSize), i)
       <==> i == 0
  {
    var chunks := hasher.HashedChunks(tokens, blockSize);
    HashedChunksCover(hasher, tokens, blockSize);
    assert forall k :: 0 <= k < |chunks| ==> chunks[k] in chunks;
    LengthIsEndIffFirst(hasher, chunks, i);
  }

  lemma LengthIsEndIffFirst(hasher: TokenHasher, chunks: seq<Chunk>, i: nat)
    requires i < |chunks| && forall k :: 0 <= k < |chunks| ==> 0 < |chunks[k]| < TWO_TO_THE_32
    ensures hasher.ResultsFor(chunks)[i].offset == EndPosition(chunks, i) <==> i == 0
  {
    assert |chunks[i]| % TWO_TO_THE_32 == |chunks[i]|;
    hide Flatten, EndPosition, TokenHasher.ResultsFor, TokenHasher.ChainHash;
    ResultAt(hasher, chunks, i);
    EndGrows(chunks, i);
  }

  lemma EndGrows(chunks: seq<Chunk>, i: nat)
    requires i < |chunks|
    ensures EndPosition(chunks, i) == |Flatten(chunks[..i])| + |chunks[i]|
    ensures i == 0 ==> Flatten(chunks[..i]) == []
    ensures i > 0 ==> |Flatten(chunks[..i])| >= |chunks[0]|
  {
    var before := chunks[..i];
    assert chunks[..i + 1] == before + [chunks[i]];
    FlattenAppend(before, chunks[i]);
  }

  lemma {:induction false} OffsetsSumToLengths(hasher: TokenHasher, chunks: seq<Chunk>)
    requires forall c :: c in chunks ==> |c| < TWO_TO_THE_32
    ensures TotalOffset(hasher.ResultsFor(chunks)) == TotalLength(chunks)
  {
    if chunks != [] {
      var n := |chunks| - 1;
      OffsetsSumToLengths(hasher, chunks[..n]);
      assert chunks[n] in chunks;
      assert hasher.ResultsFor(chunks)[..n] == hasher.ResultsFor(chunks[..n]);
    }
  }

  lemma OffsetsArePositive(hasher: TokenHasher, chunks: seq<Chunk>)
    requires forall c :: c in chunks ==> 0 < |c| < TWO_TO_THE_32
    ensures forall i :: 0 <= i < |chunks| ==> hasher.ResultsFor(chunks)[i].offset > 0
  {
    hide TokenHasher.ResultsFor, TokenHasher.ChainHash;
    forall i | 0 <= i < |chunks| ensures hasher.ResultsFor(chunks)[i].offset > 0 {
      assert chunks[i] in chunks;
      ResultAt(hasher, chunks, i);
    }
  }

  // The returned offsets add up to the tokens covered: all of them when partial
  // blocks are hashed, otherwise all but the remainder.
  lemma OffsetsAddUp(hasher: TokenHasher, tokens: seq<Token>, blockSize: nat)
    requires 0 < blockSize < TWO_TO_THE_32
    ensures TotalOffset(hasher.HashBlocks(tokens, blockSize)) ==
            if hasher.unfullChunk then |tokens| else |tokens| - |tokens| % blockSize
  {
    var chunks := hasher.HashedChunks(tokens, blockSize);
    HashedChunksCover(hasher, tokens, blockSize);
    OffsetsSumToLengths(hasher, chunks);
    TotalLengthFromFront(chunks);
  }

  // An extension keeps the blocks of an input that has no short block of its own.
  lemma {:induction false} ChunksOfExtension(hasher: TokenHasher, t: seq<Token>, u: seq<Token>, blockSize: nat)
    requires blockSize > 0 && (!hasher.unfullChunk || |t| % blockSize == 0)
    ensures hasher.HashedChunks(t, blockSize) <= hasher.HashedChunks(t + u, blockSize)
    decreases |t|
  {
    if |t| >= blockSize {
      ModStep(|t|, blockSize);
      ChunksOfExtension(hasher, t[blockSize..], u, blockSize);
      assert (t + u)[..blockSize] == t[..blockSize];
      assert (t + u)[blockSize..] == t[blockSize..] + u;
    } else {
      ModUnique(|t|, blockSize, 0, |t|);
    }
  }

  lemma ResultsOfPrefix(hasher: TokenHasher, a: seq<Chunk>, b: seq<Chunk>)
    requires a <= b
    ensures hasher.ResultsFor(a) <= hasher.ResultsFor(b)
  {
    forall i | 0 <= i < |a| ensures hasher.ResultsFor(a)[i] == hasher.ResultsFor(b)[i] {
      assert a[..i + 1] == b[..i + 1];
      ResultAt(hasher, a, i);
      ResultAt(hasher, b, i);
    }
  }

  // For any digest: without partial blocks, extending the input only extends the hash list.
  lemma HashesOfExtension(hasher: TokenHasher, t: seq<Token>, u: seq<Token>, blockSize: nat)
    requires blockSize > 0 && !hasher.unfullChunk
    ensures hasher.HashBlocks(t, blockSize) <= hasher.HashBlocks(t + u, blockSize)
  {
    ChunksOfExtension(hasher, t, u, blockSize);
    ResultsOfPrefix(hasher, hasher.HashedChunks(t, blockSize), hasher.HashedChunks(t + u, blockSize));
  }

  // The short last block of an input is another block in any proper extension.
  lemma {:induction false} ShortBlockIsReplaced(hasher: TokenHasher, t: seq<Token>, u: seq<Token>, blockSize: nat)
    requires blockSize > 0 && hasher.unfullChunk && u != [] && |t| % blockSize != 0
    ensures var a, b := hasher.HashedChunks(t, blockSize), hasher.HashedChunks(t + u, blockSize);
            0 < |a| <= |b| && a[|a| - 1] != b[|a| - 1]
    decreases |t|
  {
    if |t| >= blockSize {
      ModStep(|t|, blockSize);
      ShortBlockIsReplaced(hasher, t[blockSize..], u, blockSize);
      assert (t + u)[blockSize..] == t[blockSize..] + u;
    } else {
      ModUnique(0, blockSize, 0, 0);
      assert t != [] && hasher.HashedChunks(t, blockSize) == [t];
      assert |hasher.HashedChunks(t + u, blockSize)[0]| > |t|;
    }
  }

  // With partial blocks the same claim fails: the short block of one input is
  // hashed whole in the other.
  lemma {:induction false} PartialBlocksBreakExtension(hasher: TokenHasher)
    requires hasher.unfullChunk
    requires hasher.digest(hasher.BlockBytes(hasher.noneHash, [1]))
          != hasher.digest(hasher.BlockBytes(hasher.noneHash, [1, 2]))
    ensures !(hasher.HashBlocks([1], 2) <= hasher.HashBlocks([1] + [2], 2))
  {
    var a, b := hasher.HashedChunks([1], 2), hasher.HashedChunks([1, 2], 2);
    assert a == [[1]];
    assert [1, 2][..2] == [1, 2] && [1, 2][2..] == [];
    assert b == [[1, 2]] + hasher.HashedChunks([], 2) == [[1, 2]];
    assert a[..1] == a && b[..1] == b && a[..0] == [] && b[..0] == [];
    assert [1] + [2] == [1, 2];
    ResultAt(hasher, a, 0);
    ResultAt(hasher, b, 0);
  }

  // ---------- equal hashes name equal prefixes ----------

  ghost predicate Digestible(chunks: seq<Chunk>) {
    forall c :: c in chunks ==> |c| < TWO_TO_THE_64
  }

  lemma SameBytesSameBlock(hasher: TokenHasher, a: seq<Chunk>, b: seq<Chunk>)
    requires a != [] && b != [] && Digestible(a) && Digestible(b)
    requires hasher.LastBytes(a) == hasher.LastBytes(b)
    ensures a[|a| - 1] == b[|b| - 1]
    ensures hasher.ChainHash(a[..|a| - 1]) == hasher.ChainHash(b[..|b| - 1])
  {
    var p := Preimage(hasher.ChainHash(a[..|a| - 1]).bytes, a[|a| - 1], []);
    var q := Preimage(hasher.ChainHash(b[..|b| - 1]).bytes, b[|b| - 1], []);
    EncodeInjective(p, q, [], []);
  }

  lemma LastBlocksEqual(a: seq<Chunk>, b: seq<Chunk>)
    requires a != [] && b != [] && a != b && a[|a| - 1] == b[|b| - 1] && Digestible(a) && Digestible(b)
    ensures a[..|a| - 1] != b[..|b| - 1] && Digestible(a[..|a| - 1]) && Digestible(b[..|b| - 1])
  {}

  // Two different block lists with one digest and different digested bytes.
  ghost predicate Collision(hasher: TokenHasher, a: seq<Chunk>, b: seq<Chunk>) {
    a != [] && b != [] && hasher.LastBytes(a) != hasher.LastBytes(b) && hasher.ChainHash(a) == hasher.ChainHash(b)
  }

  ghost predicate HitsNoneHash(hasher: TokenHasher, a: seq<Chunk>) {
    a != [] && hasher.ChainHash(a) == hasher.noneHash
  }

  // For any digest whatever: different block lists with equal hashes exhibit,
  // among their own prefixes, a collision of the digest or a block that hashes
  // to the initial hash.
  lemma {:induction false} EqualHashesExposeCollision(hasher: TokenHasher, a: seq<Chunk>, b: seq<Chunk>)
    returns (x: seq<Chunk>, y: seq<Chunk>)
    requires Digestible(a) && Digestible(b)
    requires a != b && hasher.ChainHash(a) == hasher.ChainHash(b)
    ensures x <= a && y <= b
    ensures Collision(hasher, x, y) || HitsNoneHash(hasher, x) || HitsNoneHash(hasher, y)
    decreases |a|
  {
    if a == [] || b == [] || hasher.LastBytes(a) != hasher.LastBytes(b) {
      x, y := a, b;
    } else {
      SameBytesSameBlock(hasher, a, b);
      LastBlocksEqual(a, b);
      x, y := EqualHashesExposeCollision(hasher, a[..|a| - 1], b[..|b| - 1]);
    }
  }

  // A nonempty prefix of the blocks of some input of a corpus.
  ghost predicate Occurs(hasher: TokenHasher, corpus: iset<seq<Token>>, blockSize: nat, chunks: seq<Chunk>)
    requires blockSize > 0
  {
    chunks != [] && exists t :: t in corpus && chunks <= hasher.HashedChunks(t, blockSize)
  }

  // The digest behaves on the blocks of a corpus: it does not collide there and
  // yields neither the initial hash nor the root marker.
  ghost predicate CollisionFree(hasher: TokenHasher, corpus: iset<seq<Token>>, blockSize: nat)
    requires blockSize > 0
  {
    && (forall a, b :: Occurs(hasher, corpus, blockSize, a) && Occurs(hasher, corpus, blockSize, b) ==>
          !Collision(hasher, a, b))
    && (forall a :: Occurs(hasher, corpus, blockSize, a) ==>
          !HitsNoneHash(hasher, a) && hasher.ChainHash(a) != ROOT)
  }

  lemma OccursPrefix(hasher: TokenHasher, corpus: iset<seq<Token>>, blockSize: nat, chunks: seq<Chunk>, x: seq<Chunk>)
    requires blockSize > 0 && Occurs(hasher, corpus, blockSize, chunks) && x <= chunks
    ensures x != [] ==> Occurs(hasher, corpus, blockSize, x)
  {}

  lemma OccursDigestible(hasher: TokenHasher, corpus: iset<seq<Token>>, blockSize: nat, chunks: seq<Chunk>)
    requires 0 < blockSize < TWO_TO_THE_64 && Occurs(hasher, corpus, blockSize, chunks)
    ensures Digestible(chunks)
  {
    var t :| t in corpus && chunks <= hasher.HashedChunks(t, blockSize);
    HashedChunksCover(hasher, t, blockSize);
  }

  // Hash equality is equality of the whole block prefix.
  lemma SameHashSamePrefix(hasher: TokenHasher, corpus: iset<seq<Token>>, blockSize: nat, a: seq<Chunk>, b: seq<Chunk>)
    requires 0 < blockSize < TWO_TO_THE_64 && CollisionFree(hasher, corpus, blockSize)
    requires Occurs(hasher, corpus, blockSize, a) && Occurs(hasher, corpus, blockSize, b)
    ensures hasher.ChainHash(a) == hasher.ChainHash(b) <==> a == b
  {
    if a != b && hasher.ChainHash(a) == hasher.ChainHash(b) {
      OccursDigestible(hasher, corpus, blockSize, a);
      OccursDigestible(hasher, corpus, blockSize, b);
      var x, y := EqualHashesExposeCollision(hasher, a, b);
      OccursPrefix(hasher, corpus, blockSize, a, x);
      OccursPrefix(hasher, corpus, blockSize, b, y);
      assert false;
    }
  }

  // Two inputs agree on the hash at index i exactly when they agree on their
  // first i + 1 blocks.
  lemma HashListCharacterisesPrefix(hasher: TokenHasher, corpus: iset<seq<Token>>, blockSize: nat,
                                    t: seq<Token>, u: seq<Token>, i: nat, j: nat)
    requires 0 < blockSize < TWO_TO_THE_64 && CollisionFree(hasher, corpus, blockSize)
    requires t in corpus && u in corpus
    requires i < |hasher.HashedChunks(t, blockSize)| && j < |hasher.HashedChunks(u, blockSize)|
    ensures hasher.HashBlocks(t, blockSize)[i].hash == hasher.HashBlocks(u, blockSize)[j].hash
       <==> hasher.HashedChunks(t, blockSize)[..i + 1] == hasher.HashedChunks(u, blockSize)[..j + 1]
  {
    var a, b := hasher.HashedChunks(t, blockSize)[..i + 1], hasher.HashedChunks(u, blockSize)[..j + 1];
    assert Occurs(hasher, corpus, blockSize, a) && Occurs(hasher, corpus, blockSize, b);
    SameHashSamePrefix(hasher, corpus, blockSize, a, b);
    ResultAt(hasher, hasher.HashedChunks(t, blockSize), i);
    ResultAt(hasher, hasher.HashedChunks(u, blockSize), j);
  }

  // Extending an input only extends its hash list exactly when partial blocks are not
  // hashed, or nothing is added, or the input ends at a block boundary.
  lemma ExtensionIffBoundary(hasher: TokenHasher, corpus: iset<seq<Token>>, blockSize: nat, t: seq<Token>,
                             u: seq<Token>)
    requires 0 < blockSize < TWO_TO_THE_64 && CollisionFree(hasher, corpus, blockSize)
    requires t in corpus && t + u in corpus
    ensures hasher.HashBlocks(t, blockSize) <= hasher.HashBlocks(t + u, blockSize)
       <==> !hasher.unfullChunk || u == [] || |t| % blockSize == 0
  {
    var a, b := hasher.HashedChunks(t, blockSize), hasher.HashedChunks(t + u, blockSize);
    if u == [] {
      assert t + u == t;
    } else if !hasher.unfullChunk || |t| % blockSize == 0 {
      ChunksOfExtension(hasher, t, u, blockSize);
      ResultsOfPrefix(hasher, a, b);
    } else {
      ShortBlockIsReplaced(hasher, t, u, blockSize);
      var i := |a| - 1;
      HashListCharacterisesPrefix(hasher, corpus, blockSize, t, t + u, i, i);
      var c: seq<Chunk>, d: seq<Chunk> := a[..i + 1], b[..i + 1];
      assert c[i] != d[i];
      assert hasher.HashBlocks(t, blockSize)[i] != hasher.HashBlocks(t + u, blockSize)[i];
    }
  }

  // ---------- the lineage of a corpus ----------

  ghost function Origin(hasher: TokenHasher, corpus: iset<seq<Token>>, blockSize: nat, h: Hash): (chunks: seq<Chunk>)
    requires blockSize > 0
    ensures chunks != [] ==> Occurs(hasher, corpus, blockSize, chunks) && hasher.ChainHash(chunks) == h
  {
    if exists c :: Occurs(hasher, corpus, blockSize, c) && hasher.ChainHash(c) == h then
      var c :| Occurs(hasher, corpus, blockSize, c) && hasher.ChainHash(c) == h; c
    else []
  }

  lemma OriginOf(hasher: TokenHasher, corpus: iset<seq<Token>>, blockSize: nat, chunks: seq<Chunk>)
    requires 0 < blockSize < TWO_TO_THE_64 && CollisionFree(hasher, corpus, blockSize)
    requires Occurs(hasher, corpus, blockSize, chunks)
    ensures Origin(hasher, corpus, blockSize, hasher.ChainHash(chunks)) == chunks
  {
    SameHashSamePrefix(hasher, corpus, blockSize, chunks, Origin(hasher, corpus, blockSize, hasher.ChainHash(chunks)));
  }

  ghost function ParentOf(hasher: TokenHasher, corpus: iset<seq<Token>>, blockSize: nat, h: Hash): Hash
    requires blockSize > 0
  {
    var c := Origin(hasher, corpus, blockSize, h);
    if |c| <= 1 then ROOT else hasher.ChainHash(c[..|c| - 1])
  }

  ghost function DepthOf(hasher: TokenHasher, corpus: iset<seq<Token>>, blockSize: nat, h: Hash): nat
    requires blockSize > 0
  {
    var c := Origin(hasher, corpus, blockSize, h);
    if c == [] then 0 else |c| - 1
  }

  ghost function SizeOf(hasher: TokenHasher, corpus: iset<seq<Token>>, blockSize: nat, h: Hash): u32
    requires blockSize > 0
  {
    var c := Origin(hasher, corpus, blockSize, h);
    if c == [] then 0 else |c[|c| - 1]| % TWO_TO_THE_32
  }

  ghost function LineageOf(hasher: TokenHasher, corpus: iset<seq<Token>>, blockSize: nat): Lineage
    requires blockSize > 0
  {
    Lineage(
      h => ParentOf(hasher, corpus, blockSize, h),
      h => DepthOf(hasher, corpus, blockSize, h),
      h => SizeOf(hasher, corpus, blockSize, h))
  }

  function Hashes(blocks: seq<BlockResult>): (r: seq<Hash>)
    ensures |r| == |blocks| && forall i :: 0 <= i < |r| ==> r[i] == blocks[i].hash
  {
    seq(|blocks|, i requires 0 <= i < |blocks| => blocks[i].hash)
  }

  function Offsets(blocks: seq<BlockResult>): (r: seq<u32>)
    ensures |r| == |blocks| && forall i :: 0 <= i < |r| ==> r[i] == blocks[i].offset
  {
    seq(|blocks|, i requires 0 <= i < |blocks| => blocks[i].offset)
  }

  // The block hasher produces chains: one lineage serves every input of the corpus.
  lemma HashListsAreChained(hasher: TokenHasher, corpus: iset<seq<Token>>, blockSize: nat,
                            t: seq<Token>)
    requires 0 < blockSize < TWO_TO_THE_64 && CollisionFree(hasher, corpus, blockSize) && t in corpus
    ensures Chained(LineageOf(hasher, corpus, blockSize), Hashes(hasher.HashBlocks(t, blockSize)))
    ensures Sized(LineageOf(hasher, corpus, blockSize), Hashes(hasher.HashBlocks(t, blockSize)),
                  Offsets(hasher.HashBlocks(t, blockSize)))
  {
    var lin := LineageOf(hasher, corpus, blockSize);
    var blocks := hasher.HashBlocks(t, blockSize);
    var hs := Hashes(blocks);
    forall i | 0 <= i < |hs| ensures Placed(lin, hs, i) && blocks[i].offset == lin.size(hs[i]) {
      BlockIsPlaced(hasher, corpus, blockSize, t, i);
    }
  }

  lemma BlockIsPlaced(hasher: TokenHasher, corpus: iset<seq<Token>>, blockSize: nat, t: seq<Token>, i: nat)
    requires 0 < blockSize < TWO_TO_THE_64 && CollisionFree(hasher, corpus, blockSize) && t in corpus
    requires i < |hasher.HashBlocks(t, blockSize)|
    ensures Placed(LineageOf(hasher, corpus, blockSize), Hashes(hasher.HashBlocks(t, blockSize)), i)
    ensures hasher.HashBlocks(t, blockSize)[i].offset
         == SizeOf(hasher, corpus, blockSize, hasher.HashBlocks(t, blockSize)[i].hash)
  {
    var chunks := hasher.HashedChunks(t, blockSize);
    var c := chunks[..i + 1];
    assert Occurs(hasher, corpus, blockSize, c);
    OriginOf(hasher, corpus, blockSize, c);
    ResultAt(hasher, chunks, i);
    assert !HitsNoneHash(hasher, c) && hasher.ChainHash(c) != ROOT;
    if i > 0 {
      ResultAt(hasher, chunks, i - 1);
      assert c[..i] == chunks[..i];
    }
  }
}
