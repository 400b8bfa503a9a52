# CedFs_KV, verified

CedFs_KV is a metadata server for LLM prefix caches. It cuts token sequences into
blocks, hashes the blocks in a chain, keeps a table of which data server holds which
block, counts references, tracks the requests in flight, and decides what to migrate
where. This project models those parts in Dafny and proves properties of them. Check it
with `dafny verify dfyconfig.toml`.

## Modules

| file | what it holds |
|---|---|
| `Types.dfy` | block metadata, replica operations, list and counter helpers |
| `Arithmetic.dfy` | remainders |
| `Cbor.dfy` | the canonical CBOR writers of the hashed tuple, and a decoder that inverts them |
| `Lineage.dfy` | what a block hash stands for: a predecessor, a depth and a size |
| `BlockHash.dfy` | chunking and chained hashing, and when equal hashes mean equal prefixes |
| `CrossLanguage.dfy` | which prefixes the cross-language normalisation confuses |
| `RefCount.dfy` | the three reference-count tables and their conservation over any run |
| `Tracker.dfy` | active requests with hand-made reference counting, expiry, hot blocks |
| `PrefixIndex.dfy` | the block table: both searches, uploads, what runs of uploads keep |
| `Replicas.dfy` | every other mutator of the table, table well-formedness over any run, a reachable hole |
| `Migration.dfy` | the gate, the cyclic scan for a target, the ledger and the progress measure |
| `Popularity.dfy` | memoised chain depth, the bounded heap, and when no selection leaves a hole |
| `Shared.dfy` | the class `Shared`: the methods that change the table, the counters and the updates |
| `Server.dfy` | the pieces composed: properties of the server over every run of token uploads |

Every class method is proved equal to a function on values (`Upload`, `Apply`, `Step`,
`Mutate`, `Settle`), and the properties are lemmas about those functions and about runs
of them. Each of those functions also has lemmas that say what it comes to without naming
it, entry by entry, field by field and with the source's constants as literals. Each
public call is one atomic step.

## What is assumed

Nothing is assumed about SHA-256 in general. The digest is a field of `TokenHasher`, and
`EqualHashesExposeCollision` holds for every digest. Lemmas that need more take the
hypothesis `CollisionFree` over a corpus of inputs: on the blocks of those inputs the
digest does not collide and yields neither the initial hash nor the all-zero root marker.
A `Lineage` is derived from that hypothesis (`HashListsAreChained`); the index, the
tracker and the selection are proved against any lineage.

## Where the code does not do what one would expect

The model follows the code. Each point names the lemma with the exact condition, the
lemma with a failing input, or both.

- A server that extends its own chain cannot find the extension: the loop of
  `create_new_kvblock` starts at the matched length, so the link from the last matched
  block is never added (cedfs-kv/src/lib.rs:733-739, 782). For distinct hashes
  `UploadThenSearch`, and for hashed tokens `UploadedTokensAreCredited`, say exactly when
  the whole chain is found and credited; `ExtendingOwnChainIsNotFound` is an example.
- The add-replica operation adds nothing on a well-formed table, because it ends in the
  intersection of `insert_global_kvcache` (cedfs-kv/src/lib.rs:336-347, 434-439):
  `AddReplicaOpIsIdle`.
- `search_tokens` goes on past a block a server lacks, and credits a server once for every
  listing (cedfs-kv/src/lib.rs:670-675). It agrees with the per-server search exactly when
  the server has no gap on the walk and is listed once by each matched block with tokens
  (`SearchesAgreeIffNoGap`), as on every table built by uploads. Two uploads and two
  removals make a gap (`HoleIsReachable`, `SearchesDisagreeAcrossHole`), one metadata
  record a double listing (`DoubleListingIsCreditedTwice`).
- Where the depth recursion ends, the selection leaves no hole exactly when every eligible
  block is known and its predecessor is the root marker, on every local server, or counted
  as often (`NoHolesIffChainsReady`). Uploads and successful migrations, in any order, keep
  it so (`MigrationsOpenNoHole`). A removal request (`RemovalOpensHole`), a not-found reply
  (`NotFoundOpensHole`) and counts from a peer (`PeerCountsOpenHole`) need not;
  `PeerCountsFollowIff` says which reports keep counts following their chains.
- With partial blocks hashed, extending an input extends its hash list only when nothing
  is added or the input ends at a block boundary, barring collisions
  (`ExtensionIffBoundary`, `PartialBlocksBreakExtension`).
- `potential_blocks` counts a repeated new block once per repetition and does not foresee
  an expiry, so it is an upper bound. `PotentialBoundsActive` says exactly when it is right,
  whether or not the addition fires the expiry; `PotentialMissesExpiry` is an example.
- A firing expiry removes every active request, not only old ones, since each id enters
  the expiry set as it is added (cedfs-kv/src/transfer/squnence.rs:111):
  `ExpirySparesNoRequest`, `NewRequestExpires`.
- `sync_metadata` drains the pending operations and then drops them when there is neither
  metadata nor a count to send (cedfs-kv/src/client.rs:260-289). A removal request between
  two syncs is always lost that way: `SyncRemoveSync`.
- On a well-formed table a peer's delete operation or a not-found reply leaves a count
  without a block exactly when it takes the only replica of a counted block
  (`PeerOpKeepsCountedKnown`, `PeerDeleteLeavesCount`, `UnavailableKeepsCountedKnown`,
  `UnavailableLeavesCount`); a removal request never does (`RemovalKeepsCountedKnown`).
- The scan of a migration starts at each candidate once in n consecutive calls exactly
  when the 64-bit counter does not wrap on the way or n divides its range
  (`RotationIffNoWrap`).
- The recursion of `compute_chain_depth` ends from every block exactly when it ends from
  every entry within as many steps as there are entries (`RankedIffChainsEnd`); two blocks
  sent by a peer can name each other (`CircleNeverEnds`).
- The cross-language normalisation pads on the right (cedfs-kv/src/hash.rs:451-456), so it
  changes every nonzero prefix that starts with a zero byte, and confuses exactly the
  prefixes that are one another moved by bytes (`NormalisedUnchangedIff`,
  `ConfusedIffMoved`, `TwoPrefixesConfused`).
- The selection skips blocks counted three times or fewer, where its comment says more
  than two qualify (cedfs-kv/src/operation/popularity_score.rs:91-92). The two pick the
  same blocks exactly when none that some local server lacks is counted three times:
  `CommentedThresholdIff`.
- The migration gate compares with the constant 2, where its comment speaks of twice the
  replica count (cedfs-kv/src/lib.rs:1005-1013). On a well-formed table the commented gate
  is never wider, and the same exactly when every gated block has that much concurrency:
  `CommentedGateIff`, `GatesDiffer`.
- A block's recorded offset is its own length, where the comment speaks of its end position
  in the input (cedfs-kv/src/hash.rs:360-366, 408). The two are equal for the first block
  only: `OffsetIsEndIffFirst`.

## Model

| member | source | states |
|---|---|---|
| Server.SelectionHasNoHoles | cedfs-kv/src/operation/popularity_score.rs:50-145 | over every run of token uploads the depth recursion ends and no best selection of any size leaves a hole: the predecessor of a selected block is the root marker, held by all local servers, or earlier in the list (the design goal of lines 56-61; `Popularity.NoHolesIffChainsReady` covers every other state) |
| Server.MigrationsOpenNoHole | cedfs-kv/src/operation/popularity_score.rs:56-145 | the same over every run of uploads and successful migrations of any blocks to any servers, in any order, for selections of any size |
| Server.RemovalOpensHole | cedfs-kv/src/operation/remove_kvmeta.rs:41-94 | a server uploads [a, b] more than three times and removes a: every selection for another server is b alone, whose predecessor is neither known nor counted |
| Server.NotFoundOpensHole | cedfs-kv/src/lib.rs:1110-1114 | a not-found reply for the only replica of a block counted more than three times makes some selection leave a hole, for any local servers |
| Server.PeerCountsFollowIff | cedfs-kv/src/types.rs:317-329 | counts reported by a peer keep counts following their chains if and only if every block that gains globally is known and stays within its predecessor's count, a report for a hash with a full local count being booked locally |
| Server.PeerCountsOpenHole | cedfs-kv/src/types.rs:317-329 | equal reports for a block and its predecessor, the predecessor's booked locally, open a hole |
| Server.ServeEvents | cedfs-kv/src/lib.rs:1101-1109 | a server through any uploads and successful migrations is in exactly the state of the run: table, counters, pending metadata and operations, local index and counts |
| Server.UploadsThenSelect | cedfs-kv/src/operation/popularity_score.rs:65-145 | the server fed any uploads is in the state of the run, and its answer to a request for the top k is a best selection of that state without holes |
| Server.ServeUploads | cedfs-kv/src/operation/upload_kvmeta.rs:12-56 | a server fed any list of uploads is in exactly the state of the run, each block counter equals the number of blocks its server holds, and the local block index is still empty |
| Server.HitsAreGenuine | cedfs-kv/src/lib.rs:711-755 | when the search matches n blocks of a query for a server, that server did upload tokens starting with exactly those n blocks |
| Server.UploadedTableIsLawful | cedfs-kv/src/operation/upload_kvmeta.rs:12-56 | in every state reached by token uploads each entry is what its hash says, and a server holding a block holds its predecessor |
| Server.SearchesAgreeAfterUploads | cedfs-kv/src/lib.rs:656-755 | in every such state the token total equals the tokens of the per-server match, for every server and any query whatever |
| Server.UploadedTokensAreCredited | cedfs-kv/src/lib.rs:656-701 | after any run, an upload credits its server with every hashed token (all of them, or all but the remainder) if and only if it finds no missing link |
| Server.CountsFollowChainsInRun | cedfs-kv/src/types.rs:217-228 | over every run of uploads every counted block is in the table and no block is counted more often than its predecessor |
| Server.HotBlocksOfHashedRequests | cedfs-kv/src/operation/new_request.rs:43-75 | over every run of additions, frees and expiries of hashed requests, the blocks of a request passing the filter are exactly its longest prefix with hold at least 2 |
| Server.SharedHashSharedBlocks | cedfs-kv/src/hash.rs:367-414 | a hash of one input found anywhere among another's means that the other starts with the same blocks |
| PrefixIndex.MatchIsLongest | cedfs-kv/src/lib.rs:711-755 | a number is the per-server match length if and only if that linked prefix is held and no longer one is |
| PrefixIndex.MatchIsReachedAndListed | cedfs-kv/src/lib.rs:711-755 | the same in terms of entries: known, listed as a successor of the block before, and listing the server |
| PrefixIndex.WalkIsLongest | cedfs-kv/src/lib.rs:656-701 | the token search walks the longest prefix of blocks that are known and successors of the block before |
| SharedState.Shared.SearchTokensWithServer | cedfs-kv/src/lib.rs:711-755 | the loop returns the match length |
| SharedState.Shared.SearchTokens | cedfs-kv/src/lib.rs:656-701 | the loop reports exactly the servers listed on the linked prefix, each with the tokens credited to it |
| SharedState.Shared.CreditServers | cedfs-kv/src/lib.rs:670-675 | one block credits each listed server with its offset, once for every listing |
| PrefixIndex.CreditIsPerListing | cedfs-kv/src/lib.rs:670-675 | a block's credit is its offset times the listings of the server |
| PrefixIndex.CreditAddsUp | cedfs-kv/src/lib.rs:667-690 | the whole credit is the sum of these over the blocks walked |
| PrefixIndex.SearchCreditsAtLeastMatch | cedfs-kv/src/lib.rs:656-755 | in any table the token search credits a server with at least its own match |
| PrefixIndex.SearchesAgree | cedfs-kv/src/lib.rs:656-755 | on a lawful table it credits exactly that |
| PrefixIndex.SearchesAgreeIffNoGap | cedfs-kv/src/lib.rs:656-755 | on any table, the token total equals the tokens of the match if and only if the server holds, on the blocks walked, all that comes before a block it is credited for, and is listed once by each matched block with tokens |
| Replicas.DoubleListingIsCreditedTwice | cedfs-kv/src/lib.rs:670-675 | one metadata record listing a server twice: two tokens matched, four credited |
| Replicas.SearchesDisagreeAcrossHole | cedfs-kv/src/lib.rs:667-690 | on a table with a hole the token search credits two tokens and the per-server search matches nothing |
| Replicas.HoleIsReachable | cedfs-kv/src/operation/remove_kvmeta.rs:41-94 | two uploads of [a, b] and two removals lead from the empty table to exactly that table |
| PrefixIndex.UploadThenSearch | cedfs-kv/src/lib.rs:767-876 | for distinct hashes the uploading server finds its whole chain afterwards, unless its match had stopped at a missing link inside the chain; then it finds the same m blocks as before |
| PrefixIndex.ExtendingOwnChainIsNotFound | cedfs-kv/src/lib.rs:782-783 | uploading [a, b] and then [a, b, c] leaves c held and not findable |
| PrefixIndex.UploadCreditsEveryToken | cedfs-kv/src/lib.rs:656-701 | after a chained upload the server is credited with all offsets, or with those of its earlier match when a link is missing; with no empty block, with all exactly when no link is missing |
| PrefixIndex.UploadedEffects | cedfs-kv/src/lib.rs:782-873 | per uploaded block and field by field: nothing below the match; a new block's entry (hash, offset, predecessor, successor, server), pending as metadata; a known block's added successor and server, the server's arrival pending as operation 1 |
| PrefixIndex.UploadedNowhereElse | cedfs-kv/src/lib.rs:782-873 | every other block keeps its entry, its pending metadata and its pending operation |
| PrefixIndex.UploadAt | cedfs-kv/src/lib.rs:782-873 | the entry of each uploaded block afterwards, in terms of the table before |
| PrefixIndex.UploadElsewhere | cedfs-kv/src/lib.rs:782-873 | blocks outside the upload keep their entries |
| PrefixIndex.UploadGrows | cedfs-kv/src/lib.rs:782-873 | an upload takes no replica and no entry away |
| PrefixIndex.UploadFollows | cedfs-kv/src/lib.rs:782-873 | afterwards a position is reachable exactly when its link existed or the block before it was placed |
| PrefixIndex.UploadReplicas | cedfs-kv/src/lib.rs:767-876 | an upload gives its server its blocks and changes no other holding |
| PrefixIndex.ListedIffUploaded | cedfs-kv/src/lib.rs:767-876 | over every run a server is listed for a block if and only if it uploaded a chain containing it |
| PrefixIndex.UploadKeepsLawful | cedfs-kv/src/lib.rs:767-876 | an upload of chained blocks keeps the table lawful |
| PrefixIndex.RunIsLawful | cedfs-kv/src/lib.rs:767-876 | every run of chained uploads from empty gives a lawful table |
| PrefixIndex.RunKeepsCounters | cedfs-kv/src/lib.rs:782-873 | over every run, overlapping chains and servers included, each server's counter is the number of entries listing it |
| PrefixIndex.UploadKeepsCounters | cedfs-kv/src/lib.rs:782-873 | placing any range of any blocks, chained or not, keeps the counters right |
| PrefixIndex.ReplicaCountsAreFinal | cedfs-kv/src/lib.rs:767-876 | for distinct blocks the reported replica counts are those of the finished table |
| SharedState.Shared.CreateNewKvblock | cedfs-kv/src/lib.rs:767-876 | the whole new state (table, counters, pending metadata and operations) is that of the upload, and the report lists the placed blocks; nothing happens for no hashes; an offset is asked only for blocks that have to be made |
| PrefixIndex.OffsetIsGiven | cedfs-kv/src/lib.rs:782-847 | when the offsets suffice, each placed block is known by its turn or has one |
| SharedState.Shared.PlaceOne | cedfs-kv/src/lib.rs:782-873 | the three branches of the loop body against the specification |
| SharedState.Shared.MergeSuccessors | cedfs-kv/src/lib.rs:806-811 | successors are merged in order without repetition |
| SharedState.Shared.UploadKvMeta | cedfs-kv/src/operation/upload_kvmeta.rs:12-56 | hashing, placing and counting together: the upload and one batch increment |
| Popularity.NoHolesIffChainsReady | cedfs-kv/src/operation/popularity_score.rs:56-145 | on any table where the depth recursion ends, with any counts and local servers: no selection of any size leaves a hole if and only if every eligible block is known and its predecessor is the root marker, on every local server, or counted as often |
| Popularity.MigrationKeepsReady | cedfs-kv/src/lib.rs:1101-1109 | a successful migration keeps that condition |
| Popularity.UnreadyLeavesHole | cedfs-kv/src/operation/popularity_score.rs:65-145 | for a block that fails the condition, a selection that leaves the hole |
| Popularity.FollowingIsReady | cedfs-kv/src/operation/popularity_score.rs:56-61 | the condition holds when predecessors are those the hashes name and counts never increase along them |
| Popularity.SelectedIsEligible | cedfs-kv/src/operation/popularity_score.rs:91-109 | every selected block is counted more than three times and some local server lacks it |
| Popularity.RankedIffChainsEnd | cedfs-kv/src/operation/popularity_score.rs:20-48 | the recursion ends from every block (equivalently, the table has a ranking) if and only if from every entry it ends within as many steps as there are entries |
| Popularity.CommentedThresholdIff | cedfs-kv/src/operation/popularity_score.rs:91-94 | the threshold of the code and that of its comment pick the same blocks if and only if none that some local server lacks is counted exactly three times |
| Popularity.CircleNeverEnds | cedfs-kv/src/operation/popularity_score.rs:36-40 | two metas from a peer that name each other make a table where it does not end |
| Popularity.NoHoles | cedfs-kv/src/operation/popularity_score.rs:56-145 | on any lawful table whose counts follow the chains, no selected block leaves a hole |
| Popularity.ParentComesFirst | cedfs-kv/src/operation/popularity_score.rs:56-61 | a predecessor counts at least as much and ranks strictly higher |
| Popularity.TopKPopularity | cedfs-kv/src/operation/popularity_score.rs:65-145 | the result is a best selection of size min(k, eligible), in descending order of count and then ascending depth |
| Popularity.SelectionMeans | cedfs-kv/src/operation/popularity_score.rs:84-144 | in terms of table and counts alone: at most k blocks, none twice, each counted more than three times and unknown or missing on some local server, in descending order of count and then ascending depth; such a block is left out only when k others rank no lower |
| Popularity.TopKKeysAreUnique | cedfs-kv/src/operation/popularity_score.rs:84-144 | two results agree on every count and depth, whatever the order of iteration and the choice among ties |
| Popularity.BetterIsSelectedBefore | cedfs-kv/src/operation/popularity_score.rs:116-141 | a candidate that beats a selected one is itself selected, and earlier |
| Popularity.SelectBest | cedfs-kv/src/operation/popularity_score.rs:77-130 | visiting the counts in any order keeps the best k of the eligible blocks |
| Popularity.Offer | cedfs-kv/src/operation/popularity_score.rs:116-127 | one more candidate keeps the heap a best selection of those seen, k = 0 included |
| Popularity.Consider | cedfs-kv/src/operation/popularity_score.rs:88-128 | one visit keeps the selection best and every cached depth right, and u32::MAX - depth does not underflow |
| Popularity.DepthCache.ComputeChainDepth | cedfs-kv/src/operation/popularity_score.rs:20-48 | the memoised recursion equals plain recursion and keeps every cache entry right; the depth is at most the table size |
| Popularity.DepthWithinTable | cedfs-kv/src/operation/popularity_score.rs:111-114 | no chain depth exceeds the number of entries |
| Popularity.DepthIsLeastSteps | cedfs-kv/src/operation/popularity_score.rs:20-48 | the depth is the least number of predecessor links within which the recursion ends, a missing block ending it |
| Popularity.DepthIsIntrinsic | cedfs-kv/src/operation/popularity_score.rs:20-48 | the depth is a property of the table, not of the ranking used to show termination |
| Popularity.LawfulDepth | cedfs-kv/src/operation/popularity_score.rs:18-48 | on a table built by uploads the depth is the position in the chain |
| Popularity.LawfulIsRanked | cedfs-kv/src/operation/popularity_score.rs:20-48 | on such a table predecessor links cannot run in circles, so the recursion ends |
| Cbor.EncodeRoundTrip | cedfs-kv/src/hash.rs:333-350 | the encoding is self-delimiting: followed by any bytes, a reader of data items (major types 0, 2, 3 and 4 of section 3.1 of RFC 8949) finds an array of the prefix as a byte string, an array of the tokens as unsigned integers and an array of the keys as text strings, and leaves exactly those bytes |
| Cbor.EncodeStart | cedfs-kv/src/hash.rs:333-341 | for a 32-byte prefix the encoding starts 0x83 0x58 0x20 and the prefix |
| Cbor.HeadExamples | cedfs-kv/src/hash.rs:283-300 | the heads of appendix A of RFC 8949 for 23, 24, 1000, 1000000 and 1000000000000 |
| Cbor.EncodeInjective | cedfs-kv/src/hash.rs:333-350 | two encodings that start the same stream encode the same tuple |
| Cbor.HeadRoundTrip | cedfs-kv/src/hash.rs:283-300 | every head decodes to its major type and argument (section 3.1 of RFC 8949) |
| Cbor.HeadIsShortest | cedfs-kv/src/hash.rs:283-300 | no byte string that decodes to the same head is shorter (section 4.2.1 of RFC 8949) |
| Cbor.BigEndianRoundTrip | cedfs-kv/src/hash.rs:283-300 | the big-endian bytes of a number read back as that number |
| Cbor.ByteBuffer.WriteMajor | cedfs-kv/src/hash.rs:283-300 | the five branches append exactly the head |
| Cbor.ByteBuffer.WriteText | cedfs-kv/src/hash.rs:302-305 | appends a text string with its length |
| Cbor.ByteBuffer.WriteBytes | cedfs-kv/src/hash.rs:307-310 | appends a byte string with its length |
| Cbor.BuildPreimage | cedfs-kv/src/hash.rs:333-350 | the buffer digested is the encoding of prefix, tokens and keys, absent keys being none |
| BlockHash.EqualHashesExposeCollision | cedfs-kv/src/hash.rs:367-414 | for any digest: different block lists with equal hashes exhibit a collision or a block hashing to the initial hash, among their own prefixes |
| BlockHash.SameHashSamePrefix | cedfs-kv/src/hash.rs:367-414 | without collisions, chained hashes are equal if and only if the whole block lists are |
| BlockHash.HashListCharacterisesPrefix | cedfs-kv/src/hash.rs:367-414 | two inputs agree on a hash if and only if they agree on all blocks up to it |
| BlockHash.HashesOfExtension | cedfs-kv/src/hash.rs:367-414 | without partial blocks the results for t are a prefix of those for t + u, for any digest |
| BlockHash.ExtensionIffBoundary | cedfs-kv/src/hash.rs:382-412 | without collisions, the results for t are a prefix of those for t + u if and only if partial blocks are off, u is empty, or t ends at a block boundary |
| BlockHash.PartialBlocksBreakExtension | cedfs-kv/src/hash.rs:386-395 | with partial blocks that fails for [1] and [1, 2] |
| BlockHash.HashedChunksCover | cedfs-kv/src/hash.rs:367-414 | the hashed blocks laid end to end are the covered tokens, in order |
| BlockHash.OffsetsAddUp | cedfs-kv/src/hash.rs:367-414 | the returned lengths add up to the input, or to the input less its remainder |
| BlockHash.OffsetIsEndIffFirst | cedfs-kv/src/hash.rs:360-410 | the returned offset is the documented end position if and only if the block is the first |
| BlockHash.HashIsDigest | cedfs-kv/src/hash.rs:382-412 | each hash is the digest of the encoding of the hash before it (at first the initial hash), the tokens of its stretch of the input and no keys; its offset is the length of that stretch cast to 32 bits |
| BlockHash.BlockAt | cedfs-kv/src/hash.rs:382-395 | block i is the i-th stretch of block-size tokens, cut short only at the end |
| BlockHash.HowManyBlocks | cedfs-kv/src/hash.rs:382-395 | as many blocks as fit, and one more for a short rest when partial blocks are hashed |
| BlockHash.HashedIsChunksWithoutShortTail | cedfs-kv/src/hash.rs:382-395 | the hashed blocks are all chunks, less a short last one when partial blocks are off |
| BlockHash.ResultAt | cedfs-kv/src/hash.rs:382-412 | each result depends on the blocks up to its index only |
| BlockHash.TokenHasher.HashTokensWithBlocksAll | cedfs-kv/src/hash.rs:367-414 | the loop returns the specified results |
| BlockHash.HashListsAreChained | cedfs-kv/src/hash.rs:367-414 | one lineage gives predecessor, depth and size of every hash of every input of the corpus |
| CrossLanguage.NormalisedUnchangedIff | cedfs-kv/src/hash.rs:449-457 | the normalisation leaves a prefix alone if and only if it starts with a nonzero byte or is zero |
| CrossLanguage.ConfusedIffMoved | cedfs-kv/src/hash.rs:449-457 | two prefixes normalise alike if and only if one is the other moved by whole bytes with only zeros falling off |
| CrossLanguage.TwoPrefixesConfused | cedfs-kv/src/hash.rs:449-457 | two different prefixes that normalise alike |
| Lineages.ChainedIsDistinct | cedfs-kv/src/hash.rs:367-414 | no hash repeats in a chain |
| Lineages.SharedBlockSharesPrefix | cedfs-kv/src/hash.rs:367-414 | chains that share a block share everything before it, at the same positions |
| Tracking.ActiveSequences.Replay | cedfs-kv/src/transfer/squnence.rs:86-191 | after every run of calls the index holds exactly the blocks of active requests, each cell's strong count is its block's number of occurrences, and the expiry set is the set of active ids |
| Tracking.ActiveSequences.TouchBlock | cedfs-kv/src/transfer/squnence.rs:41-52 | one more reference, on the live cell or on a fresh one |
| Tracking.ActiveSequences.TryRemoveBlock | cedfs-kv/src/transfer/squnence.rs:54-62 | a block leaves the index exactly when its cell has no reference left |
| Tracking.ActiveSequences.AddRequest | cedfs-kv/src/transfer/squnence.rs:86-114 | a duplicate id changes nothing; otherwise a due expiry fires first and the sequence is added |
| Tracking.ActiveSequences.Free | cedfs-kv/src/transfer/squnence.rs:146-165 | the request goes with all its references, and the number of remaining blocks is returned |
| Tracking.ActiveSequences.ForceExpiry | cedfs-kv/src/transfer/squnence.rs:169-190 | when due, exactly the active ids are returned and nothing stays active; otherwise nothing changes |
| Tracking.ActiveSequences.ReleaseAll | cedfs-kv/src/transfer/squnence.rs:146-165 | dropping a request's handles one by one keeps the cells in step with the references left |
| Tracking.ActiveSequences.HoldAll | cedfs-kv/src/transfer/squnence.rs:100-107 | touching blocks one by one, repeats included, does too |
| Tracking.ActiveSequences.BlockHoldCount | cedfs-kv/src/transfer/squnence.rs:69-75 | the hold count is the number of occurrences over all active requests |
| Tracking.ActiveSequences.SequenceHoldCounts | cedfs-kv/src/transfer/squnence.rs:77-82 | the same for every block of a list |
| Tracking.ActiveSequences.ActiveBlockCount | cedfs-kv/src/transfer/squnence.rs:64-66 | the size of the index is the number of active blocks |
| Tracking.ActiveSequences.PotentialBlocks | cedfs-kv/src/transfer/squnence.rs:132-143 | the number of missing positions plus the number of active blocks |
| Tracking.TouchAgrees | cedfs-kv/src/transfer/squnence.rs:41-52 | agreement of index, cells and references survives one more reference |
| Tracking.DropAgrees | cedfs-kv/src/transfer/squnence.rs:54-62 | and one fewer |
| Tracking.HoldCountsAddUp | cedfs-kv/src/transfer/squnence.rs:86-114 | a request adds its own blocks to the hold counts, once per occurrence |
| Tracking.AddOfNothing | cedfs-kv/src/transfer/squnence.rs:107-110 | a request without a sequence is active and holds nothing |
| Tracking.MissingIsFilter | cedfs-kv/src/transfer/squnence.rs:132-139 | every missing position counts, repeats included |
| Tracking.AddThenFreeRestores | cedfs-kv/src/transfer/squnence.rs:86-165 | adding a fresh request and freeing it restores every hold count if and only if no expiry fires on held blocks; without expiry the whole state is restored |
| Tracking.ExpirySparesNoRequest | cedfs-kv/src/transfer/squnence.rs:97-113 | a request is still active after a later expiry if and only if that expiry does not fire, however new the request |
| Tracking.NewRequestExpires | cedfs-kv/src/transfer/squnence.rs:169-190 | a request added one second before the timer is due is gone when it fires |
| Tracking.PotentialBoundsActive | cedfs-kv/src/transfer/squnence.rs:132-143 | for every state, id and time the prediction is an upper bound; for a new id it is exact if and only if the new blocks do not repeat and the addition expires no block it does not bring back, for an active id if and only if no block is missing |
| Tracking.PotentialMissesExpiry | cedfs-kv/src/transfer/squnence.rs:86-143 | an addition that fires the expiry: two blocks predicted, one active |
| Tracking.PotentialExactWhenDistinct | cedfs-kv/src/transfer/squnence.rs:132-143 | for a duplicate-free sequence and a new id the prediction is exact if and only if the addition expires no block it does not bring back |
| Tracking.PotentialBoundsActiveOnExpiry | cedfs-kv/src/transfer/squnence.rs:132-143 | when the addition expires the others: the bound, and exact if and only if every old block is brought back and no new one repeats |
| Tracking.HoldCountsDecrease | cedfs-kv/src/transfer/squnence.rs:69-82 | along a chain hold counts never increase |
| Tracking.RunKeepsChained | cedfs-kv/src/transfer/squnence.rs:86-191 | while only chains are added, only chains are active |
| Tracking.HotBlocksFormPrefix | cedfs-kv/src/operation/new_request.rs:64-75 | the filter returns exactly the longest prefix held at least twice |
| Tracking.HighHoldIsFilter | cedfs-kv/src/operation/new_request.rs:64-75 | the filter keeps or drops each block for itself: those held at least twice |
| Tracking.FilterHighHold | cedfs-kv/src/operation/new_request.rs:64-75 | the zip-and-filter pipeline |
| Tracking.NewRequest | cedfs-kv/src/operation/new_request.rs:43-75 | the request joins the tracker, and its own blocks are filtered by the counts after it joined |
| RefCounts.CountsAreConserved | cedfs-kv/src/types.rs:181-228 | for any run: reported + pending + consolidated outside a sync equals what was there plus every addition |
| RefCounts.SyncReportsEverything | cedfs-kv/src/client.rs:271-284 | with consolidation only inside sync, the reports and the pending counts account for every addition |
| RefCounts.NothingSilentWithoutConsolidation | cedfs-kv/src/client.rs:271-284 | only a consolidation outside sync takes counts out unreported |
| RefCounts.ConsolidationKeepsTotals | cedfs-kv/src/types.rs:181-202 | consolidation, bulk or single, leaves every total as it was |
| RefCounts.TotalsGrowByIncrements | cedfs-kv/src/types.rs:205-278 | over any run the local count grows by the local increments and the global count by the global ones, a global increment counting as local exactly when the hash has a full count at that step; together they are the increments issued |
| RefCounts.AppliedEntries | cedfs-kv/src/types.rs:181-329 | for every operation and hash: which entries exist in each of the three tables afterwards, and their counts |
| RefCounts.BumpAllCounts | cedfs-kv/src/types.rs:217-228 | a batch adds the increment once per occurrence |
| RefCounts.RefCount.ClearAndConsolidate | cedfs-kv/src/types.rs:181-202 | all pending counts move to the full table |
| RefCounts.RefCount.IncrementLocalIncremental | cedfs-kv/src/types.rs:205-211 | one pending count grows |
| RefCounts.RefCount.BatchIncrementLocalIncremental | cedfs-kv/src/types.rs:217-228 | a batch adds to the pending and to the global table |
| RefCounts.RefCount.Consolidate | cedfs-kv/src/types.rs:266-285 | one pending count moves; the total is returned, if there was anything |
| RefCounts.RefCount.IncrementLocal | cedfs-kv/src/types.rs:248-254 | the full count grows and is returned |
| RefCounts.RefCount.LocalTotal | cedfs-kv/src/types.rs:288-297 | full plus pending, or nothing when neither exists |
| RefCounts.RefCount.AllLocalTotals | cedfs-kv/src/types.rs:384-403 | agrees with the single total at every hash |
| RefCounts.RefCount.IncrementGlobal | cedfs-kv/src/types.rs:317-329 | the global count grows and is returned |
| RefCounts.RefCount.IncrementGlobalAll | cedfs-kv/src/operation/update_kvmeta.rs:22-24 | the counts of a peer's update are booked one by one |
| RefCounts.PeerCountsAreBooked | cedfs-kv/src/types.rs:317-329 | such a batch adds to a global count what it names for it, and nothing where the hash has a full local count |
| RefCounts.RefCount.RemoveLocal | cedfs-kv/src/types.rs:350-357 | both local counts go, and are returned |
| RefCounts.RefCount.RemoveGlobal | cedfs-kv/src/types.rs:360-362 | the global count goes, and is returned |
| RefCounts.RefCount.SnapshotAndConsolidate | cedfs-kv/src/client.rs:271-284 | the report is the pending table, which is then consolidated |
| SharedState.Shared.SyncMetadata | cedfs-kv/src/client.rs:241-296 | what is sent, what is drained, and that pending operations are dropped exactly when there is nothing else |
| SharedState.Shared.SyncRemoveSync | cedfs-kv/src/client.rs:241-289 | a removal request between two syncs: its delete operations are all pending before the second sync, which sends nothing and forgets them |
| SharedState.PeerOpKeepsCountedKnown | cedfs-kv/src/lib.rs:416-490 | on a well-formed table whose counted blocks are known, a peer operation keeps them known if and only if it does not delete the only replica of a counted block |
| SharedState.UnavailableKeepsCountedKnown | cedfs-kv/src/lib.rs:553-584 | a not-found reply keeps counted blocks known if and only if none of the listed counted blocks has the source as its only replica |
| SharedState.UnavailableLeavesCount | cedfs-kv/src/lib.rs:1110-1114 | a table and a count for which it does not |
| SharedState.PeerDeleteLeavesCount | cedfs-kv/src/lib.rs:453-480 | a table, a count and a delete operation after which the count is left and the block is not |
| SharedState.RemovalKeepsCountedKnown | cedfs-kv/src/operation/remove_kvmeta.rs:41-94 | a removal request keeps counted blocks known, and leaves nothing to report where there was nothing |
| Replicas.UploadIsMutation | cedfs-kv/src/lib.rs:767-876 | the table an upload leaves is that of the mutator in the runs below, whatever the counters and pending updates |
| Replicas.RunKeepsWellFormed | cedfs-kv/src/lib.rs:328-355 | if peers send well-formed metadata, every run of every mutator keeps keys matching, replica lists non-empty and distinct, successor lists distinct |
| Replicas.MutateKeepsWellFormed | cedfs-kv/src/lib.rs:416-490 | each single mutator does |
| Replicas.MutatorsMatch | cedfs-kv/src/lib.rs:416-490 | the mutators of those runs are the functions the server's methods compute |
| Replicas.InsertedEntry | cedfs-kv/src/lib.rs:328-355 | an unknown block gets the record as it is; a known one its offset, predecessor and successors, with the servers both list, and goes exactly when there are none; every other entry stays |
| Replicas.RemovedEntry | cedfs-kv/src/operation/remove_kvmeta.rs:57-76 | a removal touches the listed blocks only, and of those the server list only; a block goes exactly when no other server is left |
| Replicas.GrantedEntry | cedfs-kv/src/lib.rs:1135-1141 | a finished migration appends the server to the known blocks of its list that lack it, and changes nothing else |
| Types.IntersectIsFilter | cedfs-kv/src/lib.rs:336-341 | the intersection keeps or drops each server for itself, in order |
| Types.WithoutIsFilter | cedfs-kv/src/operation/remove_kvmeta.rs:60-61 | so does the retaining of all servers but one |
| Types.RootIsZero | cedfs-kv/src/operation/popularity_score.rs:5-6 | the root marker is 32 zero bytes |
| Replicas.OtherOpsAreIdle | cedfs-kv/src/lib.rs:416-490 | an operation other than 1 and 2 changes nothing |
| Replicas.AddReplicaOpIsIdle | cedfs-kv/src/lib.rs:434-439 | on a well-formed table the add-replica operation changes nothing |
| Replicas.DeleteReplicaOpRemovesServer | cedfs-kv/src/lib.rs:416-490 | the delete operation removes exactly the named server from exactly that block |
| Replicas.PeerMetaReplicas | cedfs-kv/src/lib.rs:328-355 | metadata from a peer adds no replica to a known block and touches no other block |
| Replicas.RemoveAllReplicas | cedfs-kv/src/operation/remove_kvmeta.rs:41-94 | a removal takes the server off exactly the listed blocks |
| Replicas.AddAllReplicas | cedfs-kv/src/lib.rs:1135-1149 | a finished migration gives the server exactly the known blocks of the list |
| SharedState.InsertedCounts | cedfs-kv/src/lib.rs:342-345 | an insertion drops the global count of exactly the known block left without a common server |
| SharedState.ParsedHashes | cedfs-kv/src/operation/remove_kvmeta.rs:17-29 | the raw hashes of 32 bytes survive, in order, and no others |
| SharedState.RemovedCounts | cedfs-kv/src/operation/remove_kvmeta.rs:57-94 | a removal drops both local counts of every listed block, and the global count of exactly the known ones no other server holds |
| SharedState.QueuedOps | cedfs-kv/src/lib.rs:1143-1148 | a migration queues operation 1 and a removal operation 2 for each of its blocks; the rest of the queue stays |
| SharedState.GrantedCounts | cedfs-kv/src/lib.rs:1142-1142 | a migration adds one local reference per listing, and nothing to the other tables |
| SharedState.TalliedBlocks | cedfs-kv/src/operation/remove_kvmeta.rs:41-58 | a server's block counter moves by the distinct blocks that enter or leave the local index, not below zero; no other counter moves |
| SharedState.StampedAt | cedfs-kv/src/lib.rs:1104-1108 | exactly the migrated blocks are stamped with the time |
| SharedState.Shared.InsertGlobalKvcache | cedfs-kv/src/lib.rs:328-355 | a known block keeps the servers both sides list, and goes with its global count when there are none |
| SharedState.Shared.ExecuteUpdateKvop | cedfs-kv/src/lib.rs:416-490 | table and counts after each kind of operation, unknown blocks and unknown operations included |
| SharedState.Shared.RemoveServerFromKvMeta | cedfs-kv/src/lib.rs:553-584 | the server leaves the block; the last one takes the entry along |
| SharedState.Shared.UpdateKvMetaAfterMigration | cedfs-kv/src/lib.rs:1135-1149 | replica, local index, counter, count and pending operation of one migrated block |
| SharedState.Shared.RemoveKvMeta | cedfs-kv/src/operation/remove_kvmeta.rs:15-103 | the whole state after a removal request, hashes that are not 32 bytes being skipped |
| SharedState.Shared.RemoveOne | cedfs-kv/src/operation/remove_kvmeta.rs:41-94 | the whole state after one pass of the loop |
| SharedState.Shared.InsertLocalKvcache | cedfs-kv/src/lib.rs:303-318 | a new local block is indexed and counted, a known one is not |
| Migration.ScanVisitsEachOnce | cedfs-kv/src/lib.rs:1029-1031 | from any start the modular scan visits every position at exactly one step |
| Migration.PickTarget | cedfs-kv/src/lib.rs:1029-1060 | the first candidate in cyclic order that misses a gated block, or none exactly when no candidate does |
| Migration.PassGate | cedfs-kv/src/lib.rs:1005-1015 | the gated list is the longest prefix with concurrency at least 2 |
| Migration.KnownPositions | cedfs-kv/src/lib.rs:985-999 | the known hashes are exactly the entries of the load in the table, in order, each with its own concurrency and the offset and replica count of the table |
| Migration.GatedPositions | cedfs-kv/src/lib.rs:985-1015 | the hashes sent are those of the known entries up to the first of concurrency below 2 |
| Migration.MatchesIsListedByAll | cedfs-kv/src/lib.rs:1033-1043 | a target matches exactly when every gated block lists it |
| Migration.SkipReasons | cedfs-kv/src/lib.rs:961-1065 | exactly when each of the five reasons is given |
| Migration.SettledEntry | cedfs-kv/src/lib.rs:1101-1128 | a positive status appends the target to the sent blocks that lack it, status -1 takes the source off them, any other reply changes nothing |
| Migration.LedgerBalances | cedfs-kv/src/lib.rs:1101-1131 | what was sent is all success, all not found or all failure by the status; known and missing make the total |
| Migration.CandidatesAreListed | cedfs-kv/src/lib.rs:966-978 | a candidate is a server of some group other than the source |
| Migration.EarlierListedFirst | cedfs-kv/src/lib.rs:966-978 | later groups, and later members of a group, only append candidates |
| Migration.CyclicStep | cedfs-kv/src/lib.rs:1029-1031 | step k of the scan is the start plus k, wrapped once |
| Migration.CommentedGateIff | cedfs-kv/src/lib.rs:1005-1015 | the gate of the commented-out lines is never the wider one, and equal if and only if every gated block has twice its replicas in concurrency |
| Migration.GatesDiffer | cedfs-kv/src/lib.rs:1005-1015 | two replicas and a concurrency of two pass the gate of the code only |
| Migration.ResolveKnown | cedfs-kv/src/lib.rs:985-999 | the known hashes in order, and known plus missing equals total |
| Migration.BuildCandidates | cedfs-kv/src/lib.rs:966-979 | the candidates in the order built: every known server at its first listing, the source left out, for any order of the groups |
| Migration.FirstLackingIsUnique | cedfs-kv/src/lib.rs:1029-1060 | the first candidate in cyclic order that misses a block is one server only |
| Migration.RotationIffNoWrap | cedfs-kv/src/lib.rs:1023-1026 | n consecutive calls start at each of n candidates exactly once if and only if the 64-bit counter does not wrap on the way or n divides its range |
| Migration.RoundTriesLacking | cedfs-kv/src/lib.rs:1021-1066 | after such a round of calls that change nothing, every target lacking a block has been tried |
| Migration.MigrationCompletesTarget | cedfs-kv/src/lib.rs:1101-1109 | a successful migration completes its target and no other, so one target fewer is incomplete |
| Migration.MigrationsMakeProgress | cedfs-kv/src/lib.rs:1021-1066 | over any run of valid picks the number of incomplete targets drops by one per call, down to none |
| Migration.GatedAfterAdd | cedfs-kv/src/lib.rs:985-1015 | granting replicas leaves the gated list unchanged |
| Migration.NothingToMigrate | cedfs-kv/src/lib.rs:961-1065 | a call that skips leaves no target lacking a gated block |
| SharedState.Shared.MigrateHashSeq | cedfs-kv/src/lib.rs:950-1132 | the ledger at every return, the reason for every skip, a selected target that is never the source and is the first candidate, in cyclic order from the counter, that misses a block, and the whole state after each kind of reply |
| SharedState.Shared.MigrateWhileFailing | cedfs-kv/src/lib.rs:950-1132 | while every transfer fails nothing changes but the counter, and each call's target is the one its own starting point gives |
| SharedState.Shared.PlanMigration | cedfs-kv/src/lib.rs:961-1019 | the four early returns and what they leave in the result |
| Migration.AllTriedIffStartsEverywhere | cedfs-kv/src/lib.rs:1021-1066 | where every candidate lacks a block, such a round tries all of them if and only if it starts everywhere once |
| SharedState.Shared.SettleReply | cedfs-kv/src/lib.rs:1089-1129 | success, not-found and failure: bookings and effects |
| SharedState.Shared.MigrateUntilComplete | cedfs-kv/src/lib.rs:950-1132 | from any round-robin counter, as many successful calls as there are incomplete targets complete them all |

## Left out

- Servers and clients over gRPC and HTTP, configuration, tokenizers, logging, command line: input and output only. The
  reply to a transfer request is a parameter.
- SHA-256, bincode and serde_cbor: the digest is a function field; what is needed of it is the stated hypothesis.
- The other hash algorithms (builtin, sha256 over bincode, cross-language): the model hashes with the CBOR algorithm; of
  the cross-language one only the prefix normalisation is modelled.
- Interleavings of concurrent calls on the concurrent maps: every call is one step, in particular snapshot and clear in
  the sync, and the removal inside `insert_global_kvcache` while its guard is held. A map's order of iteration is any
  order where the source only visits its entries, and a value where it decides the order of migration candidates.
- Arithmetic at the width of counters: reference counts, token totals and block counters are unbounded, so 64-bit and
  32-bit overflow of sums is not modelled; offsets, CBOR arguments, chain depths and the round-robin index keep their
  widths.
- Heap and sort of the standard library: the heap is a set whose least element is taken, ties in any way; the sort
  yields any descending order. The library's order by hash bytes among equals is one of the allowed outcomes.
- Popularity.DepthCache.ComputeChainDepth: asks for a ranking, which exists exactly when the recursion ends, a finite
  check of the table (`RankedIffChainsEnd`) that every table built by uploads passes (`LawfulIsRanked`).
- Popularity.TopKPopularity: asks for at most u32::MAX entries, so that every depth fits its 32 bits.
- SharedState.Shared.CreateNewKvblock: asks for an offset of every block it has to make; without one the source panics.
- Wall-clock time: the current time is a parameter; the cooldown filter, the pending-migration map and its clean-up are
  not modelled.
- `get_instance_from_token_hash`, `potential_blocks_and_tokens`, `get_replica_counts`, the batch insert, the remaining
  setters of `RefCount`, server registration and `InferenceLoadTracker`: thin.
- `start_periodic_clear` and its timer: defined and never started by the code; its body is the bulk consolidation, which
  is modelled.
- Convergence between metadata servers: one server is modelled, and peers' messages are inputs to it.
- What the local block index holds after mixed runs: uploads never write it, so after any uploads it is empty
  (`Server.ServeUploads`) while the per-server counters are not.
