// The shared server state: the replica table with its counters, the updates
// waiting to be sent to peers, and the reference counts.
module SharedState {
  import opened Types
  import opened PrefixIndex
  import opened Replicas
  import opened RefCounts
  import opened BlockHash
  import M = Migration

  // One synchronisation message.
  datatype SyncRequest = SyncRequest(metas: Table, counts: map<Hash, nat>, ops: map<Hash, UpdateKvOp>)

  // What a sync sends: nothing at all when there is neither metadata nor a count.
  function SyncMessage(ix: Index, c: Counts): Option<SyncRequest> {
    if ix.newMetas == map[] && c.incremental == map[] then None
    else Some(SyncRequest(ix.newMetas, c.incremental, ix.ops))
  }

  // The raw hashes of a removal request; those that are not 32 bytes are skipped.
  function ParseHashes(raw: seq<Bytes>): seq<Hash> {
    if raw == [] then []
    else
      var rest, last := ParseHashes(raw[..|raw| - 1]), raw[|raw| - 1];
      if |last| != 32 then rest else rest + [Hash(last)]
  }

  function DeleteOps(ops: map<Hash, UpdateKvOp>, hs: seq<Hash>, s: ServerId): map<Hash, UpdateKvOp> {
    if hs == [] then ops
    else
      var h := hs[|hs| - 1];
      DeleteOps(ops, hs[..|hs| - 1], s)[h := UpdateKvOp(h, DELETE_REPLICA, s)]
  }

  function Counted(m: map<ServerId, nat>, s: ServerId): map<ServerId, nat> {
    m[s := Tally(m, s) + 1]
  }

  // The saturating decrement of a server's counter.
  function Uncounted(m: map<ServerId, nat>, s: ServerId): map<ServerId, nat> {
    m[s := if Tally(m, s) > 0 then Tally(m, s) - 1 else 0]
  }

  // Inserting metadata that leaves a block without replicas drops its global count.
  function InsertCounts(t: Table, c: Counts, m: KvBlockMeta): Counts {
    if m.tokenHash in t && Intersect(t[m.tokenHash].servers, m.servers) == []
    then c.(global := c.global - {m.tokenHash}) else c
  }

  // The counts after a peer operation. Deleting the last replica here keeps the
  // global count, unlike the removal request below.
  function OpCounts(t: Table, c: Counts, op: UpdateKvOp): Counts {
    var h := op.tokenHash;
    if h !in t then c
    else if op.operation == ADD_REPLICA then
      InsertCounts(t, c, t[h].(servers := AddUnique(t[h].servers, op.server)))
    else if op.operation == DELETE_REPLICA && Without(t[h].servers, op.server) != [] then
      InsertCounts(t, c, t[h].(servers := Without(t[h].servers, op.server)))
    else c
  }

  // The counts after one removal request: the last replica takes the global count
  // along, and the local counts always go.
  function RemovalCounts(t: Table, c: Counts, h: Hash, s: ServerId): Counts {
    Counts(c.incremental - {h}, c.full - {h},
           if h in t && Without(t[h].servers, s) == [] then c.global - {h} else c.global)
  }

  function RemoveAllCounts(t: Table, c: Counts, hs: seq<Hash>, s: ServerId): Counts {
    if hs == [] then c
    else
      var n := |hs| - 1;
      RemovalCounts(RemoveAll(t, hs[..n], s), RemoveAllCounts(t, c, hs[..n], s), hs[n], s)
  }

  // ---------- what the lists of changes come to ----------

  // The raw hashes of 32 bytes survive, in order, and no others.
  lemma ParsedHashes(raw: seq<Bytes>, b: Bytes)
    ensures ParseHashes([]) == []
    ensures ParseHashes(raw + [b]) == if |b| == 32 then ParseHashes(raw) + [Hash(b)] else ParseHashes(raw)
  {
    var more := raw + [b];
    assert more[..|more| - 1] == raw;
  }

  // A removal queues operation 2 for each of its blocks, a migration operation 1, both over
  // whatever was queued for the block; nothing else in the queue changes.
  lemma {:induction false} QueuedOps(ops: map<Hash, UpdateKvOp>, hs: seq<Hash>, s: ServerId, k: Hash)
    ensures k in hs ==> k in DeleteOps(ops, hs, s) && DeleteOps(ops, hs, s)[k] == UpdateKvOp(k, 2, s)
    ensures k in hs ==> k in AddOps(ops, hs, s) && AddOps(ops, hs, s)[k] == UpdateKvOp(k, 1, s)
    ensures k !in hs ==> SameAt(ops, DeleteOps(ops, hs, s), k) && SameAt(ops, AddOps(ops, hs, s), k)
  {
    if hs != [] {
      var n := |hs| - 1;
      QueuedOps(ops, hs[..n], s, k);
      assert hs == hs[..n] + [hs[n]];
    }
  }

  lemma {:induction false} StampedAt(m: map<Hash, int>, hs: seq<Hash>, now: int, k: Hash)
    ensures k in hs ==> k in Stamp(m, hs, now) && Stamp(m, hs, now)[k] == now
    ensures k !in hs ==> SameAt(m, Stamp(m, hs, now), k)
  {
    if hs != [] {
      var n := |hs| - 1;
      StampedAt(m, hs[..n], now, k);
      assert hs == hs[..n] + [hs[n]];
    }
  }

  // A migration adds one local reference for each time a block is listed.
  lemma {:induction false} GrantedCounts(c: Counts, hs: seq<Hash>, k: Hash)
    ensures var after := AddLocalAll(c, hs);
            && Get(after.full, k) == Get(c.full, k) + multiset(hs)[k] && (k in after.full <==> k in c.full || k in hs)
            && after.incremental == c.incremental && after.global == c.global
  {
    if hs != [] {
      var n := |hs| - 1;
      GrantedCounts(c, hs[..n], k);
      assert hs == hs[..n] + [hs[n]];
      assert multiset(hs)[k] == multiset(hs[..n])[k] + if hs[n] == k then 1 else 0;
    }
  }

  // A server's block counter goes up by the blocks new to the local index, each once, and
  // down by those that leave it, but not below zero. No other counter moves.
  lemma {:induction false} TalliedBlocks(m: map<ServerId, nat>, index: set<Hash>, hs: seq<Hash>, s: ServerId,
                                         x: ServerId)
    ensures Tally(MigratedTally(m, index, hs, s), x) == Tally(m, x) + if x == s then |Elements(hs) - index| else 0
    ensures Tally(RemoveAllTally(m, index, hs, s), x)
         == if x != s then Tally(m, x)
            else if Tally(m, x) >= |Elements(hs) * index| then Tally(m, x) - |Elements(hs) * index| else 0
  {
    if hs != [] {
      var n := |hs| - 1;
      var before, h := Elements(hs[..n]), hs[n];
      TalliedBlocks(m, index, hs[..n], s, x);
      assert hs == hs[..n] + [h];
      assert Elements(hs) == before + {h};
      assert Elements(hs) - index == if h in index then before - index else (before - index) + {h};
      assert Elements(hs) * index == if h in index then (before * index) + {h} else before * index;
      AddToSet(before - index, h);
      AddToSet(before * index, h);
    }
  }

  // What a peer's metadata or operation does to the counts: only a block that loses its last
  // common server to an insertion loses its global count.
  lemma InsertedCounts(t: Table, c: Counts, m: KvBlockMeta, k: Hash)
    ensures var after := InsertCounts(t, c, m);
            && after.incremental == c.incremental && after.full == c.full
            && (if k == m.tokenHash && k in t && !(exists s :: s in t[k].servers && s in m.servers)
                then k !in after.global else SameAt(c.global, after.global, k))
  {
    if m.tokenHash in t {
      var both := Intersect(t[m.tokenHash].servers, m.servers);
      if both != [] { assert both[0] in both; }
    }
  }

  // A removal takes both local counts of every listed block, and the global count of those
  // known blocks that no other server is left to hold.
  lemma {:induction false} RemovedCounts(t: Table, c: Counts, hs: seq<Hash>, s: ServerId, k: Hash)
    ensures var after := RemoveAllCounts(t, c, hs, s);
            && (k in hs ==> k !in after.incremental && k !in after.full)
            && (k !in hs ==> SameAt(c.incremental, after.incremental, k) && SameAt(c.full, after.full, k))
            && (if k in hs && k in t && !(exists x :: x in t[k].servers && x != s) then k !in after.global
                else SameAt(c.global, after.global, k))
  {
    if hs != [] {
      var init, last := hs[..|hs| - 1], hs[|hs| - 1];
      RemovedCounts(t, c, init, s, k);
      assert hs == init + [last];
      RemovedEntry(t, init, s, k);
      var before := RemoveAll(t, init, s);
      if k == last && k in before {
        if k in init { WithoutTwice(t[k].servers, s); }
        assert Without(before[k].servers, s) == Without(t[k].servers, s);
        if Without(t[k].servers, s) != [] { assert Without(t[k].servers, s)[0] in Without(t[k].servers, s); }
      }
    }
  }

  // ---------- counted blocks are known blocks ----------

  ghost predicate CountedAreKnown(t: Table, c: Counts) {
    c.global.Keys <= t.Keys
  }

  // A peer operation leaves a count behind exactly when it deletes the only replica of
  // a counted block.
  lemma PeerOpKeepsCountedKnown(t: Table, c: Counts, op: UpdateKvOp)
    requires WellFormed(t) && CountedAreKnown(t, c)
    ensures OpCounts(t, c, op) == c
    ensures CountedAreKnown(ExecuteOp(t, op), OpCounts(t, c, op)) <==>
            !(op.operation == 2 && op.tokenHash in c.global && t[op.tokenHash].servers == [op.server])
  {
    var h := op.tokenHash;
    if op.operation == ADD_REPLICA {
      AddReplicaOpIsIdle(t, op);
    } else if op.operation == DELETE_REPLICA && h in t {
      DeleteReplicaOpRemovesServer(t, op);
      assert WellFormedEntry(t, h);
      OnlyElement(t[h].servers, op.server);
      IntersectWithout(t[h].servers, op.server);
    }
  }

  lemma OnlyElement(s: seq<ServerId>, x: ServerId)
    requires s != [] && Distinct(s)
    ensures Without(s, x) == [] <==> s == [x]
  {
    if Without(s, x) == [] {
      forall i | 0 <= i < |s| ensures s[i] == x { assert s[i] !in Without(s, x); }
    } else {
      var y := Without(s, x)[0];
      assert y in Without(s, x);
    }
  }

  // The same of a not-found reply, which takes the source off a list of blocks.
  lemma UnavailableKeepsCountedKnown(t: Table, c: Counts, hs: seq<Hash>, s: ServerId)
    requires WellFormed(t) && CountedAreKnown(t, c)
    ensures CountedAreKnown(RemoveAll(t, hs, s), c) <==> forall h :: h in hs && h in c.global ==> t[h].servers != [s]
  {
    RemoveAllKeepsWellFormed(t, hs, s);
    forall h | h in t ensures h in RemoveAll(t, hs, s) <==> !(h in hs && t[h].servers == [s]) {
      AnotherReplicaRemains(t, hs, s, h);
    }
  }

  lemma AnotherReplicaRemains(t: Table, hs: seq<Hash>, s: ServerId, h: Hash)
    requires WellFormed(t) && WellFormed(RemoveAll(t, hs, s)) && h in t
    ensures h in RemoveAll(t, hs, s) <==> !(h in hs && t[h].servers == [s])
  {
    var t' := RemoveAll(t, hs, s);
    assert WellFormedEntry(t, h);
    OnlyElement(t[h].servers, s);
    forall s' ensures Holds(t', s', h) <==> Holds(t, s', h) && !(h in hs && s' == s) {
      RemoveAllReplicas(t, hs, s, s', h);
    }
    if h in t' {
      assert WellFormedEntry(t', h);
      assert Holds(t', t'[h].servers[0], h);
    } else if h !in hs {
      assert Holds(t, t[h].servers[0], h);
    } else if Without(t[h].servers, s) != [] {
      var y := Without(t[h].servers, s)[0];
      assert y in Without(t[h].servers, s);
      assert Holds(t, y, h);
    }
  }

  // A counted block on one server, which a not-found reply reports it does not have.
  lemma UnavailableLeavesCount(h: Hash, s: ServerId)
    ensures var t, c := map[h := KvBlockMeta(h, 2, ROOT, [], [s])], Counts(map[], map[], map[h := 1]);
            var after := M.Settle(t, M.Response(-1), [h], s, s);
            WellFormed(t) && CountedAreKnown(t, c) && h !in after && !CountedAreKnown(after, c)
  {
    var t, c := map[h := KvBlockMeta(h, 2, ROOT, [], [s])], Counts(map[], map[], map[h := 1]);
    UnavailableKeepsCountedKnown(t, c, [h], s);
    RemoveOneBlock(t, h, s);
    OnlyElement([s], s);
  }

  // A counted block on one server, deleted there by a peer: the entry goes, the count stays.
  lemma PeerDeleteLeavesCount(h: Hash, s: ServerId)
    ensures var t, c, op := map[h := KvBlockMeta(h, 2, ROOT, [], [s])], Counts(map[], map[], map[h := 1]),
                            UpdateKvOp(h, DELETE_REPLICA, s);
            && WellFormed(t) && CountedAreKnown(t, c)
            && h !in ExecuteOp(t, op) && OpCounts(t, c, op).global == map[h := 1]
  {
    var t, c, op := map[h := KvBlockMeta(h, 2, ROOT, [], [s])], Counts(map[], map[], map[h := 1]),
                    UpdateKvOp(h, DELETE_REPLICA, s);
    PeerOpKeepsCountedKnown(t, c, op);
    OnlyElement([s], s);
  }

  // A removal request never leaves one behind, and adds nothing to report.
  lemma {:induction false} RemovalKeepsCountedKnown(t: Table, c: Counts, hs: seq<Hash>, s: ServerId)
    ensures CountedAreKnown(t, c) ==> CountedAreKnown(RemoveAll(t, hs, s), RemoveAllCounts(t, c, hs, s))
    ensures c.incremental == map[] ==> RemoveAllCounts(t, c, hs, s).incremental == map[]
  {
    if hs != [] {
      RemovalKeepsCountedKnown(t, c, hs[..|hs| - 1], s);
    }
  }

  // The server's block counter goes down once for every hash found in the local index.
  function RemoveAllTally(m: map<ServerId, nat>, index: set<Hash>, hs: seq<Hash>, s: ServerId): map<ServerId, nat> {
    if hs == [] then m
    else
      var n := |hs| - 1;
      var before := RemoveAllTally(m, index, hs[..n], s);
      if hs[n] in index && hs[n] !in hs[..n] then Uncounted(before, s) else before
  }

  function AddOps(ops: map<Hash, UpdateKvOp>, hs: seq<Hash>, s: ServerId): map<Hash, UpdateKvOp> {
    if hs == [] then ops
    else
      var h := hs[|hs| - 1];
      AddOps(ops, hs[..|hs| - 1], s)[h := UpdateKvOp(h, ADD_REPLICA, s)]
  }

  function MigratedTally(m: map<ServerId, nat>, index: set<Hash>, hs: seq<Hash>, s: ServerId): map<ServerId, nat> {
    if hs == [] then m
    else
      var n := |hs| - 1;
      var before := MigratedTally(m, index, hs[..n], s);
      if hs[n] in index || hs[n] in hs[..n] then before else Counted(before, s)
  }

  function AddLocalAll(c: Counts, hs: seq<Hash>): Counts {
    if hs == [] then c else Apply(AddLocalAll(c, hs[..|hs| - 1]), AddLocal(hs[|hs| - 1], 1))
  }

  function Stamp(m: map<Hash, int>, hs: seq<Hash>, now: int): map<Hash, int> {
    if hs == [] then m else Stamp(m, hs[..|hs| - 1], now)[hs[|hs| - 1] := now]
  }

  class Shared {
    var table: Table
    var blockCount: map<ServerId, nat>
    var newMetas: Table
    var ops: map<Hash, UpdateKvOp>
    var localIndex: set<Hash>
    const refCount: RefCount
    // known data servers, grouped by metadata server, in the map's order of iteration
    var dataServers: seq<seq<ServerId>>
    var recentMigrations: map<Hash, int>
    var rrIndex: u64

    ghost function State(): Index
      reads this
    {
      Index(table, blockCount, newMetas, ops)
    }

    constructor ()
      ensures State() == EMPTY && localIndex == {}
      ensures table == map[] && blockCount == map[] && newMetas == map[] && ops == map[]
      ensures dataServers == [] && recentMigrations == map[] && rrIndex == 0
      ensures fresh(refCount) && refCount.State() == Counts(map[], map[], map[])
    {
      table, blockCount, newMetas, ops, localIndex := map[], map[], map[], map[], {};
      dataServers, recentMigrations, rrIndex := [], map[], 0;
      refCount := new RefCount();
    }

    // ---------- searches ----------

    // search_tokens_with_server
    method SearchTokensWithServer(server: ServerId, hashes: seq<Hash>) returns (matched: nat)
      ensures matched == MatchLength(table, server, hashes)
    {
      if hashes == [] {
        return 0;
      }
      matched := 0;
      var current := hashes[0];
      var i := 0;
      while i < |hashes|
        invariant matched == i <= |hashes|
        invariant i < |hashes| ==> current == hashes[i] && Follows(table, hashes, i)
        invariant MatchFrom(table, server, hashes, i) == MatchLength(table, server, hashes)
      {
        if current !in table {
          break;
        }
        var meta := table[current];
        if server !in meta.servers {
          break;
        }
        assert MatchedAt(table, server, hashes, i);
        matched := matched + 1;
        if i + 1 < |hashes| {
          var next := hashes[i + 1];
          if next in meta.nextTokens {
            current := next;
          } else {
            assert !Follows(table, hashes, i + 1);
            break;
          }
        }
        i := i + 1;
      }
    }

    // The inner loop of search_tokens: a block credits every listed server.
    method CreditServers(counts: map<ServerId, nat>, servers: seq<ServerId>, offset: nat)
      returns (r: map<ServerId, nat>)
      ensures forall s :: Tally(r, s) == Tally(counts, s) + BlockCredit(servers, offset, s)
      ensures forall s :: s in r <==> s in counts || s in servers
    {
      r := counts;
      for k := 0 to |servers|
        invariant forall s :: Tally(r, s) == Tally(counts, s) + BlockCredit(servers[..k], offset, s)
        invariant forall s :: s in r <==> s in counts || s in servers[..k]
      {
        assert servers[..k + 1][..k] == servers[..k];
        assert servers[..k + 1] == servers[..k] + [servers[k]];
        r := r[servers[k] := Tally(r, servers[k]) + offset];
      }
      assert servers[..|servers|] == servers;
    }

    // search_tokens: every server of the linked prefix, with the tokens credited to it.
    method SearchTokens(hashes: seq<Hash>) returns (counts: map<ServerId, nat>)
      ensures forall s :: Tally(counts, s) == Credit(table, s, hashes, WalkLength(table, hashes))
      ensures forall s :: s in counts <==> exists i :: 0 <= i < WalkLength(table, hashes) && Holds(table, s, hashes[i])
    {
      counts := map[];
      if hashes == [] {
        return;
      }
      var current := hashes[0];
      var i := 0;
      while i < |hashes|
        invariant 0 <= i <= |hashes|
        invariant i < |hashes| ==> current == hashes[i] && Follows(table, hashes, i)
        invariant WalkFrom(table, hashes, i) == WalkLength(table, hashes)
        invariant forall s :: Tally(counts, s) == Credit(table, s, hashes, i)
        invariant forall s :: s in counts <==> exists j :: 0 <= j < i && Holds(table, s, hashes[j])
      {
        if current !in table {
          break;
        }
        var meta := table[current];
        assert WalkedAt(table, hashes, i);
        counts := CreditServers(counts, meta.servers, meta.offset);
        i := i + 1;
        if i < |hashes| {
          var next := hashes[i];
          if next in meta.nextTokens {
            current := next;
          } else {
            assert !Follows(table, hashes, i);
            break;
          }
        }
      }
    }

    // ---------- updates of the table ----------

    method InsertUpdateKvcache(meta: KvBlockMeta) returns (updated: bool)
      modifies this`newMetas
      ensures newMetas == old(newMetas)[meta.tokenHash := meta] && updated == (meta.tokenHash in old(newMetas))
    {
      updated := meta.tokenHash in newMetas;
      newMetas := newMetas[meta.tokenHash := meta];
    }

    method InsertUpdateKvop(op: UpdateKvOp) returns (updated: bool)
      modifies this`ops
      ensures ops == old(ops)[op.tokenHash := op] && updated == (op.tokenHash in old(ops))
    {
      updated := op.tokenHash in ops;
      ops := ops[op.tokenHash := op];
    }

    method CountBlock(server: ServerId)
      modifies this`blockCount
      ensures blockCount == Counted(old(blockCount), server)
    {
      blockCount := blockCount[server := Tally(blockCount, server) + 1];
    }

    method UncountBlock(server: ServerId)
      modifies this`blockCount
      ensures blockCount == Uncounted(old(blockCount), server)
    {
      var v := Tally(blockCount, server);
      blockCount := blockCount[server := if v > 0 then v - 1 else 0];
    }

    method InsertLocalKvcache(h: Hash, server: ServerId) returns (existed: bool)
      modifies this`localIndex, this`blockCount
      ensures existed == (h in old(localIndex)) && localIndex == old(localIndex) + {h}
      ensures blockCount == if existed then old(blockCount) else Counted(old(blockCount), server)
    {
      existed := h in localIndex;
      if !existed {
        localIndex := localIndex + {h};
        CountBlock(server);
      }
    }

    // Removing a block from the local index uncounts it.
    method RemoveLocalKvcache(h: Hash, server: ServerId)
      modifies this`localIndex, this`blockCount
      ensures localIndex == old(localIndex) - {h}
      ensures blockCount == if h in old(localIndex) then Uncounted(old(blockCount), server) else old(blockCount)
    {
      if h in localIndex {
        localIndex := localIndex - {h};
        UncountBlock(server);
      }
    }

    // insert_global_kvcache: a block that loses its last replica also loses its count.
    method InsertGlobalKvcache(meta: KvBlockMeta) returns (updated: bool)
      modifies this`table, refCount
      ensures table == InsertGlobal(old(table), meta)
      ensures updated == (meta.tokenHash in old(table) && meta.tokenHash in table)
      ensures refCount.State() == InsertCounts(old(table), old(refCount.State()), meta)
    {
      var h := meta.tokenHash;
      if h in table {
        var both := Intersect(table[h].servers, meta.servers);
        if both == [] {
          table := table - {h};
          var _ := refCount.RemoveGlobal(h);
          return false;
        }
        table := table[h := meta.(servers := both)];
        updated := true;
      } else {
        table := table[h := meta];
        updated := false;
      }
    }

    method RemoveGlobalKvcache(h: Hash) returns (meta: Option<KvBlockMeta>)
      modifies this`table
      ensures table == old(table) - {h}
      ensures meta == if h in old(table) then Some(old(table)[h]) else None
    {
      meta := if h in table then Some(table[h]) else None;
      table := table - {h};
    }

    // execute_update_kvop
    method ExecuteUpdateKvop(op: UpdateKvOp)
      modifies this`table, this`localIndex, this`blockCount, refCount
      ensures table == ExecuteOp(old(table), op)
      ensures localIndex == if op.operation == ADD_REPLICA then old(localIndex) + {op.tokenHash}
                            else if op.operation == DELETE_REPLICA then old(localIndex) - {op.tokenHash}
                            else old(localIndex)
      ensures blockCount == if op.operation == ADD_REPLICA && op.tokenHash !in old(localIndex)
                            then Counted(old(blockCount), op.server)
                            else if op.operation == DELETE_REPLICA && op.tokenHash in old(localIndex)
                            then Uncounted(old(blockCount), op.server)
                            else old(blockCount)
      ensures refCount.State() == OpCounts(old(table), old(refCount.State()), op)
    {
      var h := op.tokenHash;
      if op.operation == ADD_REPLICA {
        var _ := InsertLocalKvcache(h, op.server);
        if h in table {
          var meta := table[h];
          if op.server !in meta.servers {
            meta := meta.(servers := meta.servers + [op.server]);
          }
          var _ := InsertGlobalKvcache(meta);
        }
      } else if op.operation == DELETE_REPLICA {
        RemoveLocalKvcache(h, op.server);
        if h in table {
          var meta := table[h].(servers := Without(table[h].servers, op.server));
          if meta.servers == [] {
            var _ := RemoveGlobalKvcache(h);
          } else {
            var _ := InsertGlobalKvcache(meta);
          }
        }
      }
    }

    // remove_server_from_kv_meta
    method RemoveServerFromKvMeta(h: Hash, server: ServerId)
      modifies this`table, this`ops
      ensures table == RemoveServer(old(table), h, server)
      ensures ops == old(ops)[h := UpdateKvOp(h, DELETE_REPLICA, server)]
    {
      var shouldRemove := false;
      if h in table {
        table := table[h := table[h].(servers := Without(table[h].servers, server))];
        shouldRemove := table[h].servers == [];
      }
      if shouldRemove {
        table := table - {h};
      }
      assert table == RemoveServer(old(table), h, server);
      var _ := InsertUpdateKvop(UpdateKvOp(h, DELETE_REPLICA, server));
    }

    // update_kv_meta_after_migration
    method UpdateKvMetaAfterMigration(h: Hash, server: ServerId)
      modifies this`table, this`ops, this`localIndex, this`blockCount, refCount
      ensures table == AddReplica(old(table), h, server)
      ensures ops == old(ops)[h := UpdateKvOp(h, ADD_REPLICA, server)]
      ensures localIndex == old(localIndex) + {h}
      ensures blockCount == if h in old(localIndex) then old(blockCount) else Counted(old(blockCount), server)
      ensures refCount.State() == Apply(old(refCount.State()), AddLocal(h, 1))
    {
      if h in table {
        var meta := table[h];
        if server !in meta.servers {
          table := table[h := meta.(servers := meta.servers + [server])];
        }
      }
      assert table == AddReplica(old(table), h, server);
      var _ := InsertLocalKvcache(h, server);
      var _ := refCount.IncrementLocal(h, 1);
      var _ := InsertUpdateKvop(UpdateKvOp(h, ADD_REPLICA, server));
    }

    // RemoveKvMetaOp::run; localMetaId is the id of this metadata server.
    method RemoveKvMeta(server: ServerId, raw: seq<Bytes>, localMetaId: ServerId)
      modifies this`table, this`ops, this`localIndex, this`blockCount, refCount
      ensures table == RemoveAll(old(table), ParseHashes(raw), server)
      ensures ops == DeleteOps(old(ops), ParseHashes(raw), localMetaId)
      ensures localIndex == old(localIndex) - set h | h in ParseHashes(raw)
      ensures blockCount == RemoveAllTally(old(blockCount), old(localIndex), ParseHashes(raw), server)
      ensures refCount.State() == RemoveAllCounts(old(table), old(refCount.State()), ParseHashes(raw), server)
    {
      var hs := ParseAll(raw);
      hide RemoveServer, RemovalCounts, Uncounted;
      for k := 0 to |hs|
        invariant table == RemoveAll(old(table), hs[..k], server)
        invariant ops == DeleteOps(old(ops), hs[..k], localMetaId)
        invariant localIndex == old(localIndex) - set h | h in hs[..k]
        invariant blockCount == RemoveAllTally(old(blockCount), old(localIndex), hs[..k], server)
        invariant refCount.State() == RemoveAllCounts(old(table), old(refCount.State()), hs[..k], server)
      {
        var h := hs[k];
        assert hs[..k + 1][..k] == hs[..k];
        assert hs[..k + 1] == hs[..k] + [h];
        RemoveOne(h, server, localMetaId);
      }
      assert hs[..|hs|] == hs;
    }

    // The body of the removal loop.
    method RemoveOne(h: Hash, server: ServerId, localMetaId: ServerId)
      modifies this`table, this`ops, this`localIndex, this`blockCount, refCount
      ensures table == RemoveServer(old(table), h, server)
      ensures ops == old(ops)[h := UpdateKvOp(h, DELETE_REPLICA, localMetaId)]
      ensures localIndex == old(localIndex) - {h}
      ensures blockCount == if h in old(localIndex) then Uncounted(old(blockCount), server) else old(blockCount)
      ensures refCount.State() == RemovalCounts(old(table), old(refCount.State()), h, server)
    {
      RemoveLocalKvcache(h, server);
      RemoveReplica(h, server);
      var _ := InsertUpdateKvop(UpdateKvOp(h, DELETE_REPLICA, localMetaId));
      var _, _ := refCount.RemoveLocal(h);
    }

    method ParseAll(raw: seq<Bytes>) returns (hs: seq<Hash>)
      ensures hs == ParseHashes(raw)
    {
      hs := [];
      for k := 0 to |raw|
        invariant hs == ParseHashes(raw[..k])
      {
        assert raw[..k + 1][..k] == raw[..k];
        if |raw[k]| == 32 {
          hs := hs + [Hash(raw[k])];
        }
      }
      assert raw[..|raw|] == raw;
    }

    // The table part of one removal; the last replica takes the global count along.
    method RemoveReplica(h: Hash, server: ServerId)
      modifies this`table, refCount
      ensures table == RemoveServer(old(table), h, server)
      ensures refCount.State() ==
              if h in old(table) && h !in table then old(refCount.State()).(global := old(refCount.globalRefs) - {h})
              else old(refCount.State())
    {
      if h in table {
        var left := Without(table[h].servers, server);
        if left == [] {
          var _ := RemoveGlobalKvcache(h);
          var _ := refCount.RemoveGlobal(h);
        } else {
          table := table[h := table[h].(servers := left)];
        }
      }
    }

    // ---------- uploads ----------

    // The merge of successors into a list, one by one.
    method MergeSuccessors(xs: seq<Hash>, next: seq<Hash>) returns (r: seq<Hash>)
      ensures r == MergeNext(xs, next)
    {
      r := xs;
      for k := 0 to |next|
        invariant r == MergeNext(xs, next[..k])
      {
        assert next[..k + 1][..k] == next[..k];
        if next[k] !in r {
          r := r + [next[k]];
        }
      }
      assert next[..|next|] == next;
    }

    // The body of the loop of create_new_kvblock.
    method PlaceOne(server: ServerId, offsets: seq<u32>, hashes: seq<Hash>, i: nat) returns (replicas: nat)
      requires i < |hashes| && (hashes[i] in table || i < |offsets|)
      modifies this`table, this`blockCount, this`newMetas, this`ops, refCount
      ensures State() == PlaceBlock(old(State()), server, offsets, hashes, i)
      ensures replicas == |PlacedMeta(old(table), server, offsets, hashes, i).servers|
      ensures refCount.State() == old(refCount.State())
    {
      var current := hashes[i];
      var pre := if i > 0 then hashes[i - 1] else ROOT;
      var next := if i + 1 < |hashes| then [hashes[i + 1]] else [];
      if current in table {
        var meta := table[current];
        var merged := MergeSuccessors(meta.nextTokens, next);
        if server !in meta.servers {
          table := table[current := meta.(servers := meta.servers + [server], nextTokens := merged)];
          CountBlock(server);
          var _ := InsertUpdateKvop(UpdateKvOp(current, ADD_REPLICA, server));
          replicas := |meta.servers| + 1;
        } else {
          table := table[current := meta.(nextTokens := merged)];
          replicas := |meta.servers|;
        }
      } else {
        var meta := KvBlockMeta(current, offsets[i], pre, next, [server]);
        CountBlock(server);
        var _ := InsertGlobalKvcache(meta);
        var _ := InsertUpdateKvcache(meta);
        replicas := 1;
      }
    }

    // create_new_kvblock
    method CreateNewKvblock(server: ServerId, offsets: seq<u32>, hashes: seq<Hash>)
      returns (counts: Option<seq<(Hash, nat)>>)
      requires OffsetsSuffice(table, server, offsets, hashes)
      modifies this`table, this`blockCount, this`newMetas, this`ops, refCount
      ensures State() == Upload(old(State()), server, offsets, hashes)
      ensures refCount.State() == old(refCount.State())
      ensures counts == if hashes == [] then None
                        else Some(ReplicaCounts(old(State()), server, offsets, hashes,
                                                MatchLength(old(table), server, hashes), |hashes|))
    {
      if hashes == [] {
        return None;
      }
      var matched := SearchTokensWithServer(server, hashes);
      hide PlaceBlock, PlacedMeta, OffsetsSuffice, MatchLength;
      var replicaCounts: seq<(Hash, nat)> := [];
      for i := matched to |hashes|
        invariant State() == PlaceRange(old(State()), server, offsets, hashes, matched, i)
        invariant refCount.State() == old(refCount.State())
        invariant replicaCounts == ReplicaCounts(old(State()), server, offsets, hashes, matched, i)
      {
        OffsetIsGiven(old(State()), server, offsets, hashes, i);
        var replicas := PlaceOne(server, offsets, hashes, i);
        replicaCounts := replicaCounts + [(hashes[i], replicas)];
      }
      counts := Some(replicaCounts);
    }

    // UploadKvMetaOp::run: hash the tokens, index the blocks, count them.
    method UploadKvMeta(server: ServerId, tokens: seq<Token>, hasher: TokenHasher, blockSize: nat)
      requires blockSize > 0
      modifies this`table, this`blockCount, this`newMetas, this`ops, refCount
      ensures var blocks := hasher.HashBlocks(tokens, blockSize);
              && State() == Upload(old(State()), server, Offsets(blocks), Hashes(blocks))
              && refCount.State() == Apply(old(refCount.State()), AddBatch(Hashes(blocks), 1))
    {
      var blocks := hasher.HashTokensWithBlocksAll(tokens, blockSize);
      var hashes, offsets := Hashes(blocks), Offsets(blocks);
      var _ := CreateNewKvblock(server, offsets, hashes);
      refCount.BatchIncrementLocalIncremental(hashes, 1);
    }

    // ---------- synchronisation ----------

    // The drain and decision of sync_metadata. Counts are never dropped; pending
    // replica operations are, exactly when there is nothing else to send.
    method SyncMetadata() returns (request: Option<SyncRequest>)
      modifies this`newMetas, this`ops, refCount
      ensures newMetas == map[] && ops == map[]
      ensures refCount.State() == Apply(old(refCount.State()), Sync)
      ensures request == SyncMessage(old(State()), old(refCount.State()))
      ensures request.None? <==> old(newMetas) == map[] && old(refCount.localIncremental) == map[]
      ensures request.Some? ==> request.value.metas == old(newMetas) && request.value.ops == old(ops)
      ensures request.Some? ==> request.value.counts == old(refCount.localIncremental)
    {
      var metas := newMetas;
      newMetas := map[];
      var pendingOps := ops;
      ops := map[];
      var counts := refCount.SnapshotAndConsolidate();
      if metas == map[] && counts == map[] {
        return None;
      }
      request := Some(SyncRequest(metas, counts, pendingOps));
    }

    // A removal request between two syncs: its delete operations are pending before the
    // second sync, which sends nothing and forgets them.
    method SyncRemoveSync(server: ServerId, raw: seq<Bytes>, localMetaId: ServerId)
      returns (pending: map<Hash, UpdateKvOp>, last: Option<SyncRequest>)
      modifies this`table, this`newMetas, this`ops, this`localIndex, this`blockCount, refCount
      ensures pending == DeleteOps(map[], ParseHashes(raw), localMetaId)
      ensures last.None? && ops == map[]
    {
      var _ := SyncMetadata();
      RemovalKeepsCountedKnown(table, refCount.State(), ParseHashes(raw), server);
      RemoveKvMeta(server, raw, localMetaId);
      pending := ops;
      last := SyncMetadata();
    }

    // ---------- round-robin migration ----------

    ghost function Targets(source: ServerId): (targets: set<ServerId>)
      reads this`dataServers
      ensures source !in targets
    {
      M.ServersOf(dataServers) - {source}
    }

    // What a successful transfer records.
    method RecordMigrations(hashes: seq<Hash>, target: ServerId, now: int)
      modifies this`table, this`ops, this`localIndex, this`blockCount, this`recentMigrations, refCount
      ensures table == AddAll(old(table), hashes, target)
      ensures recentMigrations == Stamp(old(recentMigrations), hashes, now)
      ensures ops == AddOps(old(ops), hashes, target)
      ensures localIndex == old(localIndex) + set h | h in hashes
      ensures blockCount == MigratedTally(old(blockCount), old(localIndex), hashes, target)
      ensures refCount.State() == AddLocalAll(old(refCount.State()), hashes)
    {
      hide AddReplica, Apply, Counted;
      for k := 0 to |hashes|
        invariant table == AddAll(old(table), hashes[..k], target)
        invariant recentMigrations == Stamp(old(recentMigrations), hashes[..k], now)
        invariant ops == AddOps(old(ops), hashes[..k], target)
        invariant localIndex == old(localIndex) + set h | h in hashes[..k]
        invariant blockCount == MigratedTally(old(blockCount), old(localIndex), hashes[..k], target)
        invariant refCount.State() == AddLocalAll(old(refCount.State()), hashes[..k])
      {
        assert hashes[..k + 1][..k] == hashes[..k];
        assert hashes[..k + 1] == hashes[..k] + [hashes[k]];
        UpdateKvMetaAfterMigration(hashes[k], target);
        recentMigrations := recentMigrations[hashes[k] := now];
      }
      assert hashes[..|hashes|] == hashes;
    }

    // What a not-found reply records.
    method RecordUnavailable(hashes: seq<Hash>, source: ServerId)
      modifies this`table, this`ops
      ensures table == RemoveAll(old(table), hashes, source)
      ensures ops == DeleteOps(old(ops), hashes, source)
    {
      for k := 0 to |hashes|
        invariant table == RemoveAll(old(table), hashes[..k], source)
        invariant ops == DeleteOps(old(ops), hashes[..k], source)
      {
        assert hashes[..k + 1][..k] == hashes[..k];
        RemoveServerFromKvMeta(hashes[k], source);
      }
      assert hashes[..|hashes|] == hashes;
    }

    // The scan of migrate_hash_seq_with_rr_target: the round-robin counter moves on
    // whether or not a target is found.
    method ChooseTarget(candidates: seq<ServerId>, hashes: seq<Hash>) returns (target: Option<ServerId>)
      requires candidates != []
      modifies this`rrIndex
      ensures rrIndex == (old(rrIndex) + 1) % TWO_TO_THE_64
      ensures target.None? <==> forall s :: s in candidates ==> M.Matches(table, s, hashes)
      ensures target.Some? ==> M.FirstLacking(table, candidates, hashes, old(rrIndex) % |candidates|, target.value)
    {
      var start := rrIndex % |candidates|;
      rrIndex := (rrIndex + 1) % TWO_TO_THE_64;
      target := M.PickTarget(table, candidates, hashes, start);
      if target.Some? {
        M.FirstLackingIsLacking(table, candidates, hashes, start, target.value);
      }
    }

    // The recording of a reply, and how the hashes sent are booked.
    method SettleReply(reply: M.Reply, hashes: seq<Hash>, target: ServerId, source: ServerId, now: int)
      returns (success: nat, fail: nat, notFound: nat)
      modifies this`table, this`ops, this`localIndex, this`blockCount, this`recentMigrations, refCount
      ensures success == if M.Succeeds(reply) then |hashes| else 0
      ensures notFound == if M.NotFound(reply) then |hashes| else 0
      ensures fail == if M.Succeeds(reply) || M.NotFound(reply) then 0 else |hashes|
      ensures table == M.Settle(old(table), reply, hashes, target, source)
      ensures recentMigrations == if M.Succeeds(reply) then Stamp(old(recentMigrations), hashes, now)
                                  else old(recentMigrations)
      ensures ops == if M.Succeeds(reply) then AddOps(old(ops), hashes, target)
                     else if M.NotFound(reply) then DeleteOps(old(ops), hashes, source) else old(ops)
      ensures localIndex == if M.Succeeds(reply) then old(localIndex) + (set h | h in hashes) else old(localIndex)
      ensures blockCount == if M.Succeeds(reply) then MigratedTally(old(blockCount), old(localIndex), hashes, target)
                            else old(blockCount)
      ensures refCount.State() == if M.Succeeds(reply) then AddLocalAll(old(refCount.State()), hashes)
                                  else old(refCount.State())
    {
      success, fail, notFound := 0, 0, 0;
      match reply
      case Response(status) =>
        if status > 0 {
          success := |hashes|;
          RecordMigrations(hashes, target, now);
        } else if status == -1 {
          notFound := |hashes|;
          RecordUnavailable(hashes, source);
        } else {
          fail := |hashes|;
        }
      case TransportError =>
        fail := |hashes|;
    }

    // The steps before the scan: candidates, known metadata and the gate.
    method PlanMigration(source: ServerId, load: seq<M.HashLoad>)
      returns (result: M.MigrationResult, candidates: seq<ServerId>, hashes: seq<Hash>)
      ensures result.selected.None? && result.skipped == M.EarlySkip(table, load, Targets(source))
      ensures M.Planned(result, table, load, Targets(source))
      ensures result.skipped.None? ==>
                candidates == M.CandidateList(dataServers, source) != [] && hashes == M.Gated(table, load)
    {
      candidates, hashes := [], [];
      result := M.MigrationResult(0, None, |load|, 0, 0, 0, 0, 0, 0, None);
      if load == [] {
        result := result.(skipped := Some("empty_hash_seq"));
        return;
      }
      candidates := M.BuildCandidates(dataServers, source);
      ghost var targets := Targets(source);
      assert targets == Elements(candidates);
      DistinctCardinality(candidates);
      result := result.(candidateCount := |candidates|);
      if candidates == [] {
        result := result.(skipped := Some("no_target_candidates"));
        return;
      }
      assert candidates[0] in targets;
      var known, missing := M.ResolveKnown(table, load);
      result := result.(knownMetaCount := |known|, missingMetaCount := missing);
      if known == [] {
        result := result.(skipped := Some("no_known_meta"));
        return;
      }
      var gated := M.PassGate(known);
      if gated == [] {
        result := result.(skipped := Some("below_replica_concurrency_gate"));
        return;
      }
      hashes := M.HashesOf(gated);
    }

    // migrate_hash_seq_with_rr_target, with the reply of the source server given.
    method MigrateHashSeq(source: ServerId, load: seq<M.HashLoad>, reply: M.Reply, now: int)
      returns (result: M.MigrationResult)
      modifies this`table, this`ops, this`localIndex, this`blockCount, this`recentMigrations, this`rrIndex, refCount
      ensures result.skipped == M.SkipReason(old(table), load, Targets(source))
      ensures result.selected.Some? <==> result.skipped.None?
      ensures M.Ledger(result, old(table), load, Targets(source), reply)
      ensures result.selected.Some? ==>
                && result.selected.value != source
                && result.selected.value in M.Lacking(old(table), Targets(source), M.Gated(old(table), load))
      ensures result.selected.Some? ==>
                var candidates := M.CandidateList(dataServers, source);
                candidates != [] && M.FirstLacking(old(table), candidates, M.Gated(old(table), load),
                                                   old(rrIndex) % |candidates|, result.selected.value)
      ensures result.selected.None? ==>
                table == old(table) && ops == old(ops) && localIndex == old(localIndex) && blockCount == old(blockCount)
                && recentMigrations == old(recentMigrations) && refCount.State() == old(refCount.State())
      ensures result.selected.Some? ==>
                var gated, target := M.Gated(old(table), load), result.selected.value;
                && table == M.Settle(old(table), reply, gated, target, source)
                && recentMigrations == (if M.Succeeds(reply) then Stamp(old(recentMigrations), gated, now)
                                        else old(recentMigrations))
                && ops == (if M.Succeeds(reply) then AddOps(old(ops), gated, target)
                           else if M.NotFound(reply) then DeleteOps(old(ops), gated, source) else old(ops))
                && localIndex == (if M.Succeeds(reply) then old(localIndex) + (set h | h in gated) else old(localIndex))
                && blockCount == (if M.Succeeds(reply)
                                  then MigratedTally(old(blockCount), old(localIndex), gated, target)
                                  else old(blockCount))
                && refCount.State() == (if M.Succeeds(reply) then AddLocalAll(old(refCount.State()), gated)
                                        else old(refCount.State()))
      ensures rrIndex == if result.selected.Some? || result.skipped == Some("all_targets_fully_matched")
                         then (old(rrIndex) + 1) % TWO_TO_THE_64 else old(rrIndex)
    {
      hide M.Ledger, M.Planned, M.Gated, M.FirstLacking, M.CandidateList, M.Settle, M.ServersOf, M.Lacking;
      var candidates, hashes;
      result, candidates, hashes := PlanMigration(source, load);
      if result.skipped.Some? {
        M.LedgerOfSkip(result, table, load, Targets(source), reply, result.skipped);
        assert result.(skipped := result.skipped) == result;
        return;
      }
      var target := ChooseTarget(candidates, hashes);
      if target.None? {
        M.NoneIsLacking(table, dataServers, source, hashes);
        M.LedgerOfSkip(result, table, load, Targets(source), reply, Some("all_targets_fully_matched"));
        return result.(skipped := Some("all_targets_fully_matched"));
      }
      ghost var planned, t := result, table;
      M.ChosenIsLacking(table, dataServers, source, hashes, old(rrIndex) % |candidates|, target.value);
      result := result.(selected := target, toMigrateCount := |hashes|);
      var success, fail, notFound := SettleReply(reply, hashes, target.value, source, now);
      result := result.(successCount := success, failCount := fail, notFoundCount := notFound);
      M.LedgerAfterReply(planned, t, load, Targets(source), reply, target.value);
    }

    // Repeating a request whose transfers all succeed: each call completes one more
    // target, and after as many calls as there were incomplete targets all hold the
    // gated sequence, wherever the round-robin counter started.
    method MigrateUntilComplete(source: ServerId, load: seq<M.HashLoad>, now: int) returns (calls: nat)
      modifies this`table, this`ops, this`localIndex, this`blockCount, this`recentMigrations, this`rrIndex, refCount
      ensures M.Gated(table, load) == M.Gated(old(table), load)
      ensures calls == |M.Lacking(old(table), Targets(source), M.Gated(old(table), load))|
      ensures forall s :: s in Targets(source) ==> M.Matches(table, s, M.Gated(old(table), load))
    {
      calls := 0;
      ghost var targets := Targets(source);
      ghost var hashes := M.Gated(table, load);
      ghost var incomplete := |M.Lacking(table, targets, hashes)|;
      var done := false;
      while !done
        invariant M.Gated(table, load) == hashes && Targets(source) == targets
        invariant calls + |M.Lacking(table, targets, hashes)| == incomplete
        invariant done ==> M.Lacking(table, targets, hashes) == {}
        decreases |M.Lacking(table, targets, hashes)|, !done
      {
        ghost var t := table;
        var result := MigrateHashSeq(source, load, M.Response(1), now);
        if result.selected.None? {
          M.NothingToMigrate(t, load, targets);
          done := true;
        } else {
          M.GatedInTable(t, load);
          M.GatedAfterAdd(t, load, hashes, result.selected.value);
          M.MigrationCompletesTarget(t, targets, hashes, result.selected.value);
          calls := calls + 1;
        }
      }
      forall s | s in targets ensures M.Matches(table, s, hashes) {
        assert s !in M.Lacking(table, targets, hashes);
      }
    }

    // All that a migration call may change, except the round-robin counter.
    ghost function Records(): (Index, set<Hash>, map<Hash, int>, Counts)
      reads this, refCount
    {
      (State(), localIndex, recentMigrations, refCount.State())
    }

    // A transfer that fails changes nothing but the round-robin counter.
    method MigrateAndFail(source: ServerId, load: seq<M.HashLoad>, reply: M.Reply, now: int) returns (target: ServerId)
      requires M.Fails(reply) && M.SkipReason(table, load, Targets(source)).None?
      modifies this`table, this`ops, this`localIndex, this`blockCount, this`recentMigrations, this`rrIndex, refCount
      ensures table == old(table) && ops == old(ops) && localIndex == old(localIndex) && blockCount == old(blockCount)
      ensures newMetas == old(newMetas) && recentMigrations == old(recentMigrations)
      ensures refCount.State() == old(refCount.State()) && Records() == old(Records())
      ensures rrIndex == (old(rrIndex) + 1) % TWO_TO_THE_64
      ensures var candidates := M.CandidateList(dataServers, source);
              candidates != [] && M.FirstLacking(table, candidates, M.Gated(table, load),
                                                 old(rrIndex) % |candidates|, target)
    {
      hide M.Gated, M.FirstLacking, M.CandidateList, M.ServersOf, M.Lacking, M.SkipReason, M.Ledger;
      var result := MigrateHashSeq(source, load, reply, now);
      target := result.selected.value;
    }

    // One more of a round of failing calls that began with the counter at first.
    method TryOnceMore(source: ServerId, load: seq<M.HashLoad>, reply: M.Reply, now: int, ghost first: u64,
                       tried: seq<ServerId>)
      returns (more: seq<ServerId>)
      requires M.Fails(reply) && M.SkipReason(table, load, Targets(source)).None?
      requires M.CandidateList(dataServers, source) != [] && rrIndex == M.CountOn(first, |tried|)
      requires M.RoundRobin(table, M.CandidateList(dataServers, source), M.Gated(table, load), first, tried)
      modifies this`table, this`ops, this`localIndex, this`blockCount, this`recentMigrations, this`rrIndex, refCount
      ensures Records() == old(Records()) && table == old(table)
      ensures |more| == |tried| + 1 && rrIndex == M.CountOn(first, |more|)
      ensures M.RoundRobin(table, M.CandidateList(dataServers, source), M.Gated(table, load), first, more)
    {
      hide *;
      ghost var candidates := M.CandidateList(dataServers, source);
      ghost var hashes := M.Gated(table, load);
      M.CountOnce(first, |tried|, |candidates|);
      var target := MigrateAndFail(source, load, reply, now);
      M.OneMoreTried(table, candidates, hashes, first, tried, target);
      more := tried + [target];
    }

    // Repeating a request whose transfers all fail: the calls go round the targets that
    // lack a block, each starting its scan one candidate further on.
    method MigrateWhileFailing(source: ServerId, load: seq<M.HashLoad>, replies: seq<M.Reply>, now: int)
      returns (tried: seq<ServerId>)
      requires forall reply :: reply in replies ==> M.Fails(reply)
      requires M.SkipReason(table, load, Targets(source)).None?
      modifies this`table, this`ops, this`localIndex, this`blockCount, this`recentMigrations, this`rrIndex, refCount
      ensures Records() == old(Records()) && table == old(table)
      ensures |tried| == |replies| && rrIndex == M.CountOn(old(rrIndex), |replies|)
      ensures var candidates := M.CandidateList(dataServers, source);
              candidates != [] && M.RoundRobin(table, candidates, M.Gated(table, load), old(rrIndex), tried)
    {
      ghost var first, records, t := rrIndex, Records(), table;
      M.SomeCandidate(table, load, dataServers, source);
      M.NoneTried(table, M.CandidateList(dataServers, source), M.Gated(table, load), first);
      M.CountOnce(first, 0, 1);
      hide *;
      tried := [];
      for k := 0 to |replies|
        invariant Records() == records && table == t
        invariant |tried| == k && rrIndex == M.CountOn(first, k)
        invariant M.RoundRobin(table, M.CandidateList(dataServers, source), M.Gated(table, load), first, tried)
      {
        tried := TryOnceMore(source, load, replies[k], now, first, tried);
      }
    }
  }
}
