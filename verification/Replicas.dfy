// Everything that changes the replica table besides uploads: metadata and replica
// operations from peers, finished migrations, and removals.
module Replicas {
  import opened Types
  import opened PrefixIndex

  // insert_global_kvcache: a known block keeps only the servers both sides list,
  // and disappears when there are none.
  function InsertGlobal(t: Table, m: KvBlockMeta): Table {
    var h := m.tokenHash;
    if h in t then
      var both := Intersect(t[h].servers, m.servers);
      if both == [] then t - {h} else t[h := m.(servers := both)]
    else t[h := m]
  }

  // Taking one server off a block; the last one takes the block with it.
  function RemoveServer(t: Table, h: Hash, s: ServerId): Table {
    if h in t then
      var left := Without(t[h].servers, s);
      if left == [] then t - {h} else t[h := t[h].(servers := left)]
    else t
  }

  // update_kv_meta_after_migration
  function AddReplica(t: Table, h: Hash, s: ServerId): Table {
    if h in t then t[h := t[h].(servers := AddUnique(t[h].servers, s))] else t
  }

  function RemoveAll(t: Table, hs: seq<Hash>, s: ServerId): Table {
    if hs == [] then t else RemoveServer(RemoveAll(t, hs[..|hs| - 1], s), hs[|hs| - 1], s)
  }

  function AddAll(t: Table, hs: seq<Hash>, s: ServerId): Table {
    if hs == [] then t else AddReplica(AddAll(t, hs[..|hs| - 1], s), hs[|hs| - 1], s)
  }

  // execute_update_kvop
  function ExecuteOp(t: Table, op: UpdateKvOp): Table {
    var h := op.tokenHash;
    if h !in t then t
    else if op.operation == ADD_REPLICA then
      InsertGlobal(t, t[h].(servers := AddUnique(t[h].servers, op.server)))
    else if op.operation == DELETE_REPLICA then
      var left := Without(t[h].servers, op.server);
      if left == [] then t - {h} else InsertGlobal(t, t[h].(servers := left))
    else t
  }

  datatype TableOp =
    | Uploaded(server: ServerId, offsets: seq<u32>, hashes: seq<Hash>)
    | PeerMeta(meta: KvBlockMeta)
    | PeerOp(op: UpdateKvOp)
    | Migrated(h: Hash, server: ServerId)
    | Unavailable(h: Hash, server: ServerId)
    | Removed(hashes: seq<Hash>, server: ServerId)

  function Mutate(t: Table, op: TableOp): Table
  {
    match op
    case Uploaded(s, offsets, hs) => Upload(Index(t, map[], map[], map[]), s, offsets, hs).table
    case PeerMeta(m) => InsertGlobal(t, m)
    case PeerOp(o) => ExecuteOp(t, o)
    case Migrated(h, s) => AddReplica(t, h, s)
    case Unavailable(h, s) => RemoveServer(t, h, s)
    case Removed(hs, s) => RemoveAll(t, hs, s)
  }

  ghost function RunTable(t: Table, ops: seq<TableOp>): Table
  {
    if ops == [] then t else Mutate(RunTable(t, ops[..|ops| - 1]), ops[|ops| - 1])
  }

  // The mutators of the runs are those of the server's methods, one block at a time or a list.
  lemma MutatorsMatch(t: Table, m: KvBlockMeta, op: UpdateKvOp, hs: seq<Hash>, h: Hash, s: ServerId)
    ensures Mutate(t, PeerMeta(m)) == InsertGlobal(t, m) && Mutate(t, PeerOp(op)) == ExecuteOp(t, op)
    ensures Mutate(t, Removed(hs, s)) == RemoveAll(t, hs, s)
    ensures Mutate(t, Migrated(h, s)) == AddAll(t, [h], s) && Mutate(t, Unavailable(h, s)) == RemoveAll(t, [h], s)
  {
    assert [h][..0] == [];
  }

  // The table an upload leaves does not depend on the counters and pending updates
  // beside it, so this is the table of every upload.
  lemma UploadIsMutation(ix: Index, s: ServerId, offsets: seq<u32>, hs: seq<Hash>)
    ensures Upload(ix, s, offsets, hs).table == Mutate(ix.table, Uploaded(s, offsets, hs))
  {
    PlacementIgnoresRest(ix, Index(ix.table, map[], map[], map[]), s, offsets, hs, MatchLength(ix.table, s, hs), |hs|);
  }

  lemma {:induction false} PlacementIgnoresRest(ix: Index, jx: Index, s: ServerId, offsets: seq<u32>, hs: seq<Hash>,
                                                lo: nat, hi: nat)
    requires lo <= hi <= |hs| && ix.table == jx.table
    ensures PlaceRange(ix, s, offsets, hs, lo, hi).table == PlaceRange(jx, s, offsets, hs, lo, hi).table
    decreases hi
  {
    hide PlaceBlock, PlacedMeta;
    if lo < hi {
      PlacementIgnoresRest(ix, jx, s, offsets, hs, lo, hi - 1);
      var x, y := PlaceRange(ix, s, offsets, hs, lo, hi - 1), PlaceRange(jx, s, offsets, hs, lo, hi - 1);
      PlaceBlockTable(x, s, offsets, hs, hi - 1);
      PlaceBlockTable(y, s, offsets, hs, hi - 1);
    }
  }

  // ---------- well-formed tables ----------

  ghost predicate WellFormedEntry(t: Table, h: Hash)
    requires h in t
  {
    t[h].tokenHash == h && GoodMeta(t[h])
  }

  ghost predicate WellFormed(t: Table) {
    forall h :: h in t ==> WellFormedEntry(t, h)
  }

  lemma PlaceBlockKeepsWellFormed(ix: Index, s: ServerId, offsets: seq<u32>, hs: seq<Hash>, i: nat)
    requires i < |hs| && WellFormed(ix.table)
    ensures WellFormed(PlaceBlock(ix, s, offsets, hs, i).table)
  {}

  lemma {:induction false} PlaceRangeKeepsWellFormed(ix: Index, s: ServerId, offsets: seq<u32>, hs: seq<Hash>,
                                                     lo: nat, hi: nat)
    requires lo <= hi <= |hs| && WellFormed(ix.table)
    ensures WellFormed(PlaceRange(ix, s, offsets, hs, lo, hi).table)
    decreases hi
  {
    hide PlaceBlock, PlacedMeta, WellFormed;
    if lo < hi {
      PlaceRangeKeepsWellFormed(ix, s, offsets, hs, lo, hi - 1);
      PlaceBlockKeepsWellFormed(PlaceRange(ix, s, offsets, hs, lo, hi - 1), s, offsets, hs, hi - 1);
    }
  }

  lemma UpdateKeepsWellFormed(t: Table, h: Hash, m: KvBlockMeta)
    requires WellFormed(t) && m.tokenHash == h && GoodMeta(m)
    ensures WellFormed(t[h := m])
  {}

  lemma InsertKeepsWellFormed(t: Table, m: KvBlockMeta)
    requires WellFormed(t) && GoodMeta(m)
    ensures WellFormed(InsertGlobal(t, m))
  {}

  lemma RemoveServerKeepsWellFormed(t: Table, h: Hash, s: ServerId)
    requires WellFormed(t)
    ensures WellFormed(RemoveServer(t, h, s))
  {}

  lemma {:induction false} RemoveAllKeepsWellFormed(t: Table, hs: seq<Hash>, s: ServerId)
    requires WellFormed(t)
    ensures WellFormed(RemoveAll(t, hs, s))
  {
    if hs != [] {
      RemoveAllKeepsWellFormed(t, hs[..|hs| - 1], s);
      RemoveServerKeepsWellFormed(RemoveAll(t, hs[..|hs| - 1], s), hs[|hs| - 1], s);
    }
  }

  lemma MutateKeepsWellFormed(t: Table, op: TableOp)
    requires WellFormed(t)
    requires op.PeerMeta? ==> GoodMeta(op.meta)
    ensures WellFormed(Mutate(t, op))
  {
    match op
    case Uploaded(s, offsets, hs) =>
      PlaceRangeKeepsWellFormed(Index(t, map[], map[], map[]), s, offsets, hs, MatchLength(t, s, hs), |hs|);
    case PeerMeta(m) => InsertKeepsWellFormed(t, m);
    case PeerOp(o) =>
      if o.operation == ADD_REPLICA {
        AddReplicaOpIsIdle(t, o);
      } else if o.operation == DELETE_REPLICA {
        DeleteReplicaOpRemovesServer(t, o);
        RemoveServerKeepsWellFormed(t, o.tokenHash, o.server);
      }
    case Migrated(h, s) =>
      if h in t {
        assert WellFormedEntry(t, h);
        UpdateKeepsWellFormed(t, h, t[h].(servers := AddUnique(t[h].servers, s)));
      }
    case Unavailable(h, s) => RemoveServerKeepsWellFormed(t, h, s);
    case Removed(hs, s) => RemoveAllKeepsWellFormed(t, hs, s);
  }

  // As long as peers send well-formed metadata, every run of every mutator keeps
  // the table well formed: keys match, no block is without a replica, and neither
  // replicas nor successors repeat.
  lemma {:induction false} RunKeepsWellFormed(t: Table, ops: seq<TableOp>)
    requires forall k :: 0 <= k < |ops| && ops[k].PeerMeta? ==> GoodMeta(ops[k].meta)
    requires WellFormed(t)
    ensures WellFormed(RunTable(t, ops))
  {
    if ops != [] {
      var n := |ops| - 1;
      assert forall k :: 0 <= k < n ==> ops[..n][k] == ops[k];
      RunKeepsWellFormed(t, ops[..n]);
      MutateKeepsWellFormed(RunTable(t, ops[..n]), ops[n]);
    }
  }

  // ---------- what peers can and cannot change ----------

  // The add-replica operation goes through the intersection and so adds nothing.
  lemma AddReplicaOpIsIdle(t: Table, op: UpdateKvOp)
    requires WellFormed(t) && op.operation == 1
    ensures ExecuteOp(t, op) == t
  {}

  // The delete-replica operation, through the same intersection, removes exactly
  // the named server.
  lemma DeleteReplicaOpRemovesServer(t: Table, op: UpdateKvOp)
    requires WellFormed(t) && op.operation == 2
    ensures ExecuteOp(t, op) == RemoveServer(t, op.tokenHash, op.server)
  {
    var h := op.tokenHash;
    if h in t {
      assert WellFormedEntry(t, h);
      IntersectWithout(t[h].servers, op.server);
    }
  }

  lemma OtherOpsAreIdle(t: Table, op: UpdateKvOp)
    requires op.operation != 1 && op.operation != 2
    ensures ExecuteOp(t, op) == t
  {}

  // An insertion touches its own block only. An unknown block gets the record as it is. A
  // known one takes over the record but for the servers, which are those both list, in the
  // order of the table; it goes exactly when there are none.
  lemma InsertedEntry(t: Table, m: KvBlockMeta, k: Hash)
    ensures var t', h := InsertGlobal(t, m), m.tokenHash;
            && (k != h ==> SameAt(t, t', k))
            && (h !in t ==> h in t' && t'[h] == m)
            && (h in t ==> (h in t' <==> exists s :: s in t[h].servers && s in m.servers))
            && (h in t && h in t' ==>
                  && t'[h].tokenHash == h && t'[h].offset == m.offset && t'[h].preToken == m.preToken
                  && t'[h].nextTokens == m.nextTokens && t'[h].servers == Intersect(t[h].servers, m.servers)
                  && forall s :: s in t'[h].servers <==> s in t[h].servers && s in m.servers)
  {
    var h := m.tokenHash;
    if h in t {
      var both := Intersect(t[h].servers, m.servers);
      if both != [] {
        assert both[0] in both;
      }
    }
  }

  // A removal run touches the listed blocks only, and of those only the list of servers; a
  // block goes exactly when no other server is left.
  lemma {:induction false} RemovedEntry(t: Table, hs: seq<Hash>, s: ServerId, k: Hash)
    ensures var t' := RemoveAll(t, hs, s);
            && (k !in hs ==> SameAt(t, t', k))
            && (k in hs ==> (k in t' <==> k in t && exists x :: x in t[k].servers && x != s))
            && (k in hs && k in t' ==> t'[k] == t[k].(servers := Without(t[k].servers, s)))
  {
    if hs != [] {
      var init, last := hs[..|hs| - 1], hs[|hs| - 1];
      RemovedEntry(t, init, s, k);
      assert hs == init + [last];
      RemovedOnce(RemoveAll(t, init, s), last, s, k);
      if k in init && k in RemoveAll(t, init, s) {
        WithoutTwice(t[k].servers, s);
      }
    }
  }

  lemma RemovedOnce(t: Table, h: Hash, s: ServerId, k: Hash)
    ensures var t' := RemoveServer(t, h, s);
            && (k != h ==> SameAt(t, t', k))
            && (k == h ==> (k in t' <==> k in t && exists x :: x in t[k].servers && x != s))
            && (k == h && k in t' ==> t'[k] == t[k].(servers := Without(t[k].servers, s)))
  {
    if h in t {
      var left := Without(t[h].servers, s);
      if left != [] { assert left[0] in left; }
    }
  }

  lemma {:induction false} WithoutTwice(s: seq<ServerId>, x: ServerId)
    ensures Without(Without(s, x), x) == Without(s, x)
  {
    if s != [] {
      WithoutTwice(s[..|s| - 1], x);
      WithoutIsFilter(Without(s[..|s| - 1], x), x, s[|s| - 1]);
    }
  }

  // A finished migration touches the known blocks of its list only, and appends the server
  // where it is missing.
  lemma {:induction false} GrantedEntry(t: Table, hs: seq<Hash>, s: ServerId, k: Hash)
    ensures var t' := AddAll(t, hs, s);
            && (k in t' <==> k in t)
            && (k in t ==> t'[k] == if k in hs && s !in t[k].servers then t[k].(servers := t[k].servers + [s])
                                    else t[k])
  {
    if hs != [] {
      var init, last := hs[..|hs| - 1], hs[|hs| - 1];
      GrantedEntry(t, init, s, k);
      assert hs == init + [last];
    }
  }

  lemma {:induction false} IntersectOf(s: seq<ServerId>, a: seq<ServerId>, b: seq<ServerId>)
    requires forall y :: y in s ==> (y in a <==> y in b)
    ensures Intersect(s, a) == Intersect(s, b)
  {
    if s != [] {
      assert s[|s| - 1] in s;
      assert forall y :: y in s[..|s| - 1] ==> y in s;
      IntersectOf(s[..|s| - 1], a, b);
    }
  }

  lemma {:induction false} IntersectWithout(s: seq<ServerId>, x: ServerId)
    ensures Intersect(s, Without(s, x)) == Without(s, x)
  {
    if s != [] {
      var init, last := s[..|s| - 1], s[|s| - 1];
      IntersectWithout(init, x);
      IntersectOf(init, Without(s, x), Without(init, x));
    }
  }

  lemma RemoveServerReplicas(t: Table, h: Hash, s: ServerId, s': ServerId, k: Hash)
    ensures Holds(RemoveServer(t, h, s), s', k) <==> Holds(t, s', k) && !(k == h && s' == s)
  {}

  // A removal run takes the server off exactly the listed blocks.
  lemma {:induction false} RemoveAllReplicas(t: Table, hs: seq<Hash>, s: ServerId, s': ServerId, k: Hash)
    ensures Holds(RemoveAll(t, hs, s), s', k) <==> Holds(t, s', k) && !(k in hs && s' == s)
  {
    if hs != [] {
      var init, last := hs[..|hs| - 1], hs[|hs| - 1];
      RemoveAllReplicas(t, init, s, s', k);
      RemoveServerReplicas(RemoveAll(t, init, s), last, s, s', k);
      assert hs == init + [last];
    }
  }

  lemma AddReplicaReplicas(t: Table, h: Hash, s: ServerId, s': ServerId, k: Hash)
    ensures Holds(AddReplica(t, h, s), s', k) <==> Holds(t, s', k) || (k == h && k in t && s' == s)
  {}

  // A finished migration gives the server exactly the known blocks of the list.
  lemma {:induction false} AddAllReplicas(t: Table, hs: seq<Hash>, s: ServerId, s': ServerId, k: Hash)
    ensures Holds(AddAll(t, hs, s), s', k) <==> Holds(t, s', k) || (k in hs && k in t && s' == s)
    ensures k in AddAll(t, hs, s) <==> k in t
    ensures k in t ==> AddAll(t, hs, s)[k] == t[k].(servers := AddAll(t, hs, s)[k].servers)
  {
    if hs != [] {
      var init, last := hs[..|hs| - 1], hs[|hs| - 1];
      AddAllReplicas(t, init, s, s', k);
      AddReplicaReplicas(AddAll(t, init, s), last, s, s', k);
      assert hs == init + [last];
    }
  }

  // Metadata from a peer never adds a replica to a known block and never touches
  // any other block.
  lemma PeerMetaReplicas(t: Table, m: KvBlockMeta, s: ServerId, k: Hash)
    ensures Holds(InsertGlobal(t, m), s, k) <==>
            if k != m.tokenHash then Holds(t, s, k)
            else if k in t then Holds(t, s, k) && s in m.servers
            else s in m.servers
  {}

  // ---------- a hole made by ordinary operations ----------

  // The chain [a, b] with the servers holding each block.
  function PairTable(a: Hash, b: Hash, holdA: seq<ServerId>, holdB: seq<ServerId>): Table {
    map[a := KvBlockMeta(a, 2, ROOT, [b], holdA), b := KvBlockMeta(b, 2, a, [], holdB)]
  }

  // Two servers upload [a, b] and each then drops one of the blocks.
  lemma HoleIsReachable(s: ServerId, other: ServerId, a: Hash, b: Hash)
    requires a != b && s != other
    ensures RunTable(map[], [Uploaded(s, [2, 2], [a, b]), Uploaded(other, [2, 2], [a, b]),
                             Removed([a], s), Removed([b], other)]) == PairTable(a, b, [other], [s])
  {
    hide Mutate, RunTable, PairTable;
    RunOfFour(map[], Uploaded(s, [2, 2], [a, b]), Uploaded(other, [2, 2], [a, b]), Removed([a], s),
              Removed([b], other));
    FirstPair(s, a, b);
    SecondPair(s, other, a, b);
    PairRemovals(s, other, a, b);
  }

  lemma FirstPair(s: ServerId, a: Hash, b: Hash)
    requires a != b
    ensures Mutate(map[], Uploaded(s, [2, 2], [a, b])) == PairTable(a, b, [s], [s])
  {
    PairUploaded(map[], s, a, b);
  }

  lemma SecondPair(s: ServerId, other: ServerId, a: Hash, b: Hash)
    requires a != b && s != other
    ensures Mutate(PairTable(a, b, [s], [s]), Uploaded(other, [2, 2], [a, b]))
         == PairTable(a, b, [s, other], [s, other])
  {
    var t := PairTable(a, b, [s], [s]);
    PairUploaded(t, other, a, b);
    assert [b][..0] == [] && MergeNext([b], [b]) == [b];
    assert PlacedMeta(t, other, [2, 2], [a, b], 0) == KvBlockMeta(a, 2, ROOT, [b], [s, other]);
    assert PlacedMeta(t, other, [2, 2], [a, b], 1) == KvBlockMeta(b, 2, a, [], [s, other]);
  }

  lemma PairRemovals(s: ServerId, other: ServerId, a: Hash, b: Hash)
    requires a != b && s != other
    ensures Mutate(PairTable(a, b, [s, other], [s, other]), Removed([a], s)) == PairTable(a, b, [other], [s, other])
    ensures Mutate(PairTable(a, b, [other], [s, other]), Removed([b], other)) == PairTable(a, b, [other], [s])
  {
    RemoveOneBlock(PairTable(a, b, [s, other], [s, other]), a, s);
    RemoveOneBlock(PairTable(a, b, [other], [s, other]), b, other);
    WithoutOneOfTwo(s, other);
  }

  lemma RunOfFour(t: Table, o1: TableOp, o2: TableOp, o3: TableOp, o4: TableOp)
    ensures RunTable(t, [o1, o2, o3, o4]) == Mutate(Mutate(Mutate(Mutate(t, o1), o2), o3), o4)
  {
    hide Mutate;
    var ops := [o1, o2, o3, o4];
    assert ops[..3] == [o1, o2, o3] && [o1, o2, o3][..2] == [o1, o2] && [o1, o2][..1] == [o1] && [o1][..0] == [];
    assert RunTable(t, [o1]) == Mutate(t, o1);
    assert RunTable(t, [o1, o2]) == Mutate(RunTable(t, [o1]), o2);
    assert RunTable(t, [o1, o2, o3]) == Mutate(RunTable(t, [o1, o2]), o3);
  }

  lemma WithoutOneOfTwo(x: ServerId, y: ServerId)
    requires x != y
    ensures Without([x, y], x) == [y] && Without([x, y], y) == [x]
  {
    var one, two := [x], [x, y];
    assert two[..|two| - 1] == one && one[..|one| - 1] == [];
    assert Without(one[..0], x) == [] && Without(one[..0], y) == [];
    assert Without(one, x) == [] && Without(one, y) == [x];
  }

  lemma RemoveOneBlock(t: Table, h: Hash, s: ServerId)
    ensures RemoveAll(t, [h], s) == RemoveServer(t, h, s)
  {
    assert [h][..0] == [];
  }

  // An upload of [a, b] to a table where the server matches nothing.
  lemma PairUploaded(t: Table, s: ServerId, a: Hash, b: Hash)
    requires a != b && !Holds(t, s, a)
    ensures Mutate(t, Uploaded(s, [2, 2], [a, b]))
         == t[a := PlacedMeta(t, s, [2, 2], [a, b], 0)][b := PlacedMeta(t, s, [2, 2], [a, b], 1)]
  {
    var ix, hs := Index(t, map[], map[], map[]), [a, b];
    assert MatchLength(t, s, hs) == 0;
    var one := PlaceRange(ix, s, [2, 2], hs, 0, 1);
    assert one == PlaceBlock(PlaceRange(ix, s, [2, 2], hs, 0, 0), s, [2, 2], hs, 0);
    PlaceBlockTable(ix, s, [2, 2], hs, 0);
    PlaceBlockTable(one, s, [2, 2], hs, 1);
    PlacedMetaIsLocal(t, one.table, s, [2, 2], hs, 1);
  }

  // One metadata record from a peer that lists a server twice has it credited twice.
  lemma DoubleListingIsCreditedTwice(s: ServerId, a: Hash)
    ensures var t := RunTable(map[], [PeerMeta(KvBlockMeta(a, 2, ROOT, [], [s, s]))]);
            && HeldWithoutGap(t, s, [a])
            && PrefixTokens(t, [a], MatchLength(t, s, [a])) == 2
            && Credit(t, s, [a], WalkLength(t, [a])) == 4
  {
    var t: Table, hs := map[a := KvBlockMeta(a, 2, ROOT, [], [s, s])], [a];
    var ops := [PeerMeta(t[a])];
    assert ops[..0] == [] && RunTable(map[], ops) == t;
    assert MatchedAt(t, s, hs, 0) && WalkedAt(t, hs, 0);
    assert MatchFrom(t, s, hs, 1) == 1 && WalkFrom(t, hs, 1) == 1;
    var one, two := [s], [s, s];
    assert two[..|two| - 1] == one && one[..|one| - 1] == [];
    assert BlockCredit(one[..0], 2, s) == 0;
    assert BlockCredit(one, 2, s) == 2 && BlockCredit(two, 2, s) == 4;
    assert Credit(t, s, hs, 0) == 0 && PrefixTokens(t, hs, 0) == 0;
  }

  // On that table the server is credited for b across the gap, while its own search
  // finds nothing.
  lemma SearchesDisagreeAcrossHole(s: ServerId, other: ServerId, a: Hash, b: Hash)
    requires a != b && s != other
    ensures var t := PairTable(a, b, [other], [s]);
            && MatchLength(t, s, [a, b]) == 0
            && Credit(t, s, [a, b], WalkLength(t, [a, b])) == 2
            && !HeldWithoutGap(t, s, [a, b]) && CreditedOnce(t, s, [a, b], 0)
  {
    var t, hs := PairTable(a, b, [other], [s]), [a, b];
    assert WalkedAt(t, hs, 0) && WalkedAt(t, hs, 1);
    assert WalkFrom(t, hs, 2) == 2 && WalkFrom(t, hs, 1) == 2 && WalkLength(t, hs) == 2;
    CreditOfHolder([other], 2, s);
    CreditOfHolder([s], 2, s);
    assert Credit(t, s, hs, 0) == 0 && Credit(t, s, hs, 1) == 0 && Credit(t, s, hs, 2) == 2;
    assert Credited(t, s, hs[1]) && !Holds(t, s, hs[0]);
  }
}
