// The prefix index as a value: which blocks are known, how they are linked and
// which servers hold them; what the searches find in it and what an upload does.
module PrefixIndex {
  import opened Types
  import opened Lineages

  type Table = map<Hash, KvBlockMeta>

  // The table with the counters and the pending updates an upload writes.
  datatype Index = Index(
    table: Table,
    blockCount: map<ServerId, nat>,
    newMetas: Table,
    ops: map<Hash, UpdateKvOp>)

  const EMPTY: Index := Index(map[], map[], map[], map[])

  predicate Holds(t: Table, s: ServerId, h: Hash) {
    h in t && s in t[h].servers
  }

  predicate Linked(t: Table, a: Hash, b: Hash) {
    a in t && b in t[a].nextTokens
  }

  // The search may move on to position i: it is the start, or the block before links to it.
  predicate Follows(t: Table, hs: seq<Hash>, i: nat)
    requires i < |hs|
  {
    i == 0 || Linked(t, hs[i - 1], hs[i])
  }

  function Tally(m: map<ServerId, nat>, s: ServerId): nat {
    if s in m then m[s] else 0
  }

  // ---------- the per-server search ----------

  ghost predicate Matched(t: Table, s: ServerId, hs: seq<Hash>, n: nat) {
    n <= |hs| && forall i :: 0 <= i < n ==> MatchedAt(t, s, hs, i)
  }

  predicate MatchedAt(t: Table, s: ServerId, hs: seq<Hash>, i: nat)
    requires i < |hs|
  {
    Holds(t, s, hs[i]) && Follows(t, hs, i)
  }

  function MatchFrom(t: Table, s: ServerId, hs: seq<Hash>, i: nat): (n: nat)
    requires i <= |hs|
    ensures i <= n <= |hs|
    decreases |hs| - i
  {
    if i < |hs| && MatchedAt(t, s, hs, i) then MatchFrom(t, s, hs, i + 1) else i
  }

  function MatchLength(t: Table, s: ServerId, hs: seq<Hash>): (n: nat)
    ensures n <= |hs|
  {
    MatchFrom(t, s, hs, 0)
  }

  lemma {:induction false} MatchFromIsLongest(t: Table, s: ServerId, hs: seq<Hash>, i: nat)
    requires Matched(t, s, hs, i)
    ensures var n := MatchFrom(t, s, hs, i); Matched(t, s, hs, n) && (n < |hs| ==> !Matched(t, s, hs, n + 1))
    decreases |hs| - i
  {
    if i < |hs| && MatchedAt(t, s, hs, i) {
      MatchFromIsLongest(t, s, hs, i + 1);
    }
  }

  lemma MatchPrefixes(t: Table, s: ServerId, hs: seq<Hash>, n: nat)
    ensures Matched(t, s, hs, n) ==> forall k: nat :: k <= n ==> Matched(t, s, hs, k)
  {}

  // The per-server search returns the longest linked prefix the server holds.
  lemma MatchIsLongest(t: Table, s: ServerId, hs: seq<Hash>, n: nat)
    ensures n == MatchLength(t, s, hs) <==> Matched(t, s, hs, n) && (n < |hs| ==> !Matched(t, s, hs, n + 1))
  {
    MatchFromIsLongest(t, s, hs, 0);
    var m := MatchLength(t, s, hs);
    MatchPrefixes(t, s, hs, m);
    MatchPrefixes(t, s, hs, n);
  }

  // ---------- the token search ----------

  ghost predicate Walked(t: Table, hs: seq<Hash>, n: nat) {
    n <= |hs| && forall i :: 0 <= i < n ==> WalkedAt(t, hs, i)
  }

  predicate WalkedAt(t: Table, hs: seq<Hash>, i: nat)
    requires i < |hs|
  {
    hs[i] in t && Follows(t, hs, i)
  }

  function WalkFrom(t: Table, hs: seq<Hash>, i: nat): (n: nat)
    requires i <= |hs|
    ensures i <= n <= |hs|
    decreases |hs| - i
  {
    if i < |hs| && WalkedAt(t, hs, i) then WalkFrom(t, hs, i + 1) else i
  }

  function WalkLength(t: Table, hs: seq<Hash>): (n: nat)
    ensures n <= |hs|
  {
    WalkFrom(t, hs, 0)
  }

  lemma {:induction false} WalkFromIsLongest(t: Table, hs: seq<Hash>, i: nat)
    requires Walked(t, hs, i)
    ensures var n := WalkFrom(t, hs, i); Walked(t, hs, n) && (n < |hs| ==> !Walked(t, hs, n + 1))
    decreases |hs| - i
  {
    if i < |hs| && WalkedAt(t, hs, i) {
      WalkFromIsLongest(t, hs, i + 1);
    }
  }

  lemma {:induction false} MatchFromWithinWalk(t: Table, s: ServerId, hs: seq<Hash>, i: nat)
    requires i <= |hs|
    ensures MatchFrom(t, s, hs, i) <= WalkFrom(t, hs, i)
    decreases |hs| - i
  {
    if i < |hs| && MatchedAt(t, s, hs, i) {
      MatchFromWithinWalk(t, s, hs, i + 1);
    }
  }

  // Block i is known, and reached through the successors of the one before it.
  ghost predicate Reached(t: Table, hs: seq<Hash>, i: nat)
    requires i < |hs|
  {
    hs[i] in t && (i > 0 ==> hs[i - 1] in t && hs[i] in t[hs[i - 1]].nextTokens)
  }

  // The token search walks the longest prefix of such blocks, and the per-server search
  // the longest prefix of those that list the server.
  lemma WalkIsLongest(t: Table, hs: seq<Hash>, n: nat)
    ensures n == WalkLength(t, hs) <==>
            && n <= |hs| && (forall i :: 0 <= i < n ==> Reached(t, hs, i))
            && (n < |hs| ==> !Reached(t, hs, n))
  {
    WalkFromIsLongest(t, hs, 0);
    var w := WalkLength(t, hs);
    forall i | 0 <= i < |hs| ensures WalkedAt(t, hs, i) <==> Reached(t, hs, i) {}
    if w < |hs| { assert !WalkedAt(t, hs, w); }
  }

  lemma MatchIsReachedAndListed(t: Table, s: ServerId, hs: seq<Hash>, n: nat)
    ensures n == MatchLength(t, s, hs) <==>
            && n <= |hs| && (forall i :: 0 <= i < n ==> Reached(t, hs, i) && s in t[hs[i]].servers)
            && (n < |hs| ==> !(Reached(t, hs, n) && s in t[hs[n]].servers))
  {
    MatchFromIsLongest(t, s, hs, 0);
    var m := MatchLength(t, s, hs);
    forall i | 0 <= i < |hs| ensures MatchedAt(t, s, hs, i) <==> Reached(t, hs, i) && s in t[hs[i]].servers {}
    if m < |hs| { assert !MatchedAt(t, s, hs, m); }
  }

  lemma MatchWithinWalk(t: Table, s: ServerId, hs: seq<Hash>)
    ensures MatchLength(t, s, hs) <= WalkLength(t, hs)
  {
    MatchFromWithinWalk(t, s, hs, 0);
  }

  // Tokens one block credits to a server: its offset, once for every time the
  // server is listed.
  function BlockCredit(servers: seq<ServerId>, offset: nat, s: ServerId): nat {
    if servers == [] then 0
    else
      var n := |servers| - 1;
      BlockCredit(servers[..n], offset, s) + if servers[n] == s then offset else 0
  }

  function Credit(t: Table, s: ServerId, hs: seq<Hash>, n: nat): nat
    requires n <= |hs|
  {
    if n == 0 then 0
    else
      Credit(t, s, hs, n - 1) +
      if hs[n - 1] in t then BlockCredit(t[hs[n - 1]].servers, t[hs[n - 1]].offset, s) else 0
  }

  // Tokens in the first n blocks, whoever holds them.
  function PrefixTokens(t: Table, hs: seq<Hash>, n: nat): nat
    requires n <= |hs|
  {
    if n == 0 then 0 else PrefixTokens(t, hs, n - 1) + if hs[n - 1] in t then t[hs[n - 1]].offset else 0
  }

  lemma {:induction false} CreditOfHolder(servers: seq<ServerId>, offset: nat, s: ServerId)
    ensures s in servers ==> BlockCredit(servers, offset, s) >= offset
    ensures s !in servers ==> BlockCredit(servers, offset, s) == 0
    ensures s in servers ==> (BlockCredit(servers, offset, s) == offset <==> offset == 0 || ListedOnce(servers, s))
  {
    if servers != [] {
      var n := |servers| - 1;
      CreditOfHolder(servers[..n], offset, s);
      assert servers == servers[..n] + [servers[n]];
    }
  }

  predicate ListedOnce(servers: seq<ServerId>, s: ServerId) {
    multiset(servers)[s] == 1
  }

  // The credit of a block is its offset times the listings of the server.
  lemma {:induction false} CreditIsPerListing(servers: seq<ServerId>, offset: nat, s: ServerId)
    ensures BlockCredit(servers, offset, s) == multiset(servers)[s] * offset
  {
    if servers != [] {
      var n := |servers| - 1;
      CreditIsPerListing(servers[..n], offset, s);
      assert servers == servers[..n] + [servers[n]];
      var m := multiset(servers[..n])[s];
      assert multiset(servers)[s] == m + if servers[n] == s then 1 else 0;
      assert (m + 1) * offset == m * offset + offset;
    }
  }

  // The whole credit adds these up over the blocks.
  lemma CreditAddsUp(t: Table, s: ServerId, hs: seq<Hash>, n: nat)
    requires n < |hs| && hs[n] in t
    ensures Credit(t, s, hs, 0) == 0
    ensures Credit(t, s, hs, n + 1) == Credit(t, s, hs, n) + multiset(t[hs[n]].servers)[s] * t[hs[n]].offset
  {
    CreditIsPerListing(t[hs[n]].servers, t[hs[n]].offset, s);
  }

  lemma {:induction false} DistinctIsListedOnce(servers: seq<ServerId>, s: ServerId)
    requires Distinct(servers) && s in servers
    ensures ListedOnce(servers, s)
  {
    var n := |servers| - 1;
    assert servers == servers[..n] + [servers[n]];
    if s != servers[n] { DistinctIsListedOnce(servers[..n], s); }
  }

  lemma {:induction false} CreditCoversMatch(t: Table, s: ServerId, hs: seq<Hash>, n: nat, m: nat)
    requires m <= n <= |hs| && Matched(t, s, hs, m)
    ensures Credit(t, s, hs, n) >= PrefixTokens(t, hs, m)
  {
    if n > 0 {
      if m == n {
        assert MatchedAt(t, s, hs, n - 1);
        CreditCoversMatch(t, s, hs, n - 1, m - 1);
        CreditOfHolder(t[hs[n - 1]].servers, t[hs[n - 1]].offset, s);
      } else {
        CreditCoversMatch(t, s, hs, n - 1, m);
      }
    }
  }

  // In any table at all, the token search credits a server with at least the
  // blocks its own search matches.
  lemma SearchCreditsAtLeastMatch(t: Table, s: ServerId, hs: seq<Hash>)
    ensures Credit(t, s, hs, WalkLength(t, hs)) >= PrefixTokens(t, hs, MatchLength(t, s, hs))
  {
    MatchFromIsLongest(t, s, hs, 0);
    MatchWithinWalk(t, s, hs);
    CreditCoversMatch(t, s, hs, WalkLength(t, hs), MatchLength(t, s, hs));
  }

  // ---------- uploads ----------

  function PreOf(hs: seq<Hash>, i: nat): Hash
    requires i < |hs|
  {
    if i > 0 then hs[i - 1] else ROOT
  }

  function NextOf(hs: seq<Hash>, i: nat): seq<Hash>
    requires i < |hs|
  {
    if i + 1 < |hs| then [hs[i + 1]] else []
  }

  // The list of successors with further ones merged in.
  function MergeNext(xs: seq<Hash>, next: seq<Hash>): (r: seq<Hash>)
    ensures forall y :: y in r <==> y in xs || y in next
    ensures Distinct(xs) ==> Distinct(r)
  {
    if next == [] then xs
    else
      assert next == next[..|next| - 1] + [next[|next| - 1]];
      AddUnique(MergeNext(xs, next[..|next| - 1]), next[|next| - 1])
  }

  // The offset given for block i. Where none is given the source stops; see OffsetsSuffice.
  function OffsetOf(offsets: seq<u32>, i: nat): u32 {
    if i < |offsets| then offsets[i] else 0
  }

  // The entry of block i of an upload, given the table before it.
  function PlacedMeta(t: Table, s: ServerId, offsets: seq<u32>, hs: seq<Hash>, i: nat): KvBlockMeta
    requires i < |hs|
  {
    if hs[i] in t then
      var m := t[hs[i]];
      m.(servers := AddUnique(m.servers, s), nextTokens := MergeNext(m.nextTokens, NextOf(hs, i)))
    else
      KvBlockMeta(hs[i], OffsetOf(offsets, i), PreOf(hs, i), NextOf(hs, i), [s])
  }

  function PlaceBlock(ix: Index, s: ServerId, offsets: seq<u32>, hs: seq<Hash>, i: nat): Index
    requires i < |hs|
  {
    var h, m := hs[i], PlacedMeta(ix.table, s, offsets, hs, i);
    var table := ix.table[h := m];
    if Holds(ix.table, s, h) then
      ix.(table := table)
    else
      var counted := ix.blockCount[s := Tally(ix.blockCount, s) + 1];
      if h in ix.table then
        Index(table, counted, ix.newMetas, ix.ops[h := UpdateKvOp(h, ADD_REPLICA, s)])
      else
        Index(table, counted, ix.newMetas[h := m], ix.ops)
  }

  function PlaceRange(ix: Index, s: ServerId, offsets: seq<u32>, hs: seq<Hash>, lo: nat, hi: nat): Index
    requires lo <= hi <= |hs|
    decreases hi
  {
    if lo == hi then ix else PlaceBlock(PlaceRange(ix, s, offsets, hs, lo, hi - 1), s, offsets, hs, hi - 1)
  }

  // create_new_kvblock: everything after the part the server already matches is placed.
  function Upload(ix: Index, s: ServerId, offsets: seq<u32>, hs: seq<Hash>): Index
  {
    PlaceRange(ix, s, offsets, hs, MatchLength(ix.table, s, hs), |hs|)
  }

  // Every block that has to be made is given an offset: all that the upload asks of its caller.
  ghost predicate OffsetsSuffice(t: Table, s: ServerId, offsets: seq<u32>, hs: seq<Hash>) {
    var m := MatchLength(t, s, hs);
    forall i :: m <= i < |hs| && hs[i] !in t && Outside(hs, m, i, hs[i]) ==> i < |offsets|
  }

  // Placing blocks makes them known and forgets none.
  lemma {:induction false} PlacedBlocksAreKnown(ix: Index, s: ServerId, offsets: seq<u32>, hs: seq<Hash>, lo: nat,
                                                hi: nat, h: Hash)
    requires lo <= hi <= |hs| && (h in ix.table || !Outside(hs, lo, hi, h))
    ensures h in PlaceRange(ix, s, offsets, hs, lo, hi).table
    decreases hi
  {
    hide PlaceBlock, PlacedMeta;
    if lo < hi {
      PlaceBlockTable(PlaceRange(ix, s, offsets, hs, lo, hi - 1), s, offsets, hs, hi - 1);
      if h != hs[hi - 1] {
        PlacedBlocksAreKnown(ix, s, offsets, hs, lo, hi - 1, h);
      }
    }
  }

  lemma OffsetIsGiven(ix: Index, s: ServerId, offsets: seq<u32>, hs: seq<Hash>, i: nat)
    requires OffsetsSuffice(ix.table, s, offsets, hs) && MatchLength(ix.table, s, hs) <= i < |hs|
    ensures hs[i] in PlaceRange(ix, s, offsets, hs, MatchLength(ix.table, s, hs), i).table || i < |offsets|
  {
    var m := MatchLength(ix.table, s, hs);
    if hs[i] in ix.table || !Outside(hs, m, i, hs[i]) {
      PlacedBlocksAreKnown(ix, s, offsets, hs, m, i, hs[i]);
    }
  }

  // What create_new_kvblock reports: each placed block with its replica count.
  function ReplicaCounts(ix: Index, s: ServerId, offsets: seq<u32>, hs: seq<Hash>, lo: nat, hi: nat): seq<(Hash, nat)>
    requires lo <= hi <= |hs|
    decreases hi
  {
    if lo == hi then []
    else
      var before := PlaceRange(ix, s, offsets, hs, lo, hi - 1);
      ReplicaCounts(ix, s, offsets, hs, lo, hi - 1)
      + [(hs[hi - 1], |PlacedMeta(before.table, s, offsets, hs, hi - 1).servers|)]
  }

  // For distinct blocks the report is true of the finished table.
  lemma {:induction false} ReplicaCountsAreFinal(ix: Index, s: ServerId, offsets: seq<u32>, hs: seq<Hash>, lo: nat,
                                                 hi: nat, i: nat)
    requires lo <= i < hi <= |hs| && Distinct(hs)
    ensures |ReplicaCounts(ix, s, offsets, hs, lo, hi)| == hi - lo
    ensures var t' := PlaceRange(ix, s, offsets, hs, lo, hi).table;
            hs[i] in t' && ReplicaCounts(ix, s, offsets, hs, lo, hi)[i - lo] == (hs[i], |t'[hs[i]].servers|)
    decreases hi
  {
    hide PlacedMeta, PlaceBlock;
    ReplicaCountsLength(ix, s, offsets, hs, lo, hi);
    ReplicaCountsLength(ix, s, offsets, hs, lo, hi - 1);
    PlacedAt(ix, s, offsets, hs, lo, hi, i);
    if i < hi - 1 {
      PlacedAt(ix, s, offsets, hs, lo, hi - 1, i);
      ReplicaCountsAreFinal(ix, s, offsets, hs, lo, hi - 1, i);
    } else {
      var before := PlaceRange(ix, s, offsets, hs, lo, hi - 1);
      assert Outside(hs, lo, hi - 1, hs[i]);
      Untouched(ix, s, offsets, hs, lo, hi - 1, hs[i]);
      PlacedMetaIsLocal(ix.table, before.table, s, offsets, hs, i);
    }
  }

  lemma {:induction false} ReplicaCountsLength(ix: Index, s: ServerId, offsets: seq<u32>, hs: seq<Hash>, lo: nat,
                                               hi: nat)
    requires lo <= hi <= |hs|
    ensures |ReplicaCounts(ix, s, offsets, hs, lo, hi)| == hi - lo
    decreases hi
  {
    hide PlaceBlock, PlacedMeta;
    if lo < hi { ReplicaCountsLength(ix, s, offsets, hs, lo, hi - 1); }
  }

  // None of the placed positions carries the block.
  ghost predicate Outside(hs: seq<Hash>, lo: nat, hi: nat, h: Hash)
    requires lo <= hi <= |hs|
  {
    forall i :: lo <= i < hi ==> hs[i] != h
  }

  lemma {:induction false} Untouched(ix: Index, s: ServerId, offsets: seq<u32>, hs: seq<Hash>, lo: nat, hi: nat,
                                     h: Hash)
    requires lo <= hi <= |hs| && Outside(hs, lo, hi, h)
    ensures var t' := PlaceRange(ix, s, offsets, hs, lo, hi).table;
            (h in t' <==> h in ix.table) && (h in t' ==> t'[h] == ix.table[h])
    decreases hi
  {
    if lo < hi {
      Untouched(ix, s, offsets, hs, lo, hi - 1, h);
      assert hs[hi - 1] != h;
      PlaceBlockTable(PlaceRange(ix, s, offsets, hs, lo, hi - 1), s, offsets, hs, hi - 1);
      hide PlaceBlock, PlacedMeta;
    }
  }

  // For distinct blocks every placement sees the original table and lasts.
  lemma {:induction false} PlacedAt(ix: Index, s: ServerId, offsets: seq<u32>, hs: seq<Hash>, lo: nat, hi: nat, i: nat)
    requires lo <= i < hi <= |hs| && Distinct(hs)
    ensures var t' := PlaceRange(ix, s, offsets, hs, lo, hi).table;
            hs[i] in t' && t'[hs[i]] == PlacedMeta(ix.table, s, offsets, hs, i)
    decreases hi
  {
    hide PlaceBlock, PlacedMeta;
    var before := PlaceRange(ix, s, offsets, hs, lo, hi - 1);
    PlaceBlockTable(before, s, offsets, hs, hi - 1);
    if i < hi - 1 {
      PlacedAt(ix, s, offsets, hs, lo, hi - 1, i);
      assert hs[i] != hs[hi - 1];
    } else {
      assert Outside(hs, lo, hi - 1, hs[i]);
      Untouched(ix, s, offsets, hs, lo, hi - 1, hs[i]);
      PlacedMetaIsLocal(ix.table, before.table, s, offsets, hs, i);
    }
  }

  lemma PlaceBlockTable(ix: Index, s: ServerId, offsets: seq<u32>, hs: seq<Hash>, i: nat)
    requires i < |hs|
    ensures PlaceBlock(ix, s, offsets, hs, i).table == ix.table[hs[i] := PlacedMeta(ix.table, s, offsets, hs, i)]
  {}

  lemma PlacedMetaIsLocal(t: Table, t': Table, s: ServerId, offsets: seq<u32>, hs: seq<Hash>, i: nat)
    requires i < |hs|
    requires (hs[i] in t <==> hs[i] in t') && (hs[i] in t ==> t[hs[i]] == t'[hs[i]])
    ensures PlacedMeta(t, s, offsets, hs, i) == PlacedMeta(t', s, offsets, hs, i)
  {}

  // An upload seen at one of its blocks.
  lemma UploadAt(ix: Index, s: ServerId, offsets: seq<u32>, hs: seq<Hash>, i: nat)
    requires i < |hs| && Distinct(hs)
    ensures var t, t', m := ix.table, Upload(ix, s, offsets, hs).table, MatchLength(ix.table, s, hs);
            && hs[i] in t'
            && (i < m ==> hs[i] in t && t'[hs[i]] == t[hs[i]] && Holds(t, s, hs[i]))
            && (i >= m ==> t'[hs[i]] == PlacedMeta(t, s, offsets, hs, i))
  {
    var m := MatchLength(ix.table, s, hs);
    MatchFromIsLongest(ix.table, s, hs, 0);
    if i < m {
      assert MatchedAt(ix.table, s, hs, i);
      assert Outside(hs, m, |hs|, hs[i]);
      Untouched(ix, s, offsets, hs, m, |hs|, hs[i]);
    } else {
      PlacedAt(ix, s, offsets, hs, m, |hs|, i);
    }
  }

  // An upload seen at any block.
  lemma UploadElsewhere(ix: Index, s: ServerId, offsets: seq<u32>, hs: seq<Hash>, h: Hash)
    requires h !in hs
    ensures var t, t' := ix.table, Upload(ix, s, offsets, hs).table;
            (h in t' <==> h in t) && (h in t' ==> t'[h] == t[h])
  {
    assert Outside(hs, MatchLength(ix.table, s, hs), |hs|, h);
    Untouched(ix, s, offsets, hs, MatchLength(ix.table, s, hs), |hs|, h);
  }

  // What an upload does to block i, with every field, pending record and pending operation
  // spelled out. Below the match nothing changes. A new block gets an entry, which is also
  // pending. A known block keeps its own fields but for the server and the successor; the
  // server's arrival is pending as operation 1.
  ghost predicate UploadedBlock(ix: Index, ix': Index, s: ServerId, offsets: seq<u32>, hs: seq<Hash>, m: nat, i: nat)
    requires i < |hs|
  {
    var h := hs[i];
    var pre, next := if i > 0 then hs[i - 1] else ROOT, if i + 1 < |hs| then [hs[i + 1]] else [];
    if i < m then SameAt(ix.table, ix'.table, h) && SameAt(ix.newMetas, ix'.newMetas, h) && SameAt(ix.ops, ix'.ops, h)
    else if h !in ix.table then
      && h in ix'.table && ix'.table[h].tokenHash == h && ix'.table[h].preToken == pre
      && ix'.table[h].nextTokens == next && ix'.table[h].servers == [s]
      && (i < |offsets| ==> ix'.table[h].offset == offsets[i])
      && h in ix'.newMetas && ix'.newMetas[h] == ix'.table[h] && SameAt(ix.ops, ix'.ops, h)
    else
      var known := ix.table[h];
      var merged := if next == [] || next[0] in known.nextTokens then known.nextTokens else known.nextTokens + next;
      && h in ix'.table && SameAt(ix.newMetas, ix'.newMetas, h)
      && (if s in known.servers then ix'.table[h] == known.(nextTokens := merged) && SameAt(ix.ops, ix'.ops, h)
          else && ix'.table[h] == known.(nextTokens := merged, servers := known.servers + [s])
               && h in ix'.ops && ix'.ops[h] == UpdateKvOp(h, 1, s))
  }

  lemma UploadedEffects(ix: Index, s: ServerId, offsets: seq<u32>, hs: seq<Hash>, i: nat)
    requires Distinct(hs) && i < |hs|
    ensures UploadedBlock(ix, Upload(ix, s, offsets, hs), s, offsets, hs, MatchLength(ix.table, s, hs), i)
  {
    var m := MatchLength(ix.table, s, hs);
    if i < m {
      assert Outside(hs, m, |hs|, hs[i]);
      RangeElsewhere(ix, s, offsets, hs, m, |hs|, hs[i]);
    } else {
      RangeEffects(ix, s, offsets, hs, m, |hs|, i);
    }
  }

  // Every block that is not uploaded keeps its entry and its pending updates.
  lemma UploadedNowhereElse(ix: Index, s: ServerId, offsets: seq<u32>, hs: seq<Hash>, h: Hash)
    requires h !in hs
    ensures var ix' := Upload(ix, s, offsets, hs);
            SameAt(ix.table, ix'.table, h) && SameAt(ix.newMetas, ix'.newMetas, h) && SameAt(ix.ops, ix'.ops, h)
  {
    assert Outside(hs, MatchLength(ix.table, s, hs), |hs|, h);
    RangeElsewhere(ix, s, offsets, hs, MatchLength(ix.table, s, hs), |hs|, h);
  }

  lemma {:induction false} RangeElsewhere(ix: Index, s: ServerId, offsets: seq<u32>, hs: seq<Hash>, lo: nat, hi: nat,
                                          h: Hash)
    requires lo <= hi <= |hs| && Outside(hs, lo, hi, h)
    ensures var ix' := PlaceRange(ix, s, offsets, hs, lo, hi);
            SameAt(ix.table, ix'.table, h) && SameAt(ix.newMetas, ix'.newMetas, h) && SameAt(ix.ops, ix'.ops, h)
    decreases hi
  {
    hide PlaceBlock;
    if lo < hi {
      RangeElsewhere(ix, s, offsets, hs, lo, hi - 1, h);
      BlockElsewhere(PlaceRange(ix, s, offsets, hs, lo, hi - 1), s, offsets, hs, hi - 1, h);
    }
  }

  lemma BlockElsewhere(ix: Index, s: ServerId, offsets: seq<u32>, hs: seq<Hash>, i: nat, h: Hash)
    requires i < |hs| && h != hs[i]
    ensures var ix' := PlaceBlock(ix, s, offsets, hs, i);
            SameAt(ix.table, ix'.table, h) && SameAt(ix.newMetas, ix'.newMetas, h) && SameAt(ix.ops, ix'.ops, h)
  {}

  lemma BlockEffect(ix: Index, before: Index, s: ServerId, offsets: seq<u32>, hs: seq<Hash>, i: nat)
    requires i < |hs|
    requires SameAt(ix.table, before.table, hs[i]) && SameAt(ix.newMetas, before.newMetas, hs[i])
    requires SameAt(ix.ops, before.ops, hs[i])
    ensures UploadedBlock(ix, PlaceBlock(before, s, offsets, hs, i), s, offsets, hs, 0, i)
  {
    var next := NextOf(hs, i);
    if hs[i] in ix.table && next != [] {
      var known := ix.table[hs[i]].nextTokens;
      assert next[..0] == [] && MergeNext(known, next) == AddUnique(MergeNext(known, next[..0]), next[0]);
    }
  }

  lemma {:induction false} RangeEffects(ix: Index, s: ServerId, offsets: seq<u32>, hs: seq<Hash>, lo: nat, hi: nat,
                                        i: nat)
    requires lo <= i < hi <= |hs| && Distinct(hs)
    ensures UploadedBlock(ix, PlaceRange(ix, s, offsets, hs, lo, hi), s, offsets, hs, lo, i)
    decreases hi
  {
    hide PlaceBlock;
    var before := PlaceRange(ix, s, offsets, hs, lo, hi - 1);
    if i < hi - 1 {
      RangeEffects(ix, s, offsets, hs, lo, hi - 1, i);
      BlockElsewhere(before, s, offsets, hs, hi - 1, hs[i]);
    } else {
      assert Outside(hs, lo, hi - 1, hs[i]);
      RangeElsewhere(ix, s, offsets, hs, lo, hi - 1, hs[i]);
      BlockEffect(ix, before, s, offsets, hs, i);
    }
  }

  lemma UploadGrows(ix: Index, s: ServerId, offsets: seq<u32>, hs: seq<Hash>, s': ServerId, h: Hash)
    requires Distinct(hs)
    ensures Holds(ix.table, s', h) ==> Holds(Upload(ix, s, offsets, hs).table, s', h)
  {
    if h in hs {
      var i :| 0 <= i < |hs| && hs[i] == h;
      UploadAt(ix, s, offsets, hs, i);
    } else {
      UploadElsewhere(ix, s, offsets, hs, h);
    }
  }

  lemma UploadHolds(ix: Index, s: ServerId, offsets: seq<u32>, hs: seq<Hash>, i: nat)
    requires Distinct(hs) && i < |hs|
    ensures Holds(Upload(ix, s, offsets, hs).table, s, hs[i])
  {
    UploadAt(ix, s, offsets, hs, i);
  }

  // Afterwards position i can be reached exactly when the link to it existed or
  // the block before it was placed.
  lemma UploadFollows(ix: Index, s: ServerId, offsets: seq<u32>, hs: seq<Hash>, i: nat)
    requires Distinct(hs) && i < |hs|
    ensures Follows(Upload(ix, s, offsets, hs).table, hs, i)
       <==> Follows(ix.table, hs, i) || i > MatchLength(ix.table, s, hs)
  {
    if i > 0 {
      UploadAt(ix, s, offsets, hs, i - 1);
      assert NextOf(hs, i - 1) == [hs[i]];
    }
  }

  // The search for a chain does not stop part way for want of a link alone.
  predicate NoMissingLink(t: Table, s: ServerId, hs: seq<Hash>) {
    var m := MatchLength(t, s, hs);
    0 < m < |hs| ==> Linked(t, hs[m - 1], hs[m])
  }

  // What the uploading server finds afterwards: its whole chain, unless its match
  // had stopped at a missing link inside the chain; that link is never added, and
  // the search stops there again.
  lemma UploadThenSearch(ix: Index, s: ServerId, offsets: seq<u32>, hs: seq<Hash>)
    requires Distinct(hs)
    ensures MatchLength(Upload(ix, s, offsets, hs).table, s, hs)
              == if NoMissingLink(ix.table, s, hs) then |hs| else MatchLength(ix.table, s, hs)
  {
    hide Upload, MatchLength;
    var t', m, n := Upload(ix, s, offsets, hs).table, MatchLength(ix.table, s, hs), |hs|;
    MatchIsLongest(ix.table, s, hs, m);
    var found := if NoMissingLink(ix.table, s, hs) then n else m;
    forall i | 0 <= i < found ensures MatchedAt(t', s, hs, i) {
      UploadHolds(ix, s, offsets, hs, i);
      UploadFollows(ix, s, offsets, hs, i);
      assert i < m ==> MatchedAt(ix.table, s, hs, i);
    }
    if found < n {
      UploadFollows(ix, s, offsets, hs, found);
      assert !MatchedAt(t', s, hs, found);
    }
    MatchIsLongest(t', s, hs, found);
  }

  // A server that extends its own chain cannot find the extension.
  lemma ExtendingOwnChainIsNotFound(s: ServerId, a: Hash, b: Hash, c: Hash)
    requires a != b && b != c && a != c
    ensures var first := Upload(EMPTY, s, [2, 2], [a, b]);
            var second := Upload(first, s, [2, 2, 2], [a, b, c]);
            Holds(second.table, s, c) && MatchLength(second.table, s, [a, b, c]) == 2
  {
    var hs, ks := [a, b], [a, b, c];
    var first := Upload(EMPTY, s, [2, 2], hs);
    UploadAt(EMPTY, s, [2, 2], hs, 0);
    UploadAt(EMPTY, s, [2, 2], hs, 1);
    var t := first.table;
    assert MatchedAt(t, s, ks, 0) && MatchedAt(t, s, ks, 1) && !MatchedAt(t, s, ks, 2);
    assert Matched(t, s, ks, 2) && !Matched(t, s, ks, 3);
    MatchIsLongest(t, s, ks, 2);
    UploadThenSearch(first, s, [2, 2, 2], ks);
    UploadHolds(first, s, [2, 2, 2], ks, 2);
  }

  // ---------- tables built by uploads of chained blocks ----------

  ghost predicate GoodMeta(m: KvBlockMeta) {
    m.servers != [] && Distinct(m.servers) && Distinct(m.nextTokens)
  }

  ghost predicate LawfulEntry(t: Table, lin: Lineage, h: Hash)
    requires h in t
  {
    var m, p := t[h], lin.parent(h);
    && h != ROOT && m.tokenHash == h && m.preToken == p && m.offset == lin.size(h)
    && GoodMeta(m)
    && lin.depth(h) == (if p == ROOT then 0 else lin.depth(p) + 1)
    && (forall n :: n in m.nextTokens ==> lin.parent(n) == h)
    && (p != ROOT ==> forall s :: s in m.servers ==> Holds(t, s, p))
  }

  // Every entry is what its hash says, its links agree with its successors, and a
  // server holding a block holds the block's predecessor.
  ghost predicate Lawful(t: Table, lin: Lineage) {
    forall h :: h in t ==> LawfulEntry(t, lin, h)
  }

  lemma UploadKeepsLawful(ix: Index, s: ServerId, offsets: seq<u32>, hs: seq<Hash>, lin: Lineage)
    requires Lawful(ix.table, lin) && Chained(lin, hs) && Sized(lin, hs, offsets)
    ensures Lawful(Upload(ix, s, offsets, hs).table, lin)
  {
    ChainedIsDistinct(lin, hs);
    var t' := Upload(ix, s, offsets, hs).table;
    forall h | h in t' ensures LawfulEntry(t', lin, h) {
      ParentsStillHeld(ix, s, offsets, hs, lin.parent(h));
      if h in hs {
        var i :| 0 <= i < |hs| && hs[i] == h;
        UploadAt(ix, s, offsets, hs, i);
        if i < MatchLength(ix.table, s, hs) {
          assert LawfulEntry(ix.table, lin, h);
        } else {
          PlacedIsLawful(ix, s, offsets, hs, lin, i);
        }
      } else {
        UploadElsewhere(ix, s, offsets, hs, h);
        assert LawfulEntry(ix.table, lin, h);
      }
    }
  }

  lemma ParentsStillHeld(ix: Index, s: ServerId, offsets: seq<u32>, hs: seq<Hash>, p: Hash)
    requires Distinct(hs)
    ensures forall s' :: Holds(ix.table, s', p) ==> Holds(Upload(ix, s, offsets, hs).table, s', p)
  {
    forall s' | Holds(ix.table, s', p) ensures Holds(Upload(ix, s, offsets, hs).table, s', p) {
      UploadGrows(ix, s, offsets, hs, s', p);
    }
  }

  lemma PlacedIsLawful(ix: Index, s: ServerId, offsets: seq<u32>, hs: seq<Hash>, lin: Lineage, i: nat)
    requires Lawful(ix.table, lin) && Chained(lin, hs) && Sized(lin, hs, offsets) && Distinct(hs)
    requires i < |hs|
    requires var t' := Upload(ix, s, offsets, hs).table;
             hs[i] in t' && t'[hs[i]] == PlacedMeta(ix.table, s, offsets, hs, i)
    ensures LawfulEntry(Upload(ix, s, offsets, hs).table, lin, hs[i])
  {
    var t', h := Upload(ix, s, offsets, hs).table, hs[i];
    assert Placed(lin, hs, i);
    if i > 0 {
      assert Placed(lin, hs, i - 1);
      UploadHolds(ix, s, offsets, hs, i - 1);
      ParentsStillHeld(ix, s, offsets, hs, hs[i - 1]);
    }
    forall n | n in NextOf(hs, i) ensures lin.parent(n) == h {
      assert Placed(lin, hs, i + 1);
    }
    if h in ix.table {
      assert LawfulEntry(ix.table, lin, h);
    }
  }

  // ---------- agreement of the two searches ----------

  // The server holds the block, and the block has tokens.
  predicate Credited(t: Table, s: ServerId, h: Hash) {
    Holds(t, s, h) && t[h].offset > 0
  }

  // No block among the first n credits the server more than once.
  ghost predicate CreditedOnce(t: Table, s: ServerId, hs: seq<Hash>, n: nat)
    requires n <= |hs|
  {
    forall i :: 0 <= i < n && Credited(t, s, hs[i]) ==> ListedOnce(t[hs[i]].servers, s)
  }

  // On the blocks the token search walks, the server holds whatever comes before a
  // block it is credited for.
  ghost predicate HeldWithoutGap(t: Table, s: ServerId, hs: seq<Hash>) {
    forall i, j :: 0 <= i < j < WalkLength(t, hs) && Credited(t, s, hs[j]) ==> Holds(t, s, hs[i])
  }

  // Within the walk, the match ends where the server first lacks a block.
  lemma MatchEndsAtGap(t: Table, s: ServerId, hs: seq<Hash>)
    ensures var m, w := MatchLength(t, s, hs), WalkLength(t, hs);
            && m <= w <= |hs| && Walked(t, hs, w)
            && (forall i :: 0 <= i < m ==> Holds(t, s, hs[i]))
            && (m < w ==> !Holds(t, s, hs[m]))
  {
    var m, w := MatchLength(t, s, hs), WalkLength(t, hs);
    MatchFromIsLongest(t, s, hs, 0);
    WalkFromIsLongest(t, hs, 0);
    MatchWithinWalk(t, s, hs);
    forall i | 0 <= i < m ensures Holds(t, s, hs[i]) { assert MatchedAt(t, s, hs, i); }
    if m < w {
      assert WalkedAt(t, hs, m);
      assert !MatchedAt(t, s, hs, m);
    }
  }

  // What the first n blocks credit, against the tokens of the first m: nothing more
  // exactly when the server is credited once for those and not for the blocks in between.
  lemma {:induction false} CreditPast(t: Table, s: ServerId, hs: seq<Hash>, m: nat, n: nat)
    requires m <= n <= |hs| && (forall i :: 0 <= i < n ==> hs[i] in t)
    requires forall i :: 0 <= i < m ==> Holds(t, s, hs[i])
    ensures Credit(t, s, hs, n) >= PrefixTokens(t, hs, m)
    ensures Credit(t, s, hs, n) == PrefixTokens(t, hs, m)
       <==> CreditedOnce(t, s, hs, m) && forall i :: m <= i < n ==> !Credited(t, s, hs[i])
    decreases n
  {
    if n > 0 {
      var meta := t[hs[n - 1]];
      CreditOfHolder(meta.servers, meta.offset, s);
      if m == n {
        assert Holds(t, s, hs[n - 1]);
        CreditPast(t, s, hs, m - 1, n - 1);
      } else {
        CreditPast(t, s, hs, m, n - 1);
      }
    }
  }

  // On any table whatever, the two searches agree exactly when the server has no gap on
  // the walk and is listed once by each matched block with tokens.
  lemma SearchesAgreeIffNoGap(t: Table, s: ServerId, hs: seq<Hash>)
    ensures Credit(t, s, hs, WalkLength(t, hs)) == PrefixTokens(t, hs, MatchLength(t, s, hs))
       <==> HeldWithoutGap(t, s, hs) && CreditedOnce(t, s, hs, MatchLength(t, s, hs))
  {
    var m, w := MatchLength(t, s, hs), WalkLength(t, hs);
    MatchEndsAtGap(t, s, hs);
    forall i | 0 <= i < w ensures hs[i] in t { assert WalkedAt(t, hs, i); }
    CreditPast(t, s, hs, m, w);
    if HeldWithoutGap(t, s, hs) {
      forall i | m <= i < w ensures !Credited(t, s, hs[i]) {}
    } else {
      var i, j :| 0 <= i < j < w && Credited(t, s, hs[j]) && !Holds(t, s, hs[i]);
      assert m <= j;
    }
  }

  // On a lawful table a server that holds a block reached by links holds all before it.
  lemma {:induction false} LawfulHolderBefore(t: Table, lin: Lineage, s: ServerId, hs: seq<Hash>, w: nat, i: nat,
                                              j: nat)
    requires Lawful(t, lin) && Walked(t, hs, w) && i <= j < w && Holds(t, s, hs[j])
    ensures Holds(t, s, hs[i])
    decreases j
  {
    if i < j {
      assert WalkedAt(t, hs, j);
      LawfulHolderBefore(t, lin, s, hs, w, i, j - 1);
    }
  }

  lemma LawfulHasNoGap(t: Table, lin: Lineage, s: ServerId, hs: seq<Hash>)
    requires Lawful(t, lin)
    ensures HeldWithoutGap(t, s, hs) && CreditedOnce(t, s, hs, |hs|)
  {
    var w := WalkLength(t, hs);
    WalkFromIsLongest(t, hs, 0);
    forall i, j | 0 <= i < j < w && Credited(t, s, hs[j]) ensures Holds(t, s, hs[i]) {
      LawfulHolderBefore(t, lin, s, hs, w, i, j);
    }
    forall i | 0 <= i < |hs| && Credited(t, s, hs[i]) ensures ListedOnce(t[hs[i]].servers, s) {
      assert LawfulEntry(t, lin, hs[i]);
      DistinctIsListedOnce(t[hs[i]].servers, s);
    }
  }

  // For every query whatever, both searches agree on a table built by uploads.
  lemma SearchesAgree(t: Table, lin: Lineage, s: ServerId, hs: seq<Hash>)
    requires Lawful(t, lin)
    ensures Credit(t, s, hs, WalkLength(t, hs)) == PrefixTokens(t, hs, MatchLength(t, s, hs))
  {
    LawfulHasNoGap(t, lin, s, hs);
    SearchesAgreeIffNoGap(t, s, hs);
  }

  function SumOffsets(offsets: seq<u32>): nat {
    if offsets == [] then 0 else SumOffsets(offsets[..|offsets| - 1]) + offsets[|offsets| - 1]
  }

  lemma {:induction false} PrefixTokensAreOffsets(t: Table, lin: Lineage, hs: seq<Hash>, offsets: seq<u32>, n: nat)
    requires Lawful(t, lin) && Sized(lin, hs, offsets) && n <= |hs|
    requires forall i :: 0 <= i < n ==> hs[i] in t
    ensures PrefixTokens(t, hs, n) == SumOffsets(offsets[..n])
  {
    if n > 0 {
      PrefixTokensAreOffsets(t, lin, hs, offsets, n - 1);
      assert LawfulEntry(t, lin, hs[n - 1]);
      assert offsets[..n][..n - 1] == offsets[..n - 1];
    }
  }

  lemma {:induction false} SumOfPrefix(offsets: seq<u32>, n: nat)
    requires n <= |offsets| && forall i :: 0 <= i < |offsets| ==> offsets[i] > 0
    ensures SumOffsets(offsets[..n]) == SumOffsets(offsets) <==> n == |offsets|
    ensures SumOffsets(offsets[..n]) <= SumOffsets(offsets)
  {
    var k := |offsets| - 1;
    if n <= k {
      SumOfPrefix(offsets[..k], n);
      assert offsets[..k][..n] == offsets[..n];
    } else {
      assert offsets[..n] == offsets;
    }
  }

  // After a chained upload the token search credits the uploading server with the
  // blocks it then finds. Where no block is empty that is every hashed token exactly
  // when the upload found no missing link.
  lemma UploadCreditsEveryToken(ix: Index, s: ServerId, offsets: seq<u32>, hs: seq<Hash>, lin: Lineage)
    requires Lawful(ix.table, lin) && Chained(lin, hs) && Sized(lin, hs, offsets)
    ensures var t', m := Upload(ix, s, offsets, hs).table, MatchLength(ix.table, s, hs);
            && Credit(t', s, hs, WalkLength(t', hs))
               == SumOffsets(if NoMissingLink(ix.table, s, hs) then offsets else offsets[..m])
            && ((forall i :: 0 <= i < |offsets| ==> offsets[i] > 0) ==>
                  (Credit(t', s, hs, WalkLength(t', hs)) == SumOffsets(offsets) <==> NoMissingLink(ix.table, s, hs)))
  {
    ChainedIsDistinct(lin, hs);
    assert |offsets| == |hs| && offsets[..|hs|] == offsets;
    hide *;
    var t' := Upload(ix, s, offsets, hs).table;
    var found := MatchLength(t', s, hs);
    UploadKeepsLawful(ix, s, offsets, hs, lin);
    UploadThenSearch(ix, s, offsets, hs);
    SearchesAgree(t', lin, s, hs);
    forall i | 0 <= i < |hs| ensures hs[i] in t' { UploadAt(ix, s, offsets, hs, i); }
    PrefixTokensAreOffsets(t', lin, hs, offsets, found);
    if forall i :: 0 <= i < |offsets| ==> offsets[i] > 0 {
      SumOfPrefix(offsets, found);
    }
  }

  // ---------- block counters ----------

  function HeldBy(t: Table, s: ServerId): set<Hash> {
    set h | h in t && s in t[h].servers
  }

  ghost predicate CountersAgree(ix: Index) {
    forall s :: Tally(ix.blockCount, s) == |HeldBy(ix.table, s)|
  }

  lemma HeldAfterPlacement(t: Table, s: ServerId, h: Hash, m: KvBlockMeta, s': ServerId)
    requires forall x :: x in m.servers <==> (h in t && x in t[h].servers) || x == s
    ensures HeldBy(t[h := m], s') == if s' == s then HeldBy(t, s) + {h} else HeldBy(t, s')
  {}

  lemma PlaceBlockCounts(ix: Index, s: ServerId, offsets: seq<u32>, hs: seq<Hash>, i: nat)
    requires i < |hs| && CountersAgree(ix)
    ensures CountersAgree(PlaceBlock(ix, s, offsets, hs, i))
  {
    var ix', h, m := PlaceBlock(ix, s, offsets, hs, i), hs[i], PlacedMeta(ix.table, s, offsets, hs, i);
    assert Holds(ix.table, s, h) <==> h in HeldBy(ix.table, s);
    assert forall x :: x in m.servers <==> (h in ix.table && x in ix.table[h].servers) || x == s;
    assert ix'.table == ix.table[h := m];
    hide PlaceBlock, PlacedMeta, HeldBy;
    forall s' ensures Tally(ix'.blockCount, s') == |HeldBy(ix'.table, s')| {
      HeldAfterPlacement(ix.table, s, h, m, s');
      PlacedTally(ix, s, offsets, hs, i, s');
      AddToSet(HeldBy(ix.table, s), h);
    }
  }

  lemma PlacedTally(ix: Index, s: ServerId, offsets: seq<u32>, hs: seq<Hash>, i: nat, s': ServerId)
    requires i < |hs|
    ensures Tally(PlaceBlock(ix, s, offsets, hs, i).blockCount, s')
         == Tally(ix.blockCount, s') + if s' == s && !Holds(ix.table, s, hs[i]) then 1 else 0
  {}

  lemma AddToSet<T>(a: set<T>, x: T)
    ensures |a + {x}| == |a| + if x in a then 0 else 1
  {
    if x in a { assert a + {x} == a; }
  }

  // Every upload, chained or not, keeps each server's counter equal to the number
  // of blocks it holds.
  lemma {:induction false} UploadKeepsCounters(ix: Index, s: ServerId, offsets: seq<u32>, hs: seq<Hash>, lo: nat,
                                               hi: nat)
    requires lo <= hi <= |hs| && CountersAgree(ix)
    ensures CountersAgree(PlaceRange(ix, s, offsets, hs, lo, hi))
    decreases hi
  {
    if lo < hi {
      UploadKeepsCounters(ix, s, offsets, hs, lo, hi - 1);
      PlaceBlockCounts(PlaceRange(ix, s, offsets, hs, lo, hi - 1), s, offsets, hs, hi - 1);
    }
  }

  // ---------- runs of uploads ----------

  datatype UploadRequest = UploadRequest(server: ServerId, offsets: seq<u32>, hashes: seq<Hash>)

  ghost predicate AllLawful(reqs: seq<UploadRequest>, lin: Lineage) {
    forall k :: 0 <= k < |reqs| ==> Chained(lin, reqs[k].hashes) && Sized(lin, reqs[k].hashes, reqs[k].offsets)
  }

  ghost function RunUploads(reqs: seq<UploadRequest>): Index
  {
    if reqs == [] then EMPTY
    else
      var n := |reqs| - 1;
      Upload(RunUploads(reqs[..n]), reqs[n].server, reqs[n].offsets, reqs[n].hashes)
  }

  lemma {:induction false} RunIsLawful(reqs: seq<UploadRequest>, lin: Lineage)
    requires AllLawful(reqs, lin)
    ensures Lawful(RunUploads(reqs).table, lin)
  {
    if reqs != [] {
      var n := |reqs| - 1;
      RunIsLawful(reqs[..n], lin);
      UploadKeepsLawful(RunUploads(reqs[..n]), reqs[n].server, reqs[n].offsets, reqs[n].hashes, lin);
    }
  }

  // Over every run of uploads, overlapping chains and servers included, each
  // counter is the number of table entries listing its server.
  lemma {:induction false} RunKeepsCounters(reqs: seq<UploadRequest>)
    ensures CountersAgree(RunUploads(reqs))
  {
    if reqs == [] {
      forall s ensures HeldBy(EMPTY.table, s) == {} {}
    } else {
      var n, req := |reqs| - 1, reqs[|reqs| - 1];
      var before := RunUploads(reqs[..n]);
      RunKeepsCounters(reqs[..n]);
      UploadKeepsCounters(before, req.server, req.offsets, req.hashes,
                          MatchLength(before.table, req.server, req.hashes), |req.hashes|);
    }
  }

  ghost predicate AllDistinct(reqs: seq<UploadRequest>) {
    forall k :: 0 <= k < |reqs| ==> Distinct(reqs[k].hashes)
  }

  ghost predicate UploadedBy(reqs: seq<UploadRequest>, s: ServerId, h: Hash) {
    exists k :: 0 <= k < |reqs| && reqs[k].server == s && h in reqs[k].hashes
  }

  // One upload gives its server its blocks and changes no other holding.
  lemma UploadReplicas(ix: Index, s: ServerId, offsets: seq<u32>, hs: seq<Hash>, s': ServerId, h: Hash)
    requires Distinct(hs)
    ensures Holds(Upload(ix, s, offsets, hs).table, s', h) <==> Holds(ix.table, s', h) || (s' == s && h in hs)
  {
    if h in hs {
      var i :| 0 <= i < |hs| && hs[i] == h;
      UploadAt(ix, s, offsets, hs, i);
    } else {
      UploadElsewhere(ix, s, offsets, hs, h);
    }
  }

  // The replica lists are exactly the history: a server is listed for a block if
  // and only if it uploaded a chain containing it.
  lemma {:induction false} ListedIffUploaded(reqs: seq<UploadRequest>, s: ServerId, h: Hash)
    requires AllDistinct(reqs)
    ensures Holds(RunUploads(reqs).table, s, h) <==> UploadedBy(reqs, s, h)
  {
    if reqs != [] {
      var n := |reqs| - 1;
      var init, last := reqs[..n], reqs[n];
      ListedIffUploaded(init, s, h);
      UploadReplicas(RunUploads(init), last.server, last.offsets, last.hashes, s, h);
      assert UploadedBy(init, s, h) ==> UploadedBy(reqs, s, h);
      if k :| 0 <= k < |reqs| && reqs[k].server == s && h in reqs[k].hashes {
        assert k < n ==> init[k] == reqs[k];
      }
    }
  }
}
