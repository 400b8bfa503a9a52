// The tracker of active requests. Blocks are shared between requests by hand-made
// reference counting; the tracker's meaning is simply which blocks each live
// request uses, and every method is proved to keep the two in step.
module Tracking {
  import opened Types
  import opened Lineages

  type RequestId = string
  type Live = map<RequestId, seq<Hash>>

  const EXPIRY_SECONDS := 300

  // ---------- the multiset of references held by live requests ----------

  ghost function Refs(live: Live): multiset<Hash> {
    if live == map[] then multiset{}
    else
      var r :| r in live;
      multiset(live[r]) + Refs(live - {r})
  }

  ghost function HoldCount(live: Live, b: Hash): nat {
    Refs(live)[b]
  }

  ghost function ActiveBlocks(live: Live): set<Hash> {
    set b | b in Refs(live)
  }

  lemma {:induction false} RefsPick(live: Live, r: RequestId)
    requires r in live
    ensures Refs(live) == multiset(live[r]) + Refs(live - {r})
    decreases |live|
  {
    var q :| q in live && Refs(live) == multiset(live[q]) + Refs(live - {q});
    if q != r {
      RefsPick(live - {q}, r);
      RefsPick(live - {r}, q);
      assert live - {q} - {r} == live - {r} - {q};
    }
  }

  lemma RefsAdd(live: Live, r: RequestId, s: seq<Hash>)
    requires r !in live
    ensures Refs(live[r := s]) == multiset(s) + Refs(live)
  {
    RefsPick(live[r := s], r);
    assert live[r := s] - {r} == live;
  }

  lemma RefsMember(live: Live, r: RequestId, b: Hash)
    requires r in live && b in live[r]
    ensures b in Refs(live)
  {
    RefsPick(live, r);
  }

  // ---------- the meaning of the operations ----------

  datatype View = View(live: Live, timer: int)

  datatype TrackerOp =
    | AddOp(id: RequestId, blocks: Option<seq<Hash>>, now: int)
    | FreeOp(id: RequestId)
    | ExpireOp(now: int)

  function Expire(v: View, now: int): View {
    if now < v.timer then v else View(map[], now + EXPIRY_SECONDS)
  }

  function Step(v: View, op: TrackerOp): View {
    match op
    case AddOp(id, blocks, now) =>
      if id in v.live then v
      else
        var w := Expire(v, now);
        w.(live := w.live[id := if blocks.Some? then blocks.value else []])
    case FreeOp(id) => v.(live := v.live - {id})
    case ExpireOp(now) => Expire(v, now)
  }

  function Run(v: View, ops: seq<TrackerOp>): View {
    if ops == [] then v else Step(Run(v, ops[..|ops| - 1]), ops[|ops| - 1])
  }

  // ---------- the implementation ----------

  // A block of a live request and the reference-counted cell it holds.
  datatype Held = Held(block: Hash, rc: nat)

  function Blocks(s: seq<Held>): (r: seq<Hash>)
    ensures |r| == |s| && forall i :: 0 <= i < |s| ==> r[i] == s[i].block
  {
    if s == [] then [] else Blocks(s[..|s| - 1]) + [s[|s| - 1].block]
  }

  ghost function LiveOf(seqs: map<RequestId, seq<Held>>): Live {
    map r | r in seqs :: Blocks(seqs[r])
  }

  // The block index, the allocated cells with their strong counts, and the block
  // each cell was made for.
  datatype Cells = Cells(index: map<Hash, nat>, strong: map<nat, nat>, owner: map<nat, Hash>, next: nat)

  // The index and the cells agree with a multiset of references: exactly the
  // referenced blocks are indexed, each cell counts its block's references, and
  // no other cell is alive.
  ghost predicate Agrees(c: Cells, refs: multiset<Hash>) {
    && (forall b :: b in c.index <==> b in refs)
    && (forall b {:trigger Cell(c, b, refs[b])} :: b in c.index ==> Cell(c, b, refs[b]))
    && (forall a {:trigger Accounted(c, a)} :: a in c.strong ==> Accounted(c, a))
  }

  // An allocated cell is either indexed under its block or has no references left.
  ghost predicate Accounted(c: Cells, a: nat) {
    && a < c.next && a in c.owner
    && (a in c.strong && c.strong[a] > 0 ==> c.owner[a] in c.index && c.index[c.owner[a]] == a)
  }

  ghost predicate Cell(c: Cells, b: Hash, count: nat)
    requires b in c.index
  {
    var a := c.index[b];
    a in c.strong && c.strong[a] == count && a in c.owner && c.owner[a] == b
  }

  ghost predicate Handle(e: Held, index: map<Hash, nat>) {
    e.block in index && index[e.block] == e.rc
  }

  ghost predicate Handled(s: seq<Held>, index: map<Hash, nat>) {
    forall i :: 0 <= i < |s| ==> Handle(s[i], index)
  }

  // Every block a live request holds is indexed under the cell the request holds,
  // and is among the counted references.
  ghost predicate Tracked(seqs: map<RequestId, seq<Held>>, index: map<Hash, nat>, live: multiset<Hash>) {
    forall r, i :: r in seqs && 0 <= i < |seqs[r]| ==> Handle(seqs[r][i], index) && seqs[r][i].block in live
  }

  // One more reference, on the block's cell or on a fresh one.
  ghost function Touch(c: Cells, b: Hash): Cells {
    if b in c.index && c.index[b] in c.strong && c.strong[c.index[b]] > 0 then
      c.(strong := c.strong[c.index[b] := c.strong[c.index[b]] + 1])
    else
      Cells(c.index[b := c.next], c.strong[c.next := 1], c.owner[c.next := b], c.next + 1)
  }

  // One reference fewer; the block leaves the index with its last reference.
  ghost function Drop(c: Cells, e: Held): Cells
    requires e.rc in c.strong && c.strong[e.rc] > 0
  {
    var left := c.strong[e.rc] - 1;
    c.(strong := c.strong[e.rc := left], index := if left == 0 then c.index - {e.block} else c.index)
  }

  lemma TouchAgrees(c: Cells, b: Hash, refs: multiset<Hash>)
    requires Agrees(c, refs)
    ensures Agrees(Touch(c, b), refs + multiset{b}) && b in Touch(c, b).index
    ensures b in c.index ==> c.index[b] in c.strong
    ensures forall k :: k in c.index ==> k in Touch(c, b).index && Touch(c, b).index[k] == c.index[k]
  {
    var c' := Touch(c, b);
    if b in c.index { assert Cell(c, b, refs[b]); }
    assert c.next in c.strong ==> Accounted(c, c.next);
    forall k | k in c'.index ensures Cell(c', k, (refs + multiset{b})[k]) {
      if k in c.index { assert Cell(c, k, refs[k]) && Accounted(c, c.index[k]); }
    }
    forall a | a in c'.strong ensures Accounted(c', a) {
      if a in c.strong { assert Accounted(c, a); }
    }
  }

  lemma DropAgrees(c: Cells, e: Held, refs: multiset<Hash>)
    requires Agrees(c, refs + multiset{e.block}) && Handle(e, c.index)
    ensures e.rc in c.strong && c.strong[e.rc] > 0 && Agrees(Drop(c, e), refs)
    ensures forall k :: k in refs && k in c.index ==> k in Drop(c, e).index && Drop(c, e).index[k] == c.index[k]
  {
    assert Cell(c, e.block, (refs + multiset{e.block})[e.block]);
    var c' := Drop(c, e);
    forall k | k in c'.index ensures Cell(c', k, refs[k]) {
      assert Cell(c, k, (refs + multiset{e.block})[k]);
    }
    forall a | a in c'.strong ensures Accounted(c', a) {
      assert Accounted(c, a);
    }
  }

  lemma TouchStep(seqs: map<RequestId, seq<Held>>, c: Cells, live: multiset<Hash>, held: seq<Held>,
                  b: Hash)
    requires Tracked(seqs, c.index, live) && Handled(held, c.index) && Agrees(c, live + multiset(Blocks(held)))
    ensures b in c.index ==> c.index[b] in c.strong
    ensures b in Touch(c, b).index
    ensures var c', more := Touch(c, b), held + [Held(b, Touch(c, b).index[b])];
            Tracked(seqs, c'.index, live) && Handled(more, c'.index) && Agrees(c', live + multiset(Blocks(more)))
  {
    hide Touch, Agrees, Blocks;
    var refs := live + multiset(Blocks(held));
    TouchAgrees(c, b, refs);
    BlocksAppend(held, Held(b, Touch(c, b).index[b]));
    assert refs + multiset{b} == live + multiset(Blocks(held) + [b]);
  }

  lemma BlocksAppend(s: seq<Held>, e: Held)
    ensures Blocks(s + [e]) == Blocks(s) + [e.block]
  {}

  lemma TakeOneMore<T>(s: seq<T>, k: nat)
    requires k < |s|
    ensures s[..k + 1] == s[..k] + [s[k]]
  {}

  lemma BlocksFirst(s: seq<Held>)
    requires s != []
    ensures multiset(Blocks(s)) == multiset{s[0].block} + multiset(Blocks(s[1..]))
  {
    assert Blocks(s) == [s[0].block] + Blocks(s[1..]);
  }

  lemma DropStep(seqs: map<RequestId, seq<Held>>, c: Cells, live: multiset<Hash>, held: seq<Held>)
    requires Tracked(seqs, c.index, live) && Handled(held, c.index) && Agrees(c, live + multiset(Blocks(held)))
    requires held != []
    ensures Handle(held[0], c.index) && held[0].rc in c.strong && c.strong[held[0].rc] > 0
    ensures var c', tail := Drop(c, held[0]), held[1..];
            Tracked(seqs, c'.index, live) && Handled(tail, c'.index) && Agrees(c', live + multiset(Blocks(tail)))
  {
    var e, tail := held[0], held[1..];
    var refs := live + multiset(Blocks(tail));
    BlocksFirst(held);
    assert live + multiset(Blocks(held)) == refs + multiset{e.block};
    assert Handle(e, c.index);
    DropAgrees(c, e, refs);
    TailHandles(held, c.index, Drop(c, e).index, refs);
  }

  lemma TailHandles(held: seq<Held>, before: map<Hash, nat>, after: map<Hash, nat>, refs: multiset<Hash>)
    requires held != [] && Handled(held, before) && multiset(Blocks(held[1..])) <= refs
    requires forall k :: k in refs && k in before ==> k in after && after[k] == before[k]
    ensures Handled(held[1..], after)
  {}

  lemma LiveWithout(seqs: map<RequestId, seq<Held>>, id: RequestId)
    ensures LiveOf(seqs - {id}) == LiveOf(seqs) - {id}
  {}

  lemma LiveWith(seqs: map<RequestId, seq<Held>>, id: RequestId, held: seq<Held>)
    ensures LiveOf(seqs[id := held]) == LiveOf(seqs)[id := Blocks(held)]
  {}

  lemma NothingLive(seqs: map<RequestId, seq<Held>>, c: Cells)
    requires seqs.Keys == {} && Agrees(c, Refs(LiveOf(seqs)))
    ensures seqs == map[] && LiveOf(seqs) == map[] && c.index == map[]
  {}

  lemma SplitRefs(seqs: map<RequestId, seq<Held>>, id: RequestId)
    requires id in seqs
    ensures Refs(LiveOf(seqs)) == Refs(LiveOf(seqs - {id})) + multiset(Blocks(seqs[id]))
  {
    RefsPick(LiveOf(seqs), id);
    LiveWithout(seqs, id);
  }

  lemma TrackedMembers(seqs: map<RequestId, seq<Held>>, index: map<Hash, nat>, all: multiset<Hash>)
    requires Tracked(seqs, index, all)
    ensures Tracked(seqs, index, Refs(LiveOf(seqs)))
  {
    forall r, i | r in seqs && 0 <= i < |seqs[r]| ensures seqs[r][i].block in Refs(LiveOf(seqs)) {
      assert LiveOf(seqs)[r][i] == seqs[r][i].block;
      RefsMember(LiveOf(seqs), r, seqs[r][i].block);
    }
  }

  lemma TakeOut(seqs: map<RequestId, seq<Held>>, c: Cells, id: RequestId)
    requires Tracked(seqs, c.index, Refs(LiveOf(seqs))) && Agrees(c, Refs(LiveOf(seqs))) && id in seqs
    ensures var live := Refs(LiveOf(seqs - {id}));
            && Tracked(seqs - {id}, c.index, live) && Handled(seqs[id], c.index)
            && Agrees(c, live + multiset(Blocks(seqs[id])))
  {
    SplitRefs(seqs, id);
    forall i | 0 <= i < |seqs[id]| ensures Handle(seqs[id][i], c.index) {}
    TrackedMembers(seqs - {id}, c.index, Refs(LiveOf(seqs)));
  }

  lemma PutIn(seqs: map<RequestId, seq<Held>>, c: Cells, id: RequestId, held: seq<Held>)
    requires id !in seqs
    requires Tracked(seqs, c.index, Refs(LiveOf(seqs))) && Handled(held, c.index)
    requires Agrees(c, Refs(LiveOf(seqs)) + multiset(Blocks(held)))
    ensures var all := Refs(LiveOf(seqs[id := held]));
            Tracked(seqs[id := held], c.index, all) && Agrees(c, all)
  {
    hide Refs, Blocks, LiveOf, Agrees;
    SplitRefs(seqs[id := held], id);
    assert seqs[id := held] - {id} == seqs;
    var all := Refs(LiveOf(seqs)) + multiset(Blocks(held));
    var seqs' := seqs[id := held];
    forall r, i | r in seqs' && 0 <= i < |seqs'[r]| ensures Handle(seqs'[r][i], c.index) && seqs'[r][i].block in all {
      if r == id {
        assert Handle(held[i], c.index) && Blocks(held)[i] in multiset(Blocks(held));
      }
    }
  }

  class ActiveSequences {
    var activeSeqs: map<RequestId, seq<Held>>
    var uniqueBlocks: map<Hash, nat>
    var expiryRequests: set<RequestId>
    var expiryTimer: int
    const blockSize: nat
    // the allocated cells
    var strong: map<nat, nat>
    ghost var owner: map<nat, Hash>
    var nextCell: nat

    ghost function Meaning(): View
      reads this
    {
      View(LiveOf(activeSeqs), expiryTimer)
    }

    ghost function AllCells(): Cells
      reads this
    {
      Cells(uniqueBlocks, strong, owner, nextCell)
    }

    ghost predicate Counted()
      reads this
    {
      var live := Refs(LiveOf(activeSeqs));
      Tracked(activeSeqs, uniqueBlocks, live) && Agrees(AllCells(), live)
    }

    ghost predicate Valid()
      reads this
    {
      Counted() && expiryRequests == activeSeqs.Keys
    }

    constructor (blockSize: nat, now: int)
      requires blockSize > 1
      ensures Valid() && Meaning() == View(map[], now + 300)
      ensures this.blockSize == blockSize
    {
      this.blockSize := blockSize;
      activeSeqs, uniqueBlocks, expiryRequests := map[], map[], {};
      expiryTimer := now + EXPIRY_SECONDS;
      strong, owner, nextCell := map[], map[], 0;
    }

    // touch_block: one more reference, on the block's cell or on a fresh one.
    method TouchBlock(block: Hash) returns (rc: nat)
      requires block in uniqueBlocks ==> uniqueBlocks[block] in strong
      modifies this`uniqueBlocks, this`strong, this`owner, this`nextCell
      ensures AllCells() == Touch(old(AllCells()), block)
      ensures block in uniqueBlocks && uniqueBlocks[block] == rc
    {
      if block in uniqueBlocks && strong[uniqueBlocks[block]] > 0 {
        rc := uniqueBlocks[block];
        strong := strong[rc := strong[rc] + 1];
      } else {
        rc := nextCell;
        nextCell := nextCell + 1;
        strong := strong[rc := 1];
        owner := owner[rc := block];
        uniqueBlocks := uniqueBlocks[block := rc];
      }
    }

    // try_remove_block
    method TryRemoveBlock(block: Hash)
      requires block in uniqueBlocks ==> uniqueBlocks[block] in strong
      modifies this`uniqueBlocks
      ensures uniqueBlocks == if block in old(uniqueBlocks) && strong[old(uniqueBlocks)[block]] == 0
                              then old(uniqueBlocks) - {block} else old(uniqueBlocks)
    {
      if block in uniqueBlocks {
        var canRemove := strong[uniqueBlocks[block]] == 0;
        if canRemove {
          uniqueBlocks := uniqueBlocks - {block};
        }
      }
    }

    method ActiveBlockCount() returns (n: nat)
      requires Counted()
      ensures n == |ActiveBlocks(LiveOf(activeSeqs))|
    {
      n := |uniqueBlocks|;
      assert uniqueBlocks.Keys == ActiveBlocks(LiveOf(activeSeqs));
    }

    method BlockHoldCount(block: Hash) returns (n: nat)
      requires Counted()
      ensures n == HoldCount(LiveOf(activeSeqs), block)
    {
      assert block in uniqueBlocks ==> Cell(AllCells(), block, Refs(LiveOf(activeSeqs))[block]);
      n := if block in uniqueBlocks then strong[uniqueBlocks[block]] else 0;
    }

    method SequenceHoldCounts(blocks: seq<Hash>) returns (counts: seq<nat>)
      requires Counted()
      ensures counts == HoldCounts(LiveOf(activeSeqs), blocks)
    {
      counts := [];
      for k := 0 to |blocks|
        invariant counts == HoldCounts(LiveOf(activeSeqs), blocks[..k])
      {
        assert blocks[..k + 1][..k] == blocks[..k];
        var n := BlockHoldCount(blocks[k]);
        counts := counts + [n];
      }
      assert blocks[..|blocks|] == blocks;
    }

    // new_blocks
    method NewBlockCount(blocks: seq<Hash>) returns (n: nat)
      requires Counted()
      ensures n == |Missing(blocks, ActiveBlocks(LiveOf(activeSeqs)))|
    {
      n := 0;
      assert uniqueBlocks.Keys == ActiveBlocks(LiveOf(activeSeqs));
      for k := 0 to |blocks|
        invariant n == |Missing(blocks[..k], uniqueBlocks.Keys)|
      {
        assert blocks[..k + 1][..k] == blocks[..k];
        if blocks[k] !in uniqueBlocks {
          n := n + 1;
        }
      }
      assert blocks[..|blocks|] == blocks;
    }

    // potential_blocks
    method PotentialBlocks(blocks: seq<Hash>) returns (n: nat)
      requires Counted()
      ensures n == Potential(LiveOf(activeSeqs), blocks)
    {
      var missing := NewBlockCount(blocks);
      var active := ActiveBlockCount();
      n := missing + active;
    }

    // The loop of free over the sequence taken out of the table: each reference
    // is dropped and then its block is cleaned up.
    method ReleaseAll(held: seq<Held>, ghost live: multiset<Hash>)
      requires Tracked(activeSeqs, uniqueBlocks, live) && Handled(held, uniqueBlocks)
      requires Agrees(AllCells(), live + multiset(Blocks(held)))
      modifies this`uniqueBlocks, this`strong
      ensures Tracked(activeSeqs, uniqueBlocks, live) && Agrees(AllCells(), live)
    {
      assert live + multiset(Blocks([])) == live;
      hide Tracked, Handled, Agrees, Blocks;
      var rest := held;
      while rest != []
        invariant Tracked(activeSeqs, uniqueBlocks, live) && Handled(rest, uniqueBlocks)
        invariant Agrees(AllCells(), live + multiset(Blocks(rest)))
      {
        ReleaseFirst(rest, live);
        rest := rest[1..];
      }
    }

    method ReleaseFirst(held: seq<Held>, ghost live: multiset<Hash>)
      requires Tracked(activeSeqs, uniqueBlocks, live) && Handled(held, uniqueBlocks) && held != []
      requires Agrees(AllCells(), live + multiset(Blocks(held)))
      modifies this`uniqueBlocks, this`strong
      ensures Tracked(activeSeqs, uniqueBlocks, live) && Handled(held[1..], uniqueBlocks)
      ensures Agrees(AllCells(), live + multiset(Blocks(held[1..])))
    {
      hide Tracked, Handled, Agrees, Blocks;
      ghost var c := AllCells();
      DropStep(activeSeqs, c, live, held);
      var e := held[0];
      strong := strong[e.rc := strong[e.rc] - 1];
      TryRemoveBlock(e.block);
      assert AllCells() == Drop(c, e);
    }

    // free
    method Free(id: RequestId) returns (active: nat)
      requires Counted()
      modifies this
      ensures Counted()
      ensures Meaning() == Step(old(Meaning()), FreeOp(id))
      ensures expiryRequests == old(expiryRequests) - {id}
      ensures activeSeqs == old(activeSeqs) - {id}
      ensures active == |ActiveBlocks(LiveOf(activeSeqs))|
    {
      hide Refs, LiveOf, Agrees, Tracked, Handled;
      expiryRequests := expiryRequests - {id};
      LiveWithout(activeSeqs, id);
      if id !in activeSeqs {
        assert activeSeqs - {id} == activeSeqs;
        active := ActiveBlockCount();
        return;
      }
      TakeOut(activeSeqs, AllCells(), id);
      var held := activeSeqs[id];
      activeSeqs := activeSeqs - {id};
      ReleaseAll(held, Refs(LiveOf(activeSeqs)));
      active := ActiveBlockCount();
    }

    // The loop of force_expiry over the requests to expire, in any order.
    method FreeAll(ids: set<RequestId>)
      requires Counted() && activeSeqs.Keys == ids && expiryRequests == {}
      modifies this
      ensures Counted() && expiryRequests == {} && expiryTimer == old(expiryTimer)
      ensures activeSeqs == map[] && uniqueBlocks == map[] && LiveOf(activeSeqs) == map[]
    {
      hide LiveOf, Agrees, Tracked;
      var todo := ids;
      while todo != {}
        invariant Counted() && activeSeqs.Keys == todo && expiryRequests == {} && expiryTimer == old(expiryTimer)
        decreases |todo|
      {
        var id :| id in todo;
        var _ := Free(id);
        todo := todo - {id};
      }
      NothingLive(activeSeqs, AllCells());
    }

    // force_expiry
    method ForceExpiry(now: int) returns (expired: set<RequestId>)
      requires Valid()
      modifies this
      ensures Valid()
      ensures Meaning() == Step(old(Meaning()), ExpireOp(now))
      ensures expired == if now < old(expiryTimer) then {} else old(activeSeqs.Keys)
      ensures activeSeqs == if now < old(expiryTimer) then old(activeSeqs) else map[]
      ensures now >= old(expiryTimer) ==> uniqueBlocks == map[]
    {
      if now < expiryTimer {
        return {};
      }
      expired := expiryRequests;
      expiryRequests := {};
      FreeAll(expired);
      expiryTimer := now + EXPIRY_SECONDS;
      expiryRequests := expiryRequests + activeSeqs.Keys;
    }

    // One more block for a sequence that is being put together.
    method Hold(held: seq<Held>, block: Hash, ghost live: multiset<Hash>) returns (more: seq<Held>)
      requires Tracked(activeSeqs, uniqueBlocks, live) && Handled(held, uniqueBlocks)
      requires Agrees(AllCells(), live + multiset(Blocks(held)))
      modifies this`uniqueBlocks, this`strong, this`owner, this`nextCell
      ensures Blocks(more) == Blocks(held) + [block]
      ensures Tracked(activeSeqs, uniqueBlocks, live) && Handled(more, uniqueBlocks)
      ensures Agrees(AllCells(), live + multiset(Blocks(more)))
    {
      hide Blocks, Handled, Tracked, Agrees;
      TouchStep(activeSeqs, AllCells(), live, held, block);
      var rc := TouchBlock(block);
      BlocksAppend(held, Held(block, rc));
      more := held + [Held(block, rc)];
    }

    // The construction of a request's sequence in add_request.
    method HoldAll(blocks: seq<Hash>, ghost live: multiset<Hash>) returns (held: seq<Held>)
      requires Tracked(activeSeqs, uniqueBlocks, live) && Agrees(AllCells(), live)
      modifies this`uniqueBlocks, this`strong, this`owner, this`nextCell
      ensures Blocks(held) == blocks
      ensures Tracked(activeSeqs, uniqueBlocks, live) && Handled(held, uniqueBlocks)
      ensures Agrees(AllCells(), live + multiset(Blocks(held)))
    {
      held := [];
      assert live + multiset(Blocks(held)) == live;
      for k := 0 to |blocks|
        invariant Blocks(held) == blocks[..k]
        invariant Tracked(activeSeqs, uniqueBlocks, live) && Handled(held, uniqueBlocks)
        invariant Agrees(AllCells(), live + multiset(Blocks(held)))
      {
        hide *;
        TakeOneMore(blocks, k);
        held := Hold(held, blocks[k], live);
      }
    }

    // The part of add_request that records the new sequence.
    method Insert(id: RequestId, blocks: seq<Hash>)
      requires Valid() && id !in activeSeqs
      modifies this
      ensures Valid()
      ensures Meaning() == View(old(Meaning()).live[id := blocks], old(expiryTimer))
    {
      hide Refs, Agrees, Tracked, Handled, LiveOf, Blocks;
      var held := HoldAll(blocks, Refs(LiveOf(activeSeqs)));
      LiveWith(activeSeqs, id, held);
      PutIn(activeSeqs, AllCells(), id, held);
      activeSeqs := activeSeqs[id := held];
      expiryRequests := expiryRequests + {id};
    }

    // add_request: a duplicate id is ignored, and does not even expire anything.
    method AddRequest(id: RequestId, sequence: Option<seq<Hash>>, now: int) returns (removed: set<RequestId>)
      requires Valid()
      modifies this
      ensures Valid()
      ensures Meaning() == Step(old(Meaning()), AddOp(id, sequence, now))
      ensures removed == if id in old(activeSeqs) || now < old(expiryTimer) then {} else old(activeSeqs.Keys)
    {
      if id in activeSeqs {
        return {};
      }
      hide Counted;
      removed := ForceExpiry(now);
      Insert(id, if sequence.Some? then sequence.value else []);
    }

    // Any sequence of public calls keeps the index and the live requests in step.
    method Replay(ops: seq<TrackerOp>)
      requires Valid()
      modifies this
      ensures Valid()
      ensures Meaning() == Run(old(Meaning()), ops)
      ensures uniqueBlocks.Keys == ActiveBlocks(Meaning().live) && expiryRequests == Meaning().live.Keys
      ensures forall b :: b in uniqueBlocks ==>
                uniqueBlocks[b] in strong && strong[uniqueBlocks[b]] == HoldCount(Meaning().live, b)
    {
      for k := 0 to |ops|
        invariant Valid() && Meaning() == Run(old(Meaning()), ops[..k])
      {
        assert ops[..k + 1][..k] == ops[..k];
        match ops[k] {
          case AddOp(id, blocks, now) => var _ := AddRequest(id, blocks, now);
          case FreeOp(id) => var _ := Free(id);
          case ExpireOp(now) => var _ := ForceExpiry(now);
        }
      }
      assert ops[..|ops|] == ops;
      forall b | b in uniqueBlocks
        ensures uniqueBlocks[b] in strong && strong[uniqueBlocks[b]] == HoldCount(Meaning().live, b)
      {
        assert Cell(AllCells(), b, HoldCount(Meaning().live, b));
      }
    }
  }

  // ---------- counting blocks ----------

  function Missing(blocks: seq<Hash>, present: set<Hash>): seq<Hash> {
    if blocks == [] then []
    else
      var init, last := Missing(blocks[..|blocks| - 1], present), blocks[|blocks| - 1];
      if last in present then init else init + [last]
  }

  // Every missing position counts, repeats included.
  lemma MissingIsFilter(blocks: seq<Hash>, present: set<Hash>, b: Hash)
    ensures Missing([], present) == []
    ensures Missing(blocks + [b], present)
         == if b in present then Missing(blocks, present) else Missing(blocks, present) + [b]
  {
    var more := blocks + [b];
    assert more[..|more| - 1] == blocks;
  }

  ghost function Potential(live: Live, blocks: seq<Hash>): nat {
    |Missing(blocks, ActiveBlocks(live))| + |ActiveBlocks(live)|
  }

  lemma {:induction false} MissingElements(blocks: seq<Hash>, present: set<Hash>)
    ensures forall b :: b in Missing(blocks, present) <==> b in blocks && b !in present
  {
    if blocks != [] {
      MissingElements(blocks[..|blocks| - 1], present);
      assert blocks == blocks[..|blocks| - 1] + [blocks[|blocks| - 1]];
    }
  }

  // A block list takes up its missing blocks and those it shares with a set.
  lemma SizeOfElements(blocks: seq<Hash>, present: set<Hash>)
    ensures var missing := Missing(blocks, present);
            && |Elements(blocks)| <= |missing| + |present|
            && |Elements(blocks) + present| <= |missing| + |present|
            && (|Elements(blocks) + present| == |missing| + |present| <==> Distinct(missing))
            && (|Elements(blocks)| == |missing| + |present| <==> Distinct(missing) && present <= Elements(blocks))
  {
    var missing, elements := Missing(blocks, present), Elements(blocks);
    MissingElements(blocks, present);
    DistinctCardinality(missing);
    assert Elements(missing) == elements - present;
    Overlap(elements, present);
  }

  lemma Overlap(a: set<Hash>, b: set<Hash>)
    ensures |a + b| == |a - b| + |b| && |a| <= |a - b| + |b|
    ensures |a| == |a - b| + |b| <==> b <= a
  {
    assert a + b == (a - b) + b && a == (a - b) + a * b && b == (b - a) + a * b;
  }

  lemma ActiveAfterAdd(v: View, id: RequestId, blocks: seq<Hash>, now: int)
    requires id !in v.live
    ensures ActiveBlocks(Step(v, AddOp(id, Some(blocks), now)).live)
         == if now < v.timer then Elements(blocks) + ActiveBlocks(v.live) else Elements(blocks)
  {
    var live: Live := if now < v.timer then v.live else map[];
    RefsAdd(live, id, blocks);
  }

  // For every view and request: the predicted number of blocks is never too small. For a
  // new id it is exact precisely when the request repeats none of the blocks it brings
  // in, and expires none that it does not hold itself; an id already active adds nothing,
  // so there it is exact when no block is missing.
  lemma PotentialBoundsActive(v: View, id: RequestId, blocks: seq<Hash>, now: int)
    ensures var active := |ActiveBlocks(Step(v, AddOp(id, Some(blocks), now)).live)|;
            var present := ActiveBlocks(v.live);
            var missing := Missing(blocks, present);
            && active <= Potential(v.live, blocks)
            && (active == Potential(v.live, blocks) <==>
                  if id in v.live then missing == []
                  else Distinct(missing) && (now < v.timer || present <= Elements(blocks)))
  {
    if id !in v.live {
      ActiveAfterAdd(v, id, blocks, now);
      SizeOfElements(blocks, ActiveBlocks(v.live));
    }
  }

  lemma {:induction false} MissingDistinct(blocks: seq<Hash>, present: set<Hash>)
    requires Distinct(blocks)
    ensures Distinct(Missing(blocks, present))
  {
    if blocks != [] {
      var init, last := blocks[..|blocks| - 1], blocks[|blocks| - 1];
      MissingDistinct(init, present);
      MissingElements(init, present);
      assert last !in init;
      assert last !in Missing(init, present);
    }
  }

  // For a duplicate-free sequence under a new id the prediction is exact unless the
  // addition expires a block it does not bring back.
  lemma PotentialExactWhenDistinct(v: View, id: RequestId, blocks: seq<Hash>, now: int)
    requires id !in v.live && Distinct(blocks)
    ensures |ActiveBlocks(Step(v, AddOp(id, Some(blocks), now)).live)| == Potential(v.live, blocks)
       <==> now < v.timer || ActiveBlocks(v.live) <= Elements(blocks)
  {
    MissingDistinct(blocks, ActiveBlocks(v.live));
    PotentialBoundsActive(v, id, blocks, now);
  }

  // When the addition also expires the old requests the prediction is still an upper
  // bound, and exact when the request brings every old block back and repeats no new one.
  lemma PotentialBoundsActiveOnExpiry(v: View, id: RequestId, blocks: seq<Hash>, now: int)
    requires id !in v.live && now >= v.timer
    ensures var active := |ActiveBlocks(Step(v, AddOp(id, Some(blocks), now)).live)|;
            var missing := Missing(blocks, ActiveBlocks(v.live));
            && active <= Potential(v.live, blocks)
            && (active == Potential(v.live, blocks) <==> Distinct(missing) && ActiveBlocks(v.live) <= Elements(blocks))
  {
    PotentialBoundsActive(v, id, blocks, now);
  }

  // One request holds a, and the addition of [b] expires it: two predicted, one active.
  lemma PotentialMissesExpiry(a: Hash, b: Hash, timer: int)
    requires a != b
    ensures var v := View(map["r" := [a]], timer);
            && Potential(v.live, [b]) == 2
            && |ActiveBlocks(Step(v, AddOp("q", Some([b]), timer)).live)| == 1
  {
    var v := View(map["r" := [a]], timer);
    var none: Live := map[];
    assert v.live == none["r" := [a]] && "q"[0] != "r"[0];
    RefsAdd(none, "r", [a]);
    assert ActiveBlocks(v.live) == {a};
    ActiveAfterAdd(v, "q", [b], timer);
    assert Elements([b]) == {b};
    assert [b][..0] == [] && Missing([b], {a}) == [b];
  }

  // Adding a fresh request and freeing it gives back every hold count exactly
  // when the addition expires nothing that held a block.
  lemma AddThenFreeRestores(v: View, id: RequestId, blocks: seq<Hash>, now: int)
    requires id !in v.live
    ensures var after := Run(v, [AddOp(id, Some(blocks), now), FreeOp(id)]);
            ((forall b :: HoldCount(after.live, b) == HoldCount(v.live, b))
              <==> now < v.timer || ActiveBlocks(v.live) == {})
            && (now < v.timer ==> after == v)
  {
    var ops := [AddOp(id, Some(blocks), now), FreeOp(id)];
    assert ops[..1] == [ops[0]] && ops[..1][..0] == [];
    var after := Run(v, ops);
    assert Run(v, ops[..1]) == Step(v, ops[0]);
    assert after == Step(Step(v, ops[0]), ops[1]);
    if now < v.timer {
      assert v.live[id := blocks] - {id} == v.live;
    } else {
      assert after.live == map[];
      if ActiveBlocks(v.live) == {} {
        forall b ensures HoldCount(v.live, b) == 0 {
          assert b !in ActiveBlocks(v.live);
        }
      } else {
        var b :| b in ActiveBlocks(v.live);
        assert HoldCount(v.live, b) != HoldCount(after.live, b);
      }
    }
  }

  // A request without a sequence is active and holds nothing.
  lemma AddOfNothing(v: View, id: RequestId, now: int)
    requires id !in v.live && now < v.timer
    ensures Step(v, AddOp(id, None, now)) == View(v.live[id := []], v.timer)
  {}

  // A firing expiry spares no request, however new: one added at any time is still
  // active after a later expiry exactly when the expiry does not fire.
  lemma ExpirySparesNoRequest(v: View, id: RequestId, blocks: seq<Hash>, added: int, now: int)
    requires id !in v.live
    ensures id in Run(v, [AddOp(id, Some(blocks), added), ExpireOp(now)]).live
       <==> now < if added < v.timer then v.timer else added + 300
  {
    var ops := [AddOp(id, Some(blocks), added), ExpireOp(now)];
    assert ops[..1] == [ops[0]] && ops[..1][..0] == [];
    assert Run(v, ops[..1]) == Step(v, ops[0]);
    assert Run(v, ops) == Step(Step(v, ops[0]), ops[1]);
  }

  // A request added a second before the timer is due goes with the rest a second later.
  lemma NewRequestExpires(v: View, id: RequestId, blocks: seq<Hash>)
    requires id !in v.live
    ensures id !in Run(v, [AddOp(id, Some(blocks), v.timer - 1), ExpireOp(v.timer)]).live
  {
    ExpirySparesNoRequest(v, id, blocks, v.timer - 1, v.timer);
  }

  // ---------- hot blocks ----------

  ghost predicate AllChained(lin: Lineage, live: Live) {
    forall r :: r in live ==> Chained(lin, live[r])
  }

  ghost predicate ChainedOps(lin: Lineage, ops: seq<TrackerOp>) {
    forall i :: 0 <= i < |ops| && ops[i].AddOp? && ops[i].blocks.Some? ==> Chained(lin, ops[i].blocks.value)
  }

  // While only chains are added, only chains are live.
  lemma {:induction false} RunKeepsChained(lin: Lineage, v: View, ops: seq<TrackerOp>)
    requires AllChained(lin, v.live) && ChainedOps(lin, ops)
    ensures AllChained(lin, Run(v, ops).live)
  {
    if ops != [] {
      RunKeepsChained(lin, v, ops[..|ops| - 1]);
      assert ops[|ops| - 1].AddOp? && ops[|ops| - 1].blocks.Some? ==> Chained(lin, ops[|ops| - 1].blocks.value);
    }
  }

  // Along a chain the hold counts never increase.
  lemma {:induction false} HoldCountsDecrease(lin: Lineage, live: Live, h: Hash)
    requires AllChained(lin, live) && lin.parent(h) != ROOT
    ensures HoldCount(live, lin.parent(h)) >= HoldCount(live, h)
    decreases |live|
  {
    if live != map[] {
      var r :| r in live;
      RefsPick(live, r);
      HoldCountsDecrease(lin, live - {r}, h);
      ChainedIsDistinct(lin, live[r]);
      DistinctMultiplicity(live[r], h);
      DistinctMultiplicity(live[r], lin.parent(h));
      if h in live[r] {
        ChainContainsParent(lin, live[r], h);
      }
    }
  }

  lemma {:induction false} DistinctMultiplicity(s: seq<Hash>, h: Hash)
    requires Distinct(s)
    ensures multiset(s)[h] == if h in s then 1 else 0
  {
    if s != [] {
      var init, last := s[..|s| - 1], s[|s| - 1];
      DistinctMultiplicity(init, h);
      assert s == init + [last];
      assert last !in init;
    }
  }

  const MIGRATION_TRIGGER_THRESHOLD := 2

  datatype HotBlock = HotBlock(block: Hash, hold: nat)

  // The filter of a request's own blocks by hold count.
  function HighHold(blocks: seq<Hash>, counts: seq<nat>): seq<HotBlock>
    requires |blocks| == |counts|
  {
    if blocks == [] then []
    else
      var n := |blocks| - 1;
      var init := HighHold(blocks[..n], counts[..n]);
      if counts[n] >= MIGRATION_TRIGGER_THRESHOLD then init + [HotBlock(blocks[n], counts[n])] else init
  }

  function Zip(blocks: seq<Hash>, counts: seq<nat>): (r: seq<HotBlock>)
    requires |blocks| == |counts|
    ensures |r| == |blocks| && forall i :: 0 <= i < |r| ==> r[i] == HotBlock(blocks[i], counts[i])
  {
    if blocks == [] then []
    else Zip(blocks[..|blocks| - 1], counts[..|counts| - 1]) + [HotBlock(blocks[|blocks| - 1], counts[|counts| - 1])]
  }

  ghost function HoldCounts(live: Live, blocks: seq<Hash>): (r: seq<nat>)
    ensures |r| == |blocks| && forall i :: 0 <= i < |r| ==> r[i] == HoldCount(live, blocks[i])
  {
    if blocks == [] then [] else HoldCounts(live, blocks[..|blocks| - 1]) + [HoldCount(live, blocks[|blocks| - 1])]
  }

  // The filter keeps or drops each block for itself: it keeps those held at least twice.
  lemma HighHoldIsFilter(blocks: seq<Hash>, counts: seq<nat>, b: Hash, n: nat)
    requires |blocks| == |counts|
    ensures HighHold([], []) == []
    ensures HighHold(blocks + [b], counts + [n]) ==
            if n >= 2 then HighHold(blocks, counts) + [HotBlock(b, n)] else HighHold(blocks, counts)
  {
    var bs, ns := blocks + [b], counts + [n];
    assert bs[..|bs| - 1] == blocks && ns[..|ns| - 1] == counts;
  }

  // A request adds its own blocks once for every occurrence, and nothing else.
  lemma HoldCountsAddUp(live: Live, id: RequestId, blocks: seq<Hash>, b: Hash)
    requires id !in live
    ensures HoldCount(map[], b) == 0
    ensures HoldCount(live[id := blocks], b) == HoldCount(live, b) + multiset(blocks)[b]
  {
    RefsAdd(live, id, blocks);
  }

  // On non-increasing counts the filter keeps a prefix.
  lemma {:induction false} FilterOfDecreasing(blocks: seq<Hash>, counts: seq<nat>) returns (n: nat)
    requires |blocks| == |counts|
    requires forall i :: 0 < i < |counts| ==> counts[i - 1] >= counts[i]
    ensures n <= |blocks|
    ensures HighHold(blocks, counts) == Zip(blocks[..n], counts[..n])
    ensures forall i :: 0 <= i < |blocks| ==> (counts[i] >= MIGRATION_TRIGGER_THRESHOLD <==> i < n)
  {
    if blocks == [] {
      n := 0;
    } else {
      var m := |blocks| - 1;
      n := FilterOfDecreasing(blocks[..m], counts[..m]);
      assert forall i :: 0 <= i < m ==> counts[..m][i] == counts[i];
      if counts[m] >= MIGRATION_TRIGGER_THRESHOLD {
        assert m > 0 ==> counts[m - 1] >= MIGRATION_TRIGGER_THRESHOLD;
        assert n == m;
        WholeList(blocks[..m], m);
        WholeList(counts[..m], m);
        n := |blocks|;
        WholeList(blocks, n);
        WholeList(counts, n);
      } else {
        PrefixOfPrefix(blocks, m, n);
        PrefixOfPrefix(counts, m, n);
      }
    }
  }

  lemma WholeList<T>(s: seq<T>, n: nat)
    requires n == |s|
    ensures s[..n] == s
  {}

  lemma PrefixOfPrefix<T>(s: seq<T>, m: nat, n: nat)
    requires n <= m <= |s|
    ensures s[..m][..n] == s[..n]
  {}

  // When every live request is a chain, the blocks that pass the filter are
  // exactly the longest prefix of the request held at least twice.
  lemma {:induction false} HotBlocksFormPrefix(lin: Lineage, live: Live, blocks: seq<Hash>) returns (n: nat)
    requires AllChained(lin, live) && Chained(lin, blocks)
    ensures n <= |blocks|
    ensures HighHold(blocks, HoldCounts(live, blocks)) == Zip(blocks[..n], HoldCounts(live, blocks)[..n])
    ensures forall i :: 0 <= i < |blocks| ==>
              (HoldCount(live, blocks[i]) >= MIGRATION_TRIGGER_THRESHOLD <==> i < n)
  {
    hide Refs, HoldCount, HoldCounts, HighHold, Zip;
    var counts := HoldCounts(live, blocks);
    forall i | 0 < i < |counts| ensures counts[i - 1] >= counts[i] {
      assert Placed(lin, blocks, i) && Placed(lin, blocks, i - 1);
      HoldCountsDecrease(lin, live, blocks[i]);
    }
    n := FilterOfDecreasing(blocks, counts);
  }

  method FilterHighHold(blocks: seq<Hash>, counts: seq<nat>) returns (hot: seq<HotBlock>)
    requires |blocks| == |counts|
    ensures hot == HighHold(blocks, counts)
  {
    hot := [];
    for k := 0 to |blocks|
      invariant hot == HighHold(blocks[..k], counts[..k])
    {
      assert blocks[..k + 1][..k] == blocks[..k] && counts[..k + 1][..k] == counts[..k];
      if counts[k] >= MIGRATION_TRIGGER_THRESHOLD {
        hot := hot + [HotBlock(blocks[k], counts[k])];
      }
    }
    assert blocks[..|blocks|] == blocks && counts[..|counts|] == counts;
  }

  // The start of a new request: it joins the tracker and its own blocks are
  // filtered by how many live requests hold them.
  method NewRequest(tracker: ActiveSequences, id: RequestId, blocks: seq<Hash>, now: int) returns (hot: seq<HotBlock>)
    requires tracker.Valid()
    modifies tracker
    ensures tracker.Valid()
    ensures tracker.Meaning() == Step(old(tracker.Meaning()), AddOp(id, Some(blocks), now))
    ensures hot == HighHold(blocks, HoldCounts(tracker.Meaning().live, blocks))
  {
    var _ := tracker.AddRequest(id, Some(blocks), now);
    var counts := tracker.SequenceHoldCounts(blocks);
    hot := FilterHighHold(blocks, counts);
  }
}
