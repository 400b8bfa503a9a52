// The reference-count ledger: incremental counts waiting to be reported, full
// local counts, and global counts.
module RefCounts {
  import opened Types

  datatype Counts = Counts(incremental: map<Hash, nat>, full: map<Hash, nat>, global: map<Hash, nat>)

  function BumpAll(m: map<Hash, nat>, hs: seq<Hash>, n: nat): map<Hash, nat> {
    if hs == [] then m else Bump(BumpAll(m, hs[..|hs| - 1], n), hs[|hs| - 1], n)
  }

  // Two ledgers added entry by entry; only positive pending entries create an entry.
  function Merge(full: map<Hash, nat>, pending: map<Hash, nat>): map<Hash, nat> {
    map h | h in full.Keys + pending.Keys && (h in full || pending[h] > 0) :: Get(full, h) + Get(pending, h)
  }

  function LocalCount(c: Counts, h: Hash): nat {
    Get(c.full, h) + Get(c.incremental, h)
  }

  // The operations that add or move counts; none removes any.
  datatype CountOp =
    | AddIncremental(h: Hash, n: nat)
    | AddBatch(hs: seq<Hash>, n: nat)
    | AddLocal(h: Hash, n: nat)
    | AddGlobal(h: Hash, n: nat)
    | ConsolidateOne(h: Hash)
    | ConsolidateAll
    | Sync

  function Apply(c: Counts, op: CountOp): Counts {
    match op
    case AddIncremental(h, n) => c.(incremental := Bump(c.incremental, h, n))
    case AddBatch(hs, n) => c.(incremental := BumpAll(c.incremental, hs, n), global := BumpAll(c.global, hs, n))
    case AddLocal(h, n) => c.(full := Bump(c.full, h, n))
    case AddGlobal(h, n) =>
      // a hash with a full local count is counted there
      if h in c.full then c.(full := Bump(c.full, h, n)) else c.(global := Bump(c.global, h, n))
    case ConsolidateOne(h) =>
      c.(incremental := c.incremental - {h},
         full := if Get(c.incremental, h) > 0 then Bump(c.full, h, c.incremental[h]) else c.full)
    case ConsolidateAll => Counts(map[], Merge(c.full, c.incremental), c.global)
    case Sync => Counts(map[], Merge(c.full, c.incremental), c.global)
  }

  // What each operation does to the entries of a hash, which exist with a count of zero too.
  lemma AppliedEntries(c: Counts, op: CountOp, h: Hash)
    ensures var after := Apply(c, op);
            match op
            case AddIncremental(k, n) =>
              && (h in after.incremental <==> h in c.incremental || h == k)
              && Get(after.incremental, h) == Get(c.incremental, h) + (if h == k then n else 0)
              && after.full == c.full && after.global == c.global
            case AddBatch(hs, n) =>
              && (h in after.incremental <==> h in c.incremental || h in hs)
              && (h in after.global <==> h in c.global || h in hs)
              && Get(after.incremental, h) == Get(c.incremental, h) + n * multiset(hs)[h]
              && Get(after.global, h) == Get(c.global, h) + n * multiset(hs)[h]
              && after.full == c.full
            case AddLocal(k, n) =>
              && (h in after.full <==> h in c.full || h == k)
              && Get(after.full, h) == Get(c.full, h) + (if h == k then n else 0)
              && after.incremental == c.incremental && after.global == c.global
            case AddGlobal(k, n) =>
              && Get(after.full, h) == Get(c.full, h) + (if h == k && k in c.full then n else 0)
              && Get(after.global, h) == Get(c.global, h) + (if h == k && k !in c.full then n else 0)
              && (h in after.full <==> h in c.full)
              && (h in after.global <==> h in c.global || (h == k && k !in c.full))
              && after.incremental == c.incremental
            case ConsolidateOne(k) =>
              && (h in after.incremental <==> h in c.incremental && h != k)
              && (h != k ==> Get(after.incremental, h) == Get(c.incremental, h))
              && (h in after.full <==> h in c.full || (h == k && Get(c.incremental, k) > 0))
              && Get(after.full, h) == Get(c.full, h) + (if h == k then Get(c.incremental, k) else 0)
              && after.global == c.global
            case ConsolidateAll => Consolidated(c, after, h)
            case Sync => Consolidated(c, after, h)
  {
    match op
    case AddBatch(hs, n) =>
      BumpAllCounts(c.incremental, hs, n, h);
      BumpAllCounts(c.global, hs, n, h);
    case _ =>
  }

  ghost predicate Consolidated(c: Counts, after: Counts, h: Hash) {
    && after.incremental == map[] && after.global == c.global
    && (h in after.full <==> h in c.full || Get(c.incremental, h) > 0)
    && Get(after.full, h) == Get(c.full, h) + Get(c.incremental, h)
  }

  // A batch of counts reported by a peer.
  function AddGlobalAll(c: Counts, incs: seq<(Hash, nat)>): Counts {
    if incs == [] then c
    else
      var n := |incs| - 1;
      Apply(AddGlobalAll(c, incs[..n]), AddGlobal(incs[n].0, incs[n].1))
  }

  predicate Named(incs: seq<(Hash, nat)>, h: Hash) {
    exists i :: 0 <= i < |incs| && incs[i].0 == h
  }

  function Added(incs: seq<(Hash, nat)>, h: Hash): nat {
    if incs == [] then 0
    else
      var n := |incs| - 1;
      Added(incs[..n], h) + if incs[n].0 == h then incs[n].1 else 0
  }

  // What such a batch adds to the global count of a hash: nothing where the count is local.
  function Booked(c: Counts, incs: seq<(Hash, nat)>, h: Hash): nat {
    if h in c.full then 0 else Added(incs, h)
  }

  lemma {:induction false} PeerCountsAreBooked(c: Counts, incs: seq<(Hash, nat)>, h: Hash)
    ensures var after := AddGlobalAll(c, incs);
            && Get(after.global, h) == Get(c.global, h) + Booked(c, incs, h)
            && (h in after.global <==> h in c.global || (h !in c.full && Named(incs, h)))
            && (h in after.full <==> h in c.full)
            && Get(after.full, h) == Get(c.full, h) + (if h in c.full then Added(incs, h) else 0)
            && after.incremental == c.incremental
    ensures !Named(incs, h) ==> Added(incs, h) == 0
  {
    if incs != [] {
      var n := |incs| - 1;
      PeerCountsAreBooked(c, incs[..n], h);
      assert Named(incs, h) <==> Named(incs[..n], h) || incs[n].0 == h by {
        if i :| 0 <= i < |incs| && incs[i].0 == h { assert i < n ==> incs[..n][i] == incs[i]; }
        if i :| 0 <= i < n && incs[..n][i].0 == h { assert incs[i].0 == h; }
      }
    }
  }

  // Progress of a merge that has still to visit the entries in todo.
  ghost predicate Merged(r: map<Hash, nat>, full: map<Hash, nat>, pending: map<Hash, nat>, todo: set<Hash>) {
    && (forall h :: h in r <==> h in full || (h in pending && h !in todo && pending[h] > 0))
    && (forall h :: h in r ==> r[h] == Get(full, h) + if h in todo then 0 else Get(pending, h))
  }

  lemma MergeStep(r: map<Hash, nat>, full: map<Hash, nat>, pending: map<Hash, nat>, todo: set<Hash>, h: Hash)
    requires Merged(r, full, pending, todo) && h in todo && h in pending
    ensures pending[h] > 0 ==> Merged(Bump(r, h, pending[h]), full, pending, todo - {h})
    ensures pending[h] == 0 ==> Merged(r, full, pending, todo - {h})
  {}

  lemma MergeDone(r: map<Hash, nat>, full: map<Hash, nat>, pending: map<Hash, nat>)
    requires Merged(r, full, pending, {})
    ensures r == Merge(full, pending)
  {}

  // Progress of a listing: like a merge, but entries with a zero count appear too.
  ghost predicate Listed(r: map<Hash, nat>, full: map<Hash, nat>, pending: map<Hash, nat>, todo: set<Hash>) {
    && (forall h :: h in r <==> h in full || (h in pending && h !in todo))
    && (forall h :: h in r ==> r[h] == Get(full, h) + if h in todo then 0 else Get(pending, h))
  }

  lemma ListStep(r: map<Hash, nat>, full: map<Hash, nat>, pending: map<Hash, nat>, todo: set<Hash>, h: Hash)
    requires Listed(r, full, pending, todo) && h in todo && h in pending
    ensures Listed(Bump(r, h, pending[h]), full, pending, todo - {h})
  {}

  ghost predicate Copied(r: map<Hash, nat>, full: map<Hash, nat>, todo: set<Hash>) {
    && (forall h :: h in r <==> h in full && h !in todo)
    && (forall h :: h in r ==> r[h] == Get(full, h))
  }

  lemma CopyStep(r: map<Hash, nat>, full: map<Hash, nat>, todo: set<Hash>, h: Hash)
    requires Copied(r, full, todo) && h in todo && h in full
    ensures Copied(r[h := full[h]], full, todo - {h})
  {}

  class RefCount {
    var localIncremental: map<Hash, nat>
    var localRefs: map<Hash, nat>
    var globalRefs: map<Hash, nat>

    ghost function State(): Counts
      reads this
    {
      Counts(localIncremental, localRefs, globalRefs)
    }

    constructor ()
      ensures State() == Counts(map[], map[], map[])
    {
      localIncremental, localRefs, globalRefs := map[], map[], map[];
    }

    // clear_and_consolidate_incremental_counts: entries are visited in any order.
    method ClearAndConsolidate()
      modifies this
      ensures State() == Apply(old(State()), ConsolidateAll)
    {
      var todo := localIncremental.Keys;
      while todo != {}
        invariant localIncremental == old(localIncremental) && globalRefs == old(globalRefs)
        invariant todo <= localIncremental.Keys
        invariant Merged(localRefs, old(localRefs), localIncremental, todo)
        decreases |todo|
      {
        var h :| h in todo;
        var incremental := localIncremental[h];
        MergeStep(localRefs, old(localRefs), localIncremental, todo, h);
        if incremental > 0 {
          localRefs := Bump(localRefs, h, incremental);
        }
        todo := todo - {h};
      }
      MergeDone(localRefs, old(localRefs), localIncremental);
      localIncremental := map[];
    }

    method IncrementLocalIncremental(h: Hash, increment: nat)
      modifies this
      ensures State() == Apply(old(State()), AddIncremental(h, increment))
    {
      localIncremental := Bump(localIncremental, h, increment);
    }

    method BatchIncrementLocalIncremental(hs: seq<Hash>, increment: nat)
      modifies this
      ensures State() == Apply(old(State()), AddBatch(hs, increment))
    {
      for i := 0 to |hs|
        invariant State() == Apply(old(State()), AddBatch(hs[..i], increment))
      {
        assert hs[..i + 1][..i] == hs[..i];
        localIncremental := Bump(localIncremental, hs[i], increment);
        globalRefs := Bump(globalRefs, hs[i], increment);
      }
      assert hs[..|hs|] == hs;
    }

    method IncrementLocal(h: Hash, increment: nat) returns (total: nat)
      modifies this
      ensures State() == Apply(old(State()), AddLocal(h, increment))
      ensures h in localRefs && total == localRefs[h]
    {
      localRefs := Bump(localRefs, h, increment);
      total := localRefs[h];
    }

    // consolidate_local_ref_count
    method Consolidate(h: Hash) returns (total: Option<nat>)
      modifies this
      ensures State() == Apply(old(State()), ConsolidateOne(h))
      ensures total == if h in localRefs then Some(localRefs[h]) else None
    {
      if h in localIncremental {
        var incremental := localIncremental[h];
        localIncremental := localIncremental - {h};
        if incremental > 0 {
          localRefs := Bump(localRefs, h, incremental);
          return Some(localRefs[h]);
        }
      }
      assert h !in old(localIncremental) ==> old(localIncremental) - {h} == old(localIncremental);
      total := if h in localRefs then Some(localRefs[h]) else None;
    }

    // get_local_total_count
    method LocalTotal(h: Hash) returns (total: Option<nat>)
      ensures total == if LocalCount(State(), h) == 0 then None else Some(LocalCount(State(), h))
    {
      var fullCount := Get(localRefs, h);
      var incrementalCount := Get(localIncremental, h);
      if fullCount == 0 && incrementalCount == 0 {
        total := None;
      } else {
        total := Some(fullCount + incrementalCount);
      }
    }

    // get_all_local_total_counts: both tables are visited in any order. The
    // listing agrees with LocalTotal on every hash; the only entries LocalTotal
    // does not report are listed with a count of zero.
    method AllLocalTotals() returns (counts: map<Hash, nat>)
      ensures forall h :: h in counts <==> h in localRefs || h in localIncremental
      ensures forall h :: Get(counts, h) == LocalCount(State(), h)
    {
      counts := map[];
      var todo := localRefs.Keys;
      while todo != {}
        invariant todo <= localRefs.Keys
        invariant Copied(counts, localRefs, todo)
        decreases |todo|
      {
        var h :| h in todo;
        CopyStep(counts, localRefs, todo, h);
        counts := counts[h := localRefs[h]];
        todo := todo - {h};
      }
      todo := localIncremental.Keys;
      while todo != {}
        invariant todo <= localIncremental.Keys
        invariant Listed(counts, localRefs, localIncremental, todo)
        decreases |todo|
      {
        var h :| h in todo;
        ListStep(counts, localRefs, localIncremental, todo, h);
        counts := Bump(counts, h, localIncremental[h]);
        todo := todo - {h};
      }
    }

    // increment_global_ref_count
    method IncrementGlobal(h: Hash, increment: nat) returns (total: nat)
      modifies this
      ensures State() == Apply(old(State()), AddGlobal(h, increment))
      ensures h in localRefs || h in globalRefs
      ensures total == if h in old(localRefs) then Get(localRefs, h) else Get(globalRefs, h)
    {
      if h in localRefs {
        total := IncrementLocal(h, increment);
      } else {
        globalRefs := Bump(globalRefs, h, increment);
        total := globalRefs[h];
      }
    }

    // The counts of an update from a peer, one by one.
    method IncrementGlobalAll(incs: seq<(Hash, nat)>)
      modifies this
      ensures State() == AddGlobalAll(old(State()), incs)
    {
      for k := 0 to |incs|
        invariant State() == AddGlobalAll(old(State()), incs[..k])
      {
        assert incs[..k + 1][..k] == incs[..k];
        var _ := IncrementGlobal(incs[k].0, incs[k].1);
      }
      assert incs[..|incs|] == incs;
    }

    method RemoveLocal(h: Hash) returns (full: Option<nat>, incremental: Option<nat>)
      modifies this
      ensures State() == old(State()).(full := old(localRefs) - {h}, incremental := old(localIncremental) - {h})
      ensures full == if h in old(localRefs) then Some(old(localRefs)[h]) else None
      ensures incremental == if h in old(localIncremental) then Some(old(localIncremental)[h]) else None
    {
      full := if h in localRefs then Some(localRefs[h]) else None;
      incremental := if h in localIncremental then Some(localIncremental[h]) else None;
      localRefs := localRefs - {h};
      localIncremental := localIncremental - {h};
    }

    method RemoveGlobal(h: Hash) returns (count: Option<nat>)
      modifies this
      ensures State() == old(State()).(global := old(globalRefs) - {h})
      ensures count == if h in old(globalRefs) then Some(old(globalRefs)[h]) else None
    {
      count := if h in globalRefs then Some(globalRefs[h]) else None;
      globalRefs := globalRefs - {h};
    }

    // The count part of sync_metadata: the pending counts are reported and
    // consolidated.
    method SnapshotAndConsolidate() returns (report: map<Hash, nat>)
      modifies this
      ensures report == old(localIncremental)
      ensures State() == Apply(old(State()), Sync)
    {
      report := localIncremental;
      ClearAndConsolidate();
    }
  }

  // ---------- counts over a run ----------

  datatype Ledger = Ledger(counts: Counts, reports: seq<map<Hash, nat>>)

  function Step(s: Ledger, op: CountOp): Ledger {
    Ledger(Apply(s.counts, op), if op.Sync? then s.reports + [s.counts.incremental] else s.reports)
  }

  function Run(s: Ledger, ops: seq<CountOp>): Ledger {
    if ops == [] then s else Step(Run(s, ops[..|ops| - 1]), ops[|ops| - 1])
  }

  function Reported(reports: seq<map<Hash, nat>>, h: Hash): nat {
    if reports == [] then 0 else Reported(reports[..|reports| - 1], h) + Get(reports[|reports| - 1], h)
  }

  // What one operation adds to the incremental count of a hash.
  function Pending(op: CountOp, h: Hash): nat {
    match op
    case AddIncremental(k, n) => if k == h then n else 0
    case AddBatch(hs, n) => n * multiset(hs)[h]
    case _ => 0
  }

  function PendingTotal(ops: seq<CountOp>, h: Hash): nat {
    if ops == [] then 0 else PendingTotal(ops[..|ops| - 1], h) + Pending(ops[|ops| - 1], h)
  }

  // What one operation adds to the three tables together; a batch counts twice.
  function Increment(op: CountOp, h: Hash): nat {
    match op
    case AddIncremental(k, n) => if k == h then n else 0
    case AddBatch(hs, n) => 2 * (n * multiset(hs)[h])
    case AddLocal(k, n) => if k == h then n else 0
    case AddGlobal(k, n) => if k == h then n else 0
    case _ => 0
  }

  function IncrementTotal(ops: seq<CountOp>, h: Hash): nat {
    if ops == [] then 0 else IncrementTotal(ops[..|ops| - 1], h) + Increment(ops[|ops| - 1], h)
  }

  // What leaves the incremental table without being reported: the amount found
  // by the consolidations that are not part of a sync.
  function Silent(s: Ledger, ops: seq<CountOp>, h: Hash): nat {
    if ops == [] then 0
    else
      var before := Run(s, ops[..|ops| - 1]);
      Silent(s, ops[..|ops| - 1], h) +
      match ops[|ops| - 1]
      case ConsolidateOne(k) => if k == h then Get(before.counts.incremental, h) else 0
      case ConsolidateAll => Get(before.counts.incremental, h)
      case _ => 0
  }

  lemma {:induction false} BumpAllCounts(m: map<Hash, nat>, hs: seq<Hash>, n: nat, h: Hash)
    ensures Get(BumpAll(m, hs, n), h) == Get(m, h) + n * multiset(hs)[h]
    ensures h in BumpAll(m, hs, n) <==> h in m || h in hs
  {
    if hs != [] {
      var init, last := hs[..|hs| - 1], hs[|hs| - 1];
      BumpAllCounts(m, init, n, h);
      assert hs == init + [last];
      assert multiset(hs)[h] == multiset(init)[h] + if last == h then 1 else 0;
      assert n * (multiset(init)[h] + 1) == n * multiset(init)[h] + n;
    }
  }

  // Every increment ever reported, waiting, or consolidated outside a sync adds
  // up to what was added: nothing is counted twice and nothing is lost.
  lemma {:induction false} CountsAreConserved(s: Ledger, ops: seq<CountOp>, h: Hash)
    ensures var end := Run(s, ops);
            Reported(end.reports, h) + Get(end.counts.incremental, h) + Silent(s, ops, h) ==
            Reported(s.reports, h) + Get(s.counts.incremental, h) + PendingTotal(ops, h)
  {
    if ops != [] {
      var init, op := ops[..|ops| - 1], ops[|ops| - 1];
      CountsAreConserved(s, init, h);
      var before := Run(s, init);
      match op
      case AddBatch(hs, n) => BumpAllCounts(before.counts.incremental, hs, n, h);
      case Sync =>
        var reports := before.reports + [before.counts.incremental];
        assert reports[..|reports| - 1] == before.reports;
      case _ =>
    }
  }

  predicate OutsideSync(op: CountOp) {
    op.ConsolidateOne? || op.ConsolidateAll?
  }

  lemma {:induction false} NothingSilentWithoutConsolidation(s: Ledger, ops: seq<CountOp>, h: Hash)
    requires forall i :: 0 <= i < |ops| ==> !OutsideSync(ops[i])
    ensures Silent(s, ops, h) == 0
  {
    if ops != [] {
      NothingSilentWithoutConsolidation(s, ops[..|ops| - 1], h);
      assert !OutsideSync(ops[|ops| - 1]);
    }
  }

  // As the server runs it, with consolidation only inside sync: the reports and
  // the pending counts account for every addition.
  lemma SyncReportsEverything(ops: seq<CountOp>, h: Hash)
    requires forall i :: 0 <= i < |ops| ==> !OutsideSync(ops[i])
    ensures var end := Run(Ledger(Counts(map[], map[], map[]), []), ops);
            Reported(end.reports, h) + Get(end.counts.incremental, h) == PendingTotal(ops, h)
  {
    var start := Ledger(Counts(map[], map[], map[]), []);
    CountsAreConserved(start, ops, h);
    NothingSilentWithoutConsolidation(start, ops, h);
  }

  // Consolidation, alone or inside a sync, moves counts and creates none.
  lemma ConsolidationKeepsTotals(s: Ledger, op: CountOp, h: Hash)
    requires OutsideSync(op) || op.Sync?
    ensures LocalCount(Step(s, op).counts, h) == LocalCount(s.counts, h)
    ensures Step(s, op).counts.global == s.counts.global
    ensures op.ConsolidateAll? || op.Sync? || op.h == h ==> Get(Step(s, op).counts.incremental, h) == 0
  {}

  // What one operation adds to the local count of a hash: a global increment goes there
  // exactly when the hash has a full local count at that step.
  function LocalIncrement(c: Counts, op: CountOp, h: Hash): nat {
    match op
    case AddIncremental(k, n) => if k == h then n else 0
    case AddBatch(hs, n) => n * multiset(hs)[h]
    case AddLocal(k, n) => if k == h then n else 0
    case AddGlobal(k, n) => if k == h && h in c.full then n else 0
    case _ => 0
  }

  function GlobalIncrement(c: Counts, op: CountOp, h: Hash): nat {
    match op
    case AddBatch(hs, n) => n * multiset(hs)[h]
    case AddGlobal(k, n) => if k == h && h !in c.full then n else 0
    case _ => 0
  }

  function LocalGrowth(s: Ledger, ops: seq<CountOp>, h: Hash): nat {
    if ops == [] then 0
    else LocalGrowth(s, ops[..|ops| - 1], h) + LocalIncrement(Run(s, ops[..|ops| - 1]).counts, ops[|ops| - 1], h)
  }

  function GlobalGrowth(s: Ledger, ops: seq<CountOp>, h: Hash): nat {
    if ops == [] then 0
    else GlobalGrowth(s, ops[..|ops| - 1], h) + GlobalIncrement(Run(s, ops[..|ops| - 1]).counts, ops[|ops| - 1], h)
  }

  lemma StepGrowsByIncrements(s: Ledger, op: CountOp, h: Hash)
    ensures LocalCount(Step(s, op).counts, h) == LocalCount(s.counts, h) + LocalIncrement(s.counts, op, h)
    ensures Get(Step(s, op).counts.global, h) == Get(s.counts.global, h) + GlobalIncrement(s.counts, op, h)
    ensures LocalIncrement(s.counts, op, h) + GlobalIncrement(s.counts, op, h) == Increment(op, h)
  {
    match op
    case AddBatch(hs, n) =>
      BumpAllCounts(s.counts.incremental, hs, n, h);
      BumpAllCounts(s.counts.global, hs, n, h);
    case ConsolidateOne(_) => ConsolidationKeepsTotals(s, op, h);
    case ConsolidateAll => ConsolidationKeepsTotals(s, op, h);
    case Sync => ConsolidationKeepsTotals(s, op, h);
    case _ =>
  }

  // Local and global counts each grow by exactly what was added to them, and together
  // by exactly the increments issued: no count ever moves between the two.
  lemma {:induction false} TotalsGrowByIncrements(s: Ledger, ops: seq<CountOp>, h: Hash)
    ensures LocalCount(Run(s, ops).counts, h) == LocalCount(s.counts, h) + LocalGrowth(s, ops, h)
    ensures Get(Run(s, ops).counts.global, h) == Get(s.counts.global, h) + GlobalGrowth(s, ops, h)
    ensures LocalGrowth(s, ops, h) + GlobalGrowth(s, ops, h) == IncrementTotal(ops, h)
  {
    hide Step, LocalIncrement, GlobalIncrement, Increment, LocalCount;
    if ops != [] {
      var init := ops[..|ops| - 1];
      TotalsGrowByIncrements(s, init, h);
      StepGrowsByIncrements(Run(s, init), ops[|ops| - 1], h);
    }
  }
}
