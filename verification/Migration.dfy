// The decisions of a round-robin migration: which blocks pass the gate, which
// target is next, and what a transfer reply does to the table.
module Migration {
  import opened Types
  import opened Arithmetic
  import opened PrefixIndex
  import opened Replicas

  datatype HashLoad = HashLoad(hash: Hash, concurrency: nat)

  // A hash whose metadata is known.
  datatype KnownHash = KnownHash(hash: Hash, offset: u32, concurrency: nat, replicas: nat)

  // The answer of the source server to a transfer request.
  datatype Reply = Response(status: int) | TransportError

  datatype MigrationResult = MigrationResult(
    candidateCount: nat,
    selected: Option<ServerId>,
    totalHashCount: nat,
    knownMetaCount: nat,
    missingMetaCount: nat,
    toMigrateCount: nat,
    successCount: nat,
    failCount: nat,
    notFoundCount: nat,
    skipped: Option<string>)

  const MIGRATION_GATE := 2

  function Known(t: Table, load: seq<HashLoad>): seq<KnownHash> {
    if load == [] then []
    else
      var rest, x := Known(t, load[..|load| - 1]), load[|load| - 1];
      if x.hash in t then rest + [KnownHash(x.hash, t[x.hash].offset, x.concurrency, |t[x.hash].servers|)]
      else rest
  }

  // The gate lets a prefix through, up to the first block below the threshold.
  function GateLength(known: seq<KnownHash>): (n: nat)
    ensures n <= |known|
    ensures forall i :: 0 <= i < n ==> known[i].concurrency >= 2
    ensures n < |known| ==> known[n].concurrency < 2
  {
    if known == [] || known[0].concurrency < MIGRATION_GATE then 0 else 1 + GateLength(known[1..])
  }

  function HashesOf(known: seq<KnownHash>): (hs: seq<Hash>)
    ensures |hs| == |known| && forall i :: 0 <= i < |hs| ==> hs[i] == known[i].hash
  {
    if known == [] then [] else HashesOf(known[..|known| - 1]) + [known[|known| - 1].hash]
  }

  function Gated(t: Table, load: seq<HashLoad>): seq<Hash> {
    HashesOf(Known(t, load)[..GateLength(Known(t, load))])
  }

  lemma {:induction false} KnownInTable(t: Table, load: seq<HashLoad>)
    ensures forall i :: 0 <= i < |Known(t, load)| ==> Known(t, load)[i].hash in t
    ensures |Known(t, load)| <= |load|
  {
    if load != [] { KnownInTable(t, load[..|load| - 1]); }
  }

  // Positions of a list, in order.
  ghost predicate Positions(at: seq<nat>, n: nat) {
    (forall j :: 0 <= j < |at| ==> at[j] < n) && (forall i, j :: 0 <= i < j < |at| ==> at[i] < at[j])
  }

  // The known hashes are exactly the entries of the load that are in the table, in order,
  // each with its own concurrency and the offset and replica count of the table.
  ghost predicate KnownAt(t: Table, load: seq<HashLoad>, at: seq<nat>) {
    && Positions(at, |load|)
    && (forall i :: 0 <= i < |load| ==> (load[i].hash in t <==> i in at))
  }

  lemma {:induction false} KnownPositions(t: Table, load: seq<HashLoad>) returns (at: seq<nat>)
    ensures KnownAt(t, load, at) && |at| == |Known(t, load)|
    ensures forall j :: 0 <= j < |at| ==>
              Known(t, load)[j] == KnownHash(load[at[j]].hash, t[load[at[j]].hash].offset, load[at[j]].concurrency,
                                             |t[load[at[j]].hash].servers|)
  {
    if load == [] {
      at := [];
    } else {
      var n := |load| - 1;
      var before := KnownPositions(t, load[..n]);
      MorePositions(t, load, before);
      at := if load[n].hash in t then before + [n] else before;
      hide KnownAt;
      forall j | 0 <= j < |before| ensures load[..n][before[j]] == load[before[j]] {}
    }
  }

  lemma MorePositions(t: Table, load: seq<HashLoad>, before: seq<nat>)
    requires load != [] && KnownAt(t, load[..|load| - 1], before)
    ensures KnownAt(t, load, if load[|load| - 1].hash in t then before + [|load| - 1] else before)
    ensures forall j :: 0 <= j < |before| ==> before[j] < |load| - 1 && load[before[j]].hash in t
  {
    var n := |load| - 1;
    forall j | 0 <= j < |before| ensures before[j] < n && load[before[j]].hash in t {
      assert before[j] in before && load[..n][before[j]] == load[before[j]];
    }
    forall i | 0 <= i < n ensures load[i].hash in t <==> i in before {
      assert load[..n][i] == load[i];
    }
  }

  // The hashes sent are those of the known entries up to the first of concurrency below 2.
  lemma GatedPositions(t: Table, load: seq<HashLoad>) returns (at: seq<nat>)
    ensures KnownAt(t, load, at)
    ensures var n := |Gated(t, load)|;
            && n <= |at| && (forall j :: 0 <= j < n ==> Gated(t, load)[j] == load[at[j]].hash)
            && (forall j :: 0 <= j < n ==> load[at[j]].concurrency >= 2)
            && (n < |at| ==> load[at[n]].concurrency < 2)
  {
    at := KnownPositions(t, load);
  }

  predicate Matches(t: Table, s: ServerId, hs: seq<Hash>) {
    forall h :: h in hs ==> Holds(t, s, h)
  }

  // A target matches when it is listed by every one of the blocks.
  lemma MatchesIsListedByAll(t: Table, s: ServerId, hs: seq<Hash>)
    ensures Matches(t, s, hs) <==> forall i :: 0 <= i < |hs| ==> hs[i] in t && s in t[hs[i]].servers
  {
    assert Matches(t, s, hs) ==> forall i :: 0 <= i < |hs| ==> Holds(t, s, hs[i]);
  }

  // The targets that still miss some gated block.
  function Lacking(t: Table, targets: set<ServerId>, hs: seq<Hash>): set<ServerId> {
    set s | s in targets && !Matches(t, s, hs)
  }

  // ---------- the cyclic scan ----------

  function CyclicIndex(start: nat, step: nat, n: nat): nat
    requires n > 0
  {
    (start + step) % n
  }

  lemma CyclicStep(start: nat, step: nat, n: nat)
    requires start < n && step < n
    ensures CyclicIndex(start, step, n) == if start + step < n then start + step else start + step - n
  {}

  // From any start the scan visits every position exactly once.
  lemma ScanVisitsEachOnce(start: nat, n: nat, j: nat)
    requires start < n && j < n
    ensures exists step :: 0 <= step < n && CyclicIndex(start, step, n) == j
    ensures forall a, b :: 0 <= a < n && 0 <= b < n && CyclicIndex(start, a, n) == CyclicIndex(start, b, n) ==> a == b
  {
    var step := if j >= start then j - start else j + n - start;
    CyclicStep(start, step, n);
    assert CyclicIndex(start, step, n) == j;
    forall a, b | 0 <= a < n && 0 <= b < n && CyclicIndex(start, a, n) == CyclicIndex(start, b, n) ensures a == b {
      CyclicStep(start, a, n);
      CyclicStep(start, b, n);
    }
  }

  // The first candidate, in cyclic order from start, that misses a gated block.
  ghost predicate FirstLacking(t: Table, candidates: seq<ServerId>, hs: seq<Hash>, start: nat, s: ServerId)
    requires start < |candidates|
  {
    exists step :: 0 <= step < |candidates| &&
      candidates[CyclicIndex(start, step, |candidates|)] == s && !Matches(t, s, hs) &&
      forall k :: 0 <= k < step ==> Matches(t, candidates[CyclicIndex(start, k, |candidates|)], hs)
  }

  // The choice is determined: there is only one such candidate.
  lemma FirstLackingIsUnique(t: Table, candidates: seq<ServerId>, hs: seq<Hash>, start: nat, s: ServerId, s': ServerId)
    requires start < |candidates|
    requires FirstLacking(t, candidates, hs, start, s) && FirstLacking(t, candidates, hs, start, s')
    ensures s == s'
  {}

  lemma FirstLackingIsLacking(t: Table, candidates: seq<ServerId>, hs: seq<Hash>, start: nat, s: ServerId)
    requires start < |candidates| && FirstLacking(t, candidates, hs, start, s)
    ensures s in candidates && !Matches(t, s, hs)
    ensures exists h :: h in hs && (h !in t || s !in t[h].servers)
  {}

  // The inner loop: does the target miss any gated block?
  method MissesBlock(t: Table, target: ServerId, hs: seq<Hash>) returns (misses: bool)
    ensures misses <==> !Matches(t, target, hs)
  {
    misses := false;
    for i := 0 to |hs|
      invariant Matches(t, target, hs[..i])
    {
      var held := hs[i] in t && target in t[hs[i]].servers;
      if !held {
        assert !Holds(t, target, hs[i]);
        return true;
      }
      assert hs[..i + 1] == hs[..i] + [hs[i]];
    }
    assert hs[..|hs|] == hs;
  }

  // The scan for the next target.
  method PickTarget(t: Table, candidates: seq<ServerId>, hs: seq<Hash>, start: nat) returns (target: Option<ServerId>)
    requires start < |candidates|
    ensures target.Some? ==> FirstLacking(t, candidates, hs, start, target.value)
    ensures target.None? ==> forall s :: s in candidates ==> Matches(t, s, hs)
  {
    var n := |candidates|;
    for step := 0 to n
      invariant forall k :: 0 <= k < step ==> Matches(t, candidates[CyclicIndex(start, k, n)], hs)
    {
      var candidate := candidates[CyclicIndex(start, step, n)];
      var misses := MissesBlock(t, candidate, hs);
      if misses {
        return Some(candidate);
      }
    }
    target := None;
    forall s | s in candidates ensures Matches(t, s, hs) {
      var j :| 0 <= j < n && candidates[j] == s;
      ScanVisitsEachOnce(start, n, j);
      var step :| 0 <= step < n && CyclicIndex(start, step, n) == j;
      assert Matches(t, candidates[CyclicIndex(start, step, n)], hs);
    }
  }

  // ---------- rotation ----------

  // Where the scan of the k-th of consecutive calls starts; the counter wraps at 64 bits.
  function StartOf(counter: u64, k: nat, n: nat): nat
    requires n > 0
  {
    (counter + k) % TWO_TO_THE_64 % n
  }

  function CountOn(counter: u64, k: nat): u64 {
    (counter + k) % TWO_TO_THE_64
  }

  lemma CountOnce(counter: u64, k: nat, n: nat)
    requires n > 0
    ensures CountOn(counter, 0) == counter && CountOn(counter, k) % n == StartOf(counter, k, n)
    ensures CountOn(counter, k + 1) == (CountOn(counter, k) + 1) % TWO_TO_THE_64
  {
    ModAdd(counter + k, 1, TWO_TO_THE_64);
    ModUnique(counter, TWO_TO_THE_64, 0, counter);
  }

  ghost predicate StartsAt(counter: u64, n: nat, j: nat)
    requires n > 0
  {
    exists k :: 0 <= k < n && StartOf(counter, k, n) == j
  }

  ghost predicate StartsEverywhereOnce(counter: u64, n: nat)
    requires n > 0
  {
    && (forall j :: 0 <= j < n ==> StartsAt(counter, n, j))
    && (forall a, b :: 0 <= a < b < n ==> StartOf(counter, a, n) != StartOf(counter, b, n))
  }

  // Among n candidates, n consecutive calls start the scan at each of them once exactly
  // when the counter does not wrap on the way, or n divides its range.
  lemma RotationIffNoWrap(counter: u64, n: nat)
    requires n > 0
    ensures StartsEverywhereOnce(counter, n) <==> counter + n <= TWO_TO_THE_64 || TWO_TO_THE_64 % n == 0
  {
    if counter + n <= TWO_TO_THE_64 || TWO_TO_THE_64 % n == 0 {
      RotationVisitsAll(counter, n);
    } else {
      var a, b := WrapRepeats(counter, n, TWO_TO_THE_64);
      assert StartOf(counter, a, n) == StartOf(counter, b, n);
    }
  }

  lemma RotationVisitsAll(counter: u64, n: nat)
    requires n > 0 && (counter + n <= TWO_TO_THE_64 || TWO_TO_THE_64 % n == 0)
    ensures StartsEverywhereOnce(counter, n)
  {
    forall k | 0 <= k < n ensures StartOf(counter, k, n) == CyclicIndex(counter % n, k, n) {
      CountingGoesRound(counter, k, n, TWO_TO_THE_64);
    }
    hide StartOf, CyclicIndex;
    forall j | 0 <= j < n ensures StartsAt(counter, n, j) {
      ScanVisitsEachOnce(counter % n, n, j);
    }
    ScanVisitsEachOnce(counter % n, n, 0);
  }

  // The targets tried by consecutive calls that change nothing.
  ghost predicate RoundRobin(t: Table, candidates: seq<ServerId>, hs: seq<Hash>, counter: u64, tried: seq<ServerId>)
    requires candidates != []
  {
    forall k :: 0 <= k < |tried| ==> FirstLacking(t, candidates, hs, StartOf(counter, k, |candidates|), tried[k])
  }

  lemma NoneTried(t: Table, candidates: seq<ServerId>, hs: seq<Hash>, counter: u64)
    requires candidates != []
    ensures RoundRobin(t, candidates, hs, counter, [])
  {}

  lemma OneMoreTried(t: Table, candidates: seq<ServerId>, hs: seq<Hash>, counter: u64, tried: seq<ServerId>,
                     s: ServerId)
    requires candidates != [] && RoundRobin(t, candidates, hs, counter, tried)
    requires FirstLacking(t, candidates, hs, StartOf(counter, |tried|, |candidates|), s)
    ensures RoundRobin(t, candidates, hs, counter, tried + [s])
  {}

  // A round of failing calls tries every target that lacks a block.
  lemma RoundTriesAll(t: Table, candidates: seq<ServerId>, hs: seq<Hash>, counter: u64, tried: seq<ServerId>)
    requires candidates != [] && StartsEverywhereOnce(counter, |candidates|) && |tried| >= |candidates|
    requires RoundRobin(t, candidates, hs, counter, tried)
    ensures forall s :: s in candidates && !Matches(t, s, hs) ==> s in tried
  {
    var n := |candidates|;
    forall s | s in candidates && !Matches(t, s, hs) ensures s in tried {
      var j :| 0 <= j < n && candidates[j] == s;
      assert StartsAt(counter, n, j);
      var k :| 0 <= k < n && StartOf(counter, k, n) == j;
      CyclicStep(j, 0, n);
      assert FirstLacking(t, candidates, hs, j, tried[k]);
    }
  }

  lemma SamePosition(s: seq<ServerId>, i: nat, j: nat)
    requires Distinct(s) && i < |s| && j < |s| && s[i] == s[j]
    ensures i == j
  {}

  // Where every candidate lacks a block, a round of n calls tries them all exactly when
  // it starts everywhere.
  lemma AllTriedIffStartsEverywhere(t: Table, candidates: seq<ServerId>, hs: seq<Hash>, counter: u64,
                                    tried: seq<ServerId>)
    requires candidates != [] && Distinct(candidates) && |tried| == |candidates|
    requires RoundRobin(t, candidates, hs, counter, tried) && forall s :: s in candidates ==> !Matches(t, s, hs)
    ensures (forall s :: s in candidates ==> s in tried) <==> StartsEverywhereOnce(counter, |candidates|)
  {
    var n := |candidates|;
    forall k | 0 <= k < n ensures tried[k] == candidates[StartOf(counter, k, n)] {
      CyclicStep(StartOf(counter, k, n), 0, n);
      assert FirstLacking(t, candidates, hs, StartOf(counter, k, n), tried[k]);
    }
    if StartsEverywhereOnce(counter, n) {
      RoundTriesAll(t, candidates, hs, counter, tried);
    }
    if forall s :: s in candidates ==> s in tried {
      DistinctCardinality(candidates);
      DistinctCardinality(tried);
      SubsetSize(Elements(candidates), Elements(tried));
      hide Matches, FirstLacking;
      forall j | 0 <= j < n ensures StartsAt(counter, n, j) {
        assert candidates[j] in tried;
        var k :| 0 <= k < n && tried[k] == candidates[j];
        SamePosition(candidates, StartOf(counter, k, n), j);
      }
    }
  }

  // ---------- the candidates ----------

  function ServersOf(groups: seq<seq<ServerId>>): set<ServerId> {
    set g, s | g in groups && s in g :: s
  }

  function WithGroup(candidates: seq<ServerId>, group: seq<ServerId>, source: ServerId): (r: seq<ServerId>)
    ensures Distinct(candidates) ==> Distinct(r)
    ensures forall s :: s in r <==> s in candidates || (s in group && s != source)
  {
    if group == [] then candidates
    else
      var n := |group| - 1;
      assert group == group[..n] + [group[n]];
      var rest := WithGroup(candidates, group[..n], source);
      if group[n] == source then rest else AddUnique(rest, group[n])
  }

  // The candidates in the order they are built: every known server once, at its first
  // listing, the source left out. The groups come in the order the map is iterated.
  function CandidateList(groups: seq<seq<ServerId>>, source: ServerId): (r: seq<ServerId>)
    ensures Distinct(r)
    ensures forall s :: s in r <==> s in ServersOf(groups) && s != source
  {
    if groups == [] then []
    else
      var n := |groups| - 1;
      assert groups == groups[..n] + [groups[n]];
      assert ServersOf(groups) == ServersOf(groups[..n]) + (set s | s in groups[n]);
      WithGroup(CandidateList(groups[..n], source), groups[n], source)
  }

  lemma ChosenIsLacking(t: Table, groups: seq<seq<ServerId>>, source: ServerId, hs: seq<Hash>, start: nat, s: ServerId)
    requires start < |CandidateList(groups, source)| && FirstLacking(t, CandidateList(groups, source), hs, start, s)
    ensures s != source && s in Lacking(t, ServersOf(groups) - {source}, hs)
  {
    FirstLackingIsLacking(t, CandidateList(groups, source), hs, start, s);
  }

  lemma NoneIsLacking(t: Table, groups: seq<seq<ServerId>>, source: ServerId, hs: seq<Hash>)
    requires forall s :: s in CandidateList(groups, source) ==> Matches(t, s, hs)
    ensures Lacking(t, ServersOf(groups) - {source}, hs) == {}
  {}

  lemma SomeCandidate(t: Table, load: seq<HashLoad>, groups: seq<seq<ServerId>>, source: ServerId)
    requires SkipReason(t, load, ServersOf(groups) - {source}).None?
    ensures CandidateList(groups, source) != []
  {
    if CandidateList(groups, source) == [] { NoneIsLacking(t, groups, source, Gated(t, load)); }
  }

  // After a full round of failing calls no target that lacks a block was left untried.
  lemma RoundTriesLacking(t: Table, groups: seq<seq<ServerId>>, source: ServerId, hs: seq<Hash>,
                          counter: u64, tried: seq<ServerId>)
    requires var candidates := CandidateList(groups, source);
             candidates != [] && RoundRobin(t, candidates, hs, counter, tried)
    ensures var candidates := CandidateList(groups, source);
            |tried| >= |candidates| && StartsEverywhereOnce(counter, |candidates|) ==>
              forall s :: s in Lacking(t, ServersOf(groups) - {source}, hs) ==> s in tried
  {
    var candidates := CandidateList(groups, source);
    if |tried| >= |candidates| && StartsEverywhereOnce(counter, |candidates|) {
      RoundTriesAll(t, candidates, hs, counter, tried);
    }
  }

  lemma CandidatesAreListed(groups: seq<seq<ServerId>>, source: ServerId, s: ServerId)
    ensures s in CandidateList(groups, source) <==> s != source && exists g :: g in groups && s in g
  {}

  // The order of the candidates: later groups, and later members of a group, only append.
  lemma {:induction false} EarlierListedFirst(groups: seq<seq<ServerId>>, source: ServerId, g: nat, j: nat)
    requires g < |groups| && j <= |groups[g]|
    ensures CandidateList(groups[..g] + [groups[g][..j]], source) <= CandidateList(groups, source)
    decreases |groups|
  {
    var n := |groups| - 1;
    var part := groups[..g] + [groups[g][..j]];
    assert part[..|part| - 1] == groups[..g];
    if g < n {
      EarlierListedFirst(groups[..n], source, g, j);
      assert groups[..n][..g] == groups[..g] && groups[..n][g] == groups[g];
      GroupAppends(CandidateList(groups[..n], source), groups[n], source, 0);
    } else {
      GroupAppends(CandidateList(groups[..n], source), groups[n], source, j);
    }
  }

  lemma {:induction false} GroupAppends(candidates: seq<ServerId>, group: seq<ServerId>, source: ServerId, j: nat)
    requires j <= |group|
    ensures WithGroup(candidates, group[..j], source) <= WithGroup(candidates, group, source)
    ensures j == 0 ==> WithGroup(candidates, group[..j], source) == candidates
    decreases |group|
  {
    if j < |group| {
      var n := |group| - 1;
      GroupAppends(candidates, group[..n], source, j);
      assert group[..n][..j] == group[..j];
    } else {
      assert group[..j] == group;
    }
  }

  method BuildCandidates(groups: seq<seq<ServerId>>, source: ServerId) returns (candidates: seq<ServerId>)
    ensures candidates == CandidateList(groups, source)
  {
    candidates := [];
    for g := 0 to |groups|
      invariant candidates == CandidateList(groups[..g], source)
    {
      assert groups[..g + 1][..g] == groups[..g];
      candidates := AddGroup(candidates, groups[g], source);
    }
    assert groups[..|groups|] == groups;
  }

  method AddGroup(candidates: seq<ServerId>, group: seq<ServerId>, source: ServerId) returns (r: seq<ServerId>)
    ensures r == WithGroup(candidates, group, source)
  {
    r := candidates;
    for i := 0 to |group|
      invariant r == WithGroup(candidates, group[..i], source)
    {
      assert group[..i + 1][..i] == group[..i];
      if group[i] != source && group[i] !in r {
        r := r + [group[i]];
      }
    }
    assert group[..|group|] == group;
  }

  // The resolution of hashes to known metadata.
  method ResolveKnown(t: Table, load: seq<HashLoad>) returns (known: seq<KnownHash>, missing: nat)
    ensures known == Known(t, load)
    ensures |known| + missing == |load|
  {
    known, missing := [], 0;
    for i := 0 to |load|
      invariant known == Known(t, load[..i]) && |known| + missing == i
    {
      assert load[..i + 1][..i] == load[..i];
      var h := load[i].hash;
      if h in t {
        known := known + [KnownHash(h, t[h].offset, load[i].concurrency, |t[h].servers|)];
      } else {
        missing := missing + 1;
      }
    }
    assert load[..|load|] == load;
  }

  // The loop of the gate.
  method PassGate(known: seq<KnownHash>) returns (gated: seq<KnownHash>)
    ensures gated == known[..GateLength(known)]
  {
    gated := [];
    for i := 0 to |known|
      invariant gated == known[..i]
      invariant GateLength(known) == i + GateLength(known[i..])
    {
      if known[i].concurrency < MIGRATION_GATE {
        return;
      }
      assert known[i..][1..] == known[i + 1..];
      gated := gated + [known[i]];
    }
  }

  // The gate of the commented-out lines: concurrency at least twice the replica count.
  function CommentedGateLength(known: seq<KnownHash>): (n: nat)
    ensures n <= |known|
  {
    if known == [] || known[0].concurrency < 2 * known[0].replicas then 0 else 1 + CommentedGateLength(known[1..])
  }

  // On a well-formed table that gate is never the wider one, and lets the same blocks
  // through exactly when every gated block has twice its replicas in concurrency.
  lemma CommentedGateIff(t: Table, load: seq<HashLoad>)
    requires WellFormed(t)
    ensures var known := Known(t, load);
            && CommentedGateLength(known) <= GateLength(known)
            && (CommentedGateLength(known) == GateLength(known) <==>
                  forall i :: 0 <= i < GateLength(known) ==> known[i].concurrency >= 2 * known[i].replicas)
  {
    KnownHaveReplicas(t, load);
    CompareGates(Known(t, load));
  }

  lemma {:induction false} KnownHaveReplicas(t: Table, load: seq<HashLoad>)
    requires WellFormed(t)
    ensures forall i :: 0 <= i < |Known(t, load)| ==> Known(t, load)[i].replicas > 0
  {
    if load != [] {
      KnownHaveReplicas(t, load[..|load| - 1]);
      var h := load[|load| - 1].hash;
      if h in t { assert WellFormedEntry(t, h); }
    }
  }

  lemma {:induction false} CompareGates(known: seq<KnownHash>)
    requires forall i :: 0 <= i < |known| ==> known[i].replicas > 0
    ensures CommentedGateLength(known) <= GateLength(known)
    ensures CommentedGateLength(known) == GateLength(known) <==>
            forall i :: 0 <= i < GateLength(known) ==> known[i].concurrency >= 2 * known[i].replicas
  {
    if known != [] && known[0].concurrency >= MIGRATION_GATE {
      CompareGates(known[1..]);
      forall i | 0 < i < GateLength(known) ensures known[i] == known[1..][i - 1] {}
      assert forall i :: 0 <= i < GateLength(known[1..]) ==> known[1..][i] == known[i + 1];
    }
  }

  // Two replicas and a concurrency of two pass the gate, and would not pass the other.
  lemma GatesDiffer(h: Hash)
    ensures var t: Table := map[h := KvBlockMeta(h, 2, ROOT, [], [1, 2])];
            var known := Known(t, [HashLoad(h, 2)]);
            WellFormed(t) && GateLength(known) == 1 && CommentedGateLength(known) == 0
  {
    var t: Table, load := map[h := KvBlockMeta(h, 2, ROOT, [], [1, 2])], [HashLoad(h, 2)];
    assert load[..0] == [] && Known(t, load) == [KnownHash(h, 2, 2, 2)];
    assert GateLength([]) == 0;
  }

  // ---------- what a reply does ----------

  // Why a call ends without a transfer, if it does.
  function EarlySkip(t: Table, load: seq<HashLoad>, targets: set<ServerId>): Option<string> {
    if load == [] then Some("empty_hash_seq")
    else if targets == {} then Some("no_target_candidates")
    else if Known(t, load) == [] then Some("no_known_meta")
    else if Gated(t, load) == [] then Some("below_replica_concurrency_gate")
    else None
  }

  function SkipReason(t: Table, load: seq<HashLoad>, targets: set<ServerId>): Option<string> {
    if EarlySkip(t, load, targets).Some? then EarlySkip(t, load, targets)
    else if Lacking(t, targets, Gated(t, load)) == {} then Some("all_targets_fully_matched")
    else None
  }

  // The reasons, without the functions they are computed by.
  lemma SkipReasons(t: Table, load: seq<HashLoad>, targets: set<ServerId>) returns (at: seq<nat>)
    ensures KnownAt(t, load, at)
    ensures SkipReason(t, load, targets) ==
            if load == [] then Some("empty_hash_seq")
            else if targets == {} then Some("no_target_candidates")
            else if forall i :: 0 <= i < |load| ==> load[i].hash !in t then Some("no_known_meta")
            else if load[at[0]].concurrency < 2 then Some("below_replica_concurrency_gate")
            else if forall s, h :: s in targets && h in Gated(t, load) ==> h in t && s in t[h].servers
            then Some("all_targets_fully_matched")
            else None
  {
    at := KnownPositions(t, load);
    if |Known(t, load)| == 0 {
      assert at == [];
    } else {
      assert at[0] in at && load[at[0]].hash in t;
      assert GateLength(Known(t, load)) > 0 <==> load[at[0]].concurrency >= 2;
    }
    LackingNoneIff(t, targets, Gated(t, load));
  }

  lemma LackingNoneIff(t: Table, targets: set<ServerId>, hs: seq<Hash>)
    ensures Lacking(t, targets, hs) == {} <==>
            forall s, h :: s in targets && h in hs ==> h in t && s in t[h].servers
  {
    if Lacking(t, targets, hs) == {} {
      forall s, h | s in targets && h in hs ensures h in t && s in t[h].servers {
        assert s !in Lacking(t, targets, hs);
        assert Holds(t, s, h);
      }
    } else {
      var s :| s in Lacking(t, targets, hs);
      var h :| h in hs && !Holds(t, s, h);
    }
  }

  predicate Succeeds(reply: Reply) {
    reply.Response? && reply.status > 0
  }

  predicate NotFound(reply: Reply) {
    reply.Response? && reply.status == -1
  }

  predicate Fails(reply: Reply) {
    !Succeeds(reply) && !NotFound(reply)
  }

  // The counts of what was asked, the candidates, and the hashes found and missing.
  ghost predicate Resolved(r: MigrationResult, t: Table, load: seq<HashLoad>, targets: set<ServerId>) {
    && r.totalHashCount == |load|
    && r.candidateCount == (if load == [] then 0 else |targets|)
    && (load != [] && targets != {} ==>
          r.knownMetaCount == |Known(t, load)| && r.knownMetaCount + r.missingMetaCount == |load|)
  }

  // The ledger of a result: resolution splits the hashes into known and missing,
  // and every hash sent is a success, a failure or not found.
  ghost predicate Ledger(r: MigrationResult, t: Table, load: seq<HashLoad>, targets: set<ServerId>, reply: Reply) {
    && Resolved(r, t, load, targets)
    && r.toMigrateCount == (if r.selected.Some? then |Gated(t, load)| else 0)
    && r.successCount == (if Succeeds(reply) then r.toMigrateCount else 0)
    && r.notFoundCount == (if NotFound(reply) then r.toMigrateCount else 0)
    && r.failCount == (if Succeeds(reply) || NotFound(reply) then 0 else r.toMigrateCount)
    && r.successCount + r.failCount + r.notFoundCount == r.toMigrateCount
  }

  // The ledger before anything is sent.
  ghost predicate Planned(r: MigrationResult, t: Table, load: seq<HashLoad>, targets: set<ServerId>) {
    && Resolved(r, t, load, targets)
    && r.selected.None? && r.toMigrateCount == r.successCount == r.notFoundCount == r.failCount == 0
  }

  lemma LedgerOfSkip(r: MigrationResult, t: Table, load: seq<HashLoad>, targets: set<ServerId>, reply: Reply,
                     why: Option<string>)
    requires Planned(r, t, load, targets)
    ensures Ledger(r.(skipped := why), t, load, targets, reply)
  {}

  lemma LedgerAfterReply(r: MigrationResult, t: Table, load: seq<HashLoad>, targets: set<ServerId>, reply: Reply,
                         target: ServerId)
    requires Planned(r, t, load, targets)
    ensures var n := |Gated(t, load)|;
            Ledger(r.(selected := Some(target), toMigrateCount := n,
                      successCount := if Succeeds(reply) then n else 0,
                      notFoundCount := if NotFound(reply) then n else 0,
                      failCount := if Succeeds(reply) || NotFound(reply) then 0 else n),
                   t, load, targets, reply)
  {}

  // The ledger balances: with a positive status everything sent succeeded, with status -1
  // nothing was found, and otherwise everything failed.
  lemma LedgerBalances(r: MigrationResult, t: Table, load: seq<HashLoad>, targets: set<ServerId>, reply: Reply)
    requires Ledger(r, t, load, targets, reply)
    ensures r.totalHashCount == |load| && (load != [] ==> r.candidateCount == |targets|)
    ensures load != [] && targets != {} ==> r.knownMetaCount + r.missingMetaCount == |load|
    ensures r.successCount + r.failCount + r.notFoundCount == r.toMigrateCount
    ensures r.selected.Some? ==> r.toMigrateCount == |Gated(t, load)|
    ensures reply.Response? && reply.status > 0 ==> r.successCount == r.toMigrateCount
    ensures reply.Response? && reply.status == -1 ==> r.notFoundCount == r.toMigrateCount
    ensures reply.TransportError? || (reply.status <= 0 && reply.status != -1) ==> r.failCount == r.toMigrateCount
  {}

  function Settle(t: Table, reply: Reply, hs: seq<Hash>, target: ServerId, source: ServerId): Table {
    match reply
    case Response(status) =>
      if status > 0 then AddAll(t, hs, target)
      else if status == -1 then RemoveAll(t, hs, source)
      else t
    case TransportError => t
  }

  // What a reply does to an entry: a positive status grants the target, status -1 takes
  // the source off, and anything else leaves the table alone.
  lemma SettledEntry(t: Table, reply: Reply, hs: seq<Hash>, target: ServerId, source: ServerId, k: Hash)
    ensures var t' := Settle(t, reply, hs, target, source);
            && (reply.Response? && reply.status > 0 && k in hs && k in t && target !in t[k].servers ==>
                  k in t' && t'[k] == t[k].(servers := t[k].servers + [target]))
            && (reply.Response? && reply.status == -1 && k in hs && k in t ==>
                  (k in t' <==> exists x :: x in t[k].servers && x != source)
                  && (k in t' ==> t'[k] == t[k].(servers := Without(t[k].servers, source))))
            && (reply.TransportError? || (reply.status <= 0 && reply.status != -1) || k !in hs || k !in t ==>
                  SameAt(t, t', k))
  {
    GrantedEntry(t, hs, target, k);
    RemovedEntry(t, hs, source, k);
  }

  lemma {:induction false} KnownAfterAdd(t: Table, load: seq<HashLoad>, hs: seq<Hash>, s: ServerId)
    ensures var a, b := Known(t, load), Known(AddAll(t, hs, s), load);
            |a| == |b| && forall i :: 0 <= i < |a| ==>
              a[i].hash == b[i].hash && a[i].offset == b[i].offset && a[i].concurrency == b[i].concurrency
  {
    if load != [] {
      KnownAfterAdd(t, load[..|load| - 1], hs, s);
      AddAllReplicas(t, hs, s, s, load[|load| - 1].hash);
    }
  }

  lemma SameGate(a: seq<KnownHash>, b: seq<KnownHash>)
    requires |a| == |b| && forall i :: 0 <= i < |a| ==> a[i].concurrency == b[i].concurrency
    ensures GateLength(a) == GateLength(b)
  {}

  // Granting replicas leaves the gated list as it was.
  lemma GatedAfterAdd(t: Table, load: seq<HashLoad>, hs: seq<Hash>, s: ServerId)
    ensures Gated(AddAll(t, hs, s), load) == Gated(t, load)
  {
    KnownAfterAdd(t, load, hs, s);
    SameGate(Known(t, load), Known(AddAll(t, hs, s), load));
  }

  lemma GatedInTable(t: Table, load: seq<HashLoad>)
    ensures forall h :: h in Gated(t, load) ==> h in t
  {
    KnownInTable(t, load);
  }

  // A call that skips leaves no target lacking a gated block.
  lemma NothingToMigrate(t: Table, load: seq<HashLoad>, targets: set<ServerId>)
    requires SkipReason(t, load, targets).Some?
    ensures Lacking(t, targets, Gated(t, load)) == {}
  {}

  // One successful migration completes its target and changes no other.
  lemma MigrationCompletesTarget(t: Table, targets: set<ServerId>, hs: seq<Hash>, s: ServerId)
    requires s in Lacking(t, targets, hs) && forall h :: h in hs ==> h in t
    ensures Lacking(AddAll(t, hs, s), targets, hs) == Lacking(t, targets, hs) - {s}
  {
    var t' := AddAll(t, hs, s);
    forall s' ensures Matches(t', s', hs) <==> s' == s || Matches(t, s', hs) {
      forall h | h in hs ensures Holds(t', s', h) <==> s' == s || Holds(t, s', h) {
        AddAllReplicas(t, hs, s, s', h);
      }
      assert s' != s && Matches(t', s', hs) ==> forall h :: h in hs ==> Holds(t, s', h);
    }
  }

  // A run of successful migrations of the same request, each to some target that
  // still lacks a block.
  ghost function RunMigrations(t: Table, hs: seq<Hash>, picks: seq<ServerId>): Table {
    if picks == [] then t else AddAll(RunMigrations(t, hs, picks[..|picks| - 1]), hs, picks[|picks| - 1])
  }

  ghost predicate ValidPicks(t: Table, targets: set<ServerId>, hs: seq<Hash>, picks: seq<ServerId>) {
    forall i :: 0 <= i < |picks| ==> picks[i] in Lacking(RunMigrations(t, hs, picks[..i]), targets, hs)
  }

  lemma {:induction false} RunKeepsBlocks(t: Table, hs: seq<Hash>, picks: seq<ServerId>, h: Hash)
    ensures h in RunMigrations(t, hs, picks) <==> h in t
  {
    if picks != [] {
      RunKeepsBlocks(t, hs, picks[..|picks| - 1], h);
      AddAllReplicas(RunMigrations(t, hs, picks[..|picks| - 1]), hs, picks[|picks| - 1], picks[|picks| - 1], h);
    }
  }

  // Every call brings the number of incomplete targets down by exactly one, so the
  // run ends with all targets complete after as many calls as there were.
  lemma {:induction false} MigrationsMakeProgress(t: Table, targets: set<ServerId>, hs: seq<Hash>, picks: seq<ServerId>)
    requires ValidPicks(t, targets, hs, picks) && forall h :: h in hs ==> h in t
    ensures |Lacking(RunMigrations(t, hs, picks), targets, hs)| == |Lacking(t, targets, hs)| - |picks|
    ensures |picks| == |Lacking(t, targets, hs)| ==>
              forall s :: s in targets ==> Matches(RunMigrations(t, hs, picks), s, hs)
  {
    if picks != [] {
      var n := |picks| - 1;
      var before := RunMigrations(t, hs, picks[..n]);
      forall i | 0 <= i < n ensures picks[..n][i] in Lacking(RunMigrations(t, hs, picks[..n][..i]), targets, hs) {
        assert picks[..n][..i] == picks[..i];
      }
      MigrationsMakeProgress(t, targets, hs, picks[..n]);
      forall h | h in hs ensures h in before { RunKeepsBlocks(t, hs, picks[..n], h); }
      MigrationCompletesTarget(before, targets, hs, picks[n]);
    }
    var left := Lacking(RunMigrations(t, hs, picks), targets, hs);
    if |picks| == |Lacking(t, targets, hs)| {
      assert left == {};
      forall s | s in targets ensures Matches(RunMigrations(t, hs, picks), s, hs) {
        assert s !in left;
      }
    }
  }
}
