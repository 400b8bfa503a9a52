// Values shared by every component: bytes, block hashes, block metadata and
// the replica operations exchanged between metadata servers.
module Types {

  const TWO_TO_THE_32: int := 0x1_0000_0000
  const TWO_TO_THE_64: int := 0x1_0000_0000_0000_0000
  const U32_MAX: int := TWO_TO_THE_32 - 1

  type byte = x: int | 0 <= x < 256
  type u32 = x: int | 0 <= x < TWO_TO_THE_32
  type u64 = x: int | 0 <= x < TWO_TO_THE_64

  type Bytes = seq<byte>
  type Bytes32 = b: Bytes | |b| == 32 witness seq(32, _ => 0)

  type Token = u32
  type ServerId = u32

  // A 256-bit block hash.
  datatype Hash = Hash(bytes: Bytes32)

  // The all-zero predecessor that marks a root block.
  const ROOT: Hash := Hash(
    [0, 0, 0, 0, 0, 0, 0, 0, 0, 0, 0, 0, 0, 0, 0, 0,
     0, 0, 0, 0, 0, 0, 0, 0, 0, 0, 0, 0, 0, 0, 0, 0])

  datatype Option<+T> = None | Some(value: T)

  datatype KvBlockMeta = KvBlockMeta(
    tokenHash: Hash,
    offset: u32,
    preToken: Hash,
    nextTokens: seq<Hash>,
    servers: seq<ServerId>)

  const ADD_REPLICA: u32 := 1
  const DELETE_REPLICA: u32 := 2

  datatype UpdateKvOp = UpdateKvOp(tokenHash: Hash, operation: u32, server: ServerId)

  ghost predicate Distinct<T>(s: seq<T>) {
    forall i, j :: 0 <= i < j < |s| ==> s[i] != s[j]
  }

  function Get(m: map<Hash, nat>, h: Hash): nat {
    if h in m then m[h] else 0
  }

  function Bump(m: map<Hash, nat>, h: Hash, n: nat): map<Hash, nat> {
    m[h := Get(m, h) + n]
  }

  // Retaining the elements other than one, in order.
  function Without<T(==, !new)>(s: seq<T>, x: T): (r: seq<T>)
    ensures forall y :: y in r <==> y in s && y != x
    ensures Distinct(s) ==> Distinct(r)
  {
    if s == [] then []
    else
      var rest := Without(s[..|s| - 1], x);
      assert s == s[..|s| - 1] + [s[|s| - 1]];
      assert Distinct(s) ==> s[|s| - 1] !in s[..|s| - 1];
      assert s[|s| - 1] !in s[..|s| - 1] ==> s[|s| - 1] !in rest;
      if s[|s| - 1] == x then rest else rest + [s[|s| - 1]]
  }

  // Appending an element only when it is missing.
  function AddUnique<T(==, !new)>(s: seq<T>, x: T): (r: seq<T>)
    ensures forall y :: y in r <==> y in s || y == x
    ensures Distinct(s) ==> Distinct(r)
  {
    if x in s then s else s + [x]
  }

  // The elements of one list that another contains, in the first one's order.
  function Intersect<T(==, !new)>(s: seq<T>, keep: seq<T>): (r: seq<T>)
    ensures forall y :: y in r <==> y in s && y in keep
    ensures Distinct(s) ==> Distinct(r)
    ensures (forall y :: y in s ==> y in keep) ==> r == s
  {
    if s == [] then []
    else
      var x := s[|s| - 1];
      var rest := Intersect(s[..|s| - 1], keep);
      assert s == s[..|s| - 1] + [x];
      if x in keep then rest + [x] else rest
  }

  // Without and Intersect are filters: they take lists apart at the end, and keep or drop
  // each element for itself.
  lemma WithoutIsFilter<T(!new)>(s: seq<T>, x: T, y: T)
    ensures Without([], x) == []
    ensures Without(s + [y], x) == if y == x then Without(s, x) else Without(s, x) + [y]
  {
    var sy := s + [y];
    assert sy[..|sy| - 1] == s && sy[|sy| - 1] == y;
  }

  lemma IntersectIsFilter<T(!new)>(s: seq<T>, keep: seq<T>, y: T)
    ensures Intersect([], keep) == []
    ensures Intersect(s + [y], keep) == if y in keep then Intersect(s, keep) + [y] else Intersect(s, keep)
  {
    var sy := s + [y];
    assert sy[..|sy| - 1] == s && sy[|sy| - 1] == y;
  }

  // Two maps agree at a key: both have it with one value, or neither has it.
  predicate SameAt<K, V(==)>(m: map<K, V>, n: map<K, V>, k: K) {
    (k in m <==> k in n) && (k in m ==> m[k] == n[k])
  }

  lemma RootIsZero()
    ensures |ROOT.bytes| == 32 && forall i :: 0 <= i < 32 ==> ROOT.bytes[i] == 0
  {}

  function Elements<T(==)>(s: seq<T>): set<T> {
    set x | x in s
  }

  // Distinct elements make a set of the same size.
  lemma {:induction false} DistinctCardinality<T>(s: seq<T>)
    ensures |Elements(s)| <= |s|
    ensures |Elements(s)| == |s| <==> Distinct(s)
  {
    if s == [] {
    } else {
      var init, x := s[..|s| - 1], s[|s| - 1];
      DistinctCardinality(init);
      assert s == init + [x];
      var a, b := Elements(init), Elements(s);
      assert b == a + {x};
      if x in init {
        assert b == a;
        var k :| 0 <= k < |init| && init[k] == x;
        assert s[k] == s[|s| - 1];
      } else {
        assert |b| == |a| + 1;
        if Distinct(init) {
          forall i, j | 0 <= i < j < |s| ensures s[i] != s[j] {
            if j == |s| - 1 { assert s[i] == init[i]; assert init[i] in init; }
            else { assert s[i] == init[i] && s[j] == init[j]; }
          }
        } else {
          var i, j :| 0 <= i < j < |init| && init[i] == init[j];
          assert s[i] == s[j];
        }
      }
    }
  }

  lemma {:induction false} SubsetSize<T>(a: set<T>, b: set<T>)
    requires a <= b
    ensures |a| <= |b|
  {
    if a != {} {
      var x :| x in a;
      SubsetSize(a - {x}, b - {x});
    }
  }
}
