// The prefix normalisation of the cross-language hash, and the prefixes it confuses.
module CrossLanguage {
  import opened Types

  function Zeros(n: nat): (z: Bytes)
    ensures |z| == n && forall i :: 0 <= i < n ==> z[i] == 0
  {
    seq(n, _ => 0)
  }

  // The big-endian bytes of the number, without leading zeros.
  function Stripped(b: Bytes): (r: Bytes)
    ensures |r| <= |b|
    ensures b == Zeros(|b| - |r|) + r
    ensures r != [] ==> r[0] != 0
  {
    if b != [] && b[0] == 0 then Stripped(b[1..]) else b
  }

  // Read as a number, written back without leading zeros, and filled up with zeros on the
  // right; zero itself, written as one zero byte, fills up to the same.
  function Normalised(b: Bytes32): Bytes32 {
    Stripped(b) + Zeros(32 - |Stripped(b)|)
  }

  // The normalisation changes exactly the nonzero prefixes that start with a zero byte.
  lemma NormalisedUnchangedIff(b: Bytes32)
    ensures Normalised(b) == b <==> b[0] != 0 || b == Zeros(32)
  {
    var r := Stripped(b);
    if b[0] != 0 {
      assert Normalised(b) == b;
    } else if r != [] {
      assert Normalised(b)[0] == r[0] != 0;
      assert b[32 - |r|] == r[0];
    } else {
      assert b == Zeros(32);
      assert Normalised(b) == Zeros(32);
    }
  }

  // One prefix is another moved k bytes to the right, only zeros falling off.
  ghost predicate Moved(a: Bytes32, b: Bytes32, k: nat) {
    k <= 32 && a == Zeros(k) + b[..32 - k] && b[32 - k..] == Zeros(k)
  }

  // Exactly such prefixes are hashed alike.
  lemma ConfusedIffMoved(a: Bytes32, b: Bytes32)
    ensures Normalised(a) == Normalised(b) <==> exists k :: Moved(a, b, k) || Moved(b, a, k)
  {
    if Normalised(a) == Normalised(b) {
      if |Stripped(a)| <= |Stripped(b)| {
        MovedByDifference(a, b);
      } else {
        MovedByDifference(b, a);
      }
    }
    forall k ensures Moved(a, b, k) || Moved(b, a, k) ==> Normalised(a) == Normalised(b) {
      if Moved(a, b, k) { MovedIsConfused(a, b, k); }
      if Moved(b, a, k) { MovedIsConfused(b, a, k); }
    }
  }

  lemma MovedByDifference(a: Bytes32, b: Bytes32)
    requires Normalised(a) == Normalised(b) && |Stripped(a)| <= |Stripped(b)|
    ensures Moved(a, b, |Stripped(b)| - |Stripped(a)|)
  {
    var ra, rb := Stripped(a), Stripped(b);
    var k, z := |rb| - |ra|, 32 - |rb|;
    assert Normalised(b)[..|rb|] == rb;
    assert Normalised(a)[..|rb|] == ra + Zeros(k);
    hide Zeros, Stripped, Normalised;
    ZerosOnBothSides(z, ra, k);
    ZerosJoin(k, z, ra);
  }

  lemma ZerosJoin(k: nat, z: nat, r: Bytes)
    ensures Zeros(k) + (Zeros(z) + r) == Zeros(k + z) + r
    ensures (r + Zeros(k)) + Zeros(z) == r + Zeros(k + z)
  {}

  lemma OnlyZeros(z: nat, k: nat)
    ensures (Zeros(z) + []) + Zeros(k) == Zeros(z + k) + []
  {}

  lemma ZerosOnBothSides(z: nat, r: Bytes, k: nat)
    ensures (Zeros(z) + (r + Zeros(k)))[..z + |r|] == Zeros(z) + r
    ensures (Zeros(z) + (r + Zeros(k)))[z + |r|..] == Zeros(k)
    ensures (Zeros(z) + r) + Zeros(k) == Zeros(z) + (r + Zeros(k))
  {}

  lemma {:induction false} StrippedPadded(z: nat, r: Bytes)
    requires r == [] || r[0] != 0
    ensures Stripped(Zeros(z) + r) == r
  {
    if z > 0 {
      assert (Zeros(z) + r)[1..] == Zeros(z - 1) + r;
      StrippedPadded(z - 1, r);
    } else {
      assert Zeros(0) + r == r;
    }
  }

  lemma StrippedOfMovedRight(z: nat, r: Bytes, k: nat)
    requires r == [] || r[0] != 0
    ensures Stripped(Zeros(k) + (Zeros(z) + r)) == r
  {
    var moved := Zeros(k) + (Zeros(z) + r);
    ZerosJoin(k, z, r);
    hide Zeros, Stripped;
    assert moved == Zeros(k + z) + r;
    StrippedPadded(k + z, r);
  }

  lemma StrippedOfMoved(z: nat, r: Bytes, k: nat)
    requires r == [] || r[0] != 0
    ensures Stripped(Zeros(k) + (Zeros(z) + r)) == r
    ensures Stripped((Zeros(z) + r) + Zeros(k)) == if r == [] then [] else r + Zeros(k)
  {
    hide Zeros, Stripped;
    StrippedOfMovedRight(z, r, k);
    if r == [] {
      OnlyZeros(z, k);
      StrippedPadded(z + k, []);
    } else {
      ZerosOnBothSides(z, r, k);
      StrippedPadded(z, r + Zeros(k));
    }
  }

  lemma MovedIsConfused(a: Bytes32, b: Bytes32, k: nat)
    requires Moved(a, b, k)
    ensures Normalised(a) == Normalised(b)
  {
    var kept := b[..32 - k];
    var r := Stripped(kept);
    var z := 32 - k - |r|;
    assert b == kept + Zeros(k) && kept == Zeros(z) + r;
    StrippedOfMoved(z, r, k);
    NormalisedParts(a, b, r, k);
  }

  lemma NormalisedParts(a: Bytes32, b: Bytes32, r: Bytes, k: nat)
    requires Stripped(a) == r && |r| + k <= 32
    requires Stripped(b) == if r == [] then [] else r + Zeros(k)
    ensures Normalised(a) == Normalised(b)
  {
    ZerosJoin(k, 32 - |r| - k, r);
  }

  // Two different prefixes that begin every block's digested bytes alike.
  lemma TwoPrefixesConfused()
    ensures Normalised([0, 1] + Zeros(30)) == Normalised([1, 0] + Zeros(30))
    ensures [0, 1] + Zeros(30) != [1, 0] + Zeros(30)
  {
    var a: Bytes32, b: Bytes32 := [0, 1] + Zeros(30), [1, 0] + Zeros(30);
    assert a == Zeros(1) + b[..31] && b[31..] == Zeros(1);
    MovedIsConfused(a, b, 1);
    assert a[0] != b[0];
  }
}
