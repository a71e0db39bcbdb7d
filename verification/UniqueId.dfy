/** The order-independent id of a ring (types/ring.go, types/bytes.go). */
module UniqueId {

  type bytes = seq<bv8>

  /** Byte `i` of `bs` after common.LeftPadBytes to length `n`. */
  function Padded(bs: bytes, n: nat, i: nat): bv8
    requires |bs| <= n && i < n
  {
    if i < n - |bs| then 0 else bs[i - (n - |bs|)]
  }

  function Max(a: nat, b: nat): nat {
    if a < b then b else a
  }

  /** The bytewise exclusive or, the shorter string padded on the left. */
  function XorBytes(a: bytes, b: bytes): (r: bytes)
    ensures |r| == Max(|a|, |b|)
  {
    var n := Max(|a|, |b|);
    seq(n, i requires 0 <= i < n => Padded(a, n, i) ^ Padded(b, n, i))
  }

  function LeftPad(bs: bytes, n: nat): (r: bytes) {
    if n <= |bs| then bs else seq(n - |bs|, _ => 0) + bs
  }

  /** types.Xor: pad the shorter string, then fill a buffer index by index. */
  method Xor(a: bytes, b: bytes) returns (r: bytes)
    ensures r == XorBytes(a, b)
  {
    var x, y := a, b;
    var tmp := new bv8[|a|];
    if |a| > |b| {
      y := LeftPad(b, |a|);
    } else if |a| < |b| {
      x := LeftPad(a, |b|);
      tmp := new bv8[|b|];
    }
    var i := 0;
    while i < tmp.Length
      invariant 0 <= i <= tmp.Length
      invariant forall k :: 0 <= k < i ==> tmp[k] == XorBytes(a, b)[k]
    {
      tmp[i] := x[i] ^ y[i];
      i := i + 1;
    }
    r := tmp[..];
  }

  lemma XorCommutes(a: bytes, b: bytes)
    ensures XorBytes(a, b) == XorBytes(b, a)
  {
    var n := Max(|a|, |b|);
    forall i | 0 <= i < n ensures XorBytes(a, b)[i] == XorBytes(b, a)[i] {
      Commute(Padded(a, n, i), Padded(b, n, i));
    }
  }

  lemma Commute(x: bv8, y: bv8)
    ensures x ^ y == y ^ x
  {
  }

  lemma Associate(x: bv8, y: bv8, z: bv8)
    ensures (x ^ y) ^ z == x ^ (y ^ z)
  {
  }

  /** Padding an exclusive or is the exclusive or of the padded strings. */
  lemma PaddedXor(a: bytes, b: bytes, n: nat, i: nat)
    requires |a| <= n && |b| <= n && i < n
    ensures Padded(XorBytes(a, b), n, i) == Padded(a, n, i) ^ Padded(b, n, i)
  {
    var m := Max(|a|, |b|);
    if i >= n - m {
      assert Padded(a, n, i) == Padded(a, m, i - (n - m));
      assert Padded(b, n, i) == Padded(b, m, i - (n - m));
    }
  }

  /** Associativity over byte strings of any lengths. */
  lemma XorAssociates(a: bytes, b: bytes, c: bytes)
    ensures XorBytes(XorBytes(a, b), c) == XorBytes(a, XorBytes(b, c))
  {
    var n := Max(Max(|a|, |b|), |c|);
    forall i | 0 <= i < n ensures XorBytes(XorBytes(a, b), c)[i] == XorBytes(a, XorBytes(b, c))[i] {
      PaddedXor(a, b, n, i);
      PaddedXor(b, c, n, i);
      Associate(Padded(a, n, i), Padded(b, n, i), Padded(c, n, i));
    }
  }

  /** What is put in twice drops out, but for the padding. */
  lemma XorTwice(a: bytes, b: bytes)
    ensures XorBytes(XorBytes(a, b), b) == LeftPad(a, Max(|a|, |b|))
  {
    var n := Max(|a|, |b|);
    forall i | 0 <= i < n ensures XorBytes(XorBytes(a, b), b)[i] == LeftPad(a, n)[i] {
      PaddedXor(a, b, n, i);
      DropsOut(Padded(a, n, i), Padded(b, n, i));
    }
  }

  lemma DropsOut(x: bv8, y: bv8)
    ensures (x ^ y) ^ y == x
  {
  }

  /** A shorter string is padded with zeros in front. */
  lemma XorZeros(a: bytes, n: nat)
    requires |a| <= n
    ensures XorBytes(a, seq(n, _ => 0)) == seq(n - |a|, _ => 0) + a
  {
    var zeros: bytes := seq(n, _ => 0);
    forall i | 0 <= i < n ensures XorBytes(a, zeros)[i] == (seq(n - |a|, _ => 0) + a)[i] {
      NoChange(Padded(a, n, i));
    }
  }

  lemma NoChange(x: bv8)
    ensures x ^ 0 == x
  {
  }

  /** The exclusive or of all hashes, from the first on. */
  function Fold(hashes: seq<bytes>): bytes
    requires hashes != []
  {
    var n := |hashes| - 1;
    if n == 0 then hashes[0] else XorBytes(Fold(hashes[..n]), hashes[n])
  }

  function Without(hashes: seq<bytes>, i: nat): seq<bytes>
    requires i < |hashes|
  {
    hashes[..i] + hashes[i + 1..]
  }

  /** Any hash can be taken out of the fold and put last. */
  lemma {:induction false} FoldWithout(hashes: seq<bytes>, i: nat)
    requires i < |hashes| && |hashes| > 1
    ensures Fold(hashes) == XorBytes(Fold(Without(hashes, i)), hashes[i])
  {
    hide XorBytes;
    var n := |hashes| - 1;
    var h, last := hashes[i], hashes[n];
    if i == n {
      assert Without(hashes, n) == hashes[..n];
    } else if n == 1 {
      assert hashes[..1] == [hashes[0]] && Without(hashes, 0) == [hashes[1]];
      XorCommutes(hashes[0], hashes[1]);
    } else {
      var rest := Without(hashes[..n], i);
      FoldWithout(hashes[..n], i);
      assert hashes[i + 1..] == hashes[..n][i + 1..] + [last];
      assert Without(hashes, i) == rest + [last];
      assert (rest + [last])[..|rest|] == rest;
      XorAssociates(Fold(rest), h, last);
      XorCommutes(h, last);
      XorAssociates(Fold(rest), last, h);
    }
  }

  lemma WithoutMultiset(hashes: seq<bytes>, i: nat)
    requires i < |hashes|
    ensures multiset(Without(hashes, i)) == multiset(hashes) - multiset{hashes[i]}
  {
    assert hashes == hashes[..i] + [hashes[i]] + hashes[i + 1..];
  }

  /** The id is the same for every permutation of the orders. */
  lemma {:induction false} FoldPermutes(a: seq<bytes>, b: seq<bytes>)
    requires a != [] && multiset(a) == multiset(b)
    ensures b != [] && Fold(a) == Fold(b)
    decreases |a|
  {
    var n := |a| - 1;
    assert a[n] in multiset(a);
    assert a[n] in b;
    SameLength(a, b);
    var i :| 0 <= i < |b| && b[i] == a[n];
    if n > 0 {
      WithoutMultiset(a, n);
      WithoutMultiset(b, i);
      assert Without(a, n) == a[..n];
      FoldPermutes(a[..n], Without(b, i));
      FoldWithout(b, i);
    }
  }

  lemma SameLength(a: seq<bytes>, b: seq<bytes>)
    requires multiset(a) == multiset(b)
    ensures |a| == |b|
  {
    assert |multiset(a)| == |a| && |multiset(b)| == |b|;
  }

  /** common.BytesToHash: the last 32 bytes, padded on the left. */
  function BytesToHash(bs: bytes): bytes {
    if |bs| > 32 then bs[|bs| - 32..] else LeftPad(bs, 32)
  }

  /** Of a longer string the last 32 bytes count; a shorter one is padded with zeros in front. */
  lemma HashOfBytes(front: bytes, bs: bytes)
    ensures |bs| == 32 ==> BytesToHash(front + bs) == bs
    ensures |bs| <= 32 ==> BytesToHash(bs) == seq(32 - |bs|, _ => 0) + bs
  {
    assert (front + bs)[|front|..] == bs;
  }

  lemma ZeroHash(h: bytes)
    ensures IsZero(h) <==> forall i :: 0 <= i < |h| ==> h[i] == 0
  {
    if IsZero(h) {
      forall i | 0 <= i < |h| ensures h[i] == 0 {
        assert h[i] in h;
      }
    }
  }

  /** A ring of one has its order's hash as id, and each further order is combined with the id so far. */
  lemma IdByOrder(hashes: seq<bytes>, h: bytes)
    requires |h| == 32 && forall x <- hashes :: |x| == 32
    ensures BytesToHash(Fold([h])) == h
    ensures hashes != [] ==> BytesToHash(Fold(hashes + [h])) == XorBytes(BytesToHash(Fold(hashes)), h)
  {
    if hashes != [] {
      FoldLength(hashes);
      assert (hashes + [h])[..|hashes|] == hashes;
    }
  }

  lemma {:induction false} FoldLength(hashes: seq<bytes>)
    requires hashes != [] && forall x <- hashes :: |x| == 32
    ensures |Fold(hashes)| == 32
  {
    if |hashes| > 1 {
      FoldLength(hashes[..|hashes| - 1]);
    }
  }

  predicate IsZero(h: bytes) {
    forall b <- h :: b == 0
  }

  /** Ring, as far as its id goes: the hashes of its orders and the cached id. */
  class Ring {
    var hashes: seq<bytes>
    var uniqueId: bytes

    constructor (hashes: seq<bytes>)
      ensures this.hashes == hashes && IsZero(uniqueId) && |uniqueId| == 32
    {
      this.hashes := hashes;
      uniqueId := seq(32, _ => 0);
    }

    /** GenerateUniqueId; with no cached id the ring must not be empty, as the first order is indexed. */
    method GenerateUniqueId() returns (id: bytes)
      requires IsZero(uniqueId) ==> hashes != []
      modifies `uniqueId
      ensures id == uniqueId
      ensures uniqueId == if old(IsZero(uniqueId)) then BytesToHash(Fold(hashes)) else old(uniqueId)
    {
      if IsZero(uniqueId) {
        var acc := hashes[0];
        assert hashes[..1] == [hashes[0]];
        for idx := 1 to |hashes|
          invariant acc == Fold(hashes[..idx])
        {
          assert hashes[..idx + 1][..idx] == hashes[..idx];
          acc := Xor(acc, hashes[idx]);
        }
        assert hashes[..|hashes|] == hashes;
        uniqueId := BytesToHash(acc);
      }
      id := uniqueId;
    }
  }

  /** Two rings with the same orders in any order, both without a cached id, get the same id. */
  method SameIdForSameOrders(a: Ring, b: Ring)
    requires a != b && IsZero(a.uniqueId) && IsZero(b.uniqueId)
    requires a.hashes != [] && multiset(a.hashes) == multiset(b.hashes)
    modifies a`uniqueId, b`uniqueId
    ensures a.uniqueId == b.uniqueId
  {
    FoldPermutes(a.hashes, b.hashes);
    var x := a.GenerateUniqueId();
    var y := b.GenerateUniqueId();
  }
}
