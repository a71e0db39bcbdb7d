/** Orders: the bytes that are hashed and the exact amounts (types/order.go). */
module Orders {
  import opened Words

  type Address = a: seq<byte> | |a| == 20 witness Zeros(20)
  type Word32 = w: seq<byte> | |w| == 32 witness Zeros(32)

  datatype Order = Order(
    protocol: Address, delegate: Address, authAddr: Address, wallet: Address,
    tokenS: Address, tokenB: Address, owner: Address,
    amountS: int, amountB: int, validSince: int, validUntil: int, lrcFee: int,
    buyNoMoreThanAmountB: bool, marginSplit: byte, v: byte, r: Word32, s: Word32)

  // ----- the hash preimage -----

  function Abs(n: int): nat {
    if n < 0 then -n else n
  }

  /** common.LeftPadBytes(n.Bytes(), 32); Bytes drops the sign. */
  function PaddedBytes(n: int): seq<byte> {
    LeftPad(MinBytes(Abs(n)), 32)
  }

  /** The byte strings GenerateHash feeds to Keccak, in order. */
  function PreimageParts(o: Order): seq<seq<byte>> {
    [ o.delegate, o.owner, o.tokenS, o.tokenB, o.wallet, o.authAddr,
      PaddedBytes(o.amountS), PaddedBytes(o.amountB), PaddedBytes(o.validSince), PaddedBytes(o.validUntil),
      PaddedBytes(o.lrcFee), [if o.buyNoMoreThanAmountB then 1 else 0], [o.marginSplit] ]
  }

  function Flatten(parts: seq<seq<byte>>): seq<byte> {
    if parts == [] then [] else parts[0] + Flatten(parts[1..])
  }

  function Preimage(o: Order): seq<byte> {
    Flatten(PreimageParts(o))
  }

  predicate InWord(n: int) {
    0 <= n < TWO_256
  }

  predicate InWords(o: Order) {
    InWord(o.amountS) && InWord(o.amountB) && InWord(o.validSince) && InWord(o.validUntil) && InWord(o.lrcFee)
  }

  /** The 13 fields the hash is meant to cover. */
  predicate SameHashedFields(a: Order, b: Order) {
    && a.delegate == b.delegate && a.owner == b.owner && a.tokenS == b.tokenS && a.tokenB == b.tokenB
    && a.wallet == b.wallet && a.authAddr == b.authAddr
    && a.amountS == b.amountS && a.amountB == b.amountB
    && a.validSince == b.validSince && a.validUntil == b.validUntil && a.lrcFee == b.lrcFee
    && a.buyNoMoreThanAmountB == b.buyNoMoreThanAmountB && a.marginSplit == b.marginSplit
  }

  lemma PaddedLength(n: int)
    ensures |PaddedBytes(n)| >= 32
    ensures |PaddedBytes(n)| == 32 <==> Abs(n) < TWO_256
    ensures |PaddedBytes(n)| == 32 ==> PaddedBytes(n) == ToBytes(Abs(n), 32)
  {
    MinBytesLength(Abs(n), 32);
    Pow256Words();
    if Abs(n) < TWO_256 {
      LeftPadMinBytes(Abs(n), 32);
    }
  }

  lemma PaddedInjective(a: int, b: int)
    requires InWord(a) && InWord(b) && PaddedBytes(a) == PaddedBytes(b)
    ensures a == b
  {
    PaddedLength(a);
    PaddedLength(b);
    Pow256Words();
    FromToBytes(a, 32);
    FromToBytes(b, 32);
    SmallMod(a);
    SmallMod(b);
  }

  function TotalLength(parts: seq<seq<byte>>): nat {
    if parts == [] then 0 else |parts[0]| + TotalLength(parts[1..])
  }

  lemma {:induction false} FlattenLength(parts: seq<seq<byte>>)
    ensures |Flatten(parts)| == TotalLength(parts)
  {
    if parts != [] {
      FlattenLength(parts[1..]);
    }
  }

  /** Byte strings of agreed lengths can be told apart after concatenation. */
  lemma {:induction false} FlattenInjective(a: seq<seq<byte>>, b: seq<seq<byte>>)
    requires |a| == |b| && forall i :: 0 <= i < |a| ==> |a[i]| == |b[i]|
    requires Flatten(a) == Flatten(b)
    ensures a == b
  {
    if a != [] {
      var n := |a[0]|;
      assert a[0] == Flatten(a)[..n] && b[0] == Flatten(b)[..n];
      assert Flatten(a[1..]) == Flatten(a)[n..] && Flatten(b[1..]) == Flatten(b)[n..];
      FlattenInjective(a[1..], b[1..]);
      assert a == [a[0]] + a[1..] && b == [b[0]] + b[1..];
    }
  }

  /** The preimage has 282 bytes exactly when no amount or time needs more than 32 bytes. */
  lemma PreimageLength(o: Order)
    ensures |Preimage(o)| >= 282
    ensures |Preimage(o)| == 282 <==>
      && Abs(o.amountS) < TWO_256 && Abs(o.amountB) < TWO_256
      && Abs(o.validSince) < TWO_256 && Abs(o.validUntil) < TWO_256 && Abs(o.lrcFee) < TWO_256
  {
    hide PaddedBytes;
    var parts := PreimageParts(o);
    FlattenLength(parts);
    LengthOfParts(parts);
    PaddedLength(o.amountS);
    PaddedLength(o.amountB);
    PaddedLength(o.validSince);
    PaddedLength(o.validUntil);
    PaddedLength(o.lrcFee);
  }

  /** Where part i starts. */
  function PartStart(parts: seq<seq<byte>>, i: nat): nat
    requires i <= |parts|
  {
    if i == 0 then 0 else PartStart(parts, i - 1) + |parts[i - 1]|
  }

  lemma {:induction false} PartStartTail(parts: seq<seq<byte>>, i: nat)
    requires i < |parts|
    ensures PartStart(parts, i + 1) == |parts[0]| + PartStart(parts[1..], i)
  {
    if i > 0 {
      PartStartTail(parts, i - 1);
    }
  }

  lemma {:induction false} PartAt(parts: seq<seq<byte>>, i: nat)
    requires i < |parts|
    ensures PartStart(parts, i) + |parts[i]| <= |Flatten(parts)|
    ensures Flatten(parts)[PartStart(parts, i)..PartStart(parts, i) + |parts[i]|] == parts[i]
  {
    if i > 0 {
      PartAt(parts[1..], i - 1);
      PartStartTail(parts, i - 1);
      Shift(parts[0], Flatten(parts[1..]), PartStart(parts[1..], i - 1), |parts[i]|);
    }
  }

  lemma Shift(a: seq<byte>, b: seq<byte>, from: nat, count: nat)
    requires from + count <= |b|
    ensures (a + b)[|a| + from..|a| + from + count] == b[from..from + count]
  {
  }

  /** The number in a padded part. */
  lemma PaddedValue(n: int)
    requires InWord(n)
    ensures |PaddedBytes(n)| == 32 && FromBytes(PaddedBytes(n)) == n
  {
    PaddedLength(n);
    Pow256Words();
    FromToBytes(n, 32);
    SmallMod(n);
  }

  /** The 282 bytes that are hashed, byte for byte. */
  lemma PreimageLayout(o: Order)
    requires InWords(o)
    ensures var h := Preimage(o);
      && |h| == 282
      && h[0..20] == o.delegate && h[20..40] == o.owner && h[40..60] == o.tokenS && h[60..80] == o.tokenB
      && h[80..100] == o.wallet && h[100..120] == o.authAddr
      && FromBytes(h[120..152]) == o.amountS && FromBytes(h[152..184]) == o.amountB
      && FromBytes(h[184..216]) == o.validSince && FromBytes(h[216..248]) == o.validUntil
      && FromBytes(h[248..280]) == o.lrcFee
      && h[280] == (if o.buyNoMoreThanAmountB then 1 else 0) && h[281] == o.marginSplit
  {
    var parts := PreimageParts(o);
    PaddedValue(o.amountS);
    PaddedValue(o.amountB);
    PaddedValue(o.validSince);
    PaddedValue(o.validUntil);
    PaddedValue(o.lrcFee);
    PreimageLength(o);
    PartStarts(parts);
    hide PaddedBytes, Flatten, FromBytes, PartStart;
    forall i | 0 <= i < 13
      ensures PartStart(parts, i) + |parts[i]| <= |Preimage(o)|
      ensures Preimage(o)[PartStart(parts, i)..PartStart(parts, i) + |parts[i]|] == parts[i]
    {
      PartAt(parts, i);
    }
    FirstParts(o, parts);
    LaterParts(o, parts);
  }

  lemma FirstParts(o: Order, parts: seq<seq<byte>>)
    requires parts == PreimageParts(o) && |Preimage(o)| == 282
    requires forall i :: 0 <= i < 6 ==> PartStart(parts, i) == 20 * i
    requires forall i :: 0 <= i < 13 ==> PartStart(parts, i) + |parts[i]| <= |Preimage(o)|
    requires forall i :: 0 <= i < 13 ==> Preimage(o)[PartStart(parts, i)..PartStart(parts, i) + |parts[i]|] == parts[i]
    ensures var h := Preimage(o);
      && h[0..20] == o.delegate && h[20..40] == o.owner && h[40..60] == o.tokenS && h[60..80] == o.tokenB
      && h[80..100] == o.wallet && h[100..120] == o.authAddr
  {
    hide PaddedBytes, Flatten, Preimage, PartStart;
    assert PartStart(parts, 0) == 0 && PartStart(parts, 1) == 20 && PartStart(parts, 2) == 40;
    assert PartStart(parts, 3) == 60 && PartStart(parts, 4) == 80 && PartStart(parts, 5) == 100;
  }

  lemma LaterParts(o: Order, parts: seq<seq<byte>>)
    requires parts == PreimageParts(o) && |Preimage(o)| == 282 && forall i :: 6 <= i < 11 ==> |parts[i]| == 32
    requires forall i :: 6 <= i < 11 ==> PartStart(parts, i) == 120 + 32 * (i - 6)
    requires PartStart(parts, 11) == 280 && PartStart(parts, 12) == 281
    requires forall i :: 0 <= i < 13 ==> PartStart(parts, i) + |parts[i]| <= |Preimage(o)|
    requires forall i :: 0 <= i < 13 ==> Preimage(o)[PartStart(parts, i)..PartStart(parts, i) + |parts[i]|] == parts[i]
    ensures var h := Preimage(o);
      && h[120..152] == PaddedBytes(o.amountS) && h[152..184] == PaddedBytes(o.amountB)
      && h[184..216] == PaddedBytes(o.validSince) && h[216..248] == PaddedBytes(o.validUntil)
      && h[248..280] == PaddedBytes(o.lrcFee)
      && h[280] == (if o.buyNoMoreThanAmountB then 1 else 0) && h[281] == o.marginSplit
  {
    hide PaddedBytes, Flatten, Preimage, PartStart;
    assert PartStart(parts, 6) == 120 && PartStart(parts, 7) == 152 && PartStart(parts, 8) == 184;
    assert PartStart(parts, 9) == 216 && PartStart(parts, 10) == 248;
    var h := Preimage(o);
    assert h[280..281] == parts[11] && h[281..282] == parts[12];
    assert h[280..281][0] == h[280] && h[281..282][0] == h[281];
  }

  lemma PartStarts(parts: seq<seq<byte>>)
    requires |parts| == 13
    requires forall i :: 0 <= i < 13 ==> |parts[i]| == if i < 6 then 20 else if i < 11 then 32 else 1
    ensures forall i :: 0 <= i < 6 ==> PartStart(parts, i) == 20 * i
    ensures forall i :: 6 <= i < 11 ==> PartStart(parts, i) == 120 + 32 * (i - 6)
    ensures PartStart(parts, 11) == 280 && PartStart(parts, 12) == 281
  {
    hide PartStart;
    var i := 0;
    StartZero(parts);
    while i < 12
      invariant 0 <= i <= 12
      invariant forall k :: 0 <= k <= i ==>
        PartStart(parts, k) == if k < 6 then 20 * k else if k < 12 then 120 + 32 * (k - 6) else 281
    {
      StartNext(parts, i);
      i := i + 1;
    }
    assert PartStart(parts, 11) == 120 + 32 * (11 - 6);
  }

  lemma StartZero(parts: seq<seq<byte>>)
    ensures PartStart(parts, 0) == 0
  {
  }

  lemma StartNext(parts: seq<seq<byte>>, i: nat)
    requires i < |parts|
    ensures PartStart(parts, i + 1) == PartStart(parts, i) + |parts[i]|
  {
  }

  lemma LengthOfParts(p: seq<seq<byte>>)
    requires |p| == 13
    ensures TotalLength(p) == |p[0]| + |p[1]| + |p[2]| + |p[3]| + |p[4]| + |p[5]| + |p[6]|
                              + |p[7]| + |p[8]| + |p[9]| + |p[10]| + |p[11]| + |p[12]|
  {
    assert TotalLength(p[13..]) == 0;
    hide TotalLength;
    LengthFrom(p, 12);
    LengthFrom(p, 11);
    LengthFrom(p, 10);
    LengthFrom(p, 9);
    LengthFrom(p, 8);
    LengthFrom(p, 7);
    LengthFrom(p, 6);
    LengthFrom(p, 5);
    LengthFrom(p, 4);
    LengthFrom(p, 3);
    LengthFrom(p, 2);
    LengthFrom(p, 1);
    LengthFrom(p, 0);
    assert p[0..] == p;
  }

  lemma LengthFrom(p: seq<seq<byte>>, i: nat)
    requires i < |p|
    ensures TotalLength(p[i..]) == |p[i]| + TotalLength(p[i + 1..])
  {
    assert p[i..][1..] == p[i + 1..];
  }

  /** Orders with amounts and times in [0, 2^256) have equal preimages exactly when all 13 fields agree. */
  lemma PreimageInjective(a: Order, b: Order)
    requires InWords(a) && InWords(b)
    ensures Preimage(a) == Preimage(b) <==> SameHashedFields(a, b)
  {
    if Preimage(a) == Preimage(b) {
      var p, q := PreimageParts(a), PreimageParts(b);
      PaddedLengths(a);
      PaddedLengths(b);
      FlattenInjective(p, q);
      assert p[0] == q[0] && p[1] == q[1] && p[2] == q[2] && p[3] == q[3] && p[4] == q[4] && p[5] == q[5];
      assert p[6] == q[6] && p[7] == q[7] && p[8] == q[8] && p[9] == q[9] && p[10] == q[10];
      assert p[11] == q[11] && p[12] == q[12];
      assert p[11][0] == q[11][0] && p[12][0] == q[12][0];
      PaddedInjective(a.amountS, b.amountS);
      PaddedInjective(a.amountB, b.amountB);
      PaddedInjective(a.validSince, b.validSince);
      PaddedInjective(a.validUntil, b.validUntil);
      PaddedInjective(a.lrcFee, b.lrcFee);
    }
  }

  lemma PaddedLengths(o: Order)
    requires InWords(o)
    ensures var p := PreimageParts(o);
            forall i :: 0 <= i < 13 ==> |p[i]| == if i < 6 then 20 else if i < 11 then 32 else 1
  {
    hide PaddedBytes;
    PaddedLength(o.amountS);
    PaddedLength(o.amountB);
    PaddedLength(o.validSince);
    PaddedLength(o.validUntil);
    PaddedLength(o.lrcFee);
  }

  /** Outside that range the hash does not separate orders: the sign of an amount is lost. */
  lemma PreimageLosesSign(o: Order)
    ensures Preimage(o) == Preimage(o.(amountS := -o.amountS))
  {
  }
}
