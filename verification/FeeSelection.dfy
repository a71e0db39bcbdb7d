/** The fee-selection bit mask of a ring (types/ring.go). */
module FeeSelection {
  import opened Words

  function Pow2(k: nat): (r: nat)
    ensures r > 0
  {
    if k == 0 then 1 else 2 * Pow2(k - 1)
  }

  /** big.Int.Or on non-negative numbers. */
  function BitOr(a: nat, b: nat): nat {
    if a == 0 then b
    else if b == 0 then a
    else 2 * BitOr(a / 2, b / 2) + (if a % 2 == 1 || b % 2 == 1 then 1 else 0)
  }

  predicate Bit(n: nat, i: nat) {
    (n / Pow2(i)) % 2 == 1
  }

  lemma {:induction false} OrTopBit(n: nat, k: nat)
    requires n < Pow2(k)
    ensures BitOr(n, Pow2(k)) == n + Pow2(k)
  {
    if n != 0 {
      OrTopBit(n / 2, k - 1);
    }
  }

  lemma {:induction false} Pow2Add(a: nat, b: nat)
    ensures Pow2(a + b) == Pow2(a) * Pow2(b)
  {
    if a != 0 {
      Pow2Add(a - 1, b);
      assert 2 * (Pow2(a - 1) * Pow2(b)) == (2 * Pow2(a - 1)) * Pow2(b);
    }
  }

  /** Adding a multiple of a higher power leaves a bit alone. */
  lemma BitBelow(n: nat, k: nat, m: nat, i: nat)
    requires i < k
    ensures Bit(n + m * Pow2(k), i) == Bit(n, i)
  {
    var p, q := Pow2(i), Pow2(k - i - 1);
    assert Pow2(k) == p * (2 * q) by {
      Pow2Add(i, k - i);
    }
    hide Pow2;
    Shuffle(m, p, q);
    EvenShift(n, m * q, i);
  }

  lemma EvenShift(n: nat, rest: nat, i: nat)
    ensures Bit(n + (2 * rest) * Pow2(i), i) == Bit(n, i)
  {
    DivAdd(n, 2 * rest, Pow2(i));
    EvenMod(n / Pow2(i), rest);
  }

  lemma EvenMod(x: nat, rest: nat)
    ensures (x + 2 * rest) % 2 == x % 2
  {
  }

  lemma Shuffle(m: nat, p: nat, q: nat)
    ensures m * (p * (2 * q)) == (2 * (m * q)) * p
  {
  }

  lemma DivAdd(n: nat, q: nat, p: nat)
    requires p > 0
    ensures (n + q * p) / p == n / p + q
  {
    assert n + q * p == (n / p + q) * p + n % p by {
      assert (n / p + q) * p == (n / p) * p + q * p;
    }
    DivModUnique(n + q * p, p, n / p + q, n % p);
  }

  /** The mask of the first `k` selections: bit i stands for order i. */
  function Mask(selections: seq<byte>, k: nat): nat
    requires k <= |selections|
  {
    if k == 0 then 0 else Mask(selections, k - 1) + (if selections[k - 1] > 0 then Pow2(k - 1) else 0)
  }

  lemma {:induction false} MaskBound(selections: seq<byte>, k: nat)
    requires k <= |selections|
    ensures Mask(selections, k) < Pow2(k)
  {
    if k != 0 {
      MaskBound(selections, k - 1);
    }
  }

  lemma {:induction false} MaskBits(selections: seq<byte>, k: nat, i: nat)
    requires i < k <= |selections|
    ensures Bit(Mask(selections, k), i) <==> selections[i] > 0
  {
    hide Pow2, Bit;
    var below := Mask(selections, k - 1);
    var extra := if selections[k - 1] > 0 then 1 else 0;
    assert Mask(selections, k) == below + extra * Pow2(k - 1);
    hide Mask;
    if i < k - 1 {
      MaskBits(selections, k - 1, i);
      BitBelow(below, k - 1, extra, i);
    } else {
      MaskBound(selections, i);
      TopBit(below, extra, i);
    }
  }

  lemma TopBit(below: nat, extra: nat, i: nat)
    requires below < Pow2(i) && extra <= 1
    ensures Bit(below + extra * Pow2(i), i) <==> extra == 1
  {
    hide Pow2;
    DivModUnique(below + extra * Pow2(i), Pow2(i), extra, below);
  }

  // ----- the machine arithmetic -----

  /** Bits of `a` that `b` does not have. */
  function BitAndNot(a: nat, b: nat): nat {
    if a == 0 then 0 else 2 * BitAndNot(a / 2, b / 2) + (if a % 2 == 1 && b % 2 == 0 then 1 else 0)
  }

  /** big.Int.Or of a non-negative or negative `x` with a non-negative or a negative `y`, not both negative. */
  function BigOr(x: int, y: int): int
    requires x >= 0 || y >= 0
  {
    if x >= 0 && y >= 0 then BitOr(x, y)
    else if x >= 0 then -(BitAndNot(-y - 1, x) + 1)
    else -(BitAndNot(-x - 1, y) + 1)
  }

  /** The weight of the sign bit of an int64. */
  function SignBit(): (r: nat)
    ensures r > 0
  {
    Pow2(63)
  }

  /** int64(1 << uint(idx)): the sign bit for order 63, nothing beyond. */
  function ShiftedOne(idx: nat): int {
    if idx < 63 then Pow2(idx) else if idx == 63 then 0 - SignBit() else 0
  }

  lemma BelowSignBit(selections: seq<byte>, k: nat)
    requires k <= |selections| && k <= 63
    ensures Mask(selections, k) < SignBit()
  {
    hide Pow2, Mask;
    MaskBound(selections, k);
    Pow2Grows(k, 63);
  }

  lemma NotBelowSignBit(x: nat)
    requires x < SignBit()
    ensures BitAndNot(SignBit() - 1, x) == SignBit() - 1 - x
  {
    hide Pow2, BitAndNot;
    AndNotOnes(63, x);
  }

  lemma {:induction false} AndNotOnes(k: nat, x: nat)
    requires x < Pow2(k)
    ensures BitAndNot(Pow2(k) - 1, x) == Pow2(k) - 1 - x
  {
    if k != 0 {
      AndNotOnes(k - 1, x / 2);
      assert (Pow2(k) - 1) / 2 == Pow2(k - 1) - 1;
    }
  }

  lemma {:induction false} AndNotNothing(a: nat)
    ensures BitAndNot(a, 0) == a
  {
    if a != 0 {
      AndNotNothing(a / 2);
    }
  }

  function Cut(k: nat): nat {
    if k < 63 then k else 63
  }

  /** The sum of the first k orders' contributions: order 63 turns the number negative, later ones add nothing. */
  function Selected(selections: seq<byte>, k: nat): int
    requires k <= |selections|
  {
    Mask(selections, Cut(k)) - (if k > 63 && selections[63] > 0 then SignBit() else 0)
  }

  lemma SelectedStep(selections: seq<byte>, k: nat)
    requires k < |selections|
    ensures var x, y := Selected(selections, k), ShiftedOne(k);
            && (x >= 0 || y >= 0)
            && Selected(selections, k + 1) == if selections[k] > 0 then BigOr(x, y) else x
  {
    hide Pow2, Mask, SignBit, BitOr, BitAndNot;
    var low := Mask(selections, Cut(k));
    BelowSignBit(selections, Cut(k));
    if k < 63 {
      MaskBound(selections, k);
      OrTopBit(low, k);
      MaskStep(selections, k);
    } else if k == 63 {
      NotBelowSignBit(low);
    } else if selections[63] > 0 {
      AndNotNothing(SignBit() - low - 1);
    } else {
      OrNothing(low);
    }
  }

  lemma MaskStep(selections: seq<byte>, k: nat)
    requires k < |selections|
    ensures Mask(selections, k + 1) == Mask(selections, k) + (if selections[k] > 0 then Pow2(k) else 0)
  {
  }

  lemma OrNothing(a: nat)
    ensures BitOr(a, 0) == a
  {
  }

  /**
   Ring.FeeSelections: one Or per order that pays by selection. Bits 0 to 62 stand for the first 63
   orders; the number is negative exactly when order 63 selects.
   */
  method FeeSelections(selections: seq<byte>) returns (mask: int)
    ensures mask == Selected(selections, |selections|)
    ensures forall i :: 0 <= i < |selections| && i < 63 ==>
      (Bit(mask % 0x8000_0000_0000_0000, i) <==> selections[i] > 0)
    ensures mask < 0 <==> |selections| > 63 && selections[63] > 0
  {
    mask := 0;
    for i := 0 to |selections|
      invariant mask == Selected(selections, i)
    {
      SelectedStep(selections, i);
      if selections[i] > 0 {
        mask := BigOr(mask, ShiftedOne(i));
      }
    }
    SelectedBits(selections);
    SignBitIs();
  }

  lemma SignBitIs()
    ensures SignBit() == 0x8000_0000_0000_0000
  {
    Pow2Add(32, 31);
    Pow2Add(16, 16);
    Pow2Add(16, 15);
    Pow2Sixteen();
    hide Pow2;
  }

  lemma SelectedBits(selections: seq<byte>)
    ensures var mask := Selected(selections, |selections|);
            && (forall i :: 0 <= i < Cut(|selections|) ==> (Bit(mask % SignBit(), i) <==> selections[i] > 0))
            && (mask < 0 <==> |selections| > 63 && selections[63] > 0)
  {
    var n := Cut(|selections|);
    var low := Mask(selections, n);
    BelowSignBit(selections, n);
    hide Pow2, Bit, SignBit, Mask;
    var mask := Selected(selections, |selections|);
    DivModUnique(mask, SignBit(), if mask < 0 then -1 else 0, low);
    forall i | 0 <= i < n ensures Bit(mask % SignBit(), i) <==> selections[i] > 0 {
      MaskBits(selections, n, i);
    }
  }

  lemma {:induction false} Pow2Grows(a: nat, b: nat)
    requires a <= b
    ensures Pow2(a) <= Pow2(b)
  {
    if a < b {
      Pow2Grows(a, b - 1);
    }
  }

  // ----- what goes on the wire -----

  const TWO_16: nat := 0x1_0000

  /** uint16(mask.Uint64()): the low bits of the absolute value. */
  function Wire(mask: int): nat {
    (if mask < 0 then -mask else mask) % TWO_16
  }

  lemma Pow2Sixteen()
    ensures Pow2(16) == TWO_16 && Pow2(15) == 0x8000
  {
    Pow2Add(8, 8);
    Pow2Add(8, 7);
  }

  lemma SignBitIsWhole() returns (q: nat)
    ensures SignBit() == TWO_16 * q
  {
    hide Pow2;
    Pow2Sixteen();
    Pow2Add(16, 47);
    q := Pow2(47);
  }

  /** The mask of the first sixteen orders, or of all if they are fewer. */
  function LowMask(selections: seq<byte>, k: nat): nat
    requires k <= |selections|
  {
    Mask(selections, if k < 16 then k else 16)
  }

  lemma LowMaskBound(selections: seq<byte>, k: nat)
    requires k <= |selections|
    ensures LowMask(selections, k) < TWO_16
  {
    hide Pow2, Mask;
    var j := if k < 16 then k else 16;
    MaskBound(selections, j);
    Pow2Grows(j, 16);
    Pow2Sixteen();
  }

  /** The low sixteen bits of a mask are the mask of the first sixteen orders. */
  lemma {:induction false} LowBits(selections: seq<byte>, k: nat)
    requires k <= |selections|
    ensures Mask(selections, k) % TWO_16 == LowMask(selections, k)
  {
    hide Pow2, Mask;
    LowMaskBound(selections, k);
    if k > 16 {
      LowBits(selections, k - 1);
      MaskStep(selections, k - 1);
      Pow2Add(16, k - 17);
      Pow2Sixteen();
      DropMultiple(Mask(selections, k - 1), if selections[k - 1] > 0 then Pow2(k - 17) else 0);
    }
  }

  lemma DropMultiple(n: nat, q: nat)
    ensures (n + TWO_16 * q) % TWO_16 == n % TWO_16
  {
  }

  lemma {:induction false} BitsDetermine(a: nat, b: nat, k: nat)
    requires a < Pow2(k) && b < Pow2(k) && forall i :: 0 <= i < k ==> (Bit(a, i) <==> Bit(b, i))
    ensures a == b
  {
    if k > 0 {
      forall i | 0 <= i < k - 1 ensures Bit(a / 2, i) <==> Bit(b / 2, i) {
        HalfBit(a, i);
        HalfBit(b, i);
        assert Bit(a, i + 1) <==> Bit(b, i + 1);
      }
      BitsDetermine(a / 2, b / 2, k - 1);
      assert Bit(a, 0) <==> Bit(b, 0);
      assert Pow2(0) == 1;
    }
  }

  lemma HalfBit(a: nat, i: nat)
    ensures Bit(a / 2, i) == Bit(a, i + 1)
  {
    DivTwice(a, Pow2(i));
  }

  lemma DivTwice(a: nat, p: nat)
    requires p > 0
    ensures a / 2 / p == a / (2 * p)
  {
    var q, r := a / 2 / p, a / 2 % p;
    assert a / 2 == q * p + r;
    assert a == q * (2 * p) + (2 * r + a % 2) by {
      assert 2 * (q * p) == q * (2 * p);
    }
    DivModUnique(a, 2 * p, q, 2 * r + a % 2);
  }

  /** Order 63 selects and so does one of the first fifteen. */
  predicate Damaged(selections: seq<byte>) {
    |selections| > 63 && selections[63] > 0 && exists i :: 0 <= i < 15 && selections[i] > 0
  }

  /** The bits of the first sixteen orders arrive. */
  ghost predicate BitsArrive(selections: seq<byte>) {
    var wire := Wire(Selected(selections, |selections|));
    forall i :: 0 <= i < |selections| && i < 16 ==> (Bit(wire, i) <==> selections[i] > 0)
  }

  /** The selection bits of the first sixteen orders arrive exactly when the mask is not damaged. */
  lemma WireBits(selections: seq<byte>)
    ensures BitsArrive(selections) <==> !Damaged(selections)
  {
    hide Bit, Mask, Selected, Wire, BitsArrive;
    var n := |selections|;
    ArriveMeansLow(selections);
    if n > 63 && selections[63] > 0 {
      NegativeWire(selections);
      NegatedLow(selections);
    } else {
      PlainWire(selections);
    }
  }

  /** The bits arrive exactly when the wire carries the mask of the first sixteen orders. */
  lemma ArriveMeansLow(selections: seq<byte>)
    ensures Wire(Selected(selections, |selections|)) == LowMask(selections, |selections|) ==> BitsArrive(selections)
    ensures |selections| >= 16 && BitsArrive(selections) ==>
              Wire(Selected(selections, |selections|)) == LowMask(selections, |selections|)
  {
    hide Bit, Mask, Selected, Pow2;
    var n := |selections|;
    var j := if n < 16 then n else 16;
    var wire := Wire(Selected(selections, n));
    forall i | 0 <= i < j ensures Bit(LowMask(selections, n), i) <==> selections[i] > 0 {
      MaskBits(selections, j, i);
    }
    if n >= 16 && BitsArrive(selections) {
      LowMaskBound(selections, n);
      Pow2Sixteen();
      BitsDetermine(wire, LowMask(selections, n), 16);
    }
  }

  lemma PlainWire(selections: seq<byte>)
    requires !(|selections| > 63 && selections[63] > 0)
    ensures Wire(Selected(selections, |selections|)) == LowMask(selections, |selections|)
  {
    hide Mask;
    LowBits(selections, Cut(|selections|));
  }

  lemma NegativeWire(selections: seq<byte>)
    requires |selections| > 63 && selections[63] > 0
    ensures Wire(Selected(selections, |selections|)) == (TWO_16 - LowMask(selections, |selections|)) % TWO_16
  {
    hide Mask, SignBit, LowMask;
    var all := Mask(selections, 63);
    BelowSignBit(selections, 63);
    LowBits(selections, 63);
    SameLow(selections);
    var q := SignBitIsWhole();
    NegateMod(all, q);
  }

  lemma SameLow(selections: seq<byte>)
    requires |selections| > 63
    ensures LowMask(selections, 63) == LowMask(selections, |selections|)
  {
  }

  /** Negation modulo 2^16 keeps a mask exactly when none of its lower fifteen bits is set. */
  lemma NegatedLow(selections: seq<byte>)
    requires |selections| > 63
    ensures (TWO_16 - LowMask(selections, |selections|)) % TWO_16 == LowMask(selections, |selections|)
       <==> forall i :: 0 <= i < 15 ==> selections[i] == 0
  {
    hide Mask, Pow2;
    MaskStep(selections, 15);
    MaskBound(selections, 15);
    Pow2Sixteen();
    MaskZero(selections, 15);
  }

  lemma NegateMod(all: nat, q: nat)
    requires all < TWO_16 * q
    ensures (TWO_16 * q - all) % TWO_16 == (TWO_16 - all % TWO_16) % TWO_16
  {
    var h, l := all / TWO_16, all % TWO_16;
    if l == 0 {
      DivModUnique(TWO_16 * q - all, TWO_16, q - h, 0);
    } else {
      DivModUnique(TWO_16 * q - all, TWO_16, q - h - 1, TWO_16 - l);
    }
  }

  lemma {:induction false} MaskZero(selections: seq<byte>, k: nat)
    requires k <= |selections|
    ensures Mask(selections, k) == 0 <==> forall i :: 0 <= i < k ==> selections[i] == 0
  {
    if k != 0 {
      MaskZero(selections, k - 1);
    }
  }
}
