/** Bytes, big-endian numbers, padding and the 256-bit two's-complement word. */
module Words {

  type byte = x: int | 0 <= x < 256

  const TWO_256: nat := 0x1_0000_0000_0000_0000_0000_0000_0000_0000_0000_0000_0000_0000_0000_0000_0000_0000

  function Pow256(k: nat): (r: nat)
    ensures r > 0
  {
    if k == 0 then 1 else 256 * Pow256(k - 1)
  }

  /** The `k` low-order bytes of `n`, most significant first. */
  function ToBytes(n: nat, k: nat): (bs: seq<byte>)
    ensures |bs| == k
  {
    if k == 0 then [] else ToBytes(n / 256, k - 1) + [n % 256]
  }

  /** big.Int.SetBytes: the number a byte string denotes. */
  function FromBytes(bs: seq<byte>): nat {
    if bs == [] then 0 else FromBytes(bs[..|bs| - 1]) * 256 + bs[|bs| - 1]
  }

  /** big.Int.Bytes of a non-negative number: no leading zero byte. */
  function MinBytes(n: nat): seq<byte> {
    if n == 0 then [] else MinBytes(n / 256) + [n % 256]
  }

  function Zeros(k: nat): (bs: seq<byte>)
    ensures |bs| == k
  {
    seq(k, _ => 0)
  }

  /** common.LeftPadBytes: longer inputs are returned as they are. */
  function LeftPad(bs: seq<byte>, k: nat): seq<byte> {
    if k <= |bs| then bs else Zeros(k - |bs|) + bs
  }

  /** common.RightPadBytes: longer inputs are returned as they are. */
  function RightPad(bs: seq<byte>, k: nat): seq<byte> {
    if k <= |bs| then bs else bs + Zeros(k - |bs|)
  }

  /** abi.U256: the low 256 bits of any integer as 32 bytes (two's complement below zero). */
  function U256(n: int): (w: seq<byte>)
    ensures |w| == 32
  {
    seq(32, i requires 0 <= i < 32 => ToBytes(n % TWO_256, 32)[i])
  }

  /** U256 byte by byte is the big-endian word; the comprehension only keeps it folded in proofs. */
  lemma U256IsBigEndian(n: int)
    ensures U256(n) == ToBytes(n % TWO_256, 32)
  {
  }

  lemma {:induction false} FromBytesBound(bs: seq<byte>)
    ensures FromBytes(bs) < Pow256(|bs|)
  {
    if bs != [] {
      FromBytesBound(bs[..|bs| - 1]);
    }
  }

  lemma {:induction false} FromToBytes(n: nat, k: nat)
    ensures FromBytes(ToBytes(n, k)) == n % Pow256(k)
  {
    if k != 0 {
      var bs := ToBytes(n, k);
      assert bs[..k - 1] == ToBytes(n / 256, k - 1);
      FromToBytes(n / 256, k - 1);
      ModStep(n, Pow256(k - 1));
    }
  }

  lemma ModStep(n: nat, p: nat)
    requires p > 0
    ensures n % (256 * p) == (n / 256) % p * 256 + n % 256
  {
    var q, r := n / 256 / p, (n / 256) % p;
    assert n / 256 == q * p + r;
    var low := r * 256 + n % 256;
    assert n == q * (256 * p) + low by {
      assert (q * p) * 256 == q * (256 * p);
    }
    assert 0 <= low < 256 * p by {
      assert r <= p - 1;
    }
    DivModUnique(n, 256 * p, q, low);
  }

  lemma DivModUnique(n: int, d: int, q: int, r: int)
    requires d > 0 && 0 <= r < d && n == q * d + r
    ensures n / d == q && n % d == r
  {
    var k := n / d - q;
    assert k * d == (n / d) * d - q * d;
    assert k * d == r - n % d;
    if k >= 1 {
      MulAtLeast(k, d);
    } else if k <= -1 {
      MulAtLeast(-k, d);
    }
  }

  lemma MulAtLeast(k: int, d: int)
    requires k >= 1 && d > 0
    ensures k * d >= d
  {
    assert (k - 1) * d >= 0;
  }

  lemma {:induction false} ToFromBytes(bs: seq<byte>)
    ensures ToBytes(FromBytes(bs), |bs|) == bs
  {
    if bs != [] {
      ToFromBytes(bs[..|bs| - 1]);
      assert FromBytes(bs) / 256 == FromBytes(bs[..|bs| - 1]);
      assert FromBytes(bs) % 256 == bs[|bs| - 1];
    }
  }

  lemma {:induction false} ToBytesSuffix(n: nat, k: nat, j: nat)
    requires j <= k
    ensures ToBytes(n, k)[k - j..] == ToBytes(n, j)
  {
    if j != 0 {
      ToBytesSuffix(n / 256, k - 1, j - 1);
      assert ToBytes(n, k)[k - j..] == ToBytes(n / 256, k - 1)[k - j..] + [n % 256];
    }
  }

  lemma {:induction false} ToBytesZero(k: nat)
    ensures ToBytes(0, k) == Zeros(k)
  {
    if k != 0 {
      ToBytesZero(k - 1);
    }
  }

  lemma Pow256Words()
    ensures Pow256(1) == 0x100
    ensures Pow256(2) == 0x1_0000
    ensures Pow256(4) == 0x1_0000_0000
    ensures Pow256(8) == 0x1_0000_0000_0000_0000
    ensures Pow256(32) == TWO_256
  {
    assert Pow256(4) == 0x1_0000_0000;
    assert Pow256(8) == 0x1_0000_0000_0000_0000;
    Pow256Add(8, 8);
    Pow256Add(16, 16);
  }

  lemma {:induction false} Pow256Add(a: nat, b: nat)
    ensures Pow256(a + b) == Pow256(a) * Pow256(b)
  {
    if a != 0 {
      Pow256Add(a - 1, b);
      assert 256 * (Pow256(a - 1) * Pow256(b)) == (256 * Pow256(a - 1)) * Pow256(b);
    }
  }

  /** A word read back as an unsigned number is the integer modulo 2^256. */
  lemma FromU256(n: int)
    ensures FromBytes(U256(n)) == n % TWO_256
  {
    U256IsBigEndian(n);
    Pow256Words();
    FromToBytes(n % TWO_256, 32);
  }

  lemma SmallMod(n: nat)
    requires n < TWO_256
    ensures n % TWO_256 == n
  {
  }

  lemma U256Injective(a: nat, b: nat)
    requires a < TWO_256 && b < TWO_256 && U256(a) == U256(b)
    ensures a == b
  {
    FromU256(a);
    FromU256(b);
    SmallMod(a);
    SmallMod(b);
  }

  lemma WordBound(w: seq<byte>)
    requires |w| == 32
    ensures FromBytes(w) < TWO_256
  {
    Pow256Words();
    FromBytesBound(w);
  }

  lemma {:induction false} MinBytesValue(n: nat)
    ensures FromBytes(MinBytes(n)) == n
  {
    if n != 0 {
      MinBytesValue(n / 256);
      assert MinBytes(n)[..|MinBytes(n)| - 1] == MinBytes(n / 256);
    }
  }

  /** A number is shorter than `k` bytes exactly when it is below 256^k. */
  lemma {:induction false} MinBytesLength(n: nat, k: nat)
    ensures |MinBytes(n)| <= k <==> n < Pow256(k)
  {
    if n != 0 && k != 0 {
      MinBytesLength(n / 256, k - 1);
    }
  }

  lemma {:induction false} LeftPadMinBytes(n: nat, k: nat)
    requires n < Pow256(k)
    ensures LeftPad(MinBytes(n), k) == ToBytes(n, k)
  {
    MinBytesLength(n, k);
    if n == 0 {
      ToBytesZero(k);
      assert Zeros(k) + [] == Zeros(k);
    } else {
      LeftPadMinBytes(n / 256, k - 1);
    }
  }
}
