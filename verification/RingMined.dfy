/** Decoding a RingMined event into fills (eth/contract/event.go, eth/contract/common.go). */
module RingMined {
  import opened Results
  import opened Words
  import opened Orders

  // ----- words -----

  const TWO_248: nat := 0x1_0000_0000_0000_0000_0000_0000_0000_0000_0000_0000_0000_0000_0000_0000_0000_00

  function SafeHash(w: Word32): Word32 {
    w
  }

  function SafeAddress(w: Word32): Address {
    w[12..]
  }

  /** big.Int.Not: the two's complement identity for any integer. */
  function BigNot(n: int): int {
    -n - 1
  }

  /** big.Int.Xor of MaxUint256 with a 256-bit number flips every bit. */
  function FlipBits(n: nat): int {
    TWO_256 - 1 - n
  }

  /** safeBig takes a word for negative when its first byte is above 128. */
  function SafeBig(w: Word32): int {
    var num := FromBytes(w);
    if w[0] > 128 then BigNot(FlipBits(num)) else num
  }

  /** The first byte counts the multiples of 256^(k-1). */
  lemma {:induction false} FirstByte(bs: seq<byte>)
    requires bs != []
    ensures FromBytes(bs) == bs[0] * Pow256(|bs| - 1) + FromBytes(bs[1..])
  {
    var n := |bs| - 1;
    if n > 0 {
      FirstByte(bs[..n]);
      assert bs[..n][1..] == bs[1..][..n - 1];
      TimesPower(bs[0], n);
      FirstByteStep(FromBytes(bs[..n]), bs[0] * Pow256(n - 1), FromBytes(bs[1..][..n - 1]), bs[n]);
    }
  }

  lemma TimesPower(b: nat, n: nat)
    requires n > 0
    ensures b * Pow256(n) == b * Pow256(n - 1) * 256
  {
    MulAssoc(b, Pow256(n - 1));
  }

  lemma MulAssoc(b: nat, p: nat)
    ensures b * (256 * p) == b * p * 256
  {
  }

  lemma FirstByteStep(all: nat, top: nat, low: nat, last: nat)
    requires all == top + low
    ensures all * 256 + last == top * 256 + (low * 256 + last)
  {
  }

  lemma Pow31()
    ensures Pow256(31) == TWO_248
  {
    Pow256Words();
    Pow256Add(31, 1);
  }

  lemma SafeBigValue(w: Word32)
    ensures SafeBig(w) == if FromBytes(w) >= 129 * TWO_248 then FromBytes(w) - TWO_256 else FromBytes(w)
  {
    FirstByte(w);
    FromBytesBound(w[1..]);
    Pow31();
  }

  /**
   safeBig inverts the 256-bit word of `v` exactly on [-127 * 2^248, 129 * 2^248): the integers
   below, down to -2^255, are read as positive although they are valid int256 values.
   */
  lemma SafeBigExact(v: int)
    ensures SafeBig(U256(v)) == v <==> -127 * TWO_248 <= v < 129 * TWO_248
  {
    SafeBigValue(U256(v));
    FromU256(v);
    ModRange(v);
  }

  lemma ModRange(v: int)
    ensures 0 <= v % TWO_256 < TWO_256
    ensures 0 <= v < TWO_256 ==> v % TWO_256 == v
    ensures 0 - TWO_256 <= v < 0 ==> v % TWO_256 == v + TWO_256
  {
  }

  // ----- fills -----

  datatype RingMinedEvent = RingMinedEvent(
    ringIndex: int, ringHash: Word32, miner: Address, feeRecipient: Address, orderInfoList: seq<Word32>)

  datatype Mined = Mined(
    ringIndex: int, ringHash: Word32, miner: Address, feeRecipient: Address, totalLrcFee: int, tradeAmount: nat)

  datatype Fill = Fill(
    ringHash: Word32, ringIndex: int, fillIndex: nat,
    orderHash: Word32, preOrderHash: Word32, nextOrderHash: Word32,
    owner: Address, sellTo: Address, buyFrom: Address, tokenS: Address, tokenB: Address,
    amountS: int, amountB: int, lrcReward: int, lrcFee: int, splitS: int, splitB: int)

  /** One order's seven words in the flat list. */
  datatype Info = Info(hash: Word32, owner: Address, tokenS: Address, amountS: int, lrcReward: int, lrcFee: int,
    split: int)

  function InfoAt(list: seq<Word32>, i: nat): Info
    requires 7 * i + 7 <= |list|
  {
    Info(SafeHash(list[7 * i]), SafeAddress(list[7 * i + 1]), SafeAddress(list[7 * i + 2]), SafeBig(list[7 * i + 3]),
         SafeBig(list[7 * i + 4]), SafeBig(list[7 * i + 5]), SafeBig(list[7 * i + 6]))
  }

  function Positive(n: int): nat {
    if n > 0 then n else 0
  }

  function Next(i: nat, n: nat): (r: nat)
    requires i < n
    ensures r < n
  {
    (i + 1) % n
  }

  function Previous(i: nat, n: nat): (r: nat)
    requires i < n
    ensures r < n
  {
    (i + n - 1) % n
  }

  /** The order whose tokenS and amountS a fill reports as bought: the last fill takes the first order's. */
  function BoughtFrom(i: nat, n: nat): (r: nat)
    requires i < n
    ensures r < n
  {
    if i == 0 then n - 1 else if i == n - 1 then 0 else i - 1
  }

  /** Fill `i` of a ring of `n`: linked to the next and the previous order, buying from `BoughtFrom`. */
  function FillAt(e: RingMinedEvent, i: nat, n: nat): Fill
    requires i < n && |e.orderInfoList| == 7 * n
  {
    var list := e.orderInfoList;
    var here, next, previous := InfoAt(list, i), InfoAt(list, Next(i, n)), InfoAt(list, Previous(i, n));
    var bought := InfoAt(list, BoughtFrom(i, n));
    Fill(e.ringHash, e.ringIndex, i, here.hash, previous.hash, next.hash,
         here.owner, next.owner, previous.owner, here.tokenS, bought.tokenS,
         here.amountS, bought.amountS, here.lrcReward, Positive(here.lrcFee),
         Positive(here.split), Positive(-here.split))
  }

  /** The fees of the first `k` fills. */
  function SumFees(fills: seq<Fill>, k: nat): int
    requires k <= |fills|
  {
    if k == 0 then 0 else SumFees(fills, k - 1) + fills[k - 1].lrcFee
  }

  /** The list holds whole orders and at least two. */
  predicate ValidList(e: RingMinedEvent) {
    |e.orderInfoList| % 7 == 0 && |e.orderInfoList| / 7 >= 2
  }

  lemma WholeOrders(e: RingMinedEvent)
    requires ValidList(e)
    ensures |e.orderInfoList| == 7 * (|e.orderInfoList| / 7)
  {
  }

  /** The fills of a valid event. */
  function Fills(e: RingMinedEvent, n: nat): (fs: seq<Fill>)
    requires |e.orderInfoList| == 7 * n
    ensures |fs| == n
  {
    seq(n, i requires 0 <= i < n => FillAt(e, i, n))
  }

  /**
   RingMinedEvent.ConvertDown: an error unless the list holds whole orders and at least two; else
   one fill per order, in order, and the total of the fees.
   */
  method ConvertDown(e: RingMinedEvent) returns (r: Outcome<(Mined, seq<Fill>)>)
    ensures r.Ok? <==> ValidList(e)
    ensures r.Ok? <==> |e.orderInfoList| >= 14 && |e.orderInfoList| % 7 == 0
    ensures !r.Panic?
    ensures r.Ok? ==>
      var n := |e.orderInfoList| / 7;
      && |e.orderInfoList| == 7 * n
      && r.value.1 == Fills(e, n)
      && r.value.0 == Mined(e.ringIndex, e.ringHash, e.miner, e.feeRecipient, SumFees(r.value.1, n), n)
  {
    var list := e.orderInfoList;
    var n := |list| / 7;
    if |list| % 7 != 0 || n < 2 {
      return Err;
    }
    WholeOrders(e);
    hide Fills, SumFees;
    var fills, totalLrcFee := FillLoop(e, n);
    r := Ok((Mined(e.ringIndex, e.ringHash, e.miner, e.feeRecipient, totalLrcFee, n), fills));
  }

  /** The loop over the orders. */
  method FillLoop(e: RingMinedEvent, n: nat) returns (fills: seq<Fill>, totalLrcFee: int)
    requires n >= 2 && |e.orderInfoList| == 7 * n
    ensures fills == Fills(e, n) && totalLrcFee == SumFees(fills, n)
  {
    hide Fills, FillAt;
    ghost var all := Fills(e, n);
    fills, totalLrcFee := [], 0;
    for i := 0 to n
      invariant fills == all[..i]
      invariant totalLrcFee == SumFees(all, i)
    {
      var fill := OneFill(e, i, n);
      FillsAt(e, n, i);
      totalLrcFee := totalLrcFee + fill.lrcFee;
      fills := fills + [fill];
    }
    assert all[..n] == all;
  }

  lemma FillsAt(e: RingMinedEvent, n: nat, i: nat)
    requires |e.orderInfoList| == 7 * n && i < n
    ensures Fills(e, n)[i] == FillAt(e, i, n)
  {
    hide FillAt;
  }

  /** The body of the loop. */
  method OneFill(e: RingMinedEvent, i: nat, n: nat) returns (fill: Fill)
    requires i < n && n >= 2 && |e.orderInfoList| == 7 * n
    ensures fill == FillAt(e, i, n)
  {
    hide SafeBig, SafeHash, SafeAddress, Next, Previous, BoughtFrom;
    var list := e.orderInfoList;
    var start := i * 7;
    var preOrderHash, nextOrderHash, tokenB, amountB, sellTo, buyFrom := Partners(list, i, n);
    var lrcFee, splitS, splitB := 0, 0, 0;
    var lrcFeeOrReward := SafeBig(list[start + 5]);
    if lrcFeeOrReward > 0 {
      lrcFee := lrcFeeOrReward;
    }
    var split := SafeBig(list[start + 6]);
    if split > 0 {
      splitS := split;
    } else {
      splitB := split * -1;
    }
    fill := Fill(e.ringHash, e.ringIndex, i, SafeHash(list[start]), preOrderHash, nextOrderHash,
                 SafeAddress(list[start + 1]), sellTo, buyFrom, SafeAddress(list[start + 2]), tokenB,
                 SafeBig(list[start + 3]), amountB, SafeBig(list[start + 4]), lrcFee, splitS, splitB);
  }

  /** The three branches for the first, the last and the inner fills. */
  method Partners(list: seq<Word32>, i: nat, n: nat)
    returns (preOrderHash: Word32, nextOrderHash: Word32, tokenB: Address, amountB: int, sellTo: Address,
      buyFrom: Address)
    requires i < n && n >= 2 && |list| == 7 * n
    ensures var next, previous, bought :=
        InfoAt(list, Next(i, n)), InfoAt(list, Previous(i, n)), InfoAt(list, BoughtFrom(i, n));
            && preOrderHash == previous.hash && nextOrderHash == next.hash
            && sellTo == next.owner && buyFrom == previous.owner
            && tokenB == bought.tokenS && amountB == bought.amountS
  {
    NeighboursInRing(i, n);
    hide SafeBig, SafeHash, SafeAddress, Next, Previous;
    var first, last := 0, n - 1;
    if i == first {
      preOrderHash := SafeHash(list[last * 7]);
      nextOrderHash := SafeHash(list[(i + 1) * 7]);
      tokenB := SafeAddress(list[last * 7 + 2]);
      amountB := SafeBig(list[last * 7 + 3]);
      sellTo := SafeAddress(list[(i + 1) * 7 + 1]);
      buyFrom := SafeAddress(list[last * 7 + 1]);
    } else if i == last {
      preOrderHash := SafeHash(list[(i - 1) * 7]);
      nextOrderHash := SafeHash(list[first * 7]);
      tokenB := SafeAddress(list[first * 7 + 2]);
      amountB := SafeBig(list[first * 7 + 3]);
      sellTo := SafeAddress(list[first * 7 + 1]);
      buyFrom := SafeAddress(list[(i - 1) * 7 + 1]);
    } else {
      preOrderHash := SafeHash(list[(i - 1) * 7]);
      nextOrderHash := SafeHash(list[(i + 1) * 7]);
      tokenB := SafeAddress(list[(i - 1) * 7 + 2]);
      amountB := SafeBig(list[(i - 1) * 7 + 3]);
      sellTo := SafeAddress(list[(i + 1) * 7 + 1]);
      buyFrom := SafeAddress(list[(i - 1) * 7 + 1]);
    }
  }

  lemma NeighboursInRing(i: nat, n: nat)
    requires i < n
    ensures Next(i, n) == if i == n - 1 then 0 else i + 1
    ensures Previous(i, n) == if i == 0 then n - 1 else i - 1
  {
    if i == n - 1 {
      DivModUnique(i + 1, n, 1, 0);
    } else {
      DivModUnique(i + 1, n, 0, i + 1);
    }
    if i == 0 {
      DivModUnique(i + n - 1, n, 0, n - 1);
    } else {
      DivModUnique(i + n - 1, n, 1, i - 1);
    }
  }

  // ----- the ring the fills describe -----

  /** The order reached from `i` by following the next link `k` times. */
  function Walk(i: nat, k: nat, n: nat): (r: nat)
    requires i < n
    ensures r < n
  {
    if k == 0 then i else Next(Walk(i, k - 1, n), n)
  }

  /** Next and previous hashes are inverse links, and the neighbours' owners are the trading partners. */
  lemma LinksAreInverse(e: RingMinedEvent, n: nat, i: nat)
    requires |e.orderInfoList| == 7 * n && n >= 2 && i < n
    ensures var fs := Fills(e, n);
            && fs[Next(i, n)].preOrderHash == fs[i].orderHash == fs[Previous(i, n)].nextOrderHash
            && fs[i].nextOrderHash == fs[Next(i, n)].orderHash && fs[i].preOrderHash == fs[Previous(i, n)].orderHash
            && fs[i].sellTo == fs[Next(i, n)].owner && fs[i].buyFrom == fs[Previous(i, n)].owner
            && fs[Next(i, n)].buyFrom == fs[i].owner == fs[Previous(i, n)].sellTo
  {
    hide SafeBig;
    NeighboursInRing(i, n);
    NeighboursInRing(Next(i, n), n);
    NeighboursInRing(Previous(i, n), n);
  }

  /** The links form one cycle: from any order every order is reached, in fewer than n steps and only once. */
  lemma OneCycle(n: nat, i: nat, j: nat)
    requires i < n && j < n
    ensures exists k: nat :: k < n && Walk(i, k, n) == j
    ensures forall k: nat, l: nat :: k < n && l < n && Walk(i, k, n) == Walk(i, l, n) ==> k == l
    ensures Walk(i, n, n) == i
  {
    forall k: nat | k <= n ensures Walk(i, k, n) == if i + k < n then i + k else i + k - n {
      WalkIs(i, k, n);
    }
    var k := if j >= i then j - i else j + n - i;
    assert k < n && Walk(i, k, n) == j;
  }

  lemma {:induction false} WalkIs(i: nat, k: nat, n: nat)
    requires i < n && k <= n
    ensures Walk(i, k, n) == if i + k < n then i + k else i + k - n
  {
    if k > 0 {
      WalkIs(i, k - 1, n);
      NeighboursInRing(Walk(i, k - 1, n), n);
    }
  }

  /** splitS and splitB are the positive and the negative part of the word, and the fee its positive part. */
  lemma SplitsInvert(e: RingMinedEvent, n: nat, i: nat, v: int)
    requires |e.orderInfoList| == 7 * n && i < n
    requires e.orderInfoList[7 * i + 6] == U256(v) && -127 * TWO_248 <= v < 129 * TWO_248
    ensures var f := FillAt(e, i, n);
            f.splitS - f.splitB == v && f.splitS >= 0 && f.splitB >= 0 && (f.splitS == 0 || f.splitB == 0)
  {
    SafeBigExact(v);
  }

  // ----- the fills, word for word -----

  /** The addresses, hashes and indices of fill i, by their places in the flat list. */
  lemma FillWords(e: RingMinedEvent, n: nat, i: nat)
    requires |e.orderInfoList| == 7 * n && n >= 2 && i < n
    ensures var f, list, next, previous := Fills(e, n)[i], e.orderInfoList, (i + 1) % n, (i + n - 1) % n;
      && f.ringHash == e.ringHash && f.ringIndex == e.ringIndex && f.fillIndex == i
      && f.orderHash == list[7 * i] && f.nextOrderHash == list[7 * next] && f.preOrderHash == list[7 * previous]
      && f.owner == list[7 * i + 1][12..] && f.sellTo == list[7 * next + 1][12..]
      && f.buyFrom == list[7 * previous + 1][12..] && f.tokenS == list[7 * i + 2][12..]
    ensures var f, list := Fills(e, n)[i], e.orderInfoList;
      && (i == 0 ==> f.tokenB == list[7 * (n - 1) + 2][12..])
      && (i == n - 1 ==> f.tokenB == list[2][12..])
      && (0 < i < n - 1 ==> f.tokenB == list[7 * (i - 1) + 2][12..])
  {
  }

  /** A word in safeBig's range. */
  predicate IsWordOf(w: Word32, v: int) {
    w == U256(v) && -127 * TWO_248 <= v < 129 * TWO_248
  }

  /** The numbers of fill i: words 3, 4 and 5 are the amount, the reward and the fee, which counts only if positive. */
  lemma FillNumbers(e: RingMinedEvent, n: nat, i: nat, amount: int, reward: int, fee: int)
    requires |e.orderInfoList| == 7 * n && n >= 2 && i < n
    requires IsWordOf(e.orderInfoList[7 * i + 3], amount)
    requires IsWordOf(e.orderInfoList[7 * i + 4], reward) && IsWordOf(e.orderInfoList[7 * i + 5], fee)
    ensures var f := Fills(e, n)[i];
      f.amountS == amount && f.lrcReward == reward && f.lrcFee == if fee > 0 then fee else 0
  {
    hide SafeBig, U256;
    SafeBigExact(amount);
    SafeBigExact(reward);
    SafeBigExact(fee);
  }

  /** The sum of the positive numbers. */
  function SumPositive(fees: seq<int>): int {
    if fees == [] then 0 else SumPositive(fees[..|fees| - 1]) + Positive(fees[|fees| - 1])
  }

  lemma {:induction false} SumFeesUpTo(e: RingMinedEvent, n: nat, fees: seq<int>, k: nat)
    requires |e.orderInfoList| == 7 * n && n >= 2 && |fees| == n && k <= n
    requires forall i :: 0 <= i < n ==> IsWordOf(e.orderInfoList[7 * i + 5], fees[i])
    ensures SumFees(Fills(e, n), k) == SumPositive(fees[..k])
  {
    hide Fills, IsWordOf;
    if k > 0 {
      SumFeesUpTo(e, n, fees, k - 1);
      assert fees[..k][..k - 1] == fees[..k - 1];
      FeeOf(e, n, k - 1, fees[k - 1]);
    }
  }

  lemma FeeOf(e: RingMinedEvent, n: nat, i: nat, fee: int)
    requires |e.orderInfoList| == 7 * n && n >= 2 && i < n && IsWordOf(e.orderInfoList[7 * i + 5], fee)
    ensures Fills(e, n)[i].lrcFee == Positive(fee)
  {
    hide SafeBig, U256;
    SafeBigExact(fee);
  }

  /** The total of the event is the sum of the positive fee words. */
  lemma TotalOfFees(e: RingMinedEvent, n: nat, fees: seq<int>)
    requires |e.orderInfoList| == 7 * n && n >= 2 && |fees| == n
    requires forall i :: 0 <= i < n ==> IsWordOf(e.orderInfoList[7 * i + 5], fees[i])
    ensures SumFees(Fills(e, n), n) == SumPositive(fees)
  {
    SumFeesUpTo(e, n, fees, n);
    assert fees[..n] == fees;
  }

  // ----- what is bought and what is sold -----

  /** A fill buys what the previous order sells exactly when it is not the last, or the ring has two orders. */
  lemma BuysFromPrevious(i: nat, n: nat)
    requires i < n && n >= 2
    ensures BoughtFrom(i, n) == Previous(i, n) <==> i != n - 1 || n == 2
  {
    NeighboursInRing(i, n);
  }

  function Sold(f: Fill, token: Address): int {
    if f.tokenS == token then f.amountS else 0
  }

  function Bought(f: Fill, token: Address): int {
    if f.tokenB == token then f.amountB else 0
  }

  /** What the first `k` fills sell of a token. */
  function SumSold(fs: seq<Fill>, token: Address, k: nat): int
    requires k <= |fs|
  {
    if k == 0 then 0 else SumSold(fs, token, k - 1) + Sold(fs[k - 1], token)
  }

  function SumBought(fs: seq<Fill>, token: Address, k: nat): int
    requires k <= |fs|
  {
    if k == 0 then 0 else SumBought(fs, token, k - 1) + Bought(fs[k - 1], token)
  }

  ghost predicate Conserves(fs: seq<Fill>) {
    forall token: Address :: SumBought(fs, token, |fs|) == SumSold(fs, token, |fs|)
  }

  lemma BuysFrom(e: RingMinedEvent, n: nat, token: Address, i: nat)
    requires |e.orderInfoList| == 7 * n && i < n
    ensures Bought(Fills(e, n)[i], token) == Sold(Fills(e, n)[BoughtFrom(i, n)], token)
  {
    hide InfoAt, Next, Previous;
  }

  lemma {:induction false} BoughtIsShifted(e: RingMinedEvent, n: nat, token: Address, k: nat)
    requires |e.orderInfoList| == 7 * n && 1 <= k < n
    ensures var fs := Fills(e, n);
            SumBought(fs, token, k) == Sold(fs[n - 1], token) + SumSold(fs, token, k - 1)
  {
    hide Fills, Bought, Sold;
    BuysFrom(e, n, token, k - 1);
    if k > 1 {
      BoughtIsShifted(e, n, token, k - 1);
    }
  }

  /** How far the books are out: the first order's sale is bought twice, the last but one's never. */
  lemma BoughtMinusSold(e: RingMinedEvent, n: nat, token: Address)
    requires |e.orderInfoList| == 7 * n && n >= 2
    ensures var fs := Fills(e, n);
            SumBought(fs, token, n) - SumSold(fs, token, n) == Sold(fs[0], token) - Sold(fs[n - 2], token)
  {
    hide Fills, Bought, Sold;
    BoughtIsShifted(e, n, token, n - 1);
    BuysFrom(e, n, token, n - 1);
  }

  /**
   Conservation, exactly: for every token the fills buy as much as they sell if and only if the
   first order and the last but one sell the same amount of the same token, or nothing. A ring of
   two always does; a longer ring in general does not.
   */
  lemma ConservationExactly(e: RingMinedEvent, n: nat)
    requires |e.orderInfoList| == 7 * n && n >= 2
    ensures var a, b := InfoAt(e.orderInfoList, 0), InfoAt(e.orderInfoList, n - 2);
            Conserves(Fills(e, n)) <==> (a.amountS == b.amountS && (a.tokenS == b.tokenS || a.amountS == 0))
  {
    var fs := Fills(e, n);
    SellsOwn(e, n, 0);
    SellsOwn(e, n, n - 2);
    hide Fills, InfoAt, SumBought, SumSold;
    forall token: Address
      ensures SumBought(fs, token, n) - SumSold(fs, token, n) == Sold(fs[0], token) - Sold(fs[n - 2], token)
    {
      BoughtMinusSold(e, n, token);
    }
    var a, b := fs[0].tokenS, fs[n - 2].tokenS;
    assert Conserves(fs) ==> SumBought(fs, a, n) == SumSold(fs, a, n) && SumBought(fs, b, n) == SumSold(fs, b, n);
  }

  lemma SellsOwn(e: RingMinedEvent, n: nat, i: nat)
    requires |e.orderInfoList| == 7 * n && i < n
    ensures Fills(e, n)[i].tokenS == InfoAt(e.orderInfoList, i).tokenS
    ensures Fills(e, n)[i].amountS == InfoAt(e.orderInfoList, i).amountS
  {
    hide InfoAt, Next, Previous;
  }

  lemma TwoOrdersConserve(e: RingMinedEvent)
    requires |e.orderInfoList| == 14
    ensures Conserves(Fills(e, 2))
  {
    ConservationExactly(e, 2);
  }

  /** The concrete failure: three orders selling 1, 0 and 0. */
  lemma ThreeOrdersFail() returns (e: RingMinedEvent)
    ensures |e.orderInfoList| == 21
    ensures !Conserves(Fills(e, 3))
  {
    var zero: Word32, one: Word32 := U256(0), U256(1);
    var sell: seq<Word32> := [zero, zero, zero, one, zero, zero, zero];
    var idle: seq<Word32> := [zero, zero, zero, zero, zero, zero, zero];
    e := RingMinedEvent(0, zero, Zeros(20), Zeros(20), sell + idle + idle);
    SafeBigExact(0);
    SafeBigExact(1);
    ConservationExactly(e, 3);
    assert InfoAt(e.orderInfoList, 0).amountS == 1;
    assert InfoAt(e.orderInfoList, 1).amountS == 0;
  }
}
