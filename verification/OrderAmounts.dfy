/** The exact rational amounts of an order in progress (types/order.go). */
module OrderAmounts {
  import opened Results
  import opened Orders

  datatype OrderState = OrderState(
    order: Order, dealtS: int, dealtB: int, splitS: int, splitB: int, cancelledS: int, cancelledB: int)

  datatype FilledOrder = FilledOrder(
    availableS: real, availableB: real, lrcBalance: real, tokenSBalance: real)

  /** A pair of amounts of the two tokens. */
  datatype Pair = Pair(s: real, b: real)

  /** The amount on the counting side, which divides the other one; big.Rat panics on a zero denominator. */
  predicate Countable(o: Order) {
    if o.buyNoMoreThanAmountB then o.amountB != 0 else o.amountS != 0
  }

  /** Both prices can be formed. */
  predicate Priced(o: Order) {
    o.amountS != 0 && o.amountB != 0
  }

  /** The pair trades at exactly the order's price. */
  predicate AtPrice(o: Order, p: Pair) {
    p.s * (o.amountB as real) == p.b * (o.amountS as real)
  }

  /** The amount on the side the order counts: tokenB if it must not buy more, else tokenS. */
  function Counted(o: Order, p: Pair): real {
    if o.buyNoMoreThanAmountB then p.b else p.s
  }

  /** big.Rat.SetFrac and Inv. */
  function Ratio(a: real, b: real): real
    requires b != 0.0
  {
    a / b
  }

  /** The pair at the order's price whose counted side is `x`. */
  function PairOf(o: Order, x: real): Pair
    requires Countable(o)
  {
    if o.buyNoMoreThanAmountB then Pair(x * Ratio(o.amountS as real, o.amountB as real), x)
    else Pair(x, x * Ratio(o.amountB as real, o.amountS as real))
  }

  lemma Cancel(x: real, a: real, b: real)
    requires b != 0.0
    ensures x * Ratio(a, b) * b == x * a
  {
    TimesEqual(x, Ratio(a, b) * b, a);
  }

  lemma TimesInverse(x: real, q: real, r: real)
    requires q * r == 1.0
    ensures x * q * r == x
  {
    TimesEqual(x, q * r, 1.0);
    assert x * q * r == x * (q * r);
  }

  lemma TimesEqual(x: real, y: real, z: real)
    requires y == z
    ensures x * y == x * z
  {
  }

  lemma NoZeroDivisor(x: real, a: real)
    requires a != 0.0
    ensures x * a == 0.0 ==> x == 0.0
  {
  }

  /** Price and counted side determine a pair. */
  lemma PairOfUnique(o: Order, x: real, p: Pair)
    requires Countable(o)
    ensures p == PairOf(o, x) <==> AtPrice(o, p) && Counted(o, p) == x
  {
    var a, b := o.amountS as real, o.amountB as real;
    if o.buyNoMoreThanAmountB {
      Cancel(x, a, b);
    } else {
      Cancel(x, b, a);
    }
    if AtPrice(o, p) && Counted(o, p) == x {
      if o.buyNoMoreThanAmountB {
        NoZeroDivisor(p.s - PairOf(o, x).s, b);
      } else {
        NoZeroDivisor(p.b - PairOf(o, x).b, a);
      }
    }
  }

  lemma PairOfAdds(o: Order, x: real, y: real)
    requires Countable(o)
    ensures PairOf(o, x + y) == Pair(PairOf(o, x).s + PairOf(o, y).s, PairOf(o, x).b + PairOf(o, y).b)
  {
  }

  // ----- what is left, done and cancelled -----

  function Original(o: Order): Pair {
    Pair(o.amountS as real, o.amountB as real)
  }

  function DealtAndSplit(st: OrderState): Pair
    requires Countable(st.order)
  {
    PairOf(st.order,
           if st.order.buyNoMoreThanAmountB then (st.dealtB + st.splitB) as real
           else (st.dealtS + st.splitS) as real)
  }

  function Cancelled(st: OrderState): Pair
    requires Countable(st.order)
  {
    PairOf(st.order, if st.order.buyNoMoreThanAmountB then st.cancelledB as real else st.cancelledS as real)
  }

  function Remained(st: OrderState): Pair
    requires Countable(st.order)
  {
    PairOf(st.order,
           if st.order.buyNoMoreThanAmountB
           then (st.order.amountB - st.dealtB - st.cancelledB - st.splitB) as real
           else (st.order.amountS - st.dealtS - st.cancelledS - st.splitS) as real)
  }

  /** OrderState.RemainedAmount. */
  method RemainedAmount(st: OrderState) returns (remained: Pair)
    requires Countable(st.order)
    ensures remained == Remained(st)
    ensures AtPrice(st.order, remained)
    ensures st.order.buyNoMoreThanAmountB ==>
      remained.b == (st.order.amountB - st.dealtB - st.cancelledB - st.splitB) as real
    ensures !st.order.buyNoMoreThanAmountB ==>
      remained.s == (st.order.amountS - st.dealtS - st.cancelledS - st.splitS) as real
  {
    AmountsConserved(st);
    var o := st.order;
    if o.buyNoMoreThanAmountB {
      var reducedB: real := 0.0;
      reducedB := reducedB + (st.dealtB as real);
      reducedB := reducedB + (st.cancelledB as real);
      reducedB := reducedB + (st.splitB as real);
      var sellPrice := Ratio(o.amountS as real, o.amountB as real);
      var b := (o.amountB as real) - reducedB;
      remained := Pair(b * sellPrice, b);
    } else {
      var reducedS: real := 0.0;
      reducedS := reducedS + (st.dealtS as real);
      reducedS := reducedS + (st.cancelledS as real);
      reducedS := reducedS + (st.splitS as real);
      var buyPrice := Ratio(o.amountB as real, o.amountS as real);
      var s := (o.amountS as real) - reducedS;
      remained := Pair(s, s * buyPrice);
    }
  }

  /** OrderState.DealtAndSplitAmount. */
  method DealtAndSplitAmount(st: OrderState) returns (total: Pair)
    requires Countable(st.order)
    ensures total == DealtAndSplit(st)
    ensures AtPrice(st.order, total)
    ensures st.order.buyNoMoreThanAmountB ==> total.b == (st.dealtB + st.splitB) as real
    ensures !st.order.buyNoMoreThanAmountB ==> total.s == (st.dealtS + st.splitS) as real
  {
    AmountsConserved(st);
    var o := st.order;
    if o.buyNoMoreThanAmountB {
      var b := (st.dealtB + st.splitB) as real;
      total := Pair(b * Ratio(o.amountS as real, o.amountB as real), b);
    } else {
      var s := (st.dealtS + st.splitS) as real;
      total := Pair(s, s * Ratio(o.amountB as real, o.amountS as real));
    }
  }

  /** Remained, dealt-and-split and cancelled are at the order's price and add up to the order, on both sides. */
  lemma AmountsConserved(st: OrderState)
    requires Countable(st.order)
    ensures AtPrice(st.order, Remained(st)) && AtPrice(st.order, DealtAndSplit(st)) && AtPrice(st.order, Cancelled(st))
    ensures Counted(st.order, Cancelled(st))
         == (if st.order.buyNoMoreThanAmountB then st.cancelledB else st.cancelledS) as real
    ensures Remained(st).s + DealtAndSplit(st).s + Cancelled(st).s == Original(st.order).s
    ensures Remained(st).b + DealtAndSplit(st).b + Cancelled(st).b == Original(st.order).b
  {
    hide PairOf;
    var o := st.order;
    var whole := Counted(o, Original(o));
    var left := if o.buyNoMoreThanAmountB then (o.amountB - st.dealtB - st.cancelledB - st.splitB) as real
                else (o.amountS - st.dealtS - st.cancelledS - st.splitS) as real;
    var used := if o.buyNoMoreThanAmountB then (st.dealtB + st.splitB) as real else (st.dealtS + st.splitS) as real;
    var gone := if o.buyNoMoreThanAmountB then st.cancelledB as real else st.cancelledS as real;
    PairOfUnique(o, left, Remained(st));
    PairOfUnique(o, used, DealtAndSplit(st));
    PairOfUnique(o, gone, Cancelled(st));
    PairOfUnique(o, whole, Original(o));
    PairOfAdds(o, left, used);
    PairOfAdds(o, left + used, gone);
    assert left + used + gone == whole;
  }

  // ----- what can be filled -----

  function Least(x: real, y: real): real {
    if x < y then x else y
  }

  /**
   A zero amount the conversion has to divide by: amountB for the selling price, and amountS for
   its inverse, which a sufficient balance spares an order that counts tokenB.
   */
  predicate DividesByZero(st: OrderState, tokenSBalance: real) {
    var o := st.order;
    o.amountB == 0 || (o.amountS == 0 && (!o.buyNoMoreThanAmountB || tokenSBalance < 0.0))
  }

  /**
   ConvertOrderStateToFilledOrder: it panics exactly on a division by zero, and otherwise in every
   branch the available amount is the smaller of the balance and what remains, and the two sides
   are at the order's price.
   */
  method ConvertOrderStateToFilledOrder(st: OrderState, lrcBalance: real, tokenSBalance: real, lrcAddress: Address)
    returns (r: Outcome<FilledOrder>)
    ensures r == Panic <==> DividesByZero(st, tokenSBalance)
    ensures r != Panic ==>
      && r.Ok? && Countable(st.order)
      && var f := r.value;
      && f.availableS == Least(tokenSBalance, Remained(st).s)
      && AtPrice(st.order, Pair(f.availableS, f.availableB))
      && f.tokenSBalance == tokenSBalance
      && f.lrcBalance == if st.order.tokenB == lrcAddress && lrcBalance < f.availableB then f.availableB else lrcBalance
  {
    var o := st.order;
    if !Countable(o) || o.amountB == 0 {
      return Panic;
    }
    var remained := RemainedAmount(st);
    AmountsConserved(st);
    if o.amountS == 0 {
      NothingForSale(o, remained);
      if tokenSBalance < remained.s {
        return Panic;
      }
      var sellPrice := Ratio(o.amountS as real, o.amountB as real);
      var f := FilledOrder(remained.b * sellPrice, remained.b, lrcBalance, tokenSBalance);
      return Ok(RaisedLrc(o, f, lrcAddress));
    }
    var s, b := Available(o, remained, tokenSBalance);
    r := Ok(RaisedLrc(o, FilledOrder(s, b, lrcBalance, tokenSBalance), lrcAddress));
  }

  /** The LRC balance is raised when LRC is what the order buys. */
  function RaisedLrc(o: Order, f: FilledOrder, lrcAddress: Address): FilledOrder {
    if o.tokenB == lrcAddress && f.lrcBalance < f.availableB then f.(lrcBalance := f.availableB) else f
  }

  lemma NothingForSale(o: Order, p: Pair)
    requires o.amountS == 0 && o.amountB != 0 && AtPrice(o, p)
    ensures p.s == 0.0
  {
    NoZeroDivisor(p.s, o.amountB as real);
  }

  /** The amounts that remain and that the balance allows, when both prices exist. */
  method Available(o: Order, remained: Pair, tokenSBalance: real) returns (availableS: real, availableB: real)
    requires Priced(o) && AtPrice(o, remained)
    ensures availableS == Least(tokenSBalance, remained.s)
    ensures AtPrice(o, Pair(availableS, availableB))
  {
    availableS, availableB := remained.s, remained.b;
    var sellPrice := Ratio(o.amountS as real, o.amountB as real);
    var inverse := InverseOf(o, sellPrice);
    BackAndForth(o, sellPrice, inverse, tokenSBalance);
    PriceTwice(o, remained, sellPrice, inverse);
    hide Ratio;
    var availableBalance := tokenSBalance;
    if availableBalance < availableS {
      availableS := availableBalance;
      availableB := availableS * inverse;
    }
    if o.buyNoMoreThanAmountB {
      availableS := availableB * sellPrice;
    } else {
      availableB := availableS * inverse;
    }
  }

  /** big.Rat.Inv of the selling price. */
  method InverseOf(o: Order, sellPrice: real) returns (inverse: real)
    requires Priced(o) && sellPrice * (o.amountB as real) == o.amountS as real
    ensures inverse * sellPrice == 1.0
    ensures inverse * (o.amountS as real) == o.amountB as real
  {
    var b := o.amountB as real;
    assert sellPrice != 0.0;
    inverse := 1.0 / sellPrice;
    TimesEqual(inverse, sellPrice * b, o.amountS as real);
    TimesEqual(b, inverse * sellPrice, 1.0);
    assert inverse * (sellPrice * b) == b * (inverse * sellPrice);
  }

  /** Converting a balance to tokenB and back loses nothing. */
  lemma BackAndForth(o: Order, sellPrice: real, inverse: real, x: real)
    requires inverse * sellPrice == 1.0 && inverse * (o.amountS as real) == o.amountB as real
    ensures x * inverse * sellPrice == x
    ensures AtPrice(o, Pair(x, x * inverse))
  {
    TimesInverse(x, inverse, sellPrice);
    TimesEqual(x, inverse * (o.amountS as real), o.amountB as real);
  }

  lemma PriceTwice(o: Order, p: Pair, sellPrice: real, inverse: real)
    requires Priced(o) && AtPrice(o, p) && sellPrice * (o.amountB as real) == o.amountS as real
    requires inverse * (o.amountS as real) == o.amountB as real
    ensures p.b * sellPrice == p.s && p.s * inverse == p.b
  {
    var a, b := o.amountS as real, o.amountB as real;
    TimesEqual(p.b, sellPrice * b, a);
    NoZeroDivisor(p.b * sellPrice - p.s, b);
    TimesEqual(p.s, inverse * a, b);
    NoZeroDivisor(p.s * inverse - p.b, a);
  }
}
