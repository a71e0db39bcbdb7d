/** The token and market tables and what is read off them (marketutil/marketutil.go). */
module MarketTables {
  import opened Results
  import opened MarketSymbols

  /** An address, written as its upper-case hexadecimal string. */
  type Address = string

  /** `decimals` is the nil pointer for a token that came from a register event. */
  datatype Token = Token(protocol: Address, symbol: string, isMarket: bool, decimals: Option<nat>)

  /** SupportTokens, SupportMarkets and AllTokens. */
  datatype Tables = Tables(tokens: map<string, Token>, markets: map<string, Token>, all: map<string, Token>)

  datatype Side = Buy | Sell | NoSide

  predicate HasBaseOrder(s: string) {
    s == "BAR" || s == "LRC" || s == "WETH" || s == "USDT" || s == "TUSD"
  }

  /** MarketBaseOrder, zero for a missing key. */
  function BaseOrder(s: string): nat {
    if s == "BAR" then 5
    else if s == "LRC" then 10
    else if s == "WETH" then 20
    else if s == "USDT" then 30
    else if s == "TUSD" then 40
    else 0
  }

  /** The five markets with a base order, from the first to the last. */
  const KNOWN_MARKETS: seq<string> := ["BAR", "LRC", "WETH", "USDT", "TUSD"]

  lemma BaseOrderTable(s: string)
    ensures HasBaseOrder(s) <==> s in KNOWN_MARKETS
    ensures BaseOrder("BAR") == 5 && BaseOrder("LRC") == 10 && BaseOrder("WETH") == 20
    ensures BaseOrder("USDT") == 30 && BaseOrder("TUSD") == 40
    ensures s !in KNOWN_MARKETS ==> BaseOrder(s) == 0
  {
    assert KNOWN_MARKETS[0] == "BAR" && KNOWN_MARKETS[1] == "LRC" && KNOWN_MARKETS[2] == "WETH";
    assert KNOWN_MARKETS[3] == "USDT" && KNOWN_MARKETS[4] == "TUSD";
  }

  lemma BaseOrderInjective(s: string, b: string)
    ensures HasBaseOrder(s) && BaseOrder(s) == BaseOrder(b) ==> s == b
  {
  }

  predicate IsSupportedMarket(t: Tables, s: string) {
    ToUpper(s) in t.markets
  }

  predicate IsSupportedToken(t: Tables, s: string) {
    ToUpper(s) in t.tokens
  }

  /** Entries are filed under their own upper-case symbol. */
  ghost predicate Filed(table: map<string, Token>) {
    forall k <- table :: table[k].symbol == k && ToUpper(k) == k
  }

  /** No symbol holds a dash. */
  ghost predicate AllPlain(table: map<string, Token>) {
    forall k <- table :: Plain(k)
  }

  ghost predicate WellFormed(t: Tables) {
    && Filed(t.tokens) && Filed(t.markets) && AllPlain(t.tokens) && AllPlain(t.markets)
    && t.tokens.Keys !! t.markets.Keys
    && t.all == t.tokens + t.markets
  }

  // ----- market names -----

  function WrapMarket(t: Tables, s0: string, b0: string): Outcome<string> {
    var s, b := ToUpper(s0), ToUpper(b0);
    if IsSupportedMarket(t, s) && IsSupportedToken(t, b) then Ok(Join(b, s))
    else if IsSupportedMarket(t, b) && IsSupportedToken(t, s) then Ok(Join(s, b))
    else if IsSupportedMarket(t, b) && IsSupportedMarket(t, s) then
      if BaseOrder(s) < BaseOrder(b) then Ok(Join(s, b)) else Ok(Join(b, s))
    else Err
  }

  /** Neither the tables nor the base orders say which of the two is the market. */
  predicate Ambiguous(t: Tables, s: string, b: string) {
    && IsSupportedMarket(t, s) && IsSupportedMarket(t, b)
    && (IsSupportedToken(t, s) <==> IsSupportedToken(t, b))
    && (IsSupportedToken(t, s) || BaseOrder(s) == BaseOrder(b))
  }

  /** WrapMarket does not depend on the order of its arguments, exactly when they are not ambiguous. */
  lemma WrapMarketSymmetric(t: Tables, s: string, b: string)
    requires Plain(s) && Plain(b)
    ensures WrapMarket(t, s, b) == WrapMarket(t, b, s) <==>
            ToUpper(s) == ToUpper(b) || !Ambiguous(t, ToUpper(s), ToUpper(b))
  {
    ToUpperTwice(s);
    ToUpperTwice(b);
    ToUpperPlain(s);
    ToUpperPlain(b);
    if Join(ToUpper(s), ToUpper(b)) == Join(ToUpper(b), ToUpper(s)) {
      JoinInjective(ToUpper(s), ToUpper(b), ToUpper(b), ToUpper(s));
    }
  }

  /**
   UnWrap undoes WrapMarket: it gives back the two symbols, the second one a market, and wrapping
   them again gives the same name.
   */
  lemma WrapMarketUnWrap(t: Tables, s: string, b: string)
    requires WrapMarket(t, s, b).Ok? && !Ambiguous(t, ToUpper(s), ToUpper(b))
    requires forall k <- [ToUpper(s), ToUpper(b)] :: Plain(k) && NoSpaceBefore(k) && NoSpaceAfter(k)
    ensures var (x, y) := UnWrap(WrapMarket(t, s, b).value);
            && ((x, y) == (ToUpper(s), ToUpper(b)) || (x, y) == (ToUpper(b), ToUpper(s)))
            && IsSupportedMarket(t, y)
            && WrapMarket(t, x, y) == WrapMarket(t, s, b)
  {
    var us, ub := ToUpper(s), ToUpper(b);
    assert us in [us, ub] && ub in [us, ub];
    ToUpperTwice(s);
    ToUpperTwice(b);
    UnWrapJoin(us, ub);
    UnWrapJoin(ub, us);
    WrapMarketSymmetric(t, us, ub);
  }

  // ----- all markets -----

  /** Whether token `k` is listed against market `m`. */
  predicate Listed(k: string, m: string) {
    HasBaseOrder(k) ==> BaseOrder(k) < BaseOrder(m)
  }

  ghost function ListedNames(t: Tables): set<string> {
    set k, m | k in t.all && m in t.markets && Listed(k, m) :: Join(k, m)
  }

  /** The names WrapMarket gives to the pairs of distinct known symbols. */
  ghost function WrappedNames(t: Tables): set<string> {
    set s, b | s in t.all && b in t.all && s != b && WrapMarket(t, s, b).Ok? :: WrapMarket(t, s, b).value
  }

  /** Every market has a base order, and it is above that of every mere token that has one. */
  ghost predicate BaseOrdersFit(t: Tables) {
    && (forall m <- t.markets :: HasBaseOrder(m))
    && (forall k <- t.tokens, m <- t.markets :: Listed(k, m))
  }

  lemma ListedIsWrapped(t: Tables, k: string, m: string)
    requires WellFormed(t) && BaseOrdersFit(t) && k in t.all && m in t.markets
    ensures Listed(k, m) ==> k != m && WrapMarket(t, k, m) == Ok(Join(k, m))
  {
    BaseOrderInjective(k, m);
  }

  lemma WrappedIsListed(t: Tables, s: string, b: string)
    requires WellFormed(t) && BaseOrdersFit(t) && s in t.all && b in t.all && s != b && WrapMarket(t, s, b).Ok?
    ensures WrapMarket(t, s, b).value in ListedNames(t)
  {
    BaseOrderInjective(s, b);
    if b in t.markets && (s in t.tokens || BaseOrder(s) < BaseOrder(b)) {
      assert Listed(s, b);
    } else {
      assert s in t.markets && Listed(b, s);
    }
  }

  /**
   The precomputed market list is exactly what WrapMarket gives over all pairs of distinct symbols,
   if and only if the base orders fit the tables.
   */
  lemma AllMarketsExactly(t: Tables)
    requires WellFormed(t)
    ensures ListedNames(t) == WrappedNames(t) <==> BaseOrdersFit(t)
  {
    if BaseOrdersFit(t) {
      forall n | n in ListedNames(t)
        ensures n in WrappedNames(t)
      {
        var k, m :| k in t.all && m in t.markets && Listed(k, m) && n == Join(k, m);
        ListedIsWrapped(t, k, m);
        assert WrapMarket(t, k, m).value == n;
      }
      forall n | n in WrappedNames(t)
        ensures n in ListedNames(t)
      {
        var s, b :| s in t.all && b in t.all && s != b && WrapMarket(t, s, b).Ok? && n == WrapMarket(t, s, b).value;
        WrappedIsListed(t, s, b);
      }
    } else {
      Misfit(t);
    }
  }

  lemma Misfit(t: Tables)
    requires WellFormed(t) && !BaseOrdersFit(t)
    ensures ListedNames(t) != WrappedNames(t)
  {
    if m :| m in t.markets && !HasBaseOrder(m) {
      assert Listed(m, m);
      assert Join(m, m) in ListedNames(t);
      SelfNotWrapped(t, m);
    } else {
      var k, m :| k in t.tokens && m in t.markets && !Listed(k, m);
      assert WrapMarket(t, k, m) == Ok(Join(k, m));
      assert Join(k, m) in WrappedNames(t);
      UnlistedNotListed(t, k, m);
    }
  }

  lemma SelfNotWrapped(t: Tables, m: string)
    requires WellFormed(t) && m in t.markets
    ensures Join(m, m) !in WrappedNames(t)
  {
    if Join(m, m) in WrappedNames(t) {
      var s, b :| s in t.all && b in t.all && s != b && WrapMarket(t, s, b).Ok?
        && Join(m, m) == WrapMarket(t, s, b).value;
      if Join(m, m) == Join(s, b) {
        JoinInjective(m, m, s, b);
      } else {
        JoinInjective(m, m, b, s);
      }
    }
  }

  lemma UnlistedNotListed(t: Tables, k: string, m: string)
    requires WellFormed(t) && k in t.all && m in t.markets && !Listed(k, m)
    ensures Join(k, m) !in ListedNames(t)
  {
    if Join(k, m) in ListedNames(t) {
      var k', m' :| k' in t.all && m' in t.markets && Listed(k', m') && Join(k, m) == Join(k', m');
      JoinInjective(k, m, k', m');
    }
  }

  // ----- sides -----

  /** The tokens of a table have different addresses. */
  ghost predicate DistinctAddresses(all: map<string, Token>) {
    forall x <- all, y <- all :: all[x].protocol == all[y].protocol ==> x == y
  }

  ghost predicate HasAlias(all: map<string, Token>, t: string) {
    exists k :: k in all && all[k].protocol == ToUpper(t)
  }

  /** A symbol with this address, or none: the code takes whichever its map iteration meets first. */
  ghost predicate MayAlias(all: map<string, Token>, t: string, k: string) {
    if HasAlias(all, t) then k in all && all[k].protocol == ToUpper(t) else k == ""
  }

  /** With distinct addresses the iteration order does not matter. */
  lemma AliasUnique(all: map<string, Token>, t: string, k: string, k': string)
    requires DistinctAddresses(all) && MayAlias(all, t, k) && MayAlias(all, t, k')
    ensures k == k'
  {
  }

  method AddressToAlias(all: map<string, Token>, t: string) returns (k: string)
    ensures MayAlias(all, t, k)
  {
    var todo := all.Keys;
    while todo != {}
      invariant todo <= all.Keys
      invariant forall j <- all :: j !in todo ==> all[j].protocol != ToUpper(t)
    {
      var j :| j in todo;
      if ToUpper(t) == all[j].protocol {
        return j;
      }
      todo := todo - {j};
    }
    return "";
  }

  predicate IsAddress(s: string) {
    "0x" <= s
  }

  /** Only a lower-case x makes an address. */
  lemma AddressPrefix(s: string)
    ensures IsAddress("0x" + s) && !IsAddress("0X" + s) && (IsAddress(s) ==> |s| >= 2 && s[..2] == "0x")
  {
    assert ("0X" + s)[1] == 'X' && "0x"[1] == 'x';
  }

  /** GetSide may take the argument `s` for the symbol `r`. */
  ghost predicate Resolves(t: Tables, s: string, r: string) {
    if IsAddress(s) then MayAlias(t.all, s, r) else r == s
  }

  /** GetSide once both arguments are symbols; base orders are looked up as written. */
  function SideOf(t: Tables, s: string, b: string): Side {
    if IsSupportedMarket(t, s) && IsSupportedToken(t, b) then Buy
    else if IsSupportedMarket(t, b) && IsSupportedToken(t, s) then Sell
    else if IsSupportedMarket(t, b) && IsSupportedMarket(t, s) then
      if BaseOrder(s) < BaseOrder(b) then Sell else Buy
    else NoSide
  }

  /** What GetSide may answer. */
  ghost predicate MayGetSide(t: Tables, s: string, b: string, side: Side) {
    exists rs, rb :: Resolves(t, s, rs) && Resolves(t, b, rb) && side == SideOf(t, rs, rb)
  }

  lemma SideUnique(t: Tables, s: string, b: string, rs: string, rb: string, side: Side)
    requires DistinctAddresses(t.all) && Resolves(t, s, rs) && Resolves(t, b, rb) && MayGetSide(t, s, b, side)
    ensures side == SideOf(t, rs, rb)
  {
    var rs', rb' :| Resolves(t, s, rs') && Resolves(t, b, rb') && side == SideOf(t, rs', rb');
    if IsAddress(s) {
      AliasUnique(t.all, s, rs, rs');
    }
    if IsAddress(b) {
      AliasUnique(t.all, b, rb, rb');
    }
  }

  function Opposite(side: Side): Side {
    match side
    case Buy => Sell
    case Sell => Buy
    case NoSide => NoSide
  }

  /**
   With distinct addresses, swapping the tokens turns a buy into a sell and back, exactly when they
   are not ambiguous.
   */
  lemma GetSideAntisymmetric(t: Tables, s: string, b: string, rs: string, rb: string, side: Side, swapped: Side)
    requires DistinctAddresses(t.all) && Resolves(t, s, rs) && Resolves(t, b, rb)
    requires MayGetSide(t, s, b, side) && MayGetSide(t, b, s, swapped)
    ensures swapped == Opposite(side) <==> !Ambiguous(t, rs, rb)
  {
    hide Resolves, MayGetSide, DistinctAddresses;
    SideUnique(t, s, b, rs, rb, side);
    SideUnique(t, b, s, rb, rs, swapped);
  }

  /**
   Without distinct addresses two answers need not fit: where a token and a market share the address
   `s`, it may be sold for another market `b` and `b` for it.
   */
  lemma SharedAddressSellsBothWays(t: Tables, s: string, token: string, market: string, b: string)
    requires WellFormed(t) && IsAddress(s) && !IsAddress(b)
    requires token in t.tokens && market in t.markets && b in t.markets && BaseOrder(b) < BaseOrder(market)
    requires t.all[token].protocol == ToUpper(s) == t.all[market].protocol
    ensures MayGetSide(t, s, b, Sell) && MayGetSide(t, b, s, Sell)
  {
    assert HasAlias(t.all, s);
    assert Resolves(t, s, token) && Resolves(t, b, b) && SideOf(t, token, b) == Sell;
    assert Resolves(t, s, market) && SideOf(t, b, market) == Sell;
  }

  /** For well-formed tables and different symbols as filed, base orders decide. */
  lemma FiledSidesOpposite(t: Tables, s: string, b: string, rs: string, rb: string, side: Side, swapped: Side)
    requires WellFormed(t) && BaseOrdersFit(t) && DistinctAddresses(t.all)
    requires Resolves(t, s, rs) && Resolves(t, b, rb) && rs in t.all && rb in t.all && rs != rb
    requires MayGetSide(t, s, b, side) && MayGetSide(t, b, s, swapped)
    ensures swapped == Opposite(side)
    ensures side != NoSide ==> WrapMarket(t, rs, rb) == Ok(if side == Sell then Join(rs, rb) else Join(rb, rs))
  {
    hide Resolves, MayGetSide, DistinctAddresses;
    SideUnique(t, s, b, rs, rb, side);
    SideUnique(t, b, s, rb, rs, swapped);
    FiledSides(t, rs, rb);
  }

  lemma FiledSides(t: Tables, rs: string, rb: string)
    requires WellFormed(t) && BaseOrdersFit(t) && rs in t.all && rb in t.all && rs != rb
    ensures SideOf(t, rb, rs) == Opposite(SideOf(t, rs, rb))
    ensures SideOf(t, rs, rb) != NoSide ==>
              WrapMarket(t, rs, rb) == Ok(if SideOf(t, rs, rb) == Sell then Join(rs, rb) else Join(rb, rs))
  {
    hide Join;
    BaseOrderInjective(rs, rb);
    BaseOrderInjective(rb, rs);
  }

  /** Two markets spelled so that they have no base order as written are bought both ways. */
  lemma MisspelledBuysBothWays(t: Tables, s: string, b: string, side: Side)
    requires WellFormed(t) && IsSupportedMarket(t, s) && IsSupportedMarket(t, b)
    requires !HasBaseOrder(s) && !HasBaseOrder(b) && !IsAddress(s) && !IsAddress(b)
    ensures MayGetSide(t, s, b, side) <==> side == Buy
    ensures MayGetSide(t, b, s, side) <==> side == Buy
    ensures Ambiguous(t, s, b)
  {
    assert Resolves(t, s, s) && Resolves(t, b, b);
    assert SideOf(t, s, b) == Buy == SideOf(t, b, s);
  }

  /** For instance "weth" and "usdt", although the tables and base orders are in order. */
  lemma LowerCaseBuysBothWays(markets: map<string, Token>)
    requires Filed(markets) && markets.Keys == {"WETH", "USDT"}
    ensures var t := Tables(map[], markets, markets);
            && WellFormed(t) && BaseOrdersFit(t)
            && MayGetSide(t, "weth", "usdt", Buy) && MayGetSide(t, "usdt", "weth", Buy)
            && !MayGetSide(t, "weth", "usdt", Sell) && !MayGetSide(t, "usdt", "weth", Sell)
  {
    hide MayAlias, HasAlias, MayGetSide, Ambiguous;
    var t := Tables(map[], markets, markets);
    assert map[] + markets == markets;
    assert Plain("WETH") && Plain("USDT");
    assert ToUpper("weth") == "WETH";
    assert ToUpper("usdt") == "USDT";
    assert "weth"[0] != "WETH"[0] && "weth"[0] != '0';
    assert "usdt"[0] != "USDT"[0] && "usdt"[0] != '0';
    NoBaseOrder("weth");
    NoBaseOrder("usdt");
    MisspelledBuysBothWays(t, "weth", "usdt", Buy);
    MisspelledBuysBothWays(t, "weth", "usdt", Sell);
  }

  lemma NoBaseOrder(s: string)
    requires s != [] && 'a' <= s[0] <= 'z'
    ensures !HasBaseOrder(s)
  {
  }

  // ----- prices -----

  function Pow10(n: nat): (r: real)
    ensures r > 0.0
  {
    if n == 0 then 1.0 else 10.0 * Pow10(n - 1)
  }

  lemma TenPowers(n: nat)
    ensures Pow10(n + 1) == 10.0 * Pow10(n) && Pow10(6) == 1_000_000.0
  {
  }

  function Quotient(a: real, b: real): real
    requires b != 0.0
  {
    a / b
  }

  /** An amount in whole tokens. */
  function Whole(amount: int, decimals: nat): real {
    Quotient(amount as real, Pow10(decimals))
  }

  lemma WholeZero(amount: int, decimals: nat)
    ensures Whole(amount, decimals) == 0.0 <==> amount == 0
  {
    var p := Pow10(decimals);
    assert Whole(amount, decimals) * p == amount as real;
  }

  /** No price is computed: an unknown token or a zero amount. */
  predicate NoPrice(t: Tables, amountS: int, amountB: int, aliasS: string, aliasB: string) {
    aliasS !in t.all || aliasB !in t.all || amountS == 0 || amountB == 0
  }

  predicate NoDecimals(t: Tables, aliasS: string, aliasB: string) {
    (aliasS in t.all && t.all[aliasS].decimals.None?) || (aliasB in t.all && t.all[aliasB].decimals.None?)
  }

  /** The amount of a known token with decimals, in whole tokens. */
  function WholeOf(t: Tables, amount: int, alias: string): real {
    if alias in t.all && t.all[alias].decimals.Some? then Whole(amount, t.all[alias].decimals.value) else 0.0
  }

  lemma WholeOfZero(t: Tables, amount: int, alias: string)
    requires alias in t.all && t.all[alias].decimals.Some?
    ensures WholeOf(t, amount, alias) == 0.0 <==> amount == 0
  {
    WholeZero(amount, t.all[alias].decimals.value);
  }

  /** CalculatePrice before the result is rounded to a float, for the symbols and the side it has found. */
  function PriceOf(t: Tables, amountS: int, amountB: int, aliasS: string, aliasB: string, side: Side): Outcome<real> {
    if NoPrice(t, amountS, amountB, aliasS, aliasB) then Ok(0.0)
    else if NoDecimals(t, aliasS, aliasB) then Panic
    else
      var wholeS, wholeB := WholeOf(t, amountS, aliasS), WholeOf(t, amountB, aliasB);
      WholeOfZero(t, amountS, aliasS);
      WholeOfZero(t, amountB, aliasB);
      if side == Buy then Ok(Quotient(wholeS, wholeB)) else Ok(Quotient(wholeB, wholeS))
  }

  /** What CalculatePrice may answer; it looks each address up twice. */
  ghost predicate MayPrice(t: Tables, amountS: int, amountB: int, s: string, b: string, price: Outcome<real>) {
    exists aliasS, aliasB, side ::
      && MayAlias(t.all, s, aliasS) && MayAlias(t.all, b, aliasB) && MayGetSide(t, s, b, side)
      && price == PriceOf(t, amountS, amountB, aliasS, aliasB, side)
  }

  lemma QuotientSwap(a: real, b: real)
    requires a != 0.0 && b != 0.0
    ensures Quotient(a, b) == Quotient(b, a) <==> a == b || a == -b
  {
    var q := Quotient(a, b);
    assert q * b == a;
    assert Quotient(b, a) * a == b;
    if q == Quotient(b, a) {
      SquareIsOne(q, a, b);
      assert (q - 1.0) * (q + 1.0) == 0.0;
    }
  }

  lemma SquareIsOne(q: real, a: real, b: real)
    requires b != 0.0 && q * b == a && q * a == b
    ensures q * q == 1.0
  {
    assert q * (q * b) == b;
    assert (q * q - 1.0) * b == 0.0;
  }

  /**
   The meaning of the price: how much of the market there is to one whole token, whichever of the two
   is sold. In integers: price * tokenAmount * 10^marketDecimals == marketAmount * 10^tokenDecimals.
   */
  lemma PriceIsMarketPerToken(
    t: Tables, amountS: int, amountB: int, aliasS: string, aliasB: string, token: string, market: string)
    requires WellFormed(t) && BaseOrdersFit(t) && aliasS in t.all && aliasB in t.all && aliasS != aliasB
    requires WrapMarket(t, aliasS, aliasB) == Ok(Join(token, market)) && Plain(token) && Plain(market)
    requires amountS != 0 && amountB != 0 && t.all[aliasS].decimals.Some? && t.all[aliasB].decimals.Some?
    ensures (token == aliasS && market == aliasB) || (token == aliasB && market == aliasS)
    ensures var price := PriceOf(t, amountS, amountB, aliasS, aliasB, SideOf(t, aliasS, aliasB));
      var tokenAmount := if token == aliasS then amountS else amountB;
      var marketAmount := if token == aliasS then amountB else amountS;
      && price.Ok?
      && price.value * WholeOf(t, tokenAmount, token) == WholeOf(t, marketAmount, market)
      && WholeOf(t, tokenAmount, token) * Pow10(t.all[token].decimals.value) == tokenAmount as real
      && WholeOf(t, marketAmount, market) * Pow10(t.all[market].decimals.value) == marketAmount as real
  {
    hide WrapMarket, SideOf, WellFormed, BaseOrdersFit, Join, PriceOf, WholeOf, Pow10, Plain;
    WrappedSymbols(t, aliasS, aliasB, token, market);
    WholeTimes(t, amountS, aliasS);
    WholeTimes(t, amountB, aliasB);
    PriceBySide(t, amountS, amountB, aliasS, aliasB, SideOf(t, aliasS, aliasB));
  }

  /** A bought amount times the price is the sold amount for a buy, and the other way round for a sell. */
  lemma PriceBySide(t: Tables, amountS: int, amountB: int, aliasS: string, aliasB: string, side: Side)
    requires aliasS in t.all && aliasB in t.all && amountS != 0 && amountB != 0
    requires t.all[aliasS].decimals.Some? && t.all[aliasB].decimals.Some?
    ensures var price := PriceOf(t, amountS, amountB, aliasS, aliasB, side);
      && price.Ok?
      && (side == Buy ==> price.value * WholeOf(t, amountB, aliasB) == WholeOf(t, amountS, aliasS))
      && (side != Buy ==> price.value * WholeOf(t, amountS, aliasS) == WholeOf(t, amountB, aliasB))
  {
    hide WholeOf, Quotient;
    WholeOfZero(t, amountS, aliasS);
    WholeOfZero(t, amountB, aliasB);
    QuotientTimes(WholeOf(t, amountS, aliasS), WholeOf(t, amountB, aliasB));
    QuotientTimes(WholeOf(t, amountB, aliasB), WholeOf(t, amountS, aliasS));
  }

  lemma WrappedSymbols(t: Tables, s: string, b: string, token: string, market: string)
    requires WellFormed(t) && BaseOrdersFit(t) && s in t.all && b in t.all && s != b
    requires WrapMarket(t, s, b) == Ok(Join(token, market)) && Plain(token) && Plain(market)
    ensures SideOf(t, s, b) != NoSide
    ensures SideOf(t, s, b) == Sell ==> token == s && market == b
    ensures SideOf(t, s, b) == Buy ==> token == b && market == s
  {
    FiledSides(t, s, b);
    if SideOf(t, s, b) == Sell {
      JoinInjective(token, market, s, b);
    } else if SideOf(t, s, b) == Buy {
      JoinInjective(token, market, b, s);
    }
  }

  lemma WholeTimes(t: Tables, amount: int, alias: string)
    requires alias in t.all && t.all[alias].decimals.Some?
    ensures WholeOf(t, amount, alias) * Pow10(t.all[alias].decimals.value) == amount as real
  {
  }

  lemma QuotientTimes(a: real, b: real)
    requires b != 0.0
    ensures Quotient(a, b) * b == a
  {
  }

  /** No price without both tokens and both amounts; a panic without decimals. */
  lemma PriceFails(t: Tables, amountS: int, amountB: int, aliasS: string, aliasB: string, side: Side)
    ensures aliasS !in t.all || aliasB !in t.all || amountS == 0 || amountB == 0 ==>
      PriceOf(t, amountS, amountB, aliasS, aliasB, side) == Ok(0.0)
    ensures aliasS in t.all && aliasB in t.all && amountS != 0 && amountB != 0 ==>
      (PriceOf(t, amountS, amountB, aliasS, aliasB, side) == Panic <==>
         t.all[aliasS].decimals.None? || t.all[aliasB].decimals.None?)
  {
  }

  /** The price of a trade seen from both sides, when the symbols have been found. */
  lemma PriceSwap(t: Tables, amountS: int, amountB: int, aliasS: string, aliasB: string, side: Side, swapped: Side)
    ensures
      PriceOf(t, amountS, amountB, aliasS, aliasB, side) == PriceOf(t, amountB, amountS, aliasB, aliasS, swapped) <==>
      || NoPrice(t, amountS, amountB, aliasS, aliasB) || NoDecimals(t, aliasS, aliasB)
      || (side == Buy <==> swapped != Buy)
      || WholeOf(t, amountS, aliasS) == WholeOf(t, amountB, aliasB)
      || WholeOf(t, amountS, aliasS) == -WholeOf(t, amountB, aliasB)
  {
    if !NoPrice(t, amountS, amountB, aliasS, aliasB) && !NoDecimals(t, aliasS, aliasB) {
      WholeOfZero(t, amountS, aliasS);
      WholeOfZero(t, amountB, aliasB);
      QuotientSwap(WholeOf(t, amountS, aliasS), WholeOf(t, amountB, aliasB));
    }
  }

  /**
   With distinct addresses, looking at the same trade from the other side gives the same price:
   exactly when no price is computed, one direction is a buy and the other is not, or the whole
   amounts are equal up to sign.
   */
  lemma PriceUnchangedBySwap(
    t: Tables, amountS: int, amountB: int, s: string, b: string, aliasS: string, aliasB: string,
    side: Side, swapped: Side, price: Outcome<real>, other: Outcome<real>)
    requires DistinctAddresses(t.all) && MayAlias(t.all, s, aliasS) && MayAlias(t.all, b, aliasB)
    requires MayGetSide(t, s, b, side) && MayGetSide(t, b, s, swapped)
    requires MayPrice(t, amountS, amountB, s, b, price) && MayPrice(t, amountB, amountS, b, s, other)
    ensures price == other <==>
      || NoPrice(t, amountS, amountB, aliasS, aliasB) || NoDecimals(t, aliasS, aliasB)
      || (side == Buy <==> swapped != Buy)
      || WholeOf(t, amountS, aliasS) == WholeOf(t, amountB, aliasB)
      || WholeOf(t, amountS, aliasS) == -WholeOf(t, amountB, aliasB)
  {
    hide PriceOf, NoPrice, NoDecimals, WholeOf;
    PriceUnique(t, amountS, amountB, s, b, aliasS, aliasB, side, price);
    PriceUnique(t, amountB, amountS, b, s, aliasB, aliasS, swapped, other);
    PriceSwap(t, amountS, amountB, aliasS, aliasB, side, swapped);
  }

  lemma PriceUnique(
    t: Tables, amountS: int, amountB: int, s: string, b: string, aliasS: string, aliasB: string,
    side: Side, price: Outcome<real>)
    requires DistinctAddresses(t.all) && MayAlias(t.all, s, aliasS) && MayAlias(t.all, b, aliasB)
    requires MayGetSide(t, s, b, side) && MayPrice(t, amountS, amountB, s, b, price)
    ensures price == PriceOf(t, amountS, amountB, aliasS, aliasB, side)
  {
    hide PriceOf, DistinctAddresses, MayAlias, SideOf, Resolves;
    var aliasS', aliasB', side' :|
      && MayAlias(t.all, s, aliasS') && MayAlias(t.all, b, aliasB') && MayGetSide(t, s, b, side')
      && price == PriceOf(t, amountS, amountB, aliasS', aliasB', side');
    AliasUnique(t.all, s, aliasS, aliasS');
    AliasUnique(t.all, b, aliasB, aliasB');
    var rs, rb :| Resolves(t, s, rs) && Resolves(t, b, rb) && side == SideOf(t, rs, rb);
    SideUnique(t, s, b, rs, rb, side');
  }
}
