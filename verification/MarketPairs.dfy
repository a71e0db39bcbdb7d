/** Token pairs as a function of the tables, and what register and unregister events do to them. */
module MarketPairs {
  import opened Results
  import opened MarketSymbols
  import opened MarketTables

  datatype TokenPair = TokenPair(tokenS: Address, tokenB: Address)

  /** Two symbols; the code joins them into one map key. */
  type Key = (string, string)

  // ----- the values of a map as a multiset -----

  ghost function Bag<K(!new)>(m: map<K, TokenPair>): multiset<TokenPair>
    decreases |m|
  {
    if m == map[] then multiset{} else
    var k :| k in m;
    multiset{m[k]} + Bag(m - {k})
  }

  lemma BagUnfold<K(!new)>(m: map<K, TokenPair>) returns (k: K)
    requires m != map[]
    ensures k in m && Bag(m) == multiset{m[k]} + Bag(m - {k})
  {
    k :| k in m && Bag(m) == multiset{m[k]} + Bag(m - {k});
  }

  lemma BagEmpty<K(!new)>()
    ensures Bag<K>(map[]) == multiset{}
  {
  }

  lemma {:induction false} BagPick<K(!new)>(m: map<K, TokenPair>, k: K)
    requires k in m
    ensures Bag(m) == multiset{m[k]} + Bag(m - {k})
    decreases |m|
  {
    hide Bag;
    var j := BagUnfold(m);
    if j != k {
      BagPick(m - {j}, k);
      BagPick(m - {k}, j);
      assert m - {j} - {k} == m - {k} - {j};
    }
  }

  lemma {:induction false} BagUnion<K(!new)>(a: map<K, TokenPair>, b: map<K, TokenPair>)
    requires a.Keys !! b.Keys
    ensures Bag(a + b) == Bag(a) + Bag(b)
    decreases |b|
  {
    hide Bag;
    if b == map[] {
      assert a + b == a;
      BagEmpty<K>();
    } else {
      var k := BagUnfold(b);
      UnionMinus(a, b, k);
      BagUnion(a, b - {k});
      BagPick(a + b, k);
    }
  }

  lemma UnionMinus<K, V>(a: map<K, V>, b: map<K, V>, k: K)
    requires a.Keys !! b.Keys && k in b
    ensures a + b - {k} == a + (b - {k})
    ensures a.Keys !! (b - {k}).Keys
    ensures |b - {k}| < |b|
  {
    assert (b - {k}).Keys == b.Keys - {k};
  }

  lemma {:induction false} BagSize<K(!new)>(m: map<K, TokenPair>)
    ensures |Bag(m)| == |m|
    decreases |m|
  {
    if m != map[] {
      var k :| k in m;
      BagSize(m - {k});
      BagPick(m, k);
      assert m.Keys == (m - {k}).Keys + {k};
    }
  }

  lemma {:induction false} BagMember<K(!new)>(m: map<K, TokenPair>, p: TokenPair)
    ensures p in Bag(m) <==> exists k :: k in m && m[k] == p
    decreases |m|
  {
    if m != map[] {
      var k :| k in m;
      BagMember(m - {k}, p);
      BagPick(m, k);
      if k' :| k' in m && m[k'] == p {
        assert k' == k || k' in m - {k};
      }
    }
  }

  // ----- pairs without an address -----

  predicate Touches(p: TokenPair, a: Address) {
    p.tokenS == a || p.tokenB == a
  }

  /** The pairs of a multiset that do not use an address. */
  ghost function Without(pairs: multiset<TokenPair>, a: Address): multiset<TokenPair>
    decreases |pairs|
  {
    if pairs == multiset{} then multiset{} else
    var p :| p in pairs;
    (if Touches(p, a) then multiset{} else multiset{p}) + Without(pairs - multiset{p}, a)
  }

  lemma {:induction false} WithoutCount(pairs: multiset<TokenPair>, a: Address, p: TokenPair)
    ensures Without(pairs, a)[p] == if Touches(p, a) then 0 else pairs[p]
    decreases |pairs|
  {
    if pairs != multiset{} {
      hide Without;
      var q := WithoutUnfold(pairs, a);
      WithoutCount(pairs - multiset{q}, a, p);
    }
  }

  lemma WithoutUnfold(pairs: multiset<TokenPair>, a: Address) returns (q: TokenPair)
    requires pairs != multiset{}
    ensures q in pairs
    ensures Without(pairs, a) == (if Touches(q, a) then multiset{} else multiset{q}) + Without(pairs - multiset{q}, a)
  {
    q :| && q in pairs
         && Without(pairs, a) == (if Touches(q, a) then multiset{} else multiset{q}) + Without(pairs - multiset{q}, a);
  }

  lemma WithoutIs(pairs: multiset<TokenPair>, a: Address, rest: multiset<TokenPair>)
    requires forall p :: rest[p] == if Touches(p, a) then 0 else pairs[p]
    ensures Without(pairs, a) == rest
  {
    forall p
      ensures Without(pairs, a)[p] == rest[p]
    {
      WithoutCount(pairs, a, p);
    }
  }

  /** Splitting off the keys whose pairs use the address. */
  lemma BagWithout<K(!new)>(kept: map<K, TokenPair>, dropped: map<K, TokenPair>, a: Address)
    requires kept.Keys !! dropped.Keys
    requires forall k <- kept :: !Touches(kept[k], a)
    requires forall k <- dropped :: Touches(dropped[k], a)
    ensures Without(Bag(kept + dropped), a) == Bag(kept)
  {
    BagUnion(kept, dropped);
    forall p
      ensures Bag(kept)[p] == if Touches(p, a) then 0 else Bag(kept + dropped)[p]
    {
      BagMember(kept, p);
      BagMember(dropped, p);
    }
    WithoutIs(Bag(kept + dropped), a, Bag(kept));
  }

  // ----- the pairs of the tables -----

  function AddressOf(all: map<string, Token>, x: string): Address {
    if x in all then all[x].protocol else ""
  }

  function PairOf(all: map<string, Token>, k: Key): TokenPair {
    TokenPair(AddressOf(all, k.0), AddressOf(all, k.1))
  }

  /** AllTokens as a fresh load of the two tables makes it. */
  function Merged(t: Tables): map<string, Token> {
    t.tokens + t.markets
  }

  /** Two different symbols, at least one of them a market. */
  predicate IsPair(t: Tables, k: Key) {
    k.0 in Merged(t) && k.1 in Merged(t) && k.0 != k.1 && (k.0 in t.markets || k.1 in t.markets)
  }

  /** The pairs a rebuild from the tables produces: every market with every other token. */
  ghost function Rebuilt(t: Tables): map<Key, TokenPair> {
    map x, y | x in Merged(t) && y in Merged(t) && IsPair(t, (x, y)) :: (x, y) := PairOf(Merged(t), (x, y))
  }

  lemma RebuiltAt(t: Tables, k: Key)
    ensures k in Rebuilt(t) <==> IsPair(t, k)
    ensures k in Rebuilt(t) ==> Rebuilt(t)[k] == PairOf(Merged(t), k)
  {
    assert k == (k.0, k.1);
  }

  datatype Snapshot = Snapshot(t: Tables, pairs: multiset<TokenPair>)

  ghost predicate Agrees(s: Snapshot) {
    s.pairs == Bag(Rebuilt(s.t))
  }

  // ----- events -----

  function Registered(symbol: string, a: Address): Token {
    Token(a, ToUpper(symbol), false, None)
  }

  /** A key of the new token with a market, in either direction. */
  predicate IsAdded(markets: map<string, Token>, symbol: string, k: Key) {
    (k.0 == symbol && k.1 in markets) || (k.1 == symbol && k.0 in markets)
  }

  function AddedPair(markets: map<string, Token>, token: Token, k: Key): TokenPair {
    if k.0 == token.symbol then TokenPair(token.protocol, AddressOf(markets, k.1))
    else TokenPair(AddressOf(markets, k.0), token.protocol)
  }

  /** The pairs a register event adds. */
  ghost function Added(markets: map<string, Token>, token: Token): map<Key, TokenPair> {
    var ends := markets.Keys + {token.symbol};
    map x, y | x in ends && y in ends && IsAdded(markets, token.symbol, (x, y)) ::
      (x, y) := AddedPair(markets, token, (x, y))
  }

  lemma AddedAt(markets: map<string, Token>, token: Token, k: Key)
    ensures k in Added(markets, token) <==> IsAdded(markets, token.symbol, k)
    ensures k in Added(markets, token) ==> Added(markets, token)[k] == AddedPair(markets, token, k)
  {
    assert k == (k.0, k.1);
  }

  ghost function Register(s: Snapshot, symbol: string, a: Address): Snapshot {
    var token := Registered(symbol, a);
    Snapshot(WithToken(s.t, token), s.pairs + Bag(Added(s.t.markets, token)))
  }

  ghost function UnRegister(s: Snapshot, symbol: string, a: Address): Snapshot {
    Snapshot(WithoutToken(s.t, ToUpper(symbol)), Without(s.pairs, a))
  }

  /** Registering keeps the pairs in agreement with a rebuild exactly for a new symbol. */
  lemma RegisterAgrees(s: Snapshot, symbol: string, a: Address)
    requires Agrees(s)
    ensures Agrees(Register(s, symbol, a)) <==> ToUpper(symbol) !in Merged(s.t) || s.t.markets == map[]
  {
    hide Bag, Added, Rebuilt, Merged;
    var token := Registered(symbol, a);
    if token.symbol !in Merged(s.t) {
      RebuiltAfterRegister(s.t, token);
      BagUnion(Rebuilt(s.t), Added(s.t.markets, token));
    } else {
      SameSizeAfterRegister(s.t, token);
      BagSize(Rebuilt(Register(s, symbol, a).t));
      BagSize(Rebuilt(s.t));
      BagSize(Added(s.t.markets, token));
    }
  }

  ghost function WithToken(t: Tables, token: Token): Tables {
    t.(tokens := t.tokens[token.symbol := token], all := t.all[token.symbol := token])
  }

  lemma RebuiltAfterRegister(t: Tables, token: Token)
    requires token.symbol !in Merged(t)
    ensures Rebuilt(WithToken(t, token)) == Rebuilt(t) + Added(t.markets, token)
    ensures Rebuilt(t).Keys !! Added(t.markets, token).Keys
  {
    hide Added, Rebuilt;
    forall k: Key
      ensures k in Rebuilt(WithToken(t, token)) <==> k in Rebuilt(t) + Added(t.markets, token)
      ensures k in Rebuilt(WithToken(t, token)) ==>
          Rebuilt(WithToken(t, token))[k] == (Rebuilt(t) + Added(t.markets, token))[k]
      ensures k !in Rebuilt(t) || k !in Added(t.markets, token)
    {
      KeyAfterRegister(t, token, k);
    }
  }

  lemma KeyAfterRegister(t: Tables, token: Token, k: Key)
    requires token.symbol !in Merged(t)
    ensures k in Rebuilt(WithToken(t, token)) <==> k in Rebuilt(t) || k in Added(t.markets, token)
    ensures !(k in Rebuilt(t) && k in Added(t.markets, token))
    ensures k in Rebuilt(t) ==> Rebuilt(WithToken(t, token))[k] == Rebuilt(t)[k]
    ensures k in Added(t.markets, token) ==> Rebuilt(WithToken(t, token))[k] == Added(t.markets, token)[k]
  {
    hide Added, Rebuilt;
    RebuiltAt(t, k);
    RebuiltAt(WithToken(t, token), k);
    AddedAt(t.markets, token, k);
  }

  lemma SameSizeAfterRegister(t: Tables, token: Token)
    requires token.symbol in Merged(t)
    ensures |Rebuilt(WithToken(t, token))| == |Rebuilt(t)|
    ensures t.markets != map[] <==> Added(t.markets, token) != map[]
    ensures t.markets == map[] ==> Rebuilt(WithToken(t, token)) == Rebuilt(t) == map[]
  {
    hide Added, Rebuilt;
    forall k: Key
      ensures k in Rebuilt(WithToken(t, token)).Keys <==> k in Rebuilt(t).Keys
      ensures k in Rebuilt(t) ==> t.markets != map[]
      ensures k in Added(t.markets, token) ==> t.markets != map[]
    {
      RebuiltAt(t, k);
      RebuiltAt(WithToken(t, token), k);
      AddedAt(t.markets, token, k);
    }
    assert Rebuilt(WithToken(t, token)).Keys == Rebuilt(t).Keys;
    if m :| m in t.markets {
      AddedAt(t.markets, token, (m, token.symbol));
    }
  }

  /** Whether unregistering the symbol takes this key out of a rebuild. */
  predicate Leaves(t: Tables, symbol: string, k: Key) {
    ToUpper(symbol) in t.tokens && ToUpper(symbol) !in t.markets && (k.0 == ToUpper(symbol) || k.1 == ToUpper(symbol))
  }

  /** The address of the event is used by exactly the pairs of its symbol. */
  ghost predicate AddressIsSymbols(t: Tables, symbol: string, a: Address) {
    forall k <- Rebuilt(t) :: Touches(Rebuilt(t)[k], a) <==> Leaves(t, symbol, k)
  }

  ghost function WithoutToken(t: Tables, k: string): Tables {
    t.(tokens := t.tokens - {k}, all := t.all - {k})
  }

  lemma KeyAfterUnRegister(t: Tables, symbol: string, k: Key)
    ensures k in Rebuilt(WithoutToken(t, ToUpper(symbol))) <==> k in Rebuilt(t) && !Leaves(t, symbol, k)
    ensures k in Rebuilt(WithoutToken(t, ToUpper(symbol))) ==>
        Rebuilt(WithoutToken(t, ToUpper(symbol)))[k] == Rebuilt(t)[k]
  {
    hide Rebuilt;
    RebuiltAt(t, k);
    RebuiltAt(WithoutToken(t, ToUpper(symbol)), k);
  }

  /**
   Unregistering keeps the pairs in agreement with a rebuild exactly when the event's address is
   used by the pairs of its symbol and by no others.
   */
  lemma UnRegisterAgrees(s: Snapshot, symbol: string, a: Address)
    requires Agrees(s)
    ensures Agrees(UnRegister(s, symbol, a)) <==> AddressIsSymbols(s.t, symbol, a)
  {
    hide Bag, Without, Rebuilt, Leaves;
    var r, rest := Rebuilt(s.t), Rebuilt(WithoutToken(s.t, ToUpper(symbol)));
    var kept := map k | k in r && !Touches(r[k], a) :: r[k];
    var dropped := map k | k in r && Touches(r[k], a) :: r[k];
    assert r == kept + dropped;
    BagWithout(kept, dropped, a);
    forall k: Key
      ensures k in rest <==> k in r && !Leaves(s.t, symbol, k)
      ensures k in rest ==> rest[k] == r[k]
    {
      KeyAfterUnRegister(s.t, symbol, k);
    }
    SameBagSameKeys(r, kept, rest, a);
  }

  lemma SameBagSameKeys(r: map<Key, TokenPair>, kept: map<Key, TokenPair>, rest: map<Key, TokenPair>, a: Address)
    requires kept == map k | k in r && !Touches(r[k], a) :: r[k]
    requires rest.Keys <= r.Keys && (forall k <- rest :: rest[k] == r[k])
    ensures Bag(kept) == Bag(rest) <==> kept.Keys == rest.Keys
  {
    hide Bag;
    if kept.Keys == rest.Keys {
      assert kept == rest;
    }
    if Bag(kept) == Bag(rest) {
      forall k | k in rest
        ensures k in kept
      {
        BagMember(rest, rest[k]);
        BagMember(kept, rest[k]);
      }
      BagSize(kept);
      BagSize(rest);
      SameSizeSubset(rest.Keys, kept.Keys);
    }
  }

  lemma SameSizeSubset<T>(a: set<T>, b: set<T>)
    requires a <= b && |a| == |b|
    ensures a == b
  {
    if x :| x in b && x !in a {
      SubsetSize(a, b - {x});
    }
  }

  lemma {:induction false} SubsetSize<T>(a: set<T>, b: set<T>)
    requires a <= b
    ensures |a| <= |b|
  {
    if x :| x in a {
      SubsetSize(a - {x}, b - {x});
    }
  }

  /** A second register event for the same token lists its pairs twice. */
  lemma RegisterTwiceFails(s: Snapshot, symbol: string, a: Address)
    requires Agrees(s) && ToUpper(symbol) !in Merged(s.t) && s.t.markets != map[]
    ensures !Agrees(Register(Register(s, symbol, a), symbol, a))
  {
    hide Bag, Added, Rebuilt, Agrees;
    RegisterAgrees(s, symbol, a);
    RegisterAgrees(Register(s, symbol, a), symbol, a);
  }

  /** Unregistering one of two tokens that share an address also removes the pairs of the other. */
  lemma SharedAddressFails(s: Snapshot, symbol: string, other: string, a: Address)
    requires Agrees(s) && s.t.markets != map[]
    requires ToUpper(symbol) in s.t.tokens && ToUpper(symbol) !in s.t.markets
    requires other in s.t.tokens && other !in s.t.markets && other != ToUpper(symbol) && s.t.tokens[other].protocol == a
    ensures !Agrees(UnRegister(s, symbol, a))
  {
    hide Bag, Without, Rebuilt, Agrees;
    UnRegisterAgrees(s, symbol, a);
    var m :| m in s.t.markets;
    RebuiltAt(s.t, (other, m));
    assert (other, m) in Rebuilt(s.t);
  }

  /** A rebuild pairs every market with every other known token, both ways, and nothing else. */
  lemma RebuiltBothWays(t: Tables, x: string, y: string)
    ensures (x, y) in Rebuilt(t) <==> (y, x) in Rebuilt(t)
    ensures (x, y) in Rebuilt(t) <==>
      && x != y && (x in t.tokens || x in t.markets) && (y in t.tokens || y in t.markets)
      && (x in t.markets || y in t.markets)
    ensures (x, y) in Rebuilt(t) ==>
      Rebuilt(t)[(x, y)] == TokenPair(
        if x in t.markets then t.markets[x].protocol else t.tokens[x].protocol,
        if y in t.markets then t.markets[y].protocol else t.tokens[y].protocol)
  {
    hide Rebuilt;
    RebuiltAt(t, (x, y));
    RebuiltAt(t, (y, x));
  }

  /** What a register event puts into the tables: a token that is no market and has no decimals. */
  lemma RegisteredToken(s: Snapshot, symbol: string, a: Address)
    ensures var t, k := Register(s, symbol, a).t, ToUpper(symbol);
      && k in t.tokens && k in t.all && t.tokens[k] == t.all[k] == Token(a, k, false, None)
      && t.markets == s.t.markets
      && (forall x :: x != k ==> (x in t.tokens <==> x in s.t.tokens) && (x in t.all <==> x in s.t.all))
      && (forall x <- t.tokens :: x != k ==> t.tokens[x] == s.t.tokens[x])
      && (forall x <- t.all :: x != k ==> t.all[x] == s.t.all[x])
  {
    hide Bag, Added;
  }

  /** An unregister event takes one symbol out of the tables and every pair with the address out of the list. */
  lemma UnRegisteredToken(s: Snapshot, symbol: string, a: Address, p: TokenPair)
    ensures var s', k := UnRegister(s, symbol, a), ToUpper(symbol);
      && s'.t.tokens == s.t.tokens - {k} && s'.t.all == s.t.all - {k} && s'.t.markets == s.t.markets
      && s'.pairs[p] == if p.tokenS == a || p.tokenB == a then 0 else s.pairs[p]
  {
    hide Without;
    WithoutCount(s.pairs, a, p);
  }

  // ----- whole runs -----

  datatype Event = TokenRegistered(symbol: string, a: Address) | TokenUnRegistered(symbol: string, a: Address)

  predicate Unused(t: Tables, a: Address) {
    forall k <- t.tokens + t.markets :: (t.tokens + t.markets)[k].protocol != a
  }

  /**
   A register event brings a new symbol and a new address; an unregister event names a token that is
   not a market by its own address, or nothing the tables know.
   */
  ghost predicate Allowed(t: Tables, e: Event) {
    var k := ToUpper(e.symbol);
    match e
    case TokenRegistered(_, a) => k !in Merged(t) && Unused(t, a)
    case TokenUnRegistered(_, a) =>
      k !in t.markets && if k in t.tokens then t.tokens[k].protocol == a else Unused(t, a)
  }

  ghost function Next(s: Snapshot, e: Event): Snapshot {
    match e
    case TokenRegistered(symbol, a) => Register(s, symbol, a)
    case TokenUnRegistered(symbol, a) => UnRegister(s, symbol, a)
  }

  ghost function After(s: Snapshot, events: seq<Event>): Snapshot {
    if events == [] then s else Next(After(s, events[..|events| - 1]), events[|events| - 1])
  }

  ghost predicate AllAllowed(s: Snapshot, events: seq<Event>) {
    events != [] ==>
      var n := |events| - 1;
      AllAllowed(s, events[..n]) && Allowed(After(s, events[..n]).t, events[n])
  }

  ghost predicate Inv(s: Snapshot) {
    Agrees(s) && s.t.all == Merged(s.t) && DistinctAddresses(Merged(s.t))
  }

  lemma NextKeeps(s: Snapshot, e: Event)
    requires Inv(s) && Allowed(s.t, e)
    ensures Inv(Next(s, e)) && Next(s, e).t.markets == s.t.markets
  {
    hide Agrees, Merged, Unused;
    match e
    case TokenRegistered(symbol, a) =>
      RegisterAgrees(s, symbol, a);
      MergedWith(s.t, Registered(symbol, a));
      DistinctWith(s.t, Registered(symbol, a));
    case TokenUnRegistered(symbol, a) =>
      MatchingAddress(s.t, symbol, a);
      UnRegisterAgrees(s, symbol, a);
      MergedWithout(s.t, ToUpper(symbol));
  }

  lemma MergedWith(t: Tables, token: Token)
    requires token.symbol !in Merged(t)
    ensures Merged(WithToken(t, token)) == Merged(t)[token.symbol := token]
  {
  }

  lemma DistinctWith(t: Tables, token: Token)
    requires token.symbol !in Merged(t) && Unused(t, token.protocol) && DistinctAddresses(Merged(t))
    ensures DistinctAddresses(Merged(t)[token.symbol := token])
  {
  }

  lemma MergedWithout(t: Tables, k: string)
    requires k !in t.markets
    ensures Merged(WithoutToken(t, k)) == Merged(t) - {k}
  {
  }

  lemma MatchingAddress(t: Tables, symbol: string, a: Address)
    requires DistinctAddresses(Merged(t)) && Allowed(t, TokenUnRegistered(symbol, a))
    ensures AddressIsSymbols(t, symbol, a)
  {
    hide Rebuilt;
    forall k | k in Rebuilt(t)
      ensures Touches(Rebuilt(t)[k], a) <==> Leaves(t, symbol, k)
    {
      RebuiltAt(t, k);
    }
  }

  /** Over every run, the pairs are those of a rebuild from the current tables. */
  lemma {:induction false} RunAgrees(s: Snapshot, events: seq<Event>)
    requires Inv(s) && AllAllowed(s, events)
    ensures Inv(After(s, events)) && After(s, events).pairs == Bag(Rebuilt(After(s, events).t))
  {
    if events != [] {
      var n := |events| - 1;
      RunAgrees(s, events[..n]);
      NextKeeps(After(s, events[..n]), events[n]);
    }
  }

  /** Unregistering undoes registering. */
  lemma UnRegisterUndoes(s: Snapshot, symbol: string, a: Address)
    requires Inv(s) && Allowed(s.t, TokenRegistered(symbol, a))
    ensures UnRegister(Register(s, symbol, a), symbol, a) == s
  {
    hide Bag, Without, Rebuilt, Added;
    var s' := Register(s, symbol, a);
    NextKeeps(s, TokenRegistered(symbol, a));
    NextKeeps(s', TokenUnRegistered(symbol, a));
    var k := ToUpper(symbol);
    assert s'.t.tokens - {k} == s.t.tokens;
    assert s'.t.all - {k} == s.t.all;
  }
}
