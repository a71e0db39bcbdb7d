/** The tables and lists as the program keeps them in place (marketutil/marketutil.go). */
module MarketIndex {
  import opened Results
  import opened MarketSymbols
  import opened MarketTables
  import opened MarketPairs

  // ----- listing the values of a pairs map -----

  /** A map under joined names holds, for each joined name of a key of `m`, the pair of such a key. */
  ghost predicate Renamed(named: map<string, TokenPair>, m: map<Key, TokenPair>) {
    && (forall k <- m :: Join(k.0, k.1) in named)
    && (forall n <- named :: NameOf(n, named[n], m))
  }

  ghost predicate NameOf(n: string, p: TokenPair, m: map<Key, TokenPair>) {
    exists k :: k in m && n == Join(k.0, k.1) && p == m[k]
  }

  /** No two keys are joined to the same name. */
  ghost predicate DistinctNames(m: map<Key, TokenPair>) {
    forall j <- m, k <- m :: Join(j.0, j.1) == Join(k.0, k.1) ==> j == k
  }

  lemma PlainNames(m: map<Key, TokenPair>)
    requires forall k <- m :: Plain(k.0) && Plain(k.1)
    ensures DistinctNames(m)
  {
    forall j, k | j in m && k in m && Join(j.0, j.1) == Join(k.0, k.1)
      ensures j == k
    {
      JoinInjective(j.0, j.1, k.0, k.1);
    }
  }

  lemma RenamedAdd(named: map<string, TokenPair>, m: map<Key, TokenPair>, k: Key, p: TokenPair)
    requires Renamed(named, m)
    ensures Renamed(named[Join(k.0, k.1) := p], m[k := p])
  {
    var named', m' := named[Join(k.0, k.1) := p], m[k := p];
    forall n | n in named'
      ensures NameOf(n, named'[n], m')
    {
      if n == Join(k.0, k.1) {
        assert k in m' && p == m'[k];
      } else {
        assert NameOf(n, named[n], m);
        var j :| j in m && n == Join(j.0, j.1) && named[n] == m[j];
        assert j in m' && m'[j] == m[j];
      }
    }
  }

  lemma RenamedRemove(named: map<string, TokenPair>, m: map<Key, TokenPair>, n: string) returns (k: Key)
    requires Renamed(named, m) && DistinctNames(m) && n in named
    ensures k in m && named[n] == m[k]
    ensures Renamed(named - {n}, m - {k}) && DistinctNames(m - {k})
  {
    assert NameOf(n, named[n], m);
    k :| k in m && n == Join(k.0, k.1) && named[n] == m[k];
    forall x | x in named - {n}
      ensures NameOf(x, named[x], m - {k})
    {
      assert NameOf(x, named[x], m);
      var j :| j in m && x == Join(j.0, j.1) && named[x] == m[j];
      assert j in m - {k};
    }
  }

  lemma {:induction false} BagRenamed(named: map<string, TokenPair>, m: map<Key, TokenPair>)
    requires Renamed(named, m) && DistinctNames(m)
    ensures Bag(named) == Bag(m)
    decreases |named|
  {
    hide Bag, Renamed, DistinctNames;
    if named == map[] {
      RenamedEmpty(m);
      BagEmpty<string>();
    } else {
      var n := BagUnfold(named);
      MinusShrinks(named, n);
      var k := RenamedRemove(named, m, n);
      BagRenamed(named - {n}, m - {k});
      BagPick(m, k);
    }
  }

  lemma RenamedEmpty(m: map<Key, TokenPair>)
    requires Renamed(map[], m)
    ensures Bag(m) == multiset{}
  {
    assert m == map[];
  }

  lemma MinusShrinks<K, V>(m: map<K, V>, k: K)
    requires k in m
    ensures |m - {k}| < |m|
  {
    assert (m - {k}).Keys == m.Keys - {k};
  }

  /** There are at most as many names as keys they can come from. */
  lemma {:induction false} FewNames(names: set<string>, keys: set<Key>)
    requires forall n <- names :: exists k :: k in keys && n == Join(k.0, k.1)
    ensures |names| <= |keys|
    decreases |names|
  {
    if n :| n in names {
      var k :| k in keys && n == Join(k.0, k.1);
      forall x | x in names - {n}
        ensures exists j :: j in keys - {k} && x == Join(j.0, j.1)
      {
        var j :| j in keys && x == Join(j.0, j.1);
        assert j in keys - {k};
      }
      FewNames(names - {n}, keys - {k});
    }
  }

  /** What the code lists for the keys of `m`: one pair for each joined name. */
  ghost predicate ListedFor(pairs: multiset<TokenPair>, m: map<Key, TokenPair>) {
    exists named: map<string, TokenPair> :: Renamed(named, m) && pairs == Bag(named)
  }

  /** It lists all pairs exactly when no two keys share a name. */
  lemma ListedExactly(pairs: multiset<TokenPair>, m: map<Key, TokenPair>)
    requires ListedFor(pairs, m)
    ensures pairs == Bag(m) <==> DistinctNames(m)
  {
    hide Bag;
    var named: map<string, TokenPair> :| Renamed(named, m) && pairs == Bag(named);
    if DistinctNames(m) {
      BagRenamed(named, m);
    } else {
      var j, k :| j in m && k in m && Join(j.0, j.1) == Join(k.0, k.1) && j != k;
      SharedName(named, m, j, k);
      BagSize(named);
      BagSize(m);
    }
  }

  lemma SharedName(named: map<string, TokenPair>, m: map<Key, TokenPair>, j: Key, k: Key)
    requires Renamed(named, m) && j in m && k in m && Join(j.0, j.1) == Join(k.0, k.1) && j != k
    ensures |named| < |m|
  {
    forall n | n in named.Keys
      ensures exists x :: x in m.Keys - {k} && n == Join(x.0, x.1)
    {
      assert NameOf(n, named[n], m);
      var x :| x in m && n == Join(x.0, x.1) && named[n] == m[x];
      var y := if x == k then j else x;
      assert y in m.Keys - {k} && n == Join(y.0, y.1);
    }
    FewNames(named.Keys, m.Keys - {k});
  }

  /** Appends the values of a pairs map, in some order. */
  method AppendValues(list: seq<TokenPair>, named: map<string, TokenPair>) returns (r: seq<TokenPair>)
    ensures multiset(r) == multiset(list) + Bag(named)
  {
    hide Bag;
    r := list;
    var todo := named;
    while todo != map[]
      invariant multiset(r) + Bag(todo) == multiset(list) + Bag(named)
      decreases |todo|
    {
      var n :| n in todo;
      BagPick(todo, n);
      MinusShrinks(todo, n);
      r := r + [todo[n]];
      todo := todo - {n};
    }
    BagEmpty<string>();
  }

  // ----- building the pairs map -----

  /** A market and a token in both directions, with the addresses the two entries hold. */
  function BothWays(named: map<string, TokenPair>, v: Token, w: Token): map<string, TokenPair> {
    named[Join(v.symbol, w.symbol) := TokenPair(v.protocol, w.protocol)]
         [Join(w.symbol, v.symbol) := TokenPair(w.protocol, v.protocol)]
  }

  ghost function BothKeys(m: map<Key, TokenPair>, v: Token, w: Token): map<Key, TokenPair> {
    m[(v.symbol, w.symbol) := TokenPair(v.protocol, w.protocol)]
     [(w.symbol, v.symbol) := TokenPair(w.protocol, v.protocol)]
  }

  lemma RenamedBoth(named: map<string, TokenPair>, m: map<Key, TokenPair>, v: Token, w: Token)
    requires Renamed(named, m)
    ensures Renamed(BothWays(named, v, w), BothKeys(m, v, w))
  {
    hide Renamed;
    RenamedAdd(named, m, (v.symbol, w.symbol), TokenPair(v.protocol, w.protocol));
    RenamedAdd(named[Join(v.symbol, w.symbol) := TokenPair(v.protocol, w.protocol)],
               m[(v.symbol, w.symbol) := TokenPair(v.protocol, w.protocol)],
               (w.symbol, v.symbol), TokenPair(w.protocol, v.protocol));
  }

  /** Entries filed under their symbols, and AllTokens the union of the two tables. */
  ghost predicate Sound(t: Tables) {
    Filed(t.tokens) && Filed(t.markets) && t.all == Merged(t)
  }

  /** The rebuilt pairs met so far: those of finished markets, and of market `v` with some tokens. */
  predicate Met(done: set<string>, v: string, with: set<string>, k: Key) {
    k.0 in done || k.1 in done || (k.0 == v && k.1 in with) || (k.1 == v && k.0 in with)
  }

  ghost predicate Covers(m: map<Key, TokenPair>, t: Tables, done: set<string>, v: string, with: set<string>) {
    && (forall k <- m :: IsPair(t, k) && m[k] == PairOf(Merged(t), k))
    && (forall k: Key :: k in m <==> IsPair(t, k) && Met(done, v, with, k))
  }

  lemma CoversStep(m: map<Key, TokenPair>, t: Tables, done: set<string>, v: string, with: set<string>, w: string)
    requires Sound(t) && v in t.markets && w in Merged(t) && Covers(m, t, done, v, with)
    ensures v == w ==> Covers(m, t, done, v, with + {w})
    ensures v != w ==> Covers(BothKeys(m, t.markets[v], Merged(t)[w]), t, done, v, with + {w})
  {
  }

  lemma CoversMarket(m: map<Key, TokenPair>, t: Tables, done: set<string>, v: string)
    requires v in t.markets && Covers(m, t, done, v, Merged(t).Keys)
    ensures forall v' :: Covers(m, t, done + {v}, v', {})
  {
  }

  lemma CoversAll(m: map<Key, TokenPair>, t: Tables, v: string)
    requires Covers(m, t, t.markets.Keys, v, {})
    ensures m == Rebuilt(t)
  {
    hide Rebuilt;
    forall k: Key
      ensures k in m <==> k in Rebuilt(t)
      ensures k in m ==> m[k] == Rebuilt(t)[k]
    {
      RebuiltAt(t, k);
    }
  }

  /** The last block of getTokenAndMarketFromDB: every market with every other token, then the values. */
  method RebuildPairs(t: Tables) returns (pairs: seq<TokenPair>)
    requires Sound(t)
    ensures ListedFor(multiset(pairs), Rebuilt(t))
  {
    hide Bag, Rebuilt, Renamed, Covers;
    var named: map<string, TokenPair> := map[];
    ghost var m: map<Key, TokenPair> := map[];
    NothingMet(t);
    var todo := t.markets.Keys;
    while todo != {}
      invariant todo <= t.markets.Keys
      invariant Renamed(named, m)
      invariant forall v :: Covers(m, t, t.markets.Keys - todo, v, {})
    {
      var v :| v in todo;
      named, m := PairsOfMarket(t, v, named, m, t.markets.Keys - todo);
      CoversMarket(m, t, t.markets.Keys - todo, v);
      assert t.markets.Keys - todo + {v} == t.markets.Keys - (todo - {v});
      todo := todo - {v};
    }
    assert t.markets.Keys - {} == t.markets.Keys;
    CoversAll(m, t, "");
    pairs := AppendValues([], named);
    assert multiset(pairs) == Bag(named);
  }

  lemma NothingMet(t: Tables)
    ensures Renamed(map[], map[])
    ensures forall v :: Covers(map[], t, {}, v, {})
    ensures t.markets.Keys - t.markets.Keys == {}
  {
  }

  method PairsOfMarket(
    t: Tables, v: string, named0: map<string, TokenPair>, ghost m0: map<Key, TokenPair>, ghost done: set<string>)
    returns (named: map<string, TokenPair>, ghost m: map<Key, TokenPair>)
    requires Sound(t) && v in t.markets && Renamed(named0, m0) && Covers(m0, t, done, v, {})
    ensures Renamed(named, m) && Covers(m, t, done, v, Merged(t).Keys)
  {
    hide Renamed, Covers;
    named, m := named0, m0;
    var todo := t.all.Keys;
    assert t.all.Keys - todo == {};
    while todo != {}
      invariant todo <= t.all.Keys
      invariant Renamed(named, m) && Covers(m, t, done, v, t.all.Keys - todo)
    {
      var w :| w in todo;
      CoversStep(m, t, done, v, t.all.Keys - todo, w);
      if t.markets[v].symbol != t.all[w].symbol {
        RenamedBoth(named, m, t.markets[v], t.all[w]);
        named, m := BothWays(named, t.markets[v], t.all[w]), BothKeys(m, t.markets[v], t.all[w]);
      }
      assert t.all.Keys - todo + {w} == t.all.Keys - (todo - {w});
      todo := todo - {w};
    }
    assert t.all.Keys - {} == t.all.Keys;
  }

  /** Symbols without a dash never share a name. */
  lemma PlainPairs(t: Tables)
    requires AllPlain(Merged(t))
    ensures DistinctNames(Rebuilt(t))
  {
    hide Rebuilt, DistinctNames, Plain;
    forall k | k in Rebuilt(t)
      ensures Plain(k.0) && Plain(k.1)
    {
      RebuiltAt(t, k);
    }
    PlainNames(Rebuilt(t));
  }

  lemma PlainAdded(markets: map<string, Token>, token: Token)
    requires AllPlain(markets) && Plain(token.symbol)
    ensures DistinctNames(Added(markets, token))
  {
    hide Added, DistinctNames, Plain;
    forall k | k in Added(markets, token)
      ensures Plain(k.0) && Plain(k.1)
    {
      AddedAt(markets, token, k);
    }
    PlainNames(Added(markets, token));
  }

  /** Symbols with a dash can: the market "A" and a token "A-A" lose one of their two pairs. */
  lemma DashLosesPair(t: Tables)
    requires "A" in t.markets && "A-A" in Merged(t)
    ensures !DistinctNames(Rebuilt(t))
  {
    hide Rebuilt;
    var j, k := ("A", "A-A"), ("A-A", "A");
    assert |j.0| != |j.1|;
    assert Join(j.0, j.1) == "A-A-A" == Join(k.0, k.1);
    RebuiltAt(t, j);
    RebuiltAt(t, k);
  }

  // ----- listing the markets -----

  ghost function NamesOf(ks: set<string>, ms: set<string>): set<string> {
    set k, m | k in ks && m in ms && Listed(k, m) :: Join(k, m)
  }

  lemma NamesOfMore(ks: set<string>, k: string, ms: set<string>)
    ensures NamesOf(ks + {k}, ms) == NamesOf(ks, ms) + NamesOf({k}, ms)
  {
  }

  lemma NamesOfOne(k: string, ms: set<string>, m: string)
    ensures NamesOf({k}, ms + {m}) == NamesOf({k}, ms) + (if Listed(k, m) then {Join(k, m)} else {})
  {
    assert forall n <- NamesOf({k}, ms) :: n in NamesOf({k}, ms + {m});
    if Listed(k, m) {
      assert Join(k, m) in NamesOf({k}, ms + {m});
    }
  }

  lemma NameIsNew(ks: set<string>, ms': set<string>, k: string, ms: set<string>, m: string)
    requires Plain(k) && Plain(m) && (forall x <- ks + ms + ms' :: Plain(x)) && k !in ks && m !in ms
    ensures Join(k, m) !in NamesOf(ks, ms') + NamesOf({k}, ms)
  {
    if Join(k, m) in NamesOf(ks, ms') {
      var k', m' :| k' in ks && m' in ms' && Join(k, m) == Join(k', m');
      JoinInjective(k, m, k', m');
    }
    if Join(k, m) in NamesOf({k}, ms) {
      var m' :| m' in ms && Join(k, m) == Join(k, m');
      JoinInjective(k, m, k, m');
    }
  }

  /** The names of a list, and, if symbols are plain, each name only once. */
  ghost predicate Holds(names: seq<string>, t: Tables, expected: set<string>) {
    && (forall n :: n in names <==> n in expected)
    && (AllPlain(t.all) ==> multiset(names) == multiset(expected))
  }

  lemma HoldsMore(names: seq<string>, t: Tables, expected: set<string>, n: string)
    requires Holds(names, t, expected) && (AllPlain(t.all) ==> n !in expected)
    ensures Holds(names + [n], t, expected + {n})
  {
  }

  /** The market block of getTokenAndMarketFromDB: the listed names, each once if symbols hold no dash. */
  method ListMarkets(t: Tables) returns (names: seq<string>)
    requires Sound(t)
    ensures Holds(names, t, ListedNames(t))
  {
    hide NamesOf, Listed, Join;
    names := [];
    var todo := t.all.Keys;
    NoNames(t);
    while todo != {}
      invariant todo <= t.all.Keys
      invariant Holds(names, t, NamesOf(t.all.Keys - todo, t.markets.Keys))
    {
      var k :| k in todo;
      names := MarketsOfToken(t, k, t.all.Keys - todo, names);
      NamesOfMore(t.all.Keys - todo, k, t.markets.Keys);
      assert t.all.Keys - todo + {k} == t.all.Keys - (todo - {k});
      todo := todo - {k};
    }
    assert t.all.Keys - {} == t.all.Keys;
    NamesOfAll(t);
  }

  lemma NoNames(t: Tables)
    ensures NamesOf(t.all.Keys - t.all.Keys, t.markets.Keys) == {}
    ensures forall k :: NamesOf({k}, t.markets.Keys - t.markets.Keys) == {}
  {
  }

  lemma NamesOfAll(t: Tables)
    ensures NamesOf(t.all.Keys, t.markets.Keys) == ListedNames(t)
  {
    assert forall n <- ListedNames(t) :: n in NamesOf(t.all.Keys, t.markets.Keys);
  }

  method MarketsOfToken(t: Tables, k: string, ghost done: set<string>, names0: seq<string>) returns (names: seq<string>)
    requires Sound(t) && k in t.all && done <= t.all.Keys && k !in done
    requires Holds(names0, t, NamesOf(done, t.markets.Keys))
    ensures Holds(names, t, NamesOf(done, t.markets.Keys) + NamesOf({k}, t.markets.Keys))
  {
    hide NamesOf, Join, Holds, Plain;
    names := names0;
    var todo := t.markets.Keys;
    NoNames(t);
    ghost var before := NamesOf(done, t.markets.Keys);
    assert before + {} == before;
    while todo != {}
      invariant todo <= t.markets.Keys
      invariant Holds(names, t, before + NamesOf({k}, t.markets.Keys - todo))
    {
      var m :| m in todo;
      ghost var ms := t.markets.Keys - todo;
      NamesOfOne(k, ms, m);
      if AllPlain(t.all) {
        NameIsNew(done, t.markets.Keys, k, ms, m);
      }
      if Listed(k, m) {
        HoldsMore(names, t, before + NamesOf({k}, ms), Join(k, m));
      }
      assert ms + {m} == t.markets.Keys - (todo - {m});
      if HasBaseOrder(k) {
        if BaseOrder(k) < BaseOrder(m) {
          names := names + [Join(k, m)];
        }
      } else {
        names := names + [Join(k, m)];
      }
      assert Listed(k, m) ==> before + (NamesOf({k}, ms) + {Join(k, m)}) == (before + NamesOf({k}, ms)) + {Join(k, m)};
      assert !Listed(k, m) ==> NamesOf({k}, ms) + {} == NamesOf({k}, ms);
      todo := todo - {m};
    }
    assert t.markets.Keys - {} == t.markets.Keys;
  }

  // ----- reading the token list -----

  /** One entry of the token file, its address already parsed. */
  datatype Entry = Entry(protocol: Address, symbol: string, deny: bool, decimals: nat, isMarket: bool)

  function Convert(e: Entry): Token {
    Token(e.protocol, ToUpper(e.symbol), e.isMarket, Some(e.decimals))
  }

  /** The entries that are not denied and are (or are not) markets, a later one replacing an earlier. */
  function TableOf(list: seq<Entry>, market: bool): map<string, Token> {
    if list == [] then map[] else
    var e, table := list[|list| - 1], TableOf(list[..|list| - 1], market);
    if e.deny || e.isMarket != market then table else table[ToUpper(e.symbol) := Convert(e)]
  }

  lemma {:induction false} TableOfFiled(list: seq<Entry>, market: bool)
    ensures Filed(TableOf(list, market))
  {
    if list != [] {
      var e := list[|list| - 1];
      TableOfFiled(list[..|list| - 1], market);
      ToUpperTwice(e.symbol);
    }
  }

  /** Entry i is the one that counts for its symbol: not denied, in this table, and none after it replaces it. */
  ghost predicate Counts(list: seq<Entry>, market: bool, i: nat) {
    && i < |list| && !list[i].deny && list[i].isMarket == market
    && forall j :: i < j < |list| && ToUpper(list[j].symbol) == ToUpper(list[i].symbol) ==>
         list[j].deny || list[j].isMarket != market
  }

  /** Each table holds exactly the entries that count. */
  lemma {:induction false} TableOfExactly(list: seq<Entry>, market: bool, k: string)
    ensures k in TableOf(list, market) <==>
      exists i :: 0 <= i < |list| && Counts(list, market, i) && ToUpper(list[i].symbol) == k
    ensures forall i :: 0 <= i < |list| && Counts(list, market, i) && ToUpper(list[i].symbol) == k ==>
      && k in TableOf(list, market)
      && TableOf(list, market)[k] == Token(list[i].protocol, k, market, Some(list[i].decimals))
  {
    hide ToUpper, Counts;
    if list != [] {
      var n := |list| - 1;
      TableOfExactly(list[..n], market, k);
      forall i | 0 <= i < |list|
        ensures i < n ==> (Counts(list, market, i) <==>
          Counts(list[..n], market, i)
          && !(TakenBy(list[n], market) && ToUpper(list[n].symbol) == ToUpper(list[i].symbol)))
        ensures i == n ==> (Counts(list, market, i) <==> TakenBy(list[n], market))
      {
        CountsNext(list, market, i);
      }
    }
  }

  predicate TakenBy(e: Entry, market: bool) {
    !e.deny && e.isMarket == market
  }

  lemma CountsNext(list: seq<Entry>, market: bool, i: nat)
    requires i < |list|
    ensures var n := |list| - 1;
      && (i < n ==> (Counts(list, market, i) <==>
            Counts(list[..n], market, i)
            && !(TakenBy(list[n], market) && ToUpper(list[n].symbol) == ToUpper(list[i].symbol))))
      && (i == n ==> (Counts(list, market, i) <==> TakenBy(list[n], market)))
  {
    hide ToUpper;
  }

  method ReadList(list: seq<Entry>) returns (tokens: map<string, Token>, markets: map<string, Token>)
    ensures tokens == TableOf(list, false) && markets == TableOf(list, true)
  {
    tokens, markets := map[], map[];
    for i := 0 to |list|
      invariant tokens == TableOf(list[..i], false) && markets == TableOf(list[..i], true)
    {
      assert list[..i + 1][..i] == list[..i];
      if !list[i].deny {
        var t := Convert(list[i]);
        if t.isMarket {
          markets := markets[t.symbol := t];
        } else {
          tokens := tokens[t.symbol := t];
        }
      }
    }
    assert list[..|list|] == list;
  }

  /** Copies a table into another, as the two loops that fill AllTokens do. */
  method CopyInto(all0: map<string, Token>, table: map<string, Token>) returns (all: map<string, Token>)
    ensures all == all0 + table
  {
    all := all0;
    var todo := table.Keys;
    while todo != {}
      invariant todo <= table.Keys
      invariant all == all0 + (table - todo)
    {
      var k :| k in todo;
      all := all[k := table[k]];
      todo := todo - {k};
    }
    assert table - {} == table;
  }

  // ----- the package variables -----

  class Index {
    var supportTokens: map<string, Token>
    var supportMarkets: map<string, Token>
    var allTokens: map<string, Token>
    var allMarkets: seq<string>
    var allTokenPairs: seq<TokenPair>

    ghost function Abs(): Snapshot
      reads this
    {
      Snapshot(Tables(supportTokens, supportMarkets, allTokens), multiset(allTokenPairs))
    }

    /** getTokenAndMarketFromDB after the file has been read. */
    constructor (list: seq<Entry>)
      ensures supportTokens == TableOf(list, false) && supportMarkets == TableOf(list, true)
      ensures Sound(Abs().t)
      ensures ListedFor(Abs().pairs, Rebuilt(Abs().t))
      ensures Agrees(Abs()) <==> DistinctNames(Rebuilt(Abs().t))
      ensures Holds(allMarkets, Abs().t, ListedNames(Abs().t))
    {
      hide Bag, Rebuilt, ListedNames, ListedFor, DistinctNames, Holds;
      var tokens, markets := ReadList(list);
      TableOfFiled(list, true);
      TableOfFiled(list, false);
      var all := CopyInto(map[], tokens);
      assert all == tokens;
      all := CopyInto(all, markets);
      var t := Tables(tokens, markets, all);
      var names := ListMarkets(t);
      var pairs := RebuildPairs(t);
      ListedExactly(multiset(pairs), Rebuilt(t));
      supportTokens, supportMarkets, allTokens := tokens, markets, all;
      allMarkets, allTokenPairs := names, pairs;
    }

    /** The event's effect is the register step exactly when no two added pairs share a name. */
    method TokenRegister(symbol: string, a: Address) returns (ghost added: multiset<TokenPair>)
      requires Filed(supportMarkets)
      modifies `supportTokens, `allTokens, `allTokenPairs
      ensures Abs().t == Register(old(Abs()), symbol, a).t
      ensures Abs().pairs == old(Abs().pairs) + added && ListedFor(added, Added(supportMarkets, Registered(symbol, a)))
      ensures Abs() == Register(old(Abs()), symbol, a) <==> DistinctNames(Added(supportMarkets, Registered(symbol, a)))
    {
      hide Bag, Added, DistinctNames, Renamed;
      var token := Registered(symbol, a);
      supportTokens := supportTokens[token.symbol := token];
      allTokens := allTokens[token.symbol := token];
      var named := PairsOfToken(supportMarkets, token);
      allTokenPairs := AppendValues(allTokenPairs, named);
      added := Bag(named);
      ListedExactly(added, Added(supportMarkets, token));
      if old(Abs().pairs) + added == old(Abs().pairs) + Bag(Added(supportMarkets, token)) {
        SameAddition(old(Abs().pairs), added, Bag(Added(supportMarkets, token)));
      }
    }

    method TokenUnRegister(symbol: string, a: Address)
      modifies `supportTokens, `allTokens, `allTokenPairs
      ensures Abs() == UnRegister(old(Abs()), symbol, a)
    {
      supportTokens := supportTokens - {ToUpper(symbol)};
      allTokens := allTokens - {ToUpper(symbol)};
      allTokenPairs := DropAddress(allTokenPairs, a);
    }
  }

  lemma SameAddition(a: multiset<TokenPair>, b: multiset<TokenPair>, c: multiset<TokenPair>)
    requires a + b == a + c
    ensures b == c
  {
    assert (a + b) - a == b && (a + c) - a == c;
  }

  ghost predicate CoversAdded(m: map<Key, TokenPair>, markets: map<string, Token>, token: Token, done: set<string>) {
    && (forall k <- m :: m[k] == AddedPair(markets, token, k))
    && (forall k: Key :: k in m <==> ((k.0 == token.symbol && k.1 in done) || (k.1 == token.symbol && k.0 in done)))
  }

  lemma CoversAddedStep(m: map<Key, TokenPair>, markets: map<string, Token>, token: Token, done: set<string>, v: string)
    requires Filed(markets) && v in markets && CoversAdded(m, markets, token, done)
    ensures CoversAdded(BothKeys(m, markets[v], token), markets, token, done + {v})
  {
  }

  lemma CoversAddedAll(m: map<Key, TokenPair>, markets: map<string, Token>, token: Token)
    requires CoversAdded(m, markets, token, markets.Keys)
    ensures m == Added(markets, token)
  {
    hide Added;
    forall k: Key
      ensures k in m <==> k in Added(markets, token)
      ensures k in m ==> m[k] == Added(markets, token)[k]
    {
      AddedAt(markets, token, k);
    }
  }

  /** The pairs map of a register event. */
  method PairsOfToken(markets: map<string, Token>, token: Token) returns (named: map<string, TokenPair>)
    requires Filed(markets)
    ensures Renamed(named, Added(markets, token))
  {
    hide Renamed, Added;
    named := map[];
    ghost var m: map<Key, TokenPair> := map[];
    NothingMet(Tables(map[], markets, markets));
    var todo := markets.Keys;
    assert CoversAdded(m, markets, token, markets.Keys - todo);
    hide CoversAdded;
    while todo != {}
      invariant todo <= markets.Keys
      invariant Renamed(named, m) && CoversAdded(m, markets, token, markets.Keys - todo)
    {
      var v :| v in todo;
      CoversAddedStep(m, markets, token, markets.Keys - todo, v);
      RenamedBoth(named, m, markets[v], token);
      named, m := BothWays(named, markets[v], token), BothKeys(m, markets[v], token);
      assert markets.Keys - todo + {v} == markets.Keys - (todo - {v});
      todo := todo - {v};
    }
    assert markets.Keys - {} == markets.Keys;
    CoversAddedAll(m, markets, token);
  }

  /** The filter loop of an unregister event. */
  method DropAddress(pairs: seq<TokenPair>, a: Address) returns (list: seq<TokenPair>)
    ensures multiset(list) == Without(multiset(pairs), a)
  {
    list := [];
    for i := 0 to |pairs|
      invariant forall p :: multiset(list)[p] == if Touches(p, a) then 0 else multiset(pairs[..i])[p]
    {
      assert pairs[..i + 1] == pairs[..i] + [pairs[i]];
      if !(pairs[i].tokenS == a || pairs[i].tokenB == a) {
        list := list + [pairs[i]];
      }
    }
    assert pairs[..|pairs|] == pairs;
    WithoutIs(multiset(pairs), a, multiset(list));
  }
}
