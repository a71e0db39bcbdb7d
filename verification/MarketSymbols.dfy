/** Market names: "TOKEN-MARKET" strings, taken apart and put together (marketutil/marketutil.go). */
module MarketSymbols {

  /** strings.ToUpper on ASCII letters; any other character stays. */
  function UpperChar(c: char): char {
    if 'a' <= c <= 'z' then c - 'a' + 'A' else c
  }

  function ToUpper(s: string): (r: string)
    ensures |r| == |s|
  {
    seq(|s|, i requires 0 <= i < |s| => UpperChar(s[i]))
  }

  /** unicode.IsSpace on Latin-1. */
  predicate IsSpace(c: char) {
    c == ' ' || '\t' <= c <= '\r' || c == 0x85 as char || c == 0xA0 as char
  }

  lemma Spaces(c: char)
    ensures IsSpace(c) <==>
      c as int in {0x20, 0x09, 0x0A, 0x0B, 0x0C, 0x0D, 0x85, 0xA0}
  {
  }

  function TrimLeft(s: string): string {
    if s != [] && IsSpace(s[0]) then TrimLeft(s[1..]) else s
  }

  function TrimRight(s: string): string {
    if s != [] && IsSpace(s[|s| - 1]) then TrimRight(s[..|s| - 1]) else s
  }

  function TrimSpace(s: string): string {
    TrimRight(TrimLeft(s))
  }

  /** strings.Split(s, "-"). */
  function Split(s: string): (r: seq<string>)
    ensures r != []
  {
    if s == [] then [""] else
    var r := Split(s[1..]);
    if s[0] == '-' then [""] + r else [[s[0]] + r[0]] + r[1..]
  }

  function Join(token: string, market: string): string {
    token + "-" + market
  }

  function UnWrap(market: string): (string, string) {
    var mkt := Split(TrimSpace(market));
    if |mkt| != 2 then ("", "") else (ToUpper(mkt[0]), ToUpper(mkt[1]))
  }

  function Dashes(s: string): nat {
    if s == [] then 0 else (if s[0] == '-' then 1 else 0) + Dashes(s[1..])
  }

  /** A symbol that can be told apart inside a market name. */
  predicate Plain(s: string) {
    '-' !in s
  }

  predicate NoSpaceBefore(s: string) {
    s != [] ==> !IsSpace(s[0])
  }

  predicate NoSpaceAfter(s: string) {
    s != [] ==> !IsSpace(s[|s| - 1])
  }

  // ----- upper case -----

  lemma ToUpperTwice(s: string)
    ensures ToUpper(ToUpper(s)) == ToUpper(s)
  {
  }

  lemma ToUpperPlain(s: string)
    ensures Plain(ToUpper(s)) <==> Plain(s)
  {
    forall i | 0 <= i < |s|
      ensures ToUpper(s)[i] == '-' <==> s[i] == '-'
    {
    }
    if !Plain(s) {
      var i :| 0 <= i < |s| && s[i] == '-';
      assert ToUpper(s)[i] == '-';
    }
  }

  // ----- splitting -----

  lemma {:induction false} DashesPlain(s: string)
    ensures Dashes(s) == 0 <==> Plain(s)
  {
    if s != [] {
      DashesPlain(s[1..]);
      assert s == [s[0]] + s[1..];
    }
  }

  lemma {:induction false} DashesConcat(a: string, b: string)
    ensures Dashes(a + b) == Dashes(a) + Dashes(b)
  {
    if a == [] {
      assert a + b == b;
    } else {
      DashesConcat(a[1..], b);
      assert (a + b)[1..] == a[1..] + b;
    }
  }

  /** One part more than there are dashes; two parts and their dash make up the string. */
  lemma {:induction false} SplitCount(s: string)
    ensures |Split(s)| == Dashes(s) + 1
    ensures |Split(s)| == 1 ==> |Split(s)[0]| == |s|
    ensures |Split(s)| == 2 ==> |Split(s)[0]| + |Split(s)[1]| + 1 == |s|
  {
    if s != [] {
      SplitCount(s[1..]);
    }
  }

  lemma {:induction false} SplitPlain(s: string)
    requires Plain(s)
    ensures Split(s) == [s]
  {
    if s != [] {
      SplitPlain(s[1..]);
      assert [s[0]] + s[1..] == s;
    }
  }

  lemma {:induction false} SplitJoin(x: string, y: string)
    requires Plain(x)
    ensures Split(Join(x, y)) == [x] + Split(y)
  {
    if x == [] {
      assert Join(x, y)[1..] == y;
    } else {
      SplitJoin(x[1..], y);
      assert Join(x, y)[1..] == Join(x[1..], y);
      assert [x[0]] + x[1..] == x;
    }
  }

  /** A market name determines its two plain symbols. */
  lemma JoinInjective(x: string, y: string, x': string, y': string)
    requires Plain(x) && Plain(y) && Plain(x') && Plain(y') && Join(x, y) == Join(x', y')
    ensures x == x' && y == y'
  {
    SplitJoin(x, y);
    SplitPlain(y);
    SplitJoin(x', y');
    SplitPlain(y');
    assert ([x] + [y])[0] == ([x'] + [y'])[0] && ([x] + [y])[1] == ([x'] + [y'])[1];
  }

  // ----- trimming -----

  lemma {:induction false} TrimLeftShape(s: string)
    ensures |TrimLeft(s)| <= |s| && Dashes(TrimLeft(s)) == Dashes(s)
    ensures TrimLeft(s) == s <==> NoSpaceBefore(s)
  {
    if s != [] && IsSpace(s[0]) {
      TrimLeftShape(s[1..]);
    }
  }

  lemma {:induction false} TrimRightShape(s: string)
    ensures |TrimRight(s)| <= |s| && Dashes(TrimRight(s)) == Dashes(s)
    ensures TrimRight(s) == s <==> NoSpaceAfter(s)
    ensures |TrimRight(s)| == |s| ==> TrimRight(s) == s
  {
    if s != [] && IsSpace(s[|s| - 1]) {
      var n := |s| - 1;
      TrimRightShape(s[..n]);
      DashesConcat(s[..n], [s[n]]);
      assert s == s[..n] + [s[n]];
    }
  }

  lemma {:induction false} TrimLeftShorter(s: string)
    ensures |TrimLeft(s)| == |s| ==> TrimLeft(s) == s
  {
    if s != [] && IsSpace(s[0]) {
      TrimLeftShape(s[1..]);
    }
  }

  lemma TrimSpaceShape(s: string)
    ensures Dashes(TrimSpace(s)) == Dashes(s)
    ensures |TrimSpace(s)| <= |s|
    ensures |TrimSpace(s)| == |s| ==> TrimSpace(s) == s
    ensures TrimSpace(s) == s <==> NoSpaceBefore(s) && NoSpaceAfter(s)
  {
    TrimLeftShape(s);
    TrimLeftShorter(s);
    TrimRightShape(TrimLeft(s));
  }

  /**
   UnWrap undoes the "token-market" format exactly when neither symbol holds a dash and no space
   stands at either end.
   */
  lemma UnWrapJoin(x: string, y: string)
    ensures UnWrap(Join(x, y)) == (ToUpper(x), ToUpper(y))
       <==> Plain(x) && Plain(y) && NoSpaceBefore(x) && NoSpaceAfter(y)
  {
    var m := Join(x, y);
    var t := TrimSpace(m);
    TrimSpaceShape(m);
    assert NoSpaceBefore(m) && NoSpaceAfter(m) <==> NoSpaceBefore(x) && NoSpaceAfter(y);
    DashesConcat(x + "-", y);
    DashesConcat(x, "-");
    assert Dashes("-") == 1 + Dashes(""); 
    DashesPlain(x);
    DashesPlain(y);
    SplitCount(t);
    if Plain(x) && Plain(y) && t == m {
      SplitJoin(x, y);
      SplitPlain(y);
    }
  }
}
