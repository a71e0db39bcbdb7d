/** Building, packing, unpacking and reading back a submitRing call (eth/contract/method.go). */
module SubmitRing {
  import opened Results
  import opened Words
  import opened Orders
  import opened AbiTypes
  import opened AbiPack
  import opened AbiUnpack
  import opened AbiSpec
  import opened AbiRoundTrip
  import opened AbiLayout
  import FeeSelection

  // ----- the call's arguments -----

  /** The Go array [4]common.Address of one order. */
  datatype Addresses = Addresses(owner: Address, tokenS: Address, wallet: Address, authAddr: Address)

  /** The Go array [6]*big.Int of one order. */
  datatype Uints = Uints(amountS: int, amountB: int, validSince: int, validUntil: int, lrcFee: int, rateAmountS: int)

  type uint16 = n: nat | n < 0x1_0000

  /** SubmitRingMethodInputs, field by field in the order of the fieldId tags. */
  datatype Inputs = Inputs(
    addressList: seq<Addresses>, uintArgsList: seq<Uints>, uint8ArgsList: seq<byte>, buyNoMoreThanBList: seq<bool>,
    vList: seq<byte>, rList: seq<Word32>, sList: seq<Word32>, feeRecipient: Address, feeSelections: uint16)

  const UINT8 := UintTy(8)
  const BYTES32 := FixedBytesTy(32)

  /** The argument types of submitRing. */
  function Types(): seq<Ty> {
    [ SliceTy(ArrayTy(4, AddressTy)), SliceTy(ArrayTy(6, UintTy(256))), SliceTy(ArrayTy(1, UINT8)), SliceTy(BoolTy),
      SliceTy(UINT8), SliceTy(BYTES32), SliceTy(BYTES32), AddressTy, UintTy(16) ]
  }

  function AddressesVal(a: Addresses): Val {
    List(true, [ByteArray(a.owner), ByteArray(a.tokenS), ByteArray(a.wallet), ByteArray(a.authAddr)])
  }

  function UintsVal(u: Uints): Val {
    List(true, [Num(BigPtr, u.amountS), Num(BigPtr, u.amountB), Num(BigPtr, u.validSince), Num(BigPtr, u.validUntil),
                Num(BigPtr, u.lrcFee), Num(BigPtr, u.rateAmountS)])
  }

  function Uint8Val(b: byte): Val {
    Num(NativeInt(false, 8), b)
  }

  function MarginVal(b: byte): Val {
    List(true, [Uint8Val(b)])
  }

  function BoolVal(b: bool): Val {
    Bool(b)
  }

  function WordVal(w: Word32): Val {
    ByteArray(w)
  }

  function Map<A, B>(f: A -> B, xs: seq<A>): (r: seq<B>)
    ensures |r| == |xs| && forall i :: 0 <= i < |xs| ==> r[i] == f(xs[i])
  {
    seq(|xs|, i requires 0 <= i < |xs| => f(xs[i]))
  }

  /** A Go slice of values. */
  function ListVal<T>(f: T -> Val, xs: seq<T>): Val {
    List(false, Map(f, xs))
  }

  /** The values of the fields, by position; unpackTuple assigns decoded values to the fields the same way. */
  function Values(x: Inputs): seq<Val> {
    [ ListVal(AddressesVal, x.addressList), ListVal(UintsVal, x.uintArgsList), ListVal(MarginVal, x.uint8ArgsList),
      ListVal(BoolVal, x.buyNoMoreThanBList), ListVal(Uint8Val, x.vList), ListVal(WordVal, x.rList),
      ListVal(WordVal, x.sList), ByteArray(x.feeRecipient), Num(NativeInt(false, 16), x.feeSelections) ]
  }

  function Reduce(u: Uints): Uints {
    Uints(u.amountS % TWO_256, u.amountB % TWO_256, u.validSince % TWO_256, u.validUntil % TWO_256,
          u.lrcFee % TWO_256, u.rateAmountS % TWO_256)
  }

  /** What the wire keeps of the inputs: the integers modulo 2^256. */
  function Reduced(x: Inputs): Inputs {
    x.(uintArgsList := Map(Reduce, x.uintArgsList))
  }

  // ----- the values are well typed -----

  lemma ListTyped<T>(f: T -> Val, xs: seq<T>, t: Ty)
    requires forall i :: 0 <= i < |xs| ==> WellTyped(t, f(xs[i]))
    ensures WellTyped(SliceTy(t), ListVal(f, xs))
  {
    hide WellTyped;
    var vs := ListVal(f, xs).elems;
    assert forall i :: 0 <= i < |vs| ==> vs[i] == f(xs[i]);
    SliceTyped(t, vs);
  }

  lemma SliceTyped(t: Ty, vs: seq<Val>)
    requires forall i :: 0 <= i < |vs| ==> WellTyped(t, vs[i])
    ensures WellTyped(SliceTy(t), List(false, vs))
  {
  }

  lemma AddressTyped(a: Address)
    ensures WellTyped(AddressTy, ByteArray(a))
  {
  }

  lemma ArrayTyped(t: Ty, vs: seq<Val>)
    requires forall i :: 0 <= i < |vs| ==> WellTyped(t, vs[i])
    ensures WellTyped(ArrayTy(|vs|, t), List(true, vs))
  {
  }

  lemma AddressListTyped(xs: seq<Addresses>)
    ensures WellTyped(SliceTy(ArrayTy(4, AddressTy)), ListVal(AddressesVal, xs))
  {
    hide WellTyped, ListVal;
    forall i | 0 <= i < |xs| ensures WellTyped(ArrayTy(4, AddressTy), AddressesVal(xs[i])) {
      var vs := AddressesVal(xs[i]).elems;
      AddressTyped(xs[i].owner);
      AddressTyped(xs[i].tokenS);
      AddressTyped(xs[i].wallet);
      AddressTyped(xs[i].authAddr);
      ArrayTyped(AddressTy, vs);
    }
    ListTyped(AddressesVal, xs, ArrayTy(4, AddressTy));
  }

  lemma BigTyped(n: int)
    ensures WellTyped(UintTy(256), Num(BigPtr, n))
  {
  }

  lemma UintListTyped(xs: seq<Uints>)
    ensures WellTyped(SliceTy(ArrayTy(6, UintTy(256))), ListVal(UintsVal, xs))
  {
    hide WellTyped, ListVal;
    forall i | 0 <= i < |xs| ensures WellTyped(ArrayTy(6, UintTy(256)), UintsVal(xs[i])) {
      var vs := UintsVal(xs[i]).elems;
      forall n: int ensures WellTyped(UintTy(256), Num(BigPtr, n)) {
        BigTyped(n);
      }
      ArrayTyped(UintTy(256), vs);
    }
    ListTyped(UintsVal, xs, ArrayTy(6, UintTy(256)));
  }

  lemma ByteTyped(b: byte)
    ensures WellTyped(UINT8, Uint8Val(b))
  {
    Pow256Words();
  }

  lemma MarginListTyped(xs: seq<byte>)
    ensures WellTyped(SliceTy(ArrayTy(1, UINT8)), ListVal(MarginVal, xs))
  {
    hide WellTyped, ListVal;
    forall i | 0 <= i < |xs| ensures WellTyped(ArrayTy(1, UINT8), MarginVal(xs[i])) {
      ByteTyped(xs[i]);
      ArrayTyped(UINT8, MarginVal(xs[i]).elems);
    }
    ListTyped(MarginVal, xs, ArrayTy(1, UINT8));
  }

  lemma ByteListTyped(xs: seq<byte>)
    ensures WellTyped(SliceTy(UINT8), ListVal(Uint8Val, xs))
  {
    hide WellTyped, ListVal;
    forall i | 0 <= i < |xs| ensures WellTyped(UINT8, Uint8Val(xs[i])) {
      ByteTyped(xs[i]);
    }
    ListTyped(Uint8Val, xs, UINT8);
  }

  lemma BoolListTyped(xs: seq<bool>)
    ensures WellTyped(SliceTy(BoolTy), ListVal(BoolVal, xs))
  {
    ListTyped(BoolVal, xs, BoolTy);
  }

  lemma WordListTyped(xs: seq<Word32>)
    ensures WellTyped(SliceTy(BYTES32), ListVal(WordVal, xs))
  {
    ListTyped(WordVal, xs, BYTES32);
  }

  lemma MaskTyped(n: uint16)
    ensures WellTyped(UintTy(16), Num(NativeInt(false, 16), n))
  {
    Pow256Words();
  }

  lemma ValuesTyped(x: Inputs)
    ensures var ts, vs := Types(), Values(x);
            forall i :: 0 <= i < 9 ==> WellTyped(ts[i], vs[i])
  {
    hide WellTyped, ListVal;
    AddressListTyped(x.addressList);
    UintListTyped(x.uintArgsList);
    MarginListTyped(x.uint8ArgsList);
    BoolListTyped(x.buyNoMoreThanBList);
    ByteListTyped(x.vList);
    WordListTyped(x.rList);
    WordListTyped(x.sList);
    AddressTyped(x.feeRecipient);
    MaskTyped(x.feeSelections);
  }

  lemma {:induction false} ArgsByIndex(ts: seq<Ty>, vs: seq<Val>)
    requires |ts| == |vs| && forall i :: 0 <= i < |ts| ==> ts[i].Supported() && WellTyped(ts[i], vs[i])
    requires forall i :: 0 <= i < |ts| ==> Packable(ts[i], vs[i]) && !DeepArray(ts[i])
    ensures SupportedArgs(ts, vs) && PackableArgs(ts, vs) && !HasDeepArray(ts)
  {
    hide WellTyped, Packable, DeepArray;
    if ts != [] {
      ArgsByIndex(ts[1..], vs[1..]);
    }
  }

  lemma TypesSupported()
    ensures forall t <- Types() :: t.Supported() && !DeepArray(t)
  {
  }

  /** An empty ring makes the encoder panic; any other ring of inputs is in the codec's fragment. */
  lemma InputsSupported(x: Inputs)
    requires x.addressList != [] && x.uintArgsList != [] && x.uint8ArgsList != []
    ensures SupportedArgs(Types(), Values(x)) && PackableArgs(Types(), Values(x)) && !HasDeepArray(Types())
  {
    hide WellTyped, ListVal, SupportedArgs, PackableArgs, HasDeepArray;
    var ts, vs := Types(), Values(x);
    ValuesTyped(x);
    TypesSupported();
    forall i | 0 <= i < 9 ensures Packable(ts[i], vs[i]) {
      ListNonEmpty(AddressesVal, x.addressList);
      ListNonEmpty(UintsVal, x.uintArgsList);
      ListNonEmpty(MarginVal, x.uint8ArgsList);
    }
    assert forall i :: 0 <= i < 9 ==> ts[i] in ts;
    ArgsByIndex(ts, vs);
  }

  lemma ListNonEmpty<T>(f: T -> Val, xs: seq<T>)
    ensures ListVal(f, xs).List? && |ListVal(f, xs).elems| == |xs|
  {
  }

  // ----- what comes back from the wire -----

  lemma {:induction false} CanonAt(vs: seq<Val>, i: nat)
    requires i < |vs|
    ensures CanonAll(vs)[i] == Canon(vs[i])
  {
    if i > 0 {
      CanonAt(vs[1..], i - 1);
    }
  }

  lemma CanonList<T>(f: T -> Val, xs: seq<T>, ys: seq<T>)
    requires |xs| == |ys| && forall i :: 0 <= i < |xs| ==> Canon(f(xs[i])) == f(ys[i])
    ensures Canon(ListVal(f, xs)) == ListVal(f, ys)
  {
    var vs, ws := ListVal(f, xs).elems, ListVal(f, ys).elems;
    forall i | 0 <= i < |vs| ensures CanonAll(vs)[i] == ws[i] {
      CanonAt(vs, i);
    }
    assert CanonAll(vs) == ws;
  }

  lemma CanonByIndex(vs: seq<Val>, ws: seq<Val>)
    requires |vs| == |ws| && forall i :: 0 <= i < |vs| ==> Canon(vs[i]) == ws[i]
    ensures CanonAll(vs) == ws
  {
    forall i | 0 <= i < |vs| ensures CanonAll(vs)[i] == ws[i] {
      CanonAt(vs, i);
    }
  }

  lemma CanonAddresses(a: Addresses)
    ensures Canon(AddressesVal(a)) == AddressesVal(a)
  {
    CanonByIndex(AddressesVal(a).elems, AddressesVal(a).elems);
  }

  lemma CanonUints(u: Uints)
    ensures Canon(UintsVal(u)) == UintsVal(Reduce(u))
  {
    CanonByIndex(UintsVal(u).elems, UintsVal(Reduce(u)).elems);
  }

  lemma CanonMargin(b: byte)
    ensures Canon(MarginVal(b)) == MarginVal(b)
  {
    CanonByIndex(MarginVal(b).elems, MarginVal(b).elems);
  }

  lemma CanonValues(x: Inputs)
    ensures CanonAll(Values(x)) == Values(Reduced(x))
  {
    hide ListVal, Canon, AddressesVal, UintsVal, MarginVal, Reduce;
    var y := Reduced(x);
    forall i | 0 <= i < |x.addressList|
      ensures Canon(AddressesVal(x.addressList[i])) == AddressesVal(y.addressList[i]) {
      CanonAddresses(x.addressList[i]);
    }
    forall i | 0 <= i < |x.uintArgsList| ensures Canon(UintsVal(x.uintArgsList[i])) == UintsVal(y.uintArgsList[i]) {
      CanonUints(x.uintArgsList[i]);
    }
    forall i | 0 <= i < |x.uint8ArgsList|
      ensures Canon(MarginVal(x.uint8ArgsList[i])) == MarginVal(y.uint8ArgsList[i]) {
      CanonMargin(x.uint8ArgsList[i]);
    }
    CanonList(AddressesVal, x.addressList, y.addressList);
    CanonList(UintsVal, x.uintArgsList, y.uintArgsList);
    CanonList(MarginVal, x.uint8ArgsList, y.uint8ArgsList);
    CanonLeaves(x, y);
    CanonByIndex(Values(x), Values(y));
  }

  lemma CanonLeaves(x: Inputs, y: Inputs)
    requires y == Reduced(x)
    ensures Canon(ListVal(BoolVal, x.buyNoMoreThanBList)) == ListVal(BoolVal, y.buyNoMoreThanBList)
    ensures Canon(ListVal(Uint8Val, x.vList)) == ListVal(Uint8Val, y.vList)
    ensures Canon(ListVal(WordVal, x.rList)) == ListVal(WordVal, y.rList)
    ensures Canon(ListVal(WordVal, x.sList)) == ListVal(WordVal, y.sList)
    ensures Canon(ByteArray(x.feeRecipient)) == ByteArray(y.feeRecipient)
    ensures Canon(Num(NativeInt(false, 16), x.feeSelections)) == Num(NativeInt(false, 16), y.feeSelections)
  {
    hide ListVal;
    CanonList(BoolVal, x.buyNoMoreThanBList, y.buyNoMoreThanBList);
    CanonList(Uint8Val, x.vList, y.vList);
    CanonList(WordVal, x.rList, y.rList);
    CanonList(WordVal, x.sList, y.sList);
  }

  lemma ListInjective<T>(f: T -> Val, xs: seq<T>, ys: seq<T>)
    requires ListVal(f, xs) == ListVal(f, ys)
    requires forall i :: 0 <= i < |xs| && i < |ys| && f(xs[i]) == f(ys[i]) ==> xs[i] == ys[i]
    ensures xs == ys
  {
    var vs, ws := ListVal(f, xs).elems, ListVal(f, ys).elems;
    assert |xs| == |vs| == |ws| == |ys|;
    forall i | 0 <= i < |xs| ensures xs[i] == ys[i] {
      assert f(xs[i]) == vs[i] == ws[i] == f(ys[i]);
    }
  }

  /** The struct whose fields are given values, by position, is determined by them. */
  lemma ValuesInjective(x: Inputs, y: Inputs)
    requires Values(x) == Values(y)
    ensures x == y
  {
    var vs, ws := Values(x), Values(y);
    assert vs[0] == ws[0] && vs[1] == ws[1] && vs[2] == ws[2] && vs[3] == ws[3] && vs[4] == ws[4];
    assert vs[5] == ws[5] && vs[6] == ws[6] && vs[7] == ws[7] && vs[8] == ws[8];
    hide ListVal, AddressesVal, UintsVal, MarginVal;
    forall a: Addresses, b: Addresses ensures AddressesVal(a) == AddressesVal(b) ==> a == b {
      AddressesInjective(a, b);
    }
    forall a: Uints, b: Uints ensures UintsVal(a) == UintsVal(b) ==> a == b {
      UintsInjective(a, b);
    }
    forall a: byte, b: byte ensures MarginVal(a) == MarginVal(b) ==> a == b {
      MarginInjective(a, b);
    }
    ListInjective(AddressesVal, x.addressList, y.addressList);
    ListInjective(UintsVal, x.uintArgsList, y.uintArgsList);
    ListInjective(MarginVal, x.uint8ArgsList, y.uint8ArgsList);
    ListInjective(BoolVal, x.buyNoMoreThanBList, y.buyNoMoreThanBList);
    ListInjective(Uint8Val, x.vList, y.vList);
    ListInjective(WordVal, x.rList, y.rList);
    ListInjective(WordVal, x.sList, y.sList);
  }

  lemma AddressesInjective(a: Addresses, b: Addresses)
    ensures AddressesVal(a) == AddressesVal(b) ==> a == b
  {
    var p, q := AddressesVal(a).elems, AddressesVal(b).elems;
    if p == q {
      assert p[0] == q[0] && p[1] == q[1] && p[2] == q[2] && p[3] == q[3];
    }
  }

  lemma UintsInjective(a: Uints, b: Uints)
    ensures UintsVal(a) == UintsVal(b) ==> a == b
  {
    var p, q := UintsVal(a).elems, UintsVal(b).elems;
    if p == q {
      assert p[0] == q[0] && p[1] == q[1] && p[2] == q[2] && p[3] == q[3] && p[4] == q[4] && p[5] == q[5];
    }
  }

  lemma MarginInjective(a: byte, b: byte)
    ensures MarginVal(a) == MarginVal(b) ==> a == b
  {
    var p, q := MarginVal(a).elems, MarginVal(b).elems;
    if p == q {
      assert p[0] == q[0];
    }
  }

  // ----- size -----

  /** Bytes of the slices among the arguments from `i` on. */
  function SliceBytes(ts: seq<Ty>, vs: seq<Val>, i: nat): nat
    requires |ts| == |vs|
    decreases |ts| - i
  {
    if i >= |ts| then 0 else
    (if ts[i].SliceTy? && vs[i].List? then 32 + |vs[i].elems| * (32 * WordCount(ts[i].elem)) else 0)
    + SliceBytes(ts, vs, i + 1)
  }

  lemma {:induction false} TailsSize(ts: seq<Ty>, vs: seq<Val>, i: nat)
    requires |ts| == |vs| && i <= |ts| && SupportedArgs(ts[i..], vs[i..])
    requires forall t <- ts :: !t.StringTy? && !t.BytesTy?
    ensures |Tails(ts[i..], vs[i..])| == SliceBytes(ts, vs, i)
    decreases |ts| - i
  {
    hide Enc, WellTyped, WordCount;
    if i < |ts| {
      assert ts[i..][1..] == ts[i + 1..] && vs[i..][1..] == vs[i + 1..];
      TailsSize(ts, vs, i + 1);
      TailSize(ts[i], vs[i]);
    }
  }

  lemma TailSize(t: Ty, v: Val)
    requires t.Supported() && WellTyped(t, v) && !t.StringTy? && !t.BytesTy?
    ensures |TailPart(t, Enc(t, v))| == if t.SliceTy? && v.List? then 32 + |v.elems| * (32 * WordCount(t.elem)) else 0
  {
    if t.SliceTy? {
      EncAllLength(t.elem, v.elems);
    }
  }

  /** The packed size of the inputs. */
  lemma InputsSize(x: Inputs)
    ensures SliceBytes(Types(), Values(x), 0)
         == 224 + 128 * |x.addressList| + 192 * |x.uintArgsList| + 32 * |x.uint8ArgsList| + 32 * |x.buyNoMoreThanBList|
            + 32 * |x.vList| + 32 * |x.rList| + 32 * |x.sList|
  {
    var ts, vs := Types(), Values(x);
    ElementWords();
    ListNonEmpty(AddressesVal, x.addressList);
    ListNonEmpty(UintsVal, x.uintArgsList);
    ListNonEmpty(MarginVal, x.uint8ArgsList);
    ListNonEmpty(BoolVal, x.buyNoMoreThanBList);
    ListNonEmpty(Uint8Val, x.vList);
    ListNonEmpty(WordVal, x.rList);
    ListNonEmpty(WordVal, x.sList);
    hide ListVal, WordCount;
    assert SliceBytes(ts, vs, 7) == 0;
    assert SliceBytes(ts, vs, 5) == 64 + 32 * |x.rList| + 32 * |x.sList|;
    assert SliceBytes(ts, vs, 3) == 64 + 32 * |x.buyNoMoreThanBList| + 32 * |x.vList| + SliceBytes(ts, vs, 5);
    assert SliceBytes(ts, vs, 1) == 64 + 192 * |x.uintArgsList| + 32 * |x.uint8ArgsList| + SliceBytes(ts, vs, 3);
  }

  lemma ElementWords()
    ensures WordCount(ArrayTy(4, AddressTy)) == 4 && WordCount(ArrayTy(6, UintTy(256))) == 6
    ensures WordCount(ArrayTy(1, UINT8)) == 1 && WordCount(BoolTy) == 1 && WordCount(UINT8) == 1
        && WordCount(BYTES32) == 1
  {
  }

  // ----- building the inputs from a ring -----

  datatype RingOrder = RingOrder(order: Order, feeSelection: byte, rateAmountS: real)

  datatype Signature = Signature(v: byte, r: Word32, s: Word32)

  /** big.Rat.FloatString(0): rounded to the nearest integer, halves away from zero. */
  function FloatString0(x: real): int {
    if x >= 0.0 then (x + 0.5).Floor else -((0.5 - x).Floor)
  }

  /** Within half of one, and a half away from zero. */
  lemma Rounded(x: real)
    ensures var r := FloatString0(x) as real;
      && (x >= 0.0 ==> r - 0.5 <= x < r + 0.5)
      && (x < 0.0 ==> r - 0.5 < x <= r + 0.5)
  {
  }

  function AddressesOf(o: RingOrder): Addresses {
    Addresses(o.order.owner, o.order.tokenS, o.order.wallet, o.order.authAddr)
  }

  function UintsOf(o: RingOrder): Uints {
    Uints(o.order.amountS, o.order.amountB, o.order.validSince, o.order.validUntil, o.order.lrcFee,
          FloatString0(o.rateAmountS))
  }

  function SelectionOf(o: RingOrder): byte { o.feeSelection }
  function MarginOf(o: RingOrder): byte { o.order.marginSplit }
  function FlagOf(o: RingOrder): bool { o.order.buyNoMoreThanAmountB }
  function VOf(o: RingOrder): byte { o.order.v }
  function ROf(o: RingOrder): Word32 { o.order.r }
  function SOf(o: RingOrder): Word32 { o.order.s }
  function AuthV(sig: Signature): byte { sig.v }
  function AuthR(sig: Signature): Word32 { sig.r }
  function AuthS(sig: Signature): Word32 { sig.s }

  /** The inputs of a ring whose orders' auth keys signed the ring with `auth`. */
  function Built(ring: seq<RingOrder>, auth: seq<Signature>, feeReceipt: Address): Inputs {
    Inputs(Map(AddressesOf, ring), Map(UintsOf, ring), Map(MarginOf, ring), Map(FlagOf, ring),
           Map(VOf, ring) + Map(AuthV, auth), Map(ROf, ring) + Map(AuthR, auth), Map(SOf, ring) + Map(AuthS, auth),
           feeReceipt, FeeSelection.Wire(FeeSelection.Selected(Map(SelectionOf, ring), |ring|)))
  }

  /** The lists GenerateSubmitRingMethodInputsData appends to, order by order. */
  datatype Lists = Lists(
    addresses: seq<Addresses>, uints: seq<Uints>, margins: seq<byte>, flags: seq<bool>,
    vs: seq<byte>, rs: seq<Word32>, ss: seq<Word32>, authVs: seq<byte>, authRs: seq<Word32>, authSs: seq<Word32>)

  function ListsOf(ring: seq<RingOrder>, auth: seq<Signature>): Lists {
    Lists(Map(AddressesOf, ring), Map(UintsOf, ring), Map(MarginOf, ring), Map(FlagOf, ring),
          Map(VOf, ring), Map(ROf, ring), Map(SOf, ring), Map(AuthV, auth), Map(AuthR, auth), Map(AuthS, auth))
  }

  lemma MapAppend<A, B>(f: A -> B, xs: seq<A>, x: A)
    ensures Map(f, xs + [x]) == Map(f, xs) + [f(x)]
  {
  }

  /** One round of the loop. */
  method AppendOrder(l: Lists, o: RingOrder, sig: Signature, ghost ring: seq<RingOrder>, ghost auth: seq<Signature>)
    returns (out: Lists)
    requires l == ListsOf(ring, auth)
    ensures out == ListsOf(ring + [o], auth + [sig])
  {
    MapAppend(AddressesOf, ring, o);
    MapAppend(UintsOf, ring, o);
    MapAppend(MarginOf, ring, o);
    MapAppend(FlagOf, ring, o);
    MapAppend(VOf, ring, o);
    MapAppend(ROf, ring, o);
    MapAppend(SOf, ring, o);
    MapAppend(AuthV, auth, sig);
    MapAppend(AuthR, auth, sig);
    MapAppend(AuthS, auth, sig);
    hide Map, AddressesOf, UintsOf;
    out := Lists(l.addresses + [AddressesOf(o)], l.uints + [UintsOf(o)], l.margins + [o.order.marginSplit],
                 l.flags + [o.order.buyNoMoreThanAmountB], l.vs + [o.order.v], l.rs + [o.order.r], l.ss + [o.order.s],
                 l.authVs + [sig.v], l.authRs + [sig.r], l.authSs + [sig.s]);
  }

  /** The loop of GenerateSubmitRingMethodInputsData; `sign` is the auth key's signature, if it succeeds. */
  method BuildInputs(ring: seq<RingOrder>, feeReceipt: Address, sign: Order -> Option<Signature>)
    returns (r: Outcome<Inputs>, auth: seq<Signature>)
    ensures !r.Panic? && (r.Err? <==> exists o <- ring :: sign(o.order).None?)
    ensures r.Ok? ==> |auth| == |ring| && forall i :: 0 <= i < |ring| ==> sign(ring[i].order) == Some(auth[i])
    ensures r.Ok? ==> r.value == Built(ring, auth, feeReceipt)
  {
    hide ListsOf;
    auth := [];
    var l := Lists([], [], [], [], [], [], [], [], [], []);
    EmptyLists();
    for i := 0 to |ring|
      invariant |auth| == i && l == ListsOf(ring[..i], auth)
      invariant forall k :: 0 <= k < i ==> sign(ring[k].order) == Some(auth[k])
    {
      match sign(ring[i].order) {
        case None =>
          assert ring[i] in ring;
          return Err, auth;
        case Some(sig) =>
          l := AppendOrder(l, ring[i], sig, ring[..i], auth);
          assert ring[..i + 1] == ring[..i] + [ring[i]];
          auth := auth + [sig];
      }
    }
    assert ring[..|ring|] == ring;
    r := Finish(l, ring, auth, feeReceipt);
  }

  lemma EmptyLists()
    ensures ListsOf([], []) == Lists([], [], [], [], [], [], [], [], [], [])
  {
  }

  /** The auth signatures are appended to the orders' own, and the fee mask is cut to 16 bits. */
  method Finish(l: Lists, ring: seq<RingOrder>, ghost auth: seq<Signature>, feeReceipt: Address)
    returns (r: Outcome<Inputs>)
    requires l == ListsOf(ring, auth)
    ensures r == Ok(Built(ring, auth, feeReceipt))
  {
    var mask := FeeSelection.FeeSelections(Map(SelectionOf, ring));
    r := Ok(Inputs(l.addresses, l.uints, l.margins, l.flags, l.vs + l.authVs, l.rs + l.authRs, l.ss + l.authSs,
                   feeReceipt, FeeSelection.Wire(mask)));
  }

  // ----- the call, byte for byte -----

  /** Where the tail of the k-th argument of a call with n orders starts. */
  function TailStart(k: nat, n: nat): nat {
    if k == 0 then 288
    else if k == 1 then 320 + 128 * n
    else if k == 2 then 352 + 320 * n
    else if k == 3 then 384 + 352 * n
    else if k == 4 then 416 + 384 * n
    else if k == 5 then 448 + 448 * n
    else 480 + 512 * n
  }

  function AddressWord(a: Address): seq<byte> {
    Zeros(12) + a
  }

  /** The head: seven tail positions, the fee recipient and the selection mask. */
  ghost predicate HeadLayout(data: seq<byte>, ring: seq<RingOrder>, feeReceipt: Address) {
    && |data| == 512 + 576 * |ring|
    && (forall k :: 0 <= k < 7 ==> At(data, 32 * k, U256(TailStart(k, |ring|))))
    && At(data, 224, AddressWord(feeReceipt))
    && At(data, 256, U256(FeeSelection.Wire(FeeSelection.Selected(Map(SelectionOf, ring), |ring|))))
    && (forall k :: 0 <= k < 4 ==> At(data, TailStart(k, |ring|), U256(|ring|)))
    && (forall k :: 4 <= k < 7 ==> At(data, TailStart(k, |ring|), U256(2 * |ring|)))
  }

  /** The words of order i: four addresses, six numbers, margin, flag and its own signature. */
  ghost predicate OrderLayout(data: seq<byte>, n: nat, i: nat, o: RingOrder) {
    && At(data, TailStart(0, n) + 32 + 128 * i, AddressWord(o.order.owner))
    && At(data, TailStart(0, n) + 64 + 128 * i, AddressWord(o.order.tokenS))
    && At(data, TailStart(0, n) + 96 + 128 * i, AddressWord(o.order.wallet))
    && At(data, TailStart(0, n) + 128 + 128 * i, AddressWord(o.order.authAddr))
    && At(data, TailStart(1, n) + 32 + 192 * i, U256(o.order.amountS))
    && At(data, TailStart(1, n) + 64 + 192 * i, U256(o.order.amountB))
    && At(data, TailStart(1, n) + 96 + 192 * i, U256(o.order.validSince))
    && At(data, TailStart(1, n) + 128 + 192 * i, U256(o.order.validUntil))
    && At(data, TailStart(1, n) + 160 + 192 * i, U256(o.order.lrcFee))
    && At(data, TailStart(1, n) + 192 + 192 * i, U256(FloatString0(o.rateAmountS)))
    && At(data, TailStart(2, n) + 32 + 32 * i, U256(o.order.marginSplit))
    && At(data, TailStart(3, n) + 32 + 32 * i, U256(if o.order.buyNoMoreThanAmountB then 1 else 0))
    && SignatureLayout(data, n, i, o.order.v, o.order.r, o.order.s)
  }

  /** The words of the j-th signature. */
  ghost predicate SignatureLayout(data: seq<byte>, n: nat, j: nat, v: byte, r: Word32, s: Word32) {
    && At(data, TailStart(4, n) + 32 + 32 * j, U256(v))
    && At(data, TailStart(5, n) + 32 + 32 * j, r)
    && At(data, TailStart(6, n) + 32 + 32 * j, s)
  }

  /** The whole call: the orders' own signatures come first, then those of their auth keys. */
  ghost predicate CallLayout(data: seq<byte>, ring: seq<RingOrder>, auth: seq<Signature>, feeReceipt: Address) {
    && |auth| == |ring| && HeadLayout(data, ring, feeReceipt)
    && (forall i :: 0 <= i < |ring| ==> OrderLayout(data, |ring|, i, ring[i]))
    && (forall i :: 0 <= i < |ring| ==>
          SignatureLayout(data, |ring|, |ring| + i, auth[i].v, auth[i].r, auth[i].s))
  }

  /** The length and the elements of a list argument whose tail starts at `pos`. */
  lemma ListAt<T>(f: T -> Val, xs: seq<T>, t: Ty, data: seq<byte>, pos: nat, words: nat)
    requires t.Supported() && t.Static() && WordCount(t) == words
    requires WellTyped(SliceTy(t), ListVal(f, xs)) && At(data, pos, Enc(SliceTy(t), ListVal(f, xs)))
    ensures At(data, pos, U256(|xs|))
    ensures forall i :: 0 <= i < |xs| ==> At(data, pos + 32 + i * (32 * words), Enc(t, f(xs[i])))
  {
    hide At, Enc, ListVal, WellTyped, WordCount, U256;
    ListIs(f, xs, t);
    var vs := ListVal(f, xs).elems;
    AtSplit(data, pos, U256(|xs|), EncAll(t, vs), Enc(SliceTy(t), ListVal(f, xs)));
    forall i | 0 <= i < |xs|
      ensures At(data, pos + 32 + i * (32 * words), Enc(t, f(xs[i])))
    {
      ElemAt(t, vs, data, pos + 32, i);
    }
  }

  lemma ListIs<T>(f: T -> Val, xs: seq<T>, t: Ty)
    requires WellTyped(SliceTy(t), ListVal(f, xs))
    ensures ListVal(f, xs).List?
    ensures var vs := ListVal(f, xs).elems;
            && |vs| == |xs| && (forall v <- vs :: WellTyped(t, v)) && (forall i :: 0 <= i < |xs| ==> vs[i] == f(xs[i]))
            && Enc(SliceTy(t), ListVal(f, xs)) == U256(|xs|) + EncAll(t, vs)
  {
    hide EncAll, U256;
  }

  lemma EncAddresses(a: Addresses)
    ensures Enc(ArrayTy(4, AddressTy), AddressesVal(a))
         == AddressWord(a.owner) + AddressWord(a.tokenS) + AddressWord(a.wallet) + AddressWord(a.authAddr)
  {
    var vs := AddressesVal(a).elems;
    assert vs[1..] == [vs[1], vs[2], vs[3]] && vs[2..] == [vs[2], vs[3]] && vs[3..] == [vs[3]];
    assert EncAll(AddressTy, vs[3..]) == AddressWord(a.authAddr);
    assert EncAll(AddressTy, vs[2..]) == AddressWord(a.wallet) + AddressWord(a.authAddr);
    assert EncAll(AddressTy, vs[1..]) == AddressWord(a.tokenS) + (AddressWord(a.wallet) + AddressWord(a.authAddr));
  }

  lemma EncUints(u: Uints)
    ensures Enc(ArrayTy(6, UintTy(256)), UintsVal(u))
         == U256(u.amountS) + U256(u.amountB) + U256(u.validSince) + U256(u.validUntil) + U256(u.lrcFee)
            + U256(u.rateAmountS)
  {
    hide U256;
    var vs, t := UintsVal(u).elems, UintTy(256);
    assert vs[1..][1..] == vs[2..] && vs[2..][1..] == vs[3..] && vs[3..][1..] == vs[4..] && vs[4..][1..] == vs[5..];
    assert vs[5..] == [vs[5]] && vs[5..][1..] == [];
    assert EncAll(t, vs[5..]) == U256(u.rateAmountS);
    assert EncAll(t, vs[4..]) == U256(u.lrcFee) + U256(u.rateAmountS);
    assert EncAll(t, vs[3..]) == U256(u.validUntil) + (U256(u.lrcFee) + U256(u.rateAmountS));
    assert EncAll(t, vs[2..]) == U256(u.validSince) + (U256(u.validUntil) + (U256(u.lrcFee) + U256(u.rateAmountS)));
    assert EncAll(t, vs[1..])
        == U256(u.amountB) + (U256(u.validSince) + (U256(u.validUntil) + (U256(u.lrcFee) + U256(u.rateAmountS))));
  }

  lemma EncMargin(b: byte)
    ensures Enc(ArrayTy(1, UINT8), MarginVal(b)) == U256(b)
  {
    var vs := MarginVal(b).elems;
    assert vs[1..] == [];
    assert EncAll(UINT8, vs[1..]) == [];
    assert U256(b) + [] == U256(b);
  }

  lemma FourAt(data: seq<byte>, pos: nat, a: seq<byte>, b: seq<byte>, c: seq<byte>, d: seq<byte>)
    requires |a| == 32 && |b| == 32 && |c| == 32 && |d| == 32 && At(data, pos, a + b + c + d)
    ensures At(data, pos, a) && At(data, pos + 32, b) && At(data, pos + 64, c) && At(data, pos + 96, d)
  {
    hide At;
    AtConcat(data, pos, a + b + c, d);
    AtConcat(data, pos, a + b, c);
    AtConcat(data, pos, a, b);
  }

  lemma SixAt(
    data: seq<byte>, pos: nat,
    a: seq<byte>, b: seq<byte>, c: seq<byte>, d: seq<byte>, e: seq<byte>, f: seq<byte>)
    requires |a| == 32 && |b| == 32 && |c| == 32 && |d| == 32 && |e| == 32 && |f| == 32
    requires At(data, pos, a + b + c + d + e + f)
    ensures At(data, pos, a) && At(data, pos + 32, b) && At(data, pos + 64, c) && At(data, pos + 96, d)
    ensures At(data, pos + 128, e) && At(data, pos + 160, f)
  {
    hide At;
    AtConcat(data, pos, a + b + c + d + e, f);
    AtConcat(data, pos, a + b + c + d, e);
    FourAt(data, pos, a, b, c, d);
  }

  /** The inputs of a ring of n orders. */
  predicate Sized(x: Inputs, n: nat) {
    && n > 0 && |x.addressList| == |x.uintArgsList| == |x.uint8ArgsList| == |x.buyNoMoreThanBList| == n
    && |x.vList| == |x.rList| == |x.sList| == 2 * n
  }

  /** The size of the k-th argument's tail. */
  function TailLength(k: nat, n: nat): nat {
    if k == 0 then 32 + 128 * n
    else if k == 1 then 32 + 192 * n
    else if k < 4 then 32 + 32 * n
    else if k < 7 then 32 + 64 * n
    else 0
  }

  lemma TailOfInput(x: Inputs, n: nat, k: nat)
    requires Sized(x, n) && k < 9
    ensures |TailPart(Types()[k], Enc(Types()[k], Values(x)[k]))| == TailLength(k, n)
    ensures HeadSize(Types()[k]) == 32
  {
    hide Enc, WellTyped, ListVal, WordCount, Values, Types, TailPart;
    ValuesTyped(x);
    InputShape(x, k);
    TailSize(Types()[k], Values(x)[k]);
  }

  lemma InputShape(x: Inputs, k: nat)
    requires k < 9
    ensures |Types()| == |Values(x)| == 9
    ensures var t, v := Types()[k], Values(x)[k];
      && t.Supported() && !t.StringTy? && !t.BytesTy? && HeadSize(t) == 32
      && (k < 7 ==> t.SliceTy? && v.List? && |v.elems| == Count(x, k) && WordCount(t.elem) == ElementSize(k))
      && (k >= 7 ==> !t.SliceTy?)
  {
    TypesSupported();
    ElementWords();
    if k < 7 {
      InputCount(x, k);
    }
    assert Types()[k] in Types();
    hide ListVal, WordCount;
  }

  function ElementSize(k: nat): nat {
    if k == 0 then 4 else if k == 1 then 6 else 1
  }

  function Count(x: Inputs, k: nat): nat {
    if k == 0 then |x.addressList| else if k == 1 then |x.uintArgsList| else if k == 2 then |x.uint8ArgsList|
    else if k == 3 then |x.buyNoMoreThanBList| else if k == 4 then |x.vList| else if k == 5 then |x.rList|
    else |x.sList|
  }

  lemma InputCount(x: Inputs, k: nat)
    requires k < 7
    ensures |Values(x)| == 9 && Values(x)[k].List?
    ensures |Values(x)[k].elems| == Count(x, k)
  {
  }

  lemma {:induction false} TailsOfInputs(x: Inputs, n: nat, k: nat)
    requires Sized(x, n) && k < 9
    ensures HeadBefore(Types(), k) == 32 * k
    ensures k < 7 ==> 288 + TailBefore(Types(), Values(x), k) == TailStart(k, n)
  {
    hide Types, Values, TailBefore, HeadBefore, Enc, TailPart, HeadSize;
    InputsLength(x);
    BeforeNext(Types(), Values(x), 0);
    if k > 0 {
      TailsOfInputs(x, n, k - 1);
      BeforeNext(Types(), Values(x), k - 1);
      TailOfInput(x, n, k - 1);
    }
  }

  lemma InputsLength(x: Inputs)
    ensures |Types()| == |Values(x)| == 9
  {
  }

  /** The heads and tails of the nine arguments. */
  lemma InputAt(x: Inputs, n: nat, data: seq<byte>, k: nat)
    requires Sized(x, n) && k < 9 && data == FormalEncoding(Types(), Values(x))
    ensures |Types()| == |Values(x)| == 9
    ensures k < 7 ==>
      At(data, 32 * k, U256(TailStart(k, n))) && At(data, TailStart(k, n), Enc(Types()[k], Values(x)[k]))
    ensures k >= 7 ==> At(data, 32 * k, Enc(Types()[k], Values(x)[k]))
  {
    hide Values, Types, SupportedArgs, PackableArgs, Layout, Enc, At, TailBefore, HeadBefore, FormalEncoding, TailStart,
         HasDeepArray, U256;
    InputsSupported(x);
    InputKinds(k);
    InputsLength(x);
    TypesHeads();
    FormalEncodingLayout(Types(), Values(x));
    ArgumentAt(Types(), Values(x), data, 0, 288, k);
    TailsOfInputs(x, n, k);
  }

  lemma InputKinds(k: nat)
    requires k < 9
    ensures |Types()| == 9 && (k < 7 ==> Types()[k].SliceTy?) && (k >= 7 ==> !Types()[k].RequiresLengthPrefix())
  {
  }

  lemma AddressesAt(x: Inputs, n: nat, data: seq<byte>, i: nat)
    requires Sized(x, n) && i < n && data == FormalEncoding(Types(), Values(x))
    ensures var a, p := x.addressList[i], TailStart(0, n) + 32 + 128 * i;
      && At(data, p, AddressWord(a.owner)) && At(data, p + 32, AddressWord(a.tokenS))
      && At(data, p + 64, AddressWord(a.wallet)) && At(data, p + 96, AddressWord(a.authAddr))
      && At(data, TailStart(0, n), U256(n))
  {
    hide At, Enc, FormalEncoding, U256, WellTyped, ListVal;
    InputAt(x, n, data, 0);
    ElementWords();
    AddressListTyped(x.addressList);
    ListAt(AddressesVal, x.addressList, ArrayTy(4, AddressTy), data, TailStart(0, n), 4);
    var a := x.addressList[i];
    EncAddresses(a);
    FourAt(data, TailStart(0, n) + 32 + 128 * i,
           AddressWord(a.owner), AddressWord(a.tokenS), AddressWord(a.wallet), AddressWord(a.authAddr));
  }

  lemma UintsAt(x: Inputs, n: nat, data: seq<byte>, i: nat)
    requires Sized(x, n) && i < n && data == FormalEncoding(Types(), Values(x))
    ensures var u, p := x.uintArgsList[i], TailStart(1, n) + 32 + 192 * i;
      && At(data, p, U256(u.amountS)) && At(data, p + 32, U256(u.amountB)) && At(data, p + 64, U256(u.validSince))
      && At(data, p + 96, U256(u.validUntil)) && At(data, p + 128, U256(u.lrcFee))
      && At(data, p + 160, U256(u.rateAmountS))
      && At(data, TailStart(1, n), U256(n))
  {
    hide At, Enc, FormalEncoding, U256, WellTyped, ListVal;
    InputAt(x, n, data, 1);
    ElementWords();
    UintListTyped(x.uintArgsList);
    ListAt(UintsVal, x.uintArgsList, ArrayTy(6, UintTy(256)), data, TailStart(1, n), 6);
    var u := x.uintArgsList[i];
    EncUints(u);
    SixAt(data, TailStart(1, n) + 32 + 192 * i, U256(u.amountS), U256(u.amountB), U256(u.validSince),
          U256(u.validUntil), U256(u.lrcFee), U256(u.rateAmountS));
  }

  lemma MarginAndFlagAt(x: Inputs, n: nat, data: seq<byte>, i: nat)
    requires Sized(x, n) && i < n && data == FormalEncoding(Types(), Values(x))
    ensures At(data, TailStart(2, n) + 32 + 32 * i, U256(x.uint8ArgsList[i]))
    ensures At(data, TailStart(3, n) + 32 + 32 * i, U256(if x.buyNoMoreThanBList[i] then 1 else 0))
    ensures At(data, TailStart(2, n), U256(n)) && At(data, TailStart(3, n), U256(n))
  {
    hide At, FormalEncoding, U256, WellTyped, ListVal, EncAll;
    InputAt(x, n, data, 2);
    InputAt(x, n, data, 3);
    ElementWords();
    MarginListTyped(x.uint8ArgsList);
    BoolListTyped(x.buyNoMoreThanBList);
    ListAt(MarginVal, x.uint8ArgsList, ArrayTy(1, UINT8), data, TailStart(2, n), 1);
    ListAt(BoolVal, x.buyNoMoreThanBList, BoolTy, data, TailStart(3, n), 1);
    EncMargin(x.uint8ArgsList[i]);
  }

  lemma SignaturesAt(x: Inputs, n: nat, data: seq<byte>, j: nat)
    requires Sized(x, n) && j < 2 * n && data == FormalEncoding(Types(), Values(x))
    ensures SignatureLayout(data, n, j, x.vList[j], x.rList[j], x.sList[j])
    ensures forall k :: 4 <= k < 7 ==> At(data, TailStart(k, n), U256(2 * n))
  {
    hide At, FormalEncoding, U256, WellTyped, ListVal;
    InputAt(x, n, data, 4);
    InputAt(x, n, data, 5);
    InputAt(x, n, data, 6);
    ElementWords();
    ByteListTyped(x.vList);
    WordListTyped(x.rList);
    WordListTyped(x.sList);
    ListAt(Uint8Val, x.vList, UINT8, data, TailStart(4, n), 1);
    ListAt(WordVal, x.rList, BYTES32, data, TailStart(5, n), 1);
    ListAt(WordVal, x.sList, BYTES32, data, TailStart(6, n), 1);
    EncWord(x.rList[j]);
    EncWord(x.sList[j]);
  }

  lemma EncWord(w: Word32)
    ensures Enc(BYTES32, WordVal(w)) == w
  {
    assert w + Zeros(0) == w;
  }

  lemma HeadsAt(x: Inputs, n: nat, data: seq<byte>)
    requires Sized(x, n) && data == FormalEncoding(Types(), Values(x))
    ensures |data| == 512 + 576 * n
    ensures forall k :: 0 <= k < 7 ==> At(data, 32 * k, U256(TailStart(k, n)))
    ensures At(data, 224, AddressWord(x.feeRecipient)) && At(data, 256, U256(x.feeSelections))
  {
    hide At, FormalEncoding, U256, TailStart, SupportedArgs, PackableArgs, Types, Values, Enc, HasDeepArray, SliceBytes;
    InputsSupported(x);
    EncodingSize(x);
    InputsSize(x);
    forall k | 0 <= k < 7 ensures At(data, 32 * k, U256(TailStart(k, n))) {
      InputAt(x, n, data, k);
    }
    InputAt(x, n, data, 7);
    InputAt(x, n, data, 8);
    LastHeads(x);
  }

  lemma LastHeads(x: Inputs)
    ensures |Types()| == |Values(x)| == 9
    ensures Enc(Types()[7], Values(x)[7]) == AddressWord(x.feeRecipient)
    ensures Enc(Types()[8], Values(x)[8]) == U256(x.feeSelections)
  {
    hide U256, ListVal;
  }

  /** The bytes of the packed call, from the ring itself. */
  lemma CallLayoutOf(ring: seq<RingOrder>, auth: seq<Signature>, feeReceipt: Address)
    requires ring != [] && |auth| == |ring|
    ensures var packed := PackArgs(Types(), Values(Built(ring, auth, feeReceipt)));
            packed.Ok? && CallLayout(packed.value, ring, auth, feeReceipt)
  {
    hide At, FormalEncoding, Built, Types, Values, TailStart, U256, PackArgs, OrderLayout, SignatureLayout, AddressesOf,
         UintsOf, FeeSelection.Wire, FeeSelection.Selected;
    var x, n := Built(ring, auth, feeReceipt), |ring|;
    BuiltIs(ring, auth, feeReceipt);
    BuiltIsStandard(x, n);
    var data := FormalEncoding(Types(), Values(x));
    HeadsAt(x, n, data);
    AddressesAt(x, n, data, 0);
    UintsAt(x, n, data, 0);
    MarginAndFlagAt(x, n, data, 0);
    SignaturesAt(x, n, data, 0);
    CountsAt(data, n);
    forall i | 0 <= i < n
      ensures OrderLayout(data, n, i, ring[i])
      ensures SignatureLayout(data, n, n + i, auth[i].v, auth[i].r, auth[i].s)
    {
      OrderAt(x, n, data, i, ring[i]);
      SignaturesAt(x, n, data, n + i);
    }
  }

  lemma OrderAt(x: Inputs, n: nat, data: seq<byte>, i: nat, o: RingOrder)
    requires Sized(x, n) && i < n && data == FormalEncoding(Types(), Values(x))
    requires x.addressList[i] == AddressesOf(o) && x.uintArgsList[i] == UintsOf(o)
    requires x.uint8ArgsList[i] == o.order.marginSplit && x.buyNoMoreThanBList[i] == o.order.buyNoMoreThanAmountB
    requires x.vList[i] == o.order.v && x.rList[i] == o.order.r && x.sList[i] == o.order.s
    ensures OrderLayout(data, n, i, o)
  {
    hide At, FormalEncoding, Types, Values, TailStart, U256, SignatureLayout, FloatString0;
    AddressesAt(x, n, data, i);
    UintsAt(x, n, data, i);
    MarginAndFlagAt(x, n, data, i);
    SignaturesAt(x, n, data, i);
  }

  lemma CountsAt(data: seq<byte>, n: nat)
    requires At(data, TailStart(0, n), U256(n)) && At(data, TailStart(1, n), U256(n))
    requires At(data, TailStart(2, n), U256(n)) && At(data, TailStart(3, n), U256(n))
    ensures forall k :: 0 <= k < 4 ==> At(data, TailStart(k, n), U256(n))
  {
    hide At, TailStart, U256;
  }

  lemma BuiltIs(ring: seq<RingOrder>, auth: seq<Signature>, feeReceipt: Address)
    requires ring != [] && |auth| == |ring|
    ensures var x, n := Built(ring, auth, feeReceipt), |ring|;
      && Sized(x, n) && x.feeRecipient == feeReceipt
      && x.feeSelections == FeeSelection.Wire(FeeSelection.Selected(Map(SelectionOf, ring), n))
      && (forall i :: 0 <= i < n ==>
            && x.addressList[i] == AddressesOf(ring[i]) && x.uintArgsList[i] == UintsOf(ring[i])
            && x.uint8ArgsList[i] == ring[i].order.marginSplit
            && x.buyNoMoreThanBList[i] == ring[i].order.buyNoMoreThanAmountB)
      && (forall i :: 0 <= i < n ==>
            && x.vList[i] == ring[i].order.v && x.rList[i] == ring[i].order.r && x.sList[i] == ring[i].order.s
            && x.vList[n + i] == auth[i].v && x.rList[n + i] == auth[i].r && x.sList[n + i] == auth[i].s)
  {
  }

  lemma BuiltIsStandard(x: Inputs, n: nat)
    requires Sized(x, n)
    ensures PackArgs(Types(), Values(x)) == Ok(FormalEncoding(Types(), Values(x)))
  {
    hide Values, Types, SupportedArgs, PackableArgs, HasDeepArray, HasDynamic, HeadsSize, StandardEncoding;
    InputsSupported(x);
    TypesHeads();
    PackMatchesSpecification(Types(), Values(x));
    StandardIsFormal(Types(), Values(x));
  }

  /** The packed inputs of a ring; an empty ring has empty slices of arrays. */
  lemma BuiltPacks(ring: seq<RingOrder>, auth: seq<Signature>, feeReceipt: Address)
    ensures var packed := PackArgs(Types(), Values(Built(ring, auth, feeReceipt)));
            if ring == [] then packed == Panic else packed.Ok?
  {
    var x := Built(ring, auth, feeReceipt);
    if ring == [] {
      EmptyRingPanics(x);
    } else {
      InputsSupported(x);
      hide Types, Values, Built, SupportedArgs, PackableArgs, Heads, Tails, PackFrom, InputOffset;
      PackedParts(Types(), Values(x));
    }
  }

  lemma EmptyRingPanics(x: Inputs)
    requires x.addressList == []
    ensures PackArgs(Types(), Values(x)) == Panic
  {
    var ts, vs := Types(), Values(x);
    ListNonEmpty(AddressesVal, x.addressList);
    hide ListVal;
    assert PackVal(ts[0], vs[0]) == Panic;
    assert PackFrom(ts, vs, InputOffset(ts)) == Panic;
  }

  /** GenerateSubmitRingMethodInputsData: the method id and the packed inputs, or why there are none. */
  method GenerateData(ring: seq<RingOrder>, feeReceipt: Address, sign: Order -> Option<Signature>, methodId: seq<byte>)
    returns (r: Outcome<seq<byte>>, auth: seq<Signature>)
    ensures r.Ok? <==> ring != [] && forall o <- ring :: sign(o.order).Some?
    ensures r.Panic? <==> ring == []
    ensures r.Ok? ==>
      && |auth| == |ring| && (forall i :: 0 <= i < |ring| ==> sign(ring[i].order) == Some(auth[i]))
      && PackArgs(Types(), Values(Built(ring, auth, feeReceipt))).Ok?
      && r.value == methodId + PackArgs(Types(), Values(Built(ring, auth, feeReceipt))).value
    ensures r.Ok? ==>
      methodId <= r.value && CallLayout(r.value[|methodId|..], ring, auth, feeReceipt)
  {
    hide PackArgs, Values, Built, Types, CallLayout;
    var inputs;
    inputs, auth := BuildInputs(ring, feeReceipt, sign);
    if !inputs.Ok? {
      return Err, auth;
    }
    BuiltPacks(ring, auth, feeReceipt);
    var packed := Pack(Types(), Values(inputs.value));
    if !packed.Ok? {
      return packed, auth;
    }
    r := Ok(methodId + packed.value);
    if ring != [] {
      CallLayoutOf(ring, auth, feeReceipt);
      assert r.value[|methodId|..] == packed.value;
    }
  }

  // ----- reading the inputs back -----

  datatype SubmitRingEvent = SubmitRingEvent(
    orders: seq<Order>, hashes: seq<Word32>, feeReceipt: Address, feeSelection: uint16)

  /** Every list that ConvertDown checks has the right length; the flag list is not checked. */
  predicate LengthsOk(m: Inputs) {
    var n := |m.addressList|;
    && n >= 2 && |m.uintArgsList| == n && |m.uint8ArgsList| == n
    && |m.vList| == 2 * n && |m.rList| == 2 * n && |m.sList| == 2 * n
  }

  function DownOrder(m: Inputs, i: nat, protocol: Address, delegate: Address): Order
    requires LengthsOk(m) && i < |m.addressList| && i < |m.buyNoMoreThanBList|
  {
    var a, u := m.addressList[i], m.uintArgsList[i];
    var tokenB := m.addressList[if i == |m.addressList| - 1 then 0 else i + 1].tokenS;
    Order(protocol, delegate, a.authAddr, a.wallet, a.tokenS, tokenB, a.owner,
          u.amountS, u.amountB, u.validSince, u.validUntil, u.lrcFee,
          m.buyNoMoreThanBList[i], m.uint8ArgsList[i], m.vList[i], m.rList[i], m.sList[i])
  }

  function DownOrders(m: Inputs, protocol: Address, delegate: Address): (r: seq<Order>)
    requires LengthsOk(m) && |m.addressList| <= |m.buyNoMoreThanBList|
    ensures |r| == |m.addressList| && forall i :: 0 <= i < |r| ==> r[i] == DownOrder(m, i, protocol, delegate)
  {
    seq(|m.addressList|, i requires 0 <= i < |m.addressList| => DownOrder(m, i, protocol, delegate))
  }

  function Hashes(orders: seq<Order>, keccak: seq<byte> -> Word32): (r: seq<Word32>)
    ensures |r| == |orders| && forall i :: 0 <= i < |r| ==> r[i] == keccak(Preimage(orders[i]))
  {
    if orders == [] then [] else Hashes(orders[..|orders| - 1], keccak) + [keccak(Preimage(orders[|orders| - 1]))]
  }

  /** What SubmitRingMethodInputs.ConvertDown returns. */
  function Down(
    m: Inputs, protocol: Address, delegate: Address, keccak: seq<byte> -> Word32): Outcome<SubmitRingEvent> {
    if !LengthsOk(m) then Err
    else if |m.buyNoMoreThanBList| < |m.addressList| then Panic
    else
      var orders := DownOrders(m, protocol, delegate);
      Ok(SubmitRingEvent(orders, Hashes(orders, keccak), m.feeRecipient, m.feeSelections))
  }

  /** SubmitRingMethodInputs.ConvertDown, with its loop over the orders. */
  method ConvertDown(m: Inputs, protocol: Address, delegate: Address, keccak: seq<byte> -> Word32)
    returns (r: Outcome<SubmitRingEvent>)
    ensures r == Down(m, protocol, delegate, keccak)
    ensures var n := |m.addressList|;
      && (r.Err? <==> n < 2 || |m.uintArgsList| != n || |m.uint8ArgsList| != n
                      || |m.vList| != 2 * n || |m.rList| != 2 * n || |m.sList| != 2 * n)
      && (r.Panic? <==> !r.Err? && |m.buyNoMoreThanBList| < n)
  {
    hide Preimage;
    var length := |m.addressList|;
    var vrsLength := 2 * length;
    if length < 2 || length != |m.uintArgsList| || length != |m.uint8ArgsList|
       || vrsLength != |m.vList| || vrsLength != |m.rList| || vrsLength != |m.sList| {
      return Err;
    }
    var list: seq<Order>, hashes: seq<Word32> := [], [];
    for i := 0 to length
      invariant |list| == |hashes| == i <= |m.buyNoMoreThanBList|
      invariant forall k :: 0 <= k < i ==> list[k] == DownOrder(m, k, protocol, delegate)
      invariant forall k :: 0 <= k < i ==> hashes[k] == keccak(Preimage(list[k]))
    {
      if i >= |m.buyNoMoreThanBList| {
        return Panic;
      }
      var tokenB := if i == length - 1 then m.addressList[0].tokenS else m.addressList[i + 1].tokenS;
      var a, u := m.addressList[i], m.uintArgsList[i];
      var order := Order(protocol, delegate, a.authAddr, a.wallet, a.tokenS, tokenB, a.owner,
                         u.amountS, u.amountB, u.validSince, u.validUntil, u.lrcFee,
                         m.buyNoMoreThanBList[i], m.uint8ArgsList[i], m.vList[i], m.rList[i], m.sList[i]);
      list, hashes := list + [order], hashes + [keccak(Preimage(order))];
    }
    assert list == DownOrders(m, protocol, delegate) && hashes == Hashes(list, keccak);
    r := Ok(SubmitRingEvent(list, hashes, m.feeRecipient, m.feeSelections));
  }

  // ----- end to end -----

  /** Order `i` as it comes back: tokenB is the next order's tokenS, integers are modulo 2^256. */
  function Recovered(ring: seq<RingOrder>, i: nat, protocol: Address, delegate: Address): Order
    requires i < |ring|
  {
    var o := ring[i].order;
    o.(protocol := protocol, delegate := delegate, tokenB := ring[(i + 1) % |ring|].order.tokenS,
       amountS := o.amountS % TWO_256, amountB := o.amountB % TWO_256, validSince := o.validSince % TWO_256,
       validUntil := o.validUntil % TWO_256, lrcFee := o.lrcFee % TWO_256)
  }

  /** An order comes back unchanged exactly when its integers fit and it buys what the next order sells. */
  lemma RecoveredExactly(ring: seq<RingOrder>, i: nat, protocol: Address, delegate: Address)
    requires i < |ring|
    ensures var o := ring[i].order;
            Recovered(ring, i, protocol, delegate) == o <==>
              && InWords(o) && o.tokenB == ring[(i + 1) % |ring|].order.tokenS
              && o.protocol == protocol && o.delegate == delegate
  {
    var o := ring[i].order;
    ModFixed(o.amountS);
    ModFixed(o.amountB);
    ModFixed(o.validSince);
    ModFixed(o.validUntil);
    ModFixed(o.lrcFee);
  }

  lemma ModFixed(n: int)
    ensures n % TWO_256 == n <==> InWord(n)
  {
  }

  /** Packing and unpacking a ring's inputs reduces the integers and keeps everything else. */
  lemma WireKeeps(x: Inputs)
    requires x.addressList != [] && x.uintArgsList != [] && x.uint8ArgsList != []
    requires 288 + SliceBytes(Types(), Values(x), 0) < TWO_63
    ensures var packed := PackArgs(Types(), Values(x));
            && packed.Ok?
            && UnpackFrom(Types(), 0, packed.value) == Ok(Values(Reduced(x)))
            && forall y: Inputs :: Ok(Values(y)) == UnpackFrom(Types(), 0, packed.value) ==> y == Reduced(x)
  {
    hide Values, Types, SupportedArgs, PackableArgs, HasDeepArray, HasDynamic, UnpackFrom, PackArgs, SliceBytes,
         Reduced, Tails, Heads, HeadsSize;
    var ts, vs := Types(), Values(x);
    InputsSupported(x);
    EncodingSize(x);
    RoundTrip(AsArguments(ts), vs);
    CanonValues(x);
    forall y: Inputs | Values(y) == Values(Reduced(x)) ensures y == Reduced(x) {
      ValuesInjective(y, Reduced(x));
    }
  }

  lemma EncodingSize(x: Inputs)
    requires SupportedArgs(Types(), Values(x))
    ensures |FormalEncoding(Types(), Values(x))| == 288 + SliceBytes(Types(), Values(x), 0)
  {
    var ts, vs := Types(), Values(x);
    assert ts[0..] == ts && vs[0..] == vs && |ts| == |vs|;
    assert forall t <- ts :: !t.StringTy? && !t.BytesTy?;
    hide Values, Types, SupportedArgs, SliceBytes, Tails, Heads, HeadsSize;
    TailsSize(ts, vs, 0);
    TypesHeads();
    HeadsLength(ts, vs, HeadsSize(ts));
  }

  lemma TypesHeads()
    ensures HeadsSize(Types()) == 288
  {
    var ts := Types();
    assert HeadsSize(ts[9..]) == 0;
    HeadsFrom(ts, 8);
    HeadsFrom(ts, 7);
    HeadsFrom(ts, 6);
    HeadsFrom(ts, 5);
    HeadsFrom(ts, 4);
    HeadsFrom(ts, 3);
    HeadsFrom(ts, 2);
    HeadsFrom(ts, 1);
    HeadsFrom(ts, 0);
    assert ts[0..] == ts;
  }

  lemma HeadsFrom(ts: seq<Ty>, i: nat)
    requires i < |ts|
    ensures HeadsSize(ts[i..]) == HeadSize(ts[i]) + HeadsSize(ts[i + 1..])
  {
    assert ts[i..][1..] == ts[i + 1..];
  }

  /**
   End to end. For every ring of two or more orders, building the inputs, packing, unpacking by
   position and ConvertDown gives back every order (as Recovered, which RecoveredExactly compares
   with the original), its hash, the fee recipient and, exactly when the mask is not damaged, the
   fee-selection bit of each of the first sixteen orders. A longer call would not fit a Go slice.
   */
  lemma SubmitRingRoundTrip(
    ring: seq<RingOrder>, auth: seq<Signature>, feeReceipt: Address,
    protocol: Address, delegate: Address, keccak: seq<byte> -> Word32, y: Inputs)
    requires 2 <= |ring| && 512 + 576 * |ring| < TWO_63 && |auth| == |ring|
    ensures var packed := PackArgs(Types(), Values(Built(ring, auth, feeReceipt)));
            && packed.Ok?
            && (exists inputs :: UnpackFrom(Types(), 0, packed.value) == Ok(Values(inputs)))
            && (Ok(Values(y)) == UnpackFrom(Types(), 0, packed.value) ==>
                  && Down(y, protocol, delegate, keccak).Ok?
                  && GivesBack(ring, feeReceipt, protocol, delegate, keccak, Down(y, protocol, delegate, keccak).value))
  {
    var x := Built(ring, auth, feeReceipt);
    InputsSize(x);
    WireKeeps(x);
    hide PackArgs, UnpackFrom, Values, Types, SliceBytes;
    assert UnpackFrom(Types(), 0, PackArgs(Types(), Values(x)).value) == Ok(Values(Reduced(x)));
    DownOfReduced(ring, auth, feeReceipt, protocol, delegate, keccak);
  }

  ghost predicate GivesBack(
    ring: seq<RingOrder>, feeReceipt: Address, protocol: Address, delegate: Address,
    keccak: seq<byte> -> Word32, event: SubmitRingEvent)
  {
    && |event.orders| == |event.hashes| == |ring| && event.feeReceipt == feeReceipt
    && (forall i :: 0 <= i < |ring| ==> event.orders[i] == Recovered(ring, i, protocol, delegate))
    && (forall i :: 0 <= i < |ring| ==> event.hashes[i] == keccak(Preimage(event.orders[i])))
    && (SelectionsArrive(ring, event) <==> !FeeSelection.Damaged(Map(SelectionOf, ring)))
  }

  ghost predicate SelectionsArrive(ring: seq<RingOrder>, event: SubmitRingEvent) {
    forall i :: 0 <= i < |ring| && i < 16 ==> (FeeSelection.Bit(event.feeSelection, i) <==> ring[i].feeSelection > 0)
  }

  lemma DownOfReduced(
    ring: seq<RingOrder>, auth: seq<Signature>, feeReceipt: Address,
    protocol: Address, delegate: Address, keccak: seq<byte> -> Word32)
    requires 2 <= |ring| && |auth| == |ring|
    ensures var r := Down(Reduced(Built(ring, auth, feeReceipt)), protocol, delegate, keccak);
            r.Ok? && GivesBack(ring, feeReceipt, protocol, delegate, keccak, r.value)
  {
    hide Preimage, FeeSelection.Bit, FeeSelection.Selected, FeeSelection.Wire, FeeSelection.Damaged, Built, Reduced,
         DownOrder, Recovered;
    var m := Reduced(Built(ring, auth, feeReceipt));
    var n := |ring|;
    BuiltLengths(ring, auth, feeReceipt);
    forall i | 0 <= i < n ensures DownOrder(m, i, protocol, delegate) == Recovered(ring, i, protocol, delegate) {
      DownIsRecovered(ring, auth, feeReceipt, protocol, delegate, i);
    }
    FeeSelection.WireBits(Map(SelectionOf, ring));
  }

  lemma BuiltLengths(ring: seq<RingOrder>, auth: seq<Signature>, feeReceipt: Address)
    requires 2 <= |ring| && |auth| == |ring|
    ensures var m := Reduced(Built(ring, auth, feeReceipt));
            && LengthsOk(m) && |m.addressList| == |m.buyNoMoreThanBList| == |ring|
            && m.feeRecipient == feeReceipt
            && m.feeSelections == FeeSelection.Wire(FeeSelection.Selected(Map(SelectionOf, ring), |ring|))
  {
  }

  lemma DownIsRecovered(
    ring: seq<RingOrder>, auth: seq<Signature>, feeReceipt: Address, protocol: Address, delegate: Address, i: nat)
    requires 2 <= |ring| && |auth| == |ring| && i < |ring|
    ensures LengthsOk(Reduced(Built(ring, auth, feeReceipt)))
    ensures DownOrder(Reduced(Built(ring, auth, feeReceipt)), i, protocol, delegate)
         == Recovered(ring, i, protocol, delegate)
  {
    var n := |ring|;
    if i == n - 1 {
      DivModUnique(i + 1, n, 1, 0);
    } else {
      DivModUnique(i + 1, n, 0, i + 1);
    }
  }
}
