/** The decoder inverts the encoder, and the decoder is safe on every input. */
module AbiRoundTrip {
  import opened Results
  import opened Words
  import opened AbiTypes
  import opened AbiPack
  import opened AbiUnpack
  import opened AbiSpec

  // ----- words -----

  /** readInteger inverts U256 on every native width, and reduces a *big.Int modulo 2^256. */
  lemma IntegerRoundTrip(k: Kind, n: int)
    requires Holds(k, n)
    ensures ReadInteger(k, U256(n)) == Canon(Num(k, n))
  {
    if k.BigPtr? {
      FromU256(n);
    } else {
      Pow256Words();
      hide U256, Pow256;
      LowBytes(n, k.bits / 8);
      NativeMod(n, k.bits);
    }
  }

  lemma LowBytes(n: int, j: nat)
    requires j <= 32
    ensures FromBytes(U256(n)[32 - j..]) == (n % TWO_256) % Pow256(j)
  {
    hide FromBytes;
    U256IsBigEndian(n);
    ToBytesSuffix(n % TWO_256, 32, j);
    FromToBytes(n % TWO_256, j);
  }

  lemma NativeMod(n: int, bits: nat)
    requires IsNativeWidth(bits)
    requires 0 - Pow256(bits / 8) < n < Pow256(bits / 8)
    ensures (n % TWO_256) % Pow256(bits / 8) == if n >= 0 then n else n + Pow256(bits / 8)
  {
    var p, q := Pow256(bits / 8), Pow256(32 - bits / 8);
    assert q * p == TWO_256 && p < TWO_256 by {
      Pow256Add(32 - bits / 8, bits / 8);
      Pow256Words();
    }
    ModOfWord(n, p, q, TWO_256);
  }

  lemma ModOfWord(n: int, p: int, q: int, whole: int)
    requires 0 < p < whole && q * p == whole && -p < n < p
    ensures (n % whole) % p == if n >= 0 then n else n + p
  {
    if n >= 0 {
      DivModUnique(n, whole, 0, n);
      DivModUnique(n, p, 0, n);
    } else {
      DivModUnique(n, whole, -1, n + whole);
      assert (q - 1) * p == q * p - p;
      DivModUnique(n + whole, p, q - 1, n + p);
    }
  }

  lemma BoolRoundTrip(b: bool)
    ensures ReadBool(U256(if b then 1 else 0)) == Ok(Bool(b))
  {
    var n := if b then 1 else 0;
    U256IsBigEndian(n);
    SmallMod(n);
    assert ToBytes(n, 32) == ToBytes(0, 31) + [n];
    ToBytesZero(31);
  }

  lemma FunctionRoundTrip(bs: seq<byte>)
    requires |bs| == 24
    ensures ReadFunction(bs + Zeros(8)) == Ok(ByteArray(bs))
  {
    assert (bs + Zeros(8))[24..32] == Zeros(8);
    ToBytesZero(8);
    FromToBytes(0, 8);
    Pow256Words();
  }

  // ----- values -----

  /** A static value is read back from wherever it stands. */
  lemma {:induction false} StaticRoundTrip(t: Ty, v: Val, data: seq<byte>, index: nat)
    requires t.Supported() && t.Static() && WellTyped(t, v)
    requires At(data, index, Enc(t, v))
    ensures ToGo(index, t, data) == Ok(Canon(v))
    decreases t, 1, 0
  {
    EncLength(t, v);
    match t
    case ArrayTy(k, e) =>
      StaticWordCount(t);
      EachRoundTrip(e, v.elems, data, index);
    case IntTy(_) => IntegerRoundTrip(v.kind, v.n);
    case UintTy(_) => IntegerRoundTrip(v.kind, v.n);
    case BoolTy => BoolRoundTrip(v.b);
    case FunctionTy => FunctionRoundTrip(v.bytes);
    case FixedBytesTy(w) => assert Read(data, index, w) == Read(data, index, 32)[..w];
    case _ =>
  }

  lemma {:induction false} EachRoundTrip(t: Ty, vs: seq<Val>, data: seq<byte>, start: nat)
    requires t.Supported() && t.Static()
    requires forall v <- vs :: WellTyped(t, v)
    requires At(data, start, EncAll(t, vs))
    ensures ToGoEach(start, |vs|, t, data) == Ok(CanonAll(vs))
    decreases t, 2, |vs|
  {
    hide U256, ToGo, Canon, Enc, At, WellTyped;
    if vs != [] {
      AtSplit(data, start, Enc(t, vs[0]), EncAll(t, vs[1..]), EncAll(t, vs));
      EncLength(t, vs[0]);
      StaticRoundTrip(t, vs[0], data, start);
      EachRoundTrip(t, vs[1..], data, start + 32 * WordCount(t));
    }
  }

  lemma LengthPrefixReads(data: seq<byte>, index: nat, p: nat, l: nat)
    requires At(data, index, U256(p)) && At(data, p, U256(l))
    requires p + 32 + l <= |data| < TWO_63
    ensures LengthPrefix(index, data) == Ok((p + 32, l))
  {
    FromU256(p);
    FromU256(l);
    SmallMod(p);
    SmallMod(l);
  }

  /** A byte string or a slice is read back through its head word. */
  lemma DynamicRoundTrip(t: Ty, v: Val, data: seq<byte>, index: nat, p: nat)
    requires t.Supported() && t.RequiresLengthPrefix() && WellTyped(t, v)
    requires At(data, index, U256(p)) && At(data, p, Enc(t, v))
    requires |data| < TWO_63
    ensures ToGo(index, t, data) == Ok(Canon(v))
  {
    hide U256, LengthPrefix;
    if t.SliceTy? {
      var rest := EncAll(t.elem, v.elems);
      AtSplit(data, p, U256(|v.elems|), rest, Enc(t, v));
      EncAllLength(t.elem, v.elems);
      LengthPrefixReads(data, index, p, |v.elems|);
      EachRoundTrip(t.elem, v.elems, data, p + 32);
    } else {
      var padding := Zeros((32 - |v.bytes| % 32) % 32);
      AtSplit(data, p, U256(|v.bytes|), PadRight32(v.bytes), Enc(t, v));
      AtSplit(data, p + 32, v.bytes, padding, PadRight32(v.bytes));
      LengthPrefixReads(data, index, p, |v.bytes|);
    }
  }

  // ----- argument lists -----

  /** One argument is read back from its head. */
  lemma ArgumentRoundTrip(t: Ty, v: Val, data: seq<byte>, slot: nat, tail: nat)
    requires t.Supported() && WellTyped(t, v) && |data| < TWO_63
    requires At(data, slot * 32, HeadPart(t, Enc(t, v), tail)) && At(data, tail, TailPart(t, Enc(t, v)))
    ensures ToGo(slot * 32, t, data) == Ok(Canon(v))
  {
    if t.RequiresLengthPrefix() {
      DynamicRoundTrip(t, v, data, slot * 32, tail);
    } else {
      StaticRoundTrip(t, v, data, slot * 32);
    }
  }

  /** The decoder's slot counter is the encoder's head position. */
  lemma SlotIsHeadPosition(t: Ty, slot: nat)
    requires t.Supported()
    ensures (slot + Slots(t)) * 32 == slot * 32 + HeadSize(t)
  {
  }

  lemma UnpackStep(ts: seq<Ty>, slot: nat, data: seq<byte>, v: Val, rest: seq<Val>, tail: nat)
    requires ts != []
    requires ts[0].Supported() && WellTyped(ts[0], v) && |data| < TWO_63
    requires At(data, slot * 32, HeadPart(ts[0], Enc(ts[0], v), tail)) && At(data, tail, TailPart(ts[0], Enc(ts[0], v)))
    requires UnpackFrom(ts[1..], slot + Slots(ts[0]), data) == Ok(rest)
    ensures UnpackFrom(ts, slot, data) == Ok([Canon(v)] + rest)
  {
    ArgumentRoundTrip(ts[0], v, data, slot, tail);
  }

  lemma {:induction false} LayoutRoundTrip(ts: seq<Ty>, vs: seq<Val>, data: seq<byte>, slot: nat, tail: nat)
    requires SupportedArgs(ts, vs) && |data| < TWO_63
    requires Layout(ts, vs, data, slot * 32, tail)
    ensures UnpackFrom(ts, slot, data) == Ok(CanonAll(vs))
  {
    hide U256, At, Enc, WellTyped;
    if ts != [] {
      var next := tail + |TailPart(ts[0], Enc(ts[0], vs[0]))|;
      var s := slot + Slots(ts[0]);
      assert Layout(ts[1..], vs[1..], data, s * 32, next) by {
        SlotIsHeadPosition(ts[0], slot);
      }
      LayoutRoundTrip(ts[1..], vs[1..], data, s, next);
      UnpackStep(ts, slot, data, vs[0], CanonAll(vs[1..]), tail);
    }
  }

  /** Every *big.Int in the argument values lies in [0, 2^256). */
  predicate AllInRange(vs: seq<Val>) {
    forall v <- vs :: InRange(v)
  }

  /**
   UnpackValues(Pack(values)). For every argument list and all well-typed values in the supported
   fragment the decoder returns the values with their big integers reduced modulo 2^256; so it
   returns the values themselves exactly when those integers are in range.
   */
  lemma RoundTrip(args: seq<Argument>, vs: seq<Val>)
    requires var ts := NonIndexed(args);
             && SupportedArgs(ts, vs) && PackableArgs(ts, vs)
             && (!HasDynamic(ts) || !HasDeepArray(ts))
             && |FormalEncoding(ts, vs)| < TWO_63
    ensures var packed := PackArgs(NonIndexed(args), vs);
            && packed.Ok?
            && UnpackArgs(args, packed.value) == Ok(CanonAll(vs))
            && (UnpackArgs(args, packed.value) == Ok(vs) <==> AllInRange(vs))
  {
    var ts := NonIndexed(args);
    hide Heads, Tails, HeadsSize, SupportedArgs, PackableArgs, HasDynamic, HasDeepArray, PackArgs, UnpackFrom,
         StandardEncoding, CanonAll;
    HeadsLength(ts, vs, HeadsSize(ts));
    PackMatchesSpecification(ts, vs);
    StandardIsFormal(ts, vs);
    FormalEncodingLayout(ts, vs);
    LayoutRoundTrip(ts, vs, FormalEncoding(ts, vs), 0, HeadsSize(ts));
    CanonAllIdentity(vs);
  }

  // ----- where the round trip must fail -----

  /** Zero in every static word, exactly one byte or one element in every dynamic value. */
  function Default(t: Ty): Val
    decreases t
  {
    match t
    case IntTy(_) | UintTy(_) => Num(KindOfTy(t), 0)
    case BoolTy => Bool(false)
    case AddressTy => ByteArray(Zeros(20))
    case FixedBytesTy(w) => ByteArray(Zeros(w))
    case FunctionTy => ByteArray(Zeros(24))
    case StringTy => Str(Zeros(1))
    case BytesTy => ByteSlice(Zeros(1))
    case SliceTy(e) => List(false, [Default(e)])
    case ArrayTy(k, e) => List(true, seq(k, _ => Default(e)))
  }

  lemma {:induction false} DefaultOk(t: Ty)
    requires t.Supported()
    ensures WellTyped(t, Default(t)) && Packable(t, Default(t)) && InRange(Default(t))
    decreases t
  {
    if t.SliceTy? || t.ArrayTy? {
      DefaultOk(t.elem);
    }
  }

  lemma U256Zero()
    ensures U256(0) == Zeros(32)
  {
    U256IsBigEndian(0);
    SmallMod(0);
    ToBytesZero(32);
  }

  lemma {:induction false} DefaultZero(t: Ty)
    requires t.Supported() && t.Static()
    ensures WellTyped(t, Default(t)) && Enc(t, Default(t)) == Zeros(32 * WordCount(t))
    decreases t, 1, 0
  {
    DefaultOk(t);
    if t.ArrayTy? {
      DefaultZeroAll(t.elem, Default(t).elems);
      MulAssociative(32, t.size, WordCount(t.elem));
      MulAssociative(t.size, 32, WordCount(t.elem));
    } else {
      U256Zero();
    }
  }

  lemma {:induction false} DefaultZeroAll(t: Ty, vs: seq<Val>)
    requires t.Supported() && t.Static()
    requires forall i :: 0 <= i < |vs| ==> vs[i] == Default(t)
    ensures forall v <- vs :: WellTyped(t, v)
    ensures EncAll(t, vs) == Zeros(|vs| * (32 * WordCount(t)))
    decreases t, 2, |vs|
  {
    DefaultOk(t);
    if vs != [] {
      DefaultZero(t);
      DefaultZeroAll(t, vs[1..]);
      assert Zeros(32 * WordCount(t)) + Zeros((|vs| - 1) * (32 * WordCount(t)))
          == Zeros(|vs| * (32 * WordCount(t))) by {
        assert |vs| * (32 * WordCount(t)) == 32 * WordCount(t) + (|vs| - 1) * (32 * WordCount(t));
      }
    }
  }

  function Defaults(ts: seq<Ty>): (vs: seq<Val>)
    ensures |vs| == |ts|
  {
    if ts == [] then [] else [Default(ts[0])] + Defaults(ts[1..])
  }

  predicate SupportedTypes(ts: seq<Ty>) {
    ts != [] ==> ts[0].Supported() && SupportedTypes(ts[1..])
  }

  lemma DefaultsStep(ts: seq<Ty>)
    requires ts != []
    ensures Defaults(ts)[0] == Default(ts[0]) && Defaults(ts)[1..] == Defaults(ts[1..])
  {
  }

  lemma {:induction false} DefaultsOk(ts: seq<Ty>)
    requires SupportedTypes(ts)
    ensures SupportedArgs(ts, Defaults(ts)) && PackableArgs(ts, Defaults(ts)) && AllInRange(Defaults(ts))
  {
    if ts != [] {
      DefaultOk(ts[0]);
      DefaultsOk(ts[1..]);
    }
  }

  function WordAt(bs: seq<byte>, w: nat): nat
    requires 32 * w + 32 <= |bs|
  {
    FromBytes(Read(bs, 32 * w, 32))
  }

  /** No word of `bs` reads as the number 1. */
  ghost predicate NoOne(bs: seq<byte>) {
    forall w: nat :: 32 * w + 32 <= |bs| ==> WordAt(bs, w) != 1
  }

  lemma NoOneEmpty()
    ensures NoOne([])
  {
  }

  lemma WordInConcat(a: seq<byte>, b: seq<byte>, words: nat, w: nat)
    requires |a| == 32 * words && 32 * w + 32 <= |a + b|
    ensures w < words ==> WordAt(a + b, w) == WordAt(a, w) && (a + b)[32 * w] == a[32 * w]
    ensures w >= words ==> WordAt(a + b, w) == WordAt(b, w - words) && (a + b)[32 * w] == b[32 * (w - words)]
  {
    if w < words {
      assert Read(a + b, 32 * w, 32) == Read(a, 32 * w, 32);
    } else {
      assert Read(a + b, 32 * w, 32) == Read(b, 32 * (w - words), 32);
    }
  }

  lemma NoOneConcat(a: seq<byte>, b: seq<byte>, words: nat)
    requires |a| == 32 * words && NoOne(a) && NoOne(b)
    ensures NoOne(a + b)
  {
    hide WordAt;
    forall w: nat | 32 * w + 32 <= |a + b| ensures WordAt(a + b, w) != 1 {
      WordInConcat(a, b, words, w);
    }
  }

  lemma DefaultHeadNoOne(t: Ty, offset: nat)
    requires t.Supported() && WellTyped(t, Default(t))
    requires 32 <= offset < TWO_63
    ensures NoOne(HeadPart(t, Enc(t, Default(t)), offset))
  {
    var hd := HeadPart(t, Enc(t, Default(t)), offset);
    forall w: nat | 32 * w + 32 <= |hd| ensures WordAt(hd, w) != 1 {
      if t.RequiresLengthPrefix() {
        assert Read(hd, 32 * w, 32) == U256(offset);
        FromU256(offset);
        SmallMod(offset);
      } else {
        DefaultZero(t);
        assert Read(hd, 32 * w, 32) == Zeros(32);
        U256Zero();
        FromU256(0);
      }
    }
  }

  lemma {:induction false} DefaultHeadsNoOne(ts: seq<Ty>, offset: nat)
    requires SupportedTypes(ts) && SupportedArgs(ts, Defaults(ts))
    requires 32 <= offset && offset + |Tails(ts, Defaults(ts))| < TWO_63
    ensures NoOne(Heads(ts, Defaults(ts), offset))
  {
    hide Enc, WellTyped, NoOne, Default, Defaults, HeadPart, TailPart, Whole, WordCount;
    NoOneEmpty();
    if ts != [] {
      var vs := Defaults(ts);
      DefaultsStep(ts);
      var e := Enc(ts[0], vs[0]);
      HeadPartSize(ts[0], vs[0], offset);
      SlotIsHeadPosition(ts[0], 0);
      DefaultHeadNoOne(ts[0], offset);
      DefaultHeadsNoOne(ts[1..], offset + |TailPart(ts[0], e)|);
      NoOneConcat(HeadPart(ts[0], e, offset), Heads(ts[1..], vs[1..], offset + |TailPart(ts[0], e)|), Slots(ts[0]));
    }
  }

  /** A dynamic value is not read back when the word its head points at is not its length. */
  lemma WrongLength(t: Ty, data: seq<byte>, index: nat, p: nat)
    requires t.Supported() && t.RequiresLengthPrefix()
    requires At(data, index, U256(p)) && p + 32 <= |data| < TWO_63
    requires FromBytes(Read(data, p, 32)) != 1
    ensures ToGo(index, t, data) != Ok(Default(t))
  {
    FromU256(p);
    SmallMod(p);
  }

  lemma {:induction false} MisplacedTail(ts: seq<Ty>, data: seq<byte>, slot: nat, p: nat)
    requires SupportedTypes(ts) && SupportedArgs(ts, Defaults(ts)) && HasDynamic(ts)
    requires At(data, slot * 32, Heads(ts, Defaults(ts), p))
    requires p + 32 <= |data| < TWO_63 && FromBytes(Read(data, p, 32)) != 1
    ensures UnpackFrom(ts, slot, data) != Ok(Defaults(ts))
  {
    hide Enc, WellTyped, Default, Defaults, At, HeadPart, TailPart, UnpackFrom, ToGo, Whole, WordCount, FromBytes;
    var vs := Defaults(ts);
    DefaultsStep(ts);
    var e := Enc(ts[0], vs[0]);
    var hd, tl := HeadPart(ts[0], e, p), TailPart(ts[0], e);
    HeadPartSize(ts[0], vs[0], p);
    AtSplit(data, slot * 32, hd, Heads(ts[1..], vs[1..], p + |tl|), Heads(ts, vs, p));
    if ts[0].RequiresLengthPrefix() {
      DynamicHead(ts[0], e, p);
      WrongLength(ts[0], data, slot * 32, p);
      DifferentHead(ts, slot, data, vs);
    } else {
      SlotIsHeadPosition(ts[0], slot);
      MisplacedTail(ts[1..], data, slot + Slots(ts[0]), p);
      DifferentTail(ts, slot, data, vs);
    }
  }

  lemma DynamicHead(t: Ty, e: seq<byte>, p: nat)
    requires t.RequiresLengthPrefix()
    ensures HeadPart(t, e, p) == U256(p)
  {
  }

  lemma DifferentHead(ts: seq<Ty>, slot: nat, data: seq<byte>, vs: seq<Val>)
    requires ts != [] && |vs| == |ts|
    requires ToGo(slot * 32, ts[0], data) != Ok(vs[0])
    ensures UnpackFrom(ts, slot, data) != Ok(vs)
  {
    var r := UnpackFrom(ts, slot, data);
    if r.Ok? {
      assert ToGo(slot * 32, ts[0], data) == Ok(r.value[0]);
    }
  }

  lemma DifferentTail(ts: seq<Ty>, slot: nat, data: seq<byte>, vs: seq<Val>)
    requires ts != [] && |vs| == |ts|
    requires UnpackFrom(ts[1..], slot + Slots(ts[0]), data) != Ok(vs[1..])
    ensures UnpackFrom(ts, slot, data) != Ok(vs)
  {
    var r := UnpackFrom(ts, slot, data);
    if r.Ok? {
      var rest := UnpackFrom(ts[1..], slot + Slots(ts[0]), data).value;
      assert r.value[1..] == rest;
    }
  }

  ghost predicate RoundTrips(ts: seq<Ty>, vs: seq<Val>)
  {
    PackArgs(ts, vs).Ok? && UnpackFrom(ts, 0, PackArgs(ts, vs).value) == Ok(vs)
  }

  lemma DeepArrayFails(ts: seq<Ty>)
    requires SupportedTypes(ts) && HasDynamic(ts) && HasDeepArray(ts)
    requires |FormalEncoding(ts, Defaults(ts))| < TWO_63
    ensures !RoundTrips(ts, Defaults(ts))
  {
    hide Heads, Tails, Defaults, UnpackFrom, HasDynamic, HasDeepArray, SupportedTypes, SupportedArgs, PackArgs,
         InputOffset, HeadsSize;
    var vs, p := Defaults(ts), InputOffset(ts);
    var hds, tls := Heads(ts, vs, p), Tails(ts, vs);
    DefaultsOk(ts);
    PackedParts(ts, vs);
    MisplacedWord(ts);
    assert Read(hds + tls, p, 32) == Read(hds, p, 32);
    HeadsLength(ts, vs, p);
    HeadsLength(ts, vs, HeadsSize(ts));
    MisplacedTail(ts, hds + tls, 0, p);
  }

  lemma PackedParts(ts: seq<Ty>, vs: seq<Val>)
    requires SupportedArgs(ts, vs) && PackableArgs(ts, vs)
    ensures PackArgs(ts, vs) == Ok(Heads(ts, vs, InputOffset(ts)) + Tails(ts, vs))
  {
    hide SupportedArgs, PackableArgs, InputOffset, Heads, Tails, PackFrom;
    ArgsLength(ts, vs);
    PackFromIsHeadsTails(ts, vs, InputOffset(ts));
  }

  lemma WholeBelow(a: nat, b: nat)
    requires Whole(a) && Whole(b) && a < b
    ensures a + 32 <= b
  {
  }

  lemma NoOneAt(bs: seq<byte>, p: nat)
    requires NoOne(bs) && Whole(p) && p + 32 <= |bs|
    ensures FromBytes(Read(bs, p, 32)) != 1
  {
    assert WordAt(bs, p / 32) != 1;
  }

  /** The word the first tail is announced at lies among the heads and is not a length of 1. */
  lemma MisplacedWord(ts: seq<Ty>)
    requires SupportedTypes(ts) && HasDynamic(ts) && HasDeepArray(ts)
    requires |FormalEncoding(ts, Defaults(ts))| < TWO_63
    ensures var p, hds := InputOffset(ts), Heads(ts, Defaults(ts), InputOffset(ts));
            32 <= p && p + 32 <= |hds| && FromBytes(Read(hds, p, 32)) != 1
  {
    DefaultsOk(ts);
    assert ts != [];
    hide Heads, Tails, Defaults, HasDynamic, HasDeepArray, SupportedTypes, SupportedArgs, InputOffset, HeadsSize,
         FromBytes;
    var vs, p, spec := Defaults(ts), InputOffset(ts), HeadsSize(ts);
    HeadsLength(ts, vs, p);
    HeadsLength(ts, vs, spec);
    HeadSizeExact(ts, vs);
    InputOffsetWords(ts);
    DefaultHeadsNoOne(ts, p);
    WholeBelow(p, spec);
    NoOneAt(Heads(ts, vs, p), p);
  }

  lemma {:induction false} InputOffsetWords(ts: seq<Ty>)
    ensures Whole(InputOffset(ts))
    ensures SupportedTypes(ts) && ts != [] ==> InputOffset(ts) >= 32
  {
    if ts != [] {
      InputOffsetWords(ts[1..]);
    }
  }

  /**
   Outside the fragment, a list of dynamic elements: `string[]` holding one empty string is packed
   without error and comes back as one string of 32 bytes.
   */
  lemma SliceOfStringsFails()
    ensures var ts, vs := [SliceTy(StringTy)], [List(false, [Str([])])];
            && WellTyped(ts[0], vs[0])
            && PackArgs(ts, vs).Ok?
            && UnpackFrom(ts, 0, PackArgs(ts, vs).value).Ok?
            && !RoundTrips(ts, vs)
  {
    hide U256;
    PackOneEmptyString();
    DecodeOneEmptyString();
    var ts, vs := [SliceTy(StringTy)], [List(false, [Str([])])];
    var data := U256(32) + U256(1) + U256(0);
    assert |vs[0].elems[0].bytes| == 0;
    assert UnpackFrom(ts[1..], 1, data) == Ok([]);
    DifferentHead(ts, 0, data, vs);
  }

  lemma PackOneEmptyString()
    ensures PackArgs([SliceTy(StringTy)], [List(false, [Str([])])]) == Ok(U256(32) + U256(1) + U256(0))
  {
    hide U256;
    var ts, vs := [SliceTy(StringTy)], [List(false, [Str([])])];
    var list := vs[0];
    var packed := U256(1) + U256(0);
    assert U256(0) + [] == U256(0) && U256(32) + [] == U256(32) && packed + [] == packed;
    assert ts[1..] == [] && vs[1..] == [] && list.elems[1..] == [];
    assert PackVal(StringTy, Str([])) == Ok(U256(0));
    assert PackElems(StringTy, list.elems) == Ok(U256(0));
    assert PackVal(ts[0], list) == Ok(packed);
    assert PackFrom(ts, vs, 32) == Ok((U256(32), packed));
    assert U256(32) + packed == U256(32) + U256(1) + U256(0);
  }

  lemma DecodeOneEmptyString()
    ensures var data := U256(32) + U256(1) + U256(0);
            ToGo(0, SliceTy(StringTy), data) == Ok(List(false, [Str(data[32..64])]))
  {
    hide U256;
    var data := U256(32) + U256(1) + U256(0);
    assert At(data, 0, U256(32)) && At(data, 32, U256(1)) && At(data, 64, U256(0));
    LengthPrefixReads(data, 0, 32, 1);
    LengthPrefixReads(data, 64, 0, 32);
    assert ToGo(64, StringTy, data) == Ok(Str(Read(data, 32, 32)));
    OneElement(64, StringTy, data, Str(Read(data, 32, 32)));
  }

  lemma OneElement(start: nat, t: Ty, data: seq<byte>, v: Val)
    requires ToGo(start, t, data) == Ok(v)
    ensures ToGoEach(start, 1, t, data) == Ok([v])
  {
    assert ToGoEach(start + 32 * WordCount(t), 0, t, data) == Ok([]);
    assert [v] + [] == [v];
  }

  /** Method arguments: none is indexed. */
  function AsArguments(ts: seq<Ty>): (args: seq<Argument>)
    ensures NonIndexed(args) == ts
  {
    if ts == [] then [] else [Argument(ts[0], false)] + AsArguments(ts[1..])
  }

  // ----- the decoder on arbitrary bytes -----

  /**
   On every byte string, index and type the decoder returns an error or a value of exactly the
   requested type, with all big integers in range; it never panics.
   */
  lemma {:induction false} DecodedIsWellTyped(index: int, t: Ty, data: seq<byte>)
    requires t.WellFormed()
    ensures var r := ToGo(index, t, data);
            r.Err? || (r.Ok? && WellTyped(t, r.value) && InRange(r.value))
    decreases t, 1, 0
  {
    if 0 <= index && index + 32 <= |data| {
      match t
      case SliceTy(e) =>
        var at := LengthPrefix(index, data);
        if at.Ok? {
          EachDecoded(at.value.0, at.value.1, e, data);
        }
      case ArrayTy(k, e) => EachDecoded(index, k, e, data);
      case IntTy(_) => IntegerDecoded(KindOfTy(t), Read(data, index, 32));
      case UintTy(_) => IntegerDecoded(KindOfTy(t), Read(data, index, 32));
      case _ =>
    }
  }

  lemma IntegerDecoded(k: Kind, word: seq<byte>)
    requires |word| == 32
    requires k.BigPtr? || (k.NativeInt? && IsNativeWidth(k.bits))
    ensures var v := ReadInteger(k, word); v.Num? && v.kind == k && Holds(k, v.n) && InRange(v)
  {
    if k.BigPtr? {
      WordBound(word);
    } else {
      FromBytesBound(word[32 - k.bits / 8..]);
      Pow256Words();
    }
  }

  lemma {:induction false} EachDecoded(start: nat, count: nat, t: Ty, data: seq<byte>)
    requires t.WellFormed()
    ensures var r := ToGoEach(start, count, t, data);
            r.Err? || (r.Ok? && |r.value| == count && forall v <- r.value :: WellTyped(t, v) && InRange(v))
    decreases t, 2, count
  {
    if count > 0 {
      DecodedIsWellTyped(start, t, data);
      EachDecoded(start + 32 * WordCount(t), count - 1, t, data);
    }
  }

  /**
   UnpackValues on every byte string and all well-formed argument types: an error, or one value of
   its type for each argument that is not indexed; never a panic.
   */
  lemma UnpackedIsWellTyped(args: seq<Argument>, data: seq<byte>)
    requires forall t <- NonIndexed(args) :: t.WellFormed()
    ensures var ts, r := NonIndexed(args), UnpackArgs(args, data);
            || r.Err?
            || (&& r.Ok? && |r.value| == |ts|
                && forall i :: 0 <= i < |ts| ==> WellTyped(ts[i], r.value[i]) && InRange(r.value[i]))
  {
    UnpackedFromIsWellTyped(NonIndexed(args), 0, data);
  }

  lemma {:induction false} UnpackedFromIsWellTyped(ts: seq<Ty>, slot: nat, data: seq<byte>)
    requires forall t <- ts :: t.WellFormed()
    ensures var r := UnpackFrom(ts, slot, data);
            || r.Err?
            || (&& r.Ok? && |r.value| == |ts|
                && forall i :: 0 <= i < |ts| ==> WellTyped(ts[i], r.value[i]) && InRange(r.value[i]))
  {
    hide ToGo, WellTyped, InRange;
    if ts != [] {
      DecodedIsWellTyped(slot * 32, ts[0], data);
      UnpackedFromIsWellTyped(ts[1..], slot + Slots(ts[0]), data);
      assert forall i :: 1 <= i < |ts| ==> ts[i] == ts[1..][i - 1];
    }
  }

  /** A decoded slice or byte string has exactly the announced number of elements, inside the data. */
  lemma AnnouncedCount(index: nat, t: Ty, data: seq<byte>)
    requires t.WellFormed() && t.RequiresLengthPrefix()
    requires ToGo(index, t, data).Ok?
    ensures index + 32 <= |data|
    ensures var p := FromBytes(Read(data, index, 32));
            && p + 32 <= |data|
            && Len(ToGo(index, t, data).value) == FromBytes(Read(data, p, 32))
            && p + 32 + Len(ToGo(index, t, data).value) * (if t.SliceTy? then 32 else 1) <= |data|
  {
    assert LengthPrefix(index, data).Ok?;
  }
}
