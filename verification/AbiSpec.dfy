/**
 The encoding of the Solidity Contract ABI Specification, section "Formal Specification of the
 Encoding", on the supported types, and the proof that the encoder produces it.
 */
module AbiSpec {
  import opened Results
  import opened Words
  import opened AbiTypes
  import opened AbiPack

  // ----- enc(X) -----

  function PadRight32(bs: seq<byte>): seq<byte> {
    bs + Zeros((32 - |bs| % 32) % 32)
  }

  /** enc(X) for a value of type `t`; empty for anything that is not one. */
  function Enc(t: Ty, v: Val): seq<byte>
    decreases t, 1, 0
  {
    match t
    case IntTy(_) => if v.Num? then U256(v.n) else []
    case UintTy(_) => if v.Num? then U256(v.n) else []
    case BoolTy => if v.Bool? then U256(if v.b then 1 else 0) else []
    case AddressTy => if v.ByteArray? then Zeros(12) + v.bytes else []
    case FixedBytesTy(w) => if v.ByteArray? && w <= 32 then v.bytes + Zeros(32 - w) else []
    case FunctionTy => if v.ByteArray? then v.bytes + Zeros(8) else []
    case StringTy => if v.Str? then U256(|v.bytes|) + PadRight32(v.bytes) else []
    case BytesTy => if v.ByteSlice? then U256(|v.bytes|) + PadRight32(v.bytes) else []
    case SliceTy(e) => if v.List? then U256(|v.elems|) + EncAll(e, v.elems) else []
    case ArrayTy(_, e) => if v.List? then EncAll(e, v.elems) else []
  }

  function EncAll(t: Ty, vs: seq<Val>): seq<byte>
    decreases t, 2, |vs|
  {
    if vs == [] then [] else Enc(t, vs[0]) + EncAll(t, vs[1..])
  }

  lemma {:induction false} EncLength(t: Ty, v: Val)
    requires t.Supported() && WellTyped(t, v)
    ensures t.Static() ==> |Enc(t, v)| == 32 * WordCount(t)
    ensures |Enc(t, v)| >= 32
    ensures Whole(|Enc(t, v)|)
    decreases t, 1, 0
  {
    match t
    case SliceTy(e) =>
      EncAllLength(e, v.elems);
      MulMod32(|v.elems|, WordCount(e));
    case ArrayTy(k, e) =>
      EncAllLength(e, v.elems);
      MulMod32(k, WordCount(e));
      StaticWordCount(t);
    case StringTy => PadAgrees(v.bytes);
    case BytesTy => PadAgrees(v.bytes);
    case _ =>
  }

  /** A whole number of words. */
  predicate Whole(n: nat) {
    n % 32 == 0
  }

  lemma MulMod32(k: nat, n: nat)
    ensures k * (32 * n) == 32 * (k * n)
    ensures Whole(k * (32 * n)) && Whole(32 + k * (32 * n))
  {
    assert Whole(32 * (k * n));
  }

  lemma {:induction false} EncAllLength(t: Ty, vs: seq<Val>)
    requires t.Supported() && t.Static()
    requires forall v <- vs :: WellTyped(t, v)
    ensures |EncAll(t, vs)| == |vs| * (32 * WordCount(t))
    ensures |EncAll(t, vs)| >= 32 * |vs|
    decreases t, 2, |vs|
  {
    if vs != [] {
      EncLength(t, vs[0]);
      EncAllLength(t, vs[1..]);
      assert |vs| * (32 * WordCount(t)) == 32 * WordCount(t) + (|vs| - 1) * (32 * WordCount(t));
    }
  }

  // ----- the encoder writes enc(X) -----

  /** The check of a list of arrays indexes element 0, so such a slice must not be empty. */
  predicate Packable(t: Ty, v: Val) {
    t.SliceTy? && t.elem.ArrayTy? && v.List? ==> v.elems != []
  }

  lemma KindAgrees(t: Ty, v: Val)
    requires WellTyped(t, v)
    ensures KindOfVal(v) == KindOfTy(t)
  {
  }

  lemma {:induction false} StaticCheckOk(t: Ty, v: Val)
    requires t.Supported() && WellTyped(t, v) && Packable(t, v)
    ensures TypeCheck(t, v) == Ok(())
    decreases t
  {
    KindAgrees(t, v);
    if (t.SliceTy? || t.ArrayTy?) && v.elems != [] {
      KindAgrees(t.elem, v.elems[0]);
      assert t.elem.Static();
      if t.elem.ArrayTy? {
        StaticCheckOk(t.elem, v.elems[0]);
      }
    }
  }

  /** Type.pack succeeds with exactly enc(X), or panics on an empty slice of arrays. */
  lemma {:induction false} PackValIsEnc(t: Ty, v: Val)
    requires t.Supported() && WellTyped(t, v)
    ensures PackVal(t, v) == if Packable(t, v) then Ok(Enc(t, v)) else Panic
    decreases t, 1, 0
  {
    if Packable(t, v) {
      StaticCheckOk(t, v);
      match t
      case SliceTy(e) =>
        PackElemsIsEnc(e, v.elems);
        EncAllLength(e, v.elems);
      case ArrayTy(_, e) =>
        PackElemsIsEnc(e, v.elems);
      case StringTy => PadAgrees(v.bytes);
      case BytesTy => PadAgrees(v.bytes);
      case FixedBytesTy(w) => assert v.bytes + Zeros(0) == v.bytes;
      case _ =>
    }
  }

  lemma PadAgrees(bs: seq<byte>)
    ensures RightPad(bs, (|bs| + 31) / 32 * 32) == PadRight32(bs)
    ensures Whole(32 + |PadRight32(bs)|)
  {
    assert bs + Zeros(0) == bs;
    var n := |bs|;
    if n % 32 == 0 {
      assert (n + 31) / 32 * 32 == n;
    } else {
      assert (n + 31) / 32 * 32 == n + (32 - n % 32);
    }
  }

  lemma {:induction false} PackElemsIsEnc(t: Ty, vs: seq<Val>)
    requires t.Supported() && t.Static()
    requires forall v <- vs :: WellTyped(t, v)
    ensures PackElems(t, vs) == Ok(EncAll(t, vs))
    decreases t, 2, |vs|
  {
    if vs != [] {
      PackValIsEnc(t, vs[0]);
      PackElemsIsEnc(t, vs[1..]);
    }
  }

  // ----- argument lists -----

  predicate SupportedArgs(ts: seq<Ty>, vs: seq<Val>) {
    && |ts| == |vs|
    && (ts != [] ==> ts[0].Supported() && WellTyped(ts[0], vs[0]) && SupportedArgs(ts[1..], vs[1..]))
  }

  lemma ArgsLength(ts: seq<Ty>, vs: seq<Val>)
    requires SupportedArgs(ts, vs)
    ensures |ts| == |vs|
  {
  }

  predicate PackableArgs(ts: seq<Ty>, vs: seq<Val>) {
    ts != [] && vs != [] ==> Packable(ts[0], vs[0]) && PackableArgs(ts[1..], vs[1..])
  }

  function HeadSize(t: Ty): nat {
    if t.RequiresLengthPrefix() then 32 else 32 * WordCount(t)
  }

  /** Byte length of head(X1) ... head(Xn). */
  function HeadsSize(ts: seq<Ty>): nat {
    if ts == [] then 0 else HeadSize(ts[0]) + HeadsSize(ts[1..])
  }

  function Heads(ts: seq<Ty>, vs: seq<Val>, offset: nat): seq<byte> {
    if ts == [] || vs == [] then [] else
    var e := Enc(ts[0], vs[0]);
    HeadPart(ts[0], e, offset) + Heads(ts[1..], vs[1..], offset + |TailPart(ts[0], e)|)
  }

  function Tails(ts: seq<Ty>, vs: seq<Val>): seq<byte> {
    if ts == [] || vs == [] then [] else TailPart(ts[0], Enc(ts[0], vs[0])) + Tails(ts[1..], vs[1..])
  }

  /** Heads, then tails, gathered argument by argument; the first tail follows the last head. */
  function FormalEncoding(ts: seq<Ty>, vs: seq<Val>): seq<byte> {
    Heads(ts, vs, HeadsSize(ts)) + Tails(ts, vs)
  }

  lemma HeadPartSize(t: Ty, v: Val, offset: nat)
    requires t.Supported() && WellTyped(t, v)
    ensures |HeadPart(t, Enc(t, v), offset)| == HeadSize(t)
    ensures Whole(HeadSize(t)) && Whole(|TailPart(t, Enc(t, v))|)
    ensures !t.RequiresLengthPrefix() ==> TailPart(t, Enc(t, v)) == []
  {
    hide Enc, WellTyped, U256, WordCount;
    EncLength(t, v);
  }

  lemma WholeZero()
    ensures Whole(0)
  {
  }

  lemma WholeAdd(a: nat, b: nat)
    requires Whole(a) && Whole(b)
    ensures Whole(a + b)
  {
  }

  lemma {:induction false} HeadsLength(ts: seq<Ty>, vs: seq<Val>, offset: nat)
    requires SupportedArgs(ts, vs)
    ensures |Heads(ts, vs, offset)| == HeadsSize(ts)
    ensures Whole(HeadsSize(ts)) && Whole(|Tails(ts, vs)|)
  {
    hide HeadSize, HeadPart, TailPart, Enc, WellTyped, Whole;
    WholeZero();
    if ts != [] {
      var tl := TailPart(ts[0], Enc(ts[0], vs[0]));
      HeadPartSize(ts[0], vs[0], offset);
      HeadsLength(ts[1..], vs[1..], offset + |tl|);
      WholeAdd(HeadSize(ts[0]), HeadsSize(ts[1..]));
      WholeAdd(|tl|, |Tails(ts[1..], vs[1..])|);
    }
  }

  lemma {:induction false} PackFromIsHeadsTails(ts: seq<Ty>, vs: seq<Val>, offset: nat)
    requires SupportedArgs(ts, vs)
    ensures PackFrom(ts, vs, offset)
         == if PackableArgs(ts, vs) then Ok((Heads(ts, vs, offset), Tails(ts, vs))) else Panic
  {
    hide Enc, WellTyped, U256, PackVal, Packable;
    if ts != [] {
      PackValIsEnc(ts[0], vs[0]);
      PackFromIsHeadsTails(ts[1..], vs[1..], offset + |TailPart(ts[0], Enc(ts[0], vs[0]))|);
    }
  }

  // ----- when the reserved head size is right -----

  predicate HasDynamic(ts: seq<Ty>) {
    ts != [] && (ts[0].RequiresLengthPrefix() || HasDynamic(ts[1..]))
  }

  /** An array argument that holds more words than its outer size says. */
  predicate DeepArray(t: Ty) {
    t.ArrayTy? && WordCount(t.elem) > 1
  }

  predicate HasDeepArray(ts: seq<Ty>) {
    ts != [] && (DeepArray(ts[0]) || HasDeepArray(ts[1..]))
  }

  /** The encoder's head size is right exactly when no array argument is deep. */
  lemma {:induction false} HeadSizeExact(ts: seq<Ty>, vs: seq<Val>)
    requires SupportedArgs(ts, vs)
    ensures InputOffset(ts) <= HeadsSize(ts)
    ensures InputOffset(ts) == HeadsSize(ts) <==> !HasDeepArray(ts)
  {
    hide WellTyped, HeadSize, DeepArray;
    if ts != [] {
      HeadSizeExact(ts[1..], vs[1..]);
      OneHeadExact(ts[0]);
    }
  }

  lemma OneHeadExact(t: Ty)
    requires t.Supported()
    ensures (if t.ArrayTy? then 32 * t.size else 32) <= HeadSize(t)
    ensures (if t.ArrayTy? then 32 * t.size else 32) == HeadSize(t) <==> !DeepArray(t)
  {
    if t.ArrayTy? {
      StaticWordCount(t.elem);
      MulKeeps(t.size, WordCount(t.elem));
    }
  }

  lemma MulKeeps(k: nat, n: nat)
    requires k >= 1 && n >= 1
    ensures k * n >= k
    ensures k * n == k <==> n <= 1
  {
    if n > 1 {
      assert k * n == k + k * (n - 1);
      MulAtLeast(n - 1, k);
    } else {
      assert k * n == k;
    }
  }

  lemma {:induction false} HeadsDiffer(ts: seq<Ty>, vs: seq<Val>, a: nat, b: nat)
    requires SupportedArgs(ts, vs) && HasDynamic(ts)
    requires a != b && a < TWO_256 && b < TWO_256
    ensures Heads(ts, vs, a) != Heads(ts, vs, b)
  {
    hide Enc, WellTyped, U256;
    var e := Enc(ts[0], vs[0]);
    if ts[0].RequiresLengthPrefix() {
      HeadOfConcat(U256(a), U256(b), Heads(ts[1..], vs[1..], a + |e|), Heads(ts[1..], vs[1..], b + |e|));
      if U256(a) == U256(b) {
        U256Injective(a, b);
      }
    } else {
      HeadsDiffer(ts[1..], vs[1..], a, b);
      TailsOfConcat(e, Heads(ts[1..], vs[1..], a), Heads(ts[1..], vs[1..], b));
    }
  }

  lemma TailsOfConcat(e: seq<byte>, a: seq<byte>, b: seq<byte>)
    ensures e + a == e + b ==> a == b
  {
    assert (e + a)[|e|..] == a && (e + b)[|e|..] == b;
  }

  lemma HeadOfConcat(e: seq<byte>, f: seq<byte>, a: seq<byte>, b: seq<byte>)
    requires |e| == |f|
    ensures e + a == f + b ==> e == f
  {
    assert (e + a)[..|e|] == e && (f + b)[..|f|] == f;
  }

  // ----- the standard's own formula -----

  /** The dynamic types of the standard. */
  predicate IsDynamic(t: Ty) {
    match t
    case StringTy | BytesTy | SliceTy(_) => true
    case ArrayTy(_, e) => IsDynamic(e)
    case _ => false
  }

  /** The length of head(X1) ... head(Xi). */
  function HeadsLengthTo(ts: seq<Ty>, vs: seq<Val>, i: nat): nat {
    if i == 0 || i > |ts| || i > |vs| then 0
    else HeadsLengthTo(ts, vs, i - 1) + (if IsDynamic(ts[i - 1]) then 32 else |Enc(ts[i - 1], vs[i - 1])|)
  }

  /** tail(X1) ... tail(Xi). */
  function TailsTo(ts: seq<Ty>, vs: seq<Val>, i: nat): seq<byte> {
    if i == 0 || i > |ts| || i > |vs| then []
    else TailsTo(ts, vs, i - 1) + (if IsDynamic(ts[i - 1]) then Enc(ts[i - 1], vs[i - 1]) else [])
  }

  /** head(X1) ... head(Xi) when all heads together take `size` bytes. */
  function HeadsTo(ts: seq<Ty>, vs: seq<Val>, i: nat, size: nat): seq<byte> {
    if i == 0 || i > |ts| || i > |vs| then [] else
    HeadsTo(ts, vs, i - 1, size)
    + (if IsDynamic(ts[i - 1]) then U256(size + |TailsTo(ts, vs, i - 1)|) else Enc(ts[i - 1], vs[i - 1]))
  }

  /** enc((X1, ..., Xn)) = head(X1) ... head(Xn) tail(X1) ... tail(Xn). */
  function StandardEncoding(ts: seq<Ty>, vs: seq<Val>): seq<byte> {
    HeadsTo(ts, vs, |ts|, HeadsLengthTo(ts, vs, |ts|)) + TailsTo(ts, vs, |ts|)
  }

  lemma {:induction false} StaticIsNotDynamic(t: Ty)
    ensures t.Static() ==> !IsDynamic(t)
  {
    if t.ArrayTy? {
      StaticIsNotDynamic(t.elem);
    }
  }

  lemma {:induction false} SupportedAt(ts: seq<Ty>, vs: seq<Val>, i: nat)
    requires SupportedArgs(ts, vs) && i < |ts|
    ensures ts[i].Supported() && WellTyped(ts[i], vs[i]) && (IsDynamic(ts[i]) <==> ts[i].RequiresLengthPrefix())
  {
    StaticIsNotDynamic(ts[i]);
    if i > 0 {
      SupportedAt(ts[1..], vs[1..], i - 1);
    }
  }

  /** Heads and tails of the arguments from the i-th on. */
  function HeadsFrom(ts: seq<Ty>, vs: seq<Val>, i: nat, offset: nat): seq<byte> {
    if i > |ts| || i > |vs| then [] else Heads(ts[i..], vs[i..], offset)
  }

  function TailsFrom(ts: seq<Ty>, vs: seq<Val>, i: nat): seq<byte> {
    if i > |ts| || i > |vs| then [] else Tails(ts[i..], vs[i..])
  }

  /** The first i arguments by the standard's formula and the others argument by argument. */
  function HeadsVia(ts: seq<Ty>, vs: seq<Val>, i: nat, size: nat): seq<byte> {
    HeadsTo(ts, vs, i, size) + HeadsFrom(ts, vs, i, size + |TailsTo(ts, vs, i)|)
  }

  function TailsVia(ts: seq<Ty>, vs: seq<Val>, i: nat): seq<byte> {
    TailsTo(ts, vs, i) + TailsFrom(ts, vs, i)
  }

  function SizeVia(ts: seq<Ty>, vs: seq<Val>, i: nat): nat {
    if i > |ts| then 0 else HeadsLengthTo(ts, vs, i) + HeadsSize(ts[i..])
  }

  lemma {:induction false} SameVia(ts: seq<Ty>, vs: seq<Val>, i: nat, size: nat)
    requires SupportedArgs(ts, vs) && i <= |ts|
    ensures HeadsVia(ts, vs, i, size) == Heads(ts, vs, size)
    ensures TailsVia(ts, vs, i) == Tails(ts, vs)
    ensures SizeVia(ts, vs, i) == HeadsSize(ts)
  {
    hide HeadsVia, TailsVia, SizeVia, SupportedArgs, Heads, Tails, HeadsSize;
    if i == 0 {
      ViaNone(ts, vs, size);
    } else {
      SameVia(ts, vs, i - 1, size);
      ViaNext(ts, vs, i - 1, size);
    }
  }

  lemma ViaNone(ts: seq<Ty>, vs: seq<Val>, size: nat)
    ensures HeadsVia(ts, vs, 0, size) == Heads(ts, vs, size)
    ensures TailsVia(ts, vs, 0) == Tails(ts, vs)
    ensures SizeVia(ts, vs, 0) == HeadsSize(ts)
  {
    assert ts[0..] == ts && vs[0..] == vs;
  }

  lemma ViaNext(ts: seq<Ty>, vs: seq<Val>, j: nat, size: nat)
    requires SupportedArgs(ts, vs) && j < |ts|
    ensures HeadsVia(ts, vs, j, size) == HeadsVia(ts, vs, j + 1, size)
    ensures TailsVia(ts, vs, j) == TailsVia(ts, vs, j + 1)
    ensures SizeVia(ts, vs, j) == SizeVia(ts, vs, j + 1)
  {
    hide SupportedArgs, HeadsVia, TailsVia, SizeVia;
    HeadsViaNext(ts, vs, j, size);
    TailsViaNext(ts, vs, j);
    SizeViaNext(ts, vs, j);
  }

  lemma HeadsViaNext(ts: seq<Ty>, vs: seq<Val>, j: nat, size: nat)
    requires SupportedArgs(ts, vs) && j < |ts|
    ensures HeadsVia(ts, vs, j, size) == HeadsVia(ts, vs, j + 1, size)
  {
    hide SupportedArgs, HeadsFrom, HeadsTo, TailsTo, Enc, HeadPart, TailPart;
    ArgsLength(ts, vs);
    var p, e := size + |TailsTo(ts, vs, j)|, Enc(ts[j], vs[j]);
    HeadsStep(ts, vs, j, size);
    TailsStep(ts, vs, j);
    HeadsAt(ts, vs, j, p);
    Regroup(HeadsTo(ts, vs, j, size), HeadPart(ts[j], e, p), HeadsFrom(ts, vs, j + 1, p + |TailPart(ts[j], e)|),
            HeadsTo(ts, vs, j + 1, size), HeadsFrom(ts, vs, j, p));
  }

  lemma TailsViaNext(ts: seq<Ty>, vs: seq<Val>, j: nat)
    requires SupportedArgs(ts, vs) && j < |ts|
    ensures TailsVia(ts, vs, j) == TailsVia(ts, vs, j + 1)
  {
    hide SupportedArgs, TailsFrom, TailsTo, Enc, TailPart;
    ArgsLength(ts, vs);
    TailsStep(ts, vs, j);
    TailsAt(ts, vs, j);
    Regroup(TailsTo(ts, vs, j), TailPart(ts[j], Enc(ts[j], vs[j])), TailsFrom(ts, vs, j + 1),
            TailsTo(ts, vs, j + 1), TailsFrom(ts, vs, j));
  }

  lemma SizeViaNext(ts: seq<Ty>, vs: seq<Val>, j: nat)
    requires SupportedArgs(ts, vs) && j < |ts|
    ensures SizeVia(ts, vs, j) == SizeVia(ts, vs, j + 1)
  {
    hide Enc, WellTyped, IsDynamic, WordCount;
    SupportedAt(ts, vs, j);
    HeadPartSize(ts[j], vs[j], 0);
    assert ts[j..][1..] == ts[j + 1..];
  }

  lemma Regroup(done: seq<byte>, part: seq<byte>, rest: seq<byte>, more: seq<byte>, left: seq<byte>)
    requires more == done + part && left == part + rest
    ensures done + left == more + rest
  {
  }

  lemma HeadsStep(ts: seq<Ty>, vs: seq<Val>, j: nat, size: nat)
    requires SupportedArgs(ts, vs) && j < |ts|
    ensures HeadsTo(ts, vs, j + 1, size)
         == HeadsTo(ts, vs, j, size) + HeadPart(ts[j], Enc(ts[j], vs[j]), size + |TailsTo(ts, vs, j)|)
  {
    hide Enc, WellTyped, IsDynamic;
    SupportedAt(ts, vs, j);
  }

  lemma TailsStep(ts: seq<Ty>, vs: seq<Val>, j: nat)
    requires SupportedArgs(ts, vs) && j < |ts|
    ensures TailsTo(ts, vs, j + 1) == TailsTo(ts, vs, j) + TailPart(ts[j], Enc(ts[j], vs[j]))
  {
    hide Enc, WellTyped, IsDynamic;
    SupportedAt(ts, vs, j);
  }

  lemma HeadsAt(ts: seq<Ty>, vs: seq<Val>, j: nat, p: nat)
    requires |ts| == |vs| && j < |ts|
    ensures var e := Enc(ts[j], vs[j]);
            HeadsFrom(ts, vs, j, p) == HeadPart(ts[j], e, p) + HeadsFrom(ts, vs, j + 1, p + |TailPart(ts[j], e)|)
  {
    hide Enc, HeadPart, TailPart;
    assert ts[j..][1..] == ts[j + 1..] && vs[j..][1..] == vs[j + 1..];
  }

  lemma TailsAt(ts: seq<Ty>, vs: seq<Val>, j: nat)
    requires |ts| == |vs| && j < |ts|
    ensures TailsFrom(ts, vs, j) == TailPart(ts[j], Enc(ts[j], vs[j])) + TailsFrom(ts, vs, j + 1)
  {
    hide Enc, TailPart;
    assert ts[j..][1..] == ts[j + 1..] && vs[j..][1..] == vs[j + 1..];
  }

  lemma ViaAll(ts: seq<Ty>, vs: seq<Val>, size: nat)
    requires |ts| == |vs|
    ensures HeadsVia(ts, vs, |ts|, size) == HeadsTo(ts, vs, |ts|, size)
    ensures TailsVia(ts, vs, |ts|) == TailsTo(ts, vs, |ts|)
    ensures SizeVia(ts, vs, |ts|) == HeadsLengthTo(ts, vs, |ts|)
  {
    hide HeadsTo, TailsTo, HeadsLengthTo;
    assert ts[|ts|..] == [] && vs[|ts|..] == [];
  }

  lemma StandardIsFormal(ts: seq<Ty>, vs: seq<Val>)
    requires SupportedArgs(ts, vs)
    ensures StandardEncoding(ts, vs) == FormalEncoding(ts, vs)
  {
    hide HeadsVia, TailsVia, SizeVia, SupportedArgs, Heads, Tails, HeadsSize, HeadsTo, TailsTo, HeadsLengthTo;
    ArgsLength(ts, vs);
    SameVia(ts, vs, |ts|, HeadsSize(ts));
    ViaAll(ts, vs, HeadsSize(ts));
  }

  /**
   Pack against the standard: on supported arguments it panics exactly on an empty slice of arrays,
   and otherwise its output is a whole number of words and is the standard encoding exactly when
   there is nothing to point at or no array argument is nested deeper than one counted level.
   */
  lemma PackMatchesSpecification(ts: seq<Ty>, vs: seq<Val>)
    requires SupportedArgs(ts, vs)
    requires HeadsSize(ts) < TWO_256
    ensures PackArgs(ts, vs).Panic? <==> !PackableArgs(ts, vs)
    ensures PackableArgs(ts, vs) ==>
      && PackArgs(ts, vs).Ok? && Whole(|PackArgs(ts, vs).value|)
      && (PackArgs(ts, vs).value == StandardEncoding(ts, vs) <==> !HasDynamic(ts) || !HasDeepArray(ts))
  {
    hide Heads, Tails, InputOffset, HeadsSize, HasDynamic, HasDeepArray, Whole, PackableArgs, SupportedArgs,
         PackFrom, StandardEncoding;
    ArgsLength(ts, vs);
    var code, spec := InputOffset(ts), HeadsSize(ts);
    StandardIsFormal(ts, vs);
    PackFromIsHeadsTails(ts, vs, code);
    HeadSizeExact(ts, vs);
    HeadsLength(ts, vs, code);
    HeadsLength(ts, vs, spec);
    WholeAdd(spec, |Tails(ts, vs)|);
    if !HasDynamic(ts) {
      HeadsSame(ts, vs, code, spec);
    } else if code != spec {
      HeadsDiffer(ts, vs, code, spec);
      HeadOfConcat(Heads(ts, vs, code), Heads(ts, vs, spec), Tails(ts, vs), Tails(ts, vs));
    }
  }

  lemma {:induction false} HeadsSame(ts: seq<Ty>, vs: seq<Val>, a: nat, b: nat)
    requires SupportedArgs(ts, vs) && !HasDynamic(ts)
    ensures Heads(ts, vs, a) == Heads(ts, vs, b)
  {
    if ts != [] {
      HeadsSame(ts[1..], vs[1..], a, b);
    }
  }

  // ----- where things are -----

  /** `bs` stands in `data` at byte `pos`. */
  predicate At(data: seq<byte>, pos: nat, bs: seq<byte>) {
    pos + |bs| <= |data| && data[pos..pos + |bs|] == bs
  }

  lemma AtConcat(data: seq<byte>, pos: nat, a: seq<byte>, b: seq<byte>)
    ensures At(data, pos, a + b) <==> At(data, pos, a) && At(data, pos + |a|, b)
  {
    if At(data, pos, a + b) {
      assert a == (a + b)[..|a|] == data[pos..pos + |a|];
      assert b == (a + b)[|a|..] == data[pos + |a|..pos + |a + b|];
    }
    if At(data, pos, a) && At(data, pos + |a|, b) {
      assert data[pos..pos + |a + b|] == a + b;
    }
  }

  lemma AtSplit(data: seq<byte>, pos: nat, a: seq<byte>, b: seq<byte>, whole: seq<byte>)
    requires At(data, pos, whole) && whole == a + b
    ensures At(data, pos, a) && At(data, pos + |a|, b)
  {
    AtConcat(data, pos, a, b);
  }

  /**
   Every argument is where its head says: a static one stands in its head, a dynamic one has as
   head word exactly the byte position of its length word.
   */
  predicate Layout(ts: seq<Ty>, vs: seq<Val>, data: seq<byte>, head: nat, tail: nat) {
    ts != [] && vs != [] ==>
      var e := Enc(ts[0], vs[0]);
      && At(data, head, HeadPart(ts[0], e, tail))
      && At(data, tail, TailPart(ts[0], e))
      && Layout(ts[1..], vs[1..], data, head + HeadSize(ts[0]), tail + |TailPart(ts[0], e)|)
  }

  /** The standard encoding has this layout, the tails starting right after the heads. */
  lemma FormalEncodingLayout(ts: seq<Ty>, vs: seq<Val>)
    requires SupportedArgs(ts, vs)
    ensures Layout(ts, vs, FormalEncoding(ts, vs), 0, HeadsSize(ts))
  {
    HeadsLength(ts, vs, HeadsSize(ts));
    AtConcat(FormalEncoding(ts, vs), 0, Heads(ts, vs, HeadsSize(ts)), Tails(ts, vs));
    LayoutFrom(ts, vs, FormalEncoding(ts, vs), 0, HeadsSize(ts));
  }

  lemma {:induction false} LayoutFrom(ts: seq<Ty>, vs: seq<Val>, data: seq<byte>, head: nat, tail: nat)
    requires SupportedArgs(ts, vs)
    requires At(data, head, Heads(ts, vs, tail)) && At(data, tail, Tails(ts, vs))
    ensures Layout(ts, vs, data, head, tail)
  {
    hide Enc, WellTyped, At, HeadPart, TailPart, HeadSize, Whole;
    if ts != [] {
      var e := Enc(ts[0], vs[0]);
      var hd, tl := HeadPart(ts[0], e, tail), TailPart(ts[0], e);
      var hds, tls := Heads(ts[1..], vs[1..], tail + |tl|), Tails(ts[1..], vs[1..]);
      HeadPartSize(ts[0], vs[0], tail);
      AtSplit(data, head, hd, hds, Heads(ts, vs, tail));
      AtSplit(data, tail, tl, tls, Tails(ts, vs));
      LayoutFrom(ts[1..], vs[1..], data, head + |hd|, tail + |tl|);
    }
  }
}
