/** What the codec accepts and what it refuses, value by value and word by word (eth/abi). */
module AbiAccepts {
  import opened Results
  import opened Words
  import opened AbiTypes
  import opened AbiPack
  import opened AbiUnpack
  import opened AbiSpec
  import opened AbiRoundTrip

  // ----- packing -----

  /** The values that Type.pack takes for a type; it does not look at the length of an address. */
  predicate Acceptable(t: Ty, v: Val)
    decreases t
  {
    match t
    case IntTy(b) => v.Num? && v.kind == (if b in {8, 16, 32, 64} then NativeInt(true, b) else BigPtr)
    case UintTy(b) => v.Num? && v.kind == (if b in {8, 16, 32, 64} then NativeInt(false, b) else BigPtr)
    case BoolTy => v.Bool?
    case StringTy => v.Str?
    case BytesTy => v.ByteSlice?
    case AddressTy => v.ByteArray?
    case FunctionTy => v.ByteArray?
    case FixedBytesTy(w) => v.ByteArray? && |v.bytes| == w
    case SliceTy(e) => v.List? && (e.ArrayTy? ==> v.elems != []) && forall x <- v.elems :: Acceptable(e, x)
    case ArrayTy(k, e) =>
      v.List? && |v.elems| == k && (e.ArrayTy? ==> v.elems != []) && forall x <- v.elems :: Acceptable(e, x)
  }

  lemma {:induction false} AcceptableChecks(t: Ty, v: Val)
    requires Acceptable(t, v)
    ensures TypeCheck(t, v) == Ok(())
    ensures !t.SliceTy? && !t.ArrayTy? ==> KindOfVal(v) == KindOfTy(t)
    decreases t
  {
    if t.SliceTy? || t.ArrayTy? {
      if v.elems != [] {
        AcceptableChecks(t.elem, v.elems[0]);
      }
    }
  }

  /** Packing succeeds exactly on the acceptable values. */
  lemma {:induction false} PackOkExactly(t: Ty, v: Val)
    ensures PackVal(t, v).Ok? <==> Acceptable(t, v)
    decreases t, 1, 0
  {
    if Acceptable(t, v) {
      AcceptableChecks(t, v);
    }
    if (t.SliceTy? || t.ArrayTy?) && v.List? {
      PackElemsOk(t.elem, v.elems);
    }
  }

  lemma {:induction false} PackElemsOk(t: Ty, vs: seq<Val>)
    ensures PackElems(t, vs).Ok? <==> forall v <- vs :: Acceptable(t, v)
    decreases t, 2, |vs|
  {
    hide PackVal, Acceptable;
    if vs != [] {
      PackOkExactly(t, vs[0]);
      PackElemsOk(t, vs[1..]);
      assert vs == [vs[0]] + vs[1..];
    }
  }

  /** A wrong kind, a wrong width, a wrong array length and a wrong number of arguments are errors, not panics. */
  lemma PackErrors(t: Ty, v: Val, ts: seq<Ty>, vs: seq<Val>)
    ensures !t.SliceTy? && !t.ArrayTy? && KindOfVal(v) != KindOfTy(t) ==> PackVal(t, v) == Err
    ensures t.FixedBytesTy? && v.ByteArray? && |v.bytes| != t.width ==> PackVal(t, v) == Err
    ensures (t.SliceTy? || t.ArrayTy?) && !v.List? ==> PackVal(t, v) == Err
    ensures t.ArrayTy? && v.List? && |v.elems| != t.size ==> PackVal(t, v) == Err
    ensures |ts| != |vs| ==> PackArgs(ts, vs) == Err
  {
  }

  /** An empty list of arrays is a panic; an empty list of slices is packed as its length. */
  lemma EmptyLists(t: Ty)
    ensures PackVal(SliceTy(ArrayTy(1, t)), List(false, [])) == Panic
    ensures PackVal(SliceTy(SliceTy(t)), List(false, [])) == Ok(U256(0))
  {
    hide U256;
    assert PackElems(SliceTy(t), []) == Ok([]);
    assert U256(0) + [] == U256(0);
  }

  // ----- words -----

  /** A word is read as a bool exactly when it is the word of one. */
  lemma ReadBoolExactly(word: seq<byte>, b: bool)
    requires |word| == 32
    ensures ReadBool(word) == Ok(Bool(b)) <==> word == U256(if b then 1 else 0)
    ensures ReadBool(word).Ok? <==> word == U256(0) || word == U256(1)
  {
    OneByte(0);
    OneByte(1);
    assert word == word[..31] + [word[31]];
    if forall x <- word[..31] :: x == 0 {
      assert forall i :: 0 <= i < 31 ==> word[..31][i] in word[..31];
      assert word[..31] == Zeros(31);
    }
  }

  lemma OneByte(n: byte)
    ensures U256(n) == Zeros(31) + [n] && (Zeros(31) + [n])[..31] == Zeros(31)
  {
    U256IsBigEndian(n);
    SmallMod(n);
    assert ToBytes(n, 32) == ToBytes(0, 31) + [n];
    ToBytesZero(31);
  }

  /** A word is read as a function exactly when its last eight bytes are zero. */
  lemma ReadFunctionExactly(word: seq<byte>, bs: seq<byte>)
    requires |word| == 32
    ensures ReadFunction(word) == Ok(ByteArray(bs)) <==> |bs| == 24 && word == bs + Zeros(8)
  {
    assert word == word[..24] + word[24..32];
    assert |bs| == 24 ==> (bs + Zeros(8))[..24] == bs && (bs + Zeros(8))[24..32] == Zeros(8);
    ToFromBytes(word[24..32]);
    ToBytesZero(8);
    FromToBytes(0, 8);
    Pow256Words();
  }

  /** Half of what a native integer of this width can count. */
  function HalfRange(bits: nat): nat
    requires bits in {8, 16, 32, 64}
  {
    if bits == 8 then 0x80
    else if bits == 16 then 0x8000
    else if bits == 32 then 0x8000_0000
    else 0x8000_0000_0000_0000
  }

  /** Every intN and uintN of a native width comes back from its word, over the whole range of the Go type. */
  lemma NativeWidths(bits: nat, n: int)
    requires bits in {8, 16, 32, 64}
    ensures 0 - HalfRange(bits) <= n < HalfRange(bits) ==>
      ReadInteger(KindOfTy(IntTy(bits)), U256(n)) == Num(NativeInt(true, bits), n)
    ensures 0 <= n < 2 * HalfRange(bits) ==>
      ReadInteger(KindOfTy(UintTy(bits)), U256(n)) == Num(NativeInt(false, bits), n)
  {
    Pow256Words();
    hide Pow256, U256, ReadInteger;
    if 0 - HalfRange(bits) <= n < HalfRange(bits) {
      IntegerRoundTrip(NativeInt(true, bits), n);
    }
    if 0 <= n < 2 * HalfRange(bits) {
      IntegerRoundTrip(NativeInt(false, bits), n);
    }
  }

  /** Other widths are unsigned words. */
  lemma WideWidths(bits: nat, n: int)
    requires bits !in {8, 16, 32, 64}
    ensures ReadInteger(KindOfTy(IntTy(bits)), U256(n)) == Num(BigPtr, n % TWO_256)
    ensures ReadInteger(KindOfTy(UintTy(bits)), U256(n)) == Num(BigPtr, n % TWO_256)
  {
    hide U256;
    IntegerRoundTrip(BigPtr, n);
  }

  // ----- offsets and lengths -----

  /** An offset and a length are accepted exactly when the length word and the contents lie inside the data. */
  lemma LengthPrefixExactly(index: nat, data: seq<byte>)
    requires index + 32 <= |data| < TWO_63
    ensures var p := FromBytes(data[index..index + 32]);
      && (LengthPrefix(index, data).Ok? <==>
            p + 32 <= |data| && p + 32 + FromBytes(data[p..p + 32]) <= |data|)
      && (LengthPrefix(index, data).Ok? ==> LengthPrefix(index, data).value == (p + 32, FromBytes(data[p..p + 32])))
      && !LengthPrefix(index, data).Panic?
  {
  }
}
