/** Parsed ABI types and the Go values they carry (eth/abi/type.go, eth/abi/reflect.go). */
module AbiTypes {
  import opened Words

  /** A parsed type tree. `bits`, `width` and `size` are the Go field `Size`. */
  datatype Ty =
    | IntTy(bits: nat)
    | UintTy(bits: nat)
    | BoolTy
    | AddressTy
    | FixedBytesTy(width: nat)
    | FunctionTy
    | StringTy
    | BytesTy
    | SliceTy(elem: Ty)
    | ArrayTy(size: nat, elem: Ty)
  {
    /** Type.requiresLengthPrefix. */
    predicate RequiresLengthPrefix() {
      StringTy? || BytesTy? || SliceTy?
    }

    /** A Solidity type: no fixed byte array is wider than a word. */
    predicate WellFormed() {
      match this
      case FixedBytesTy(w) => 1 <= w <= 32
      case SliceTy(e) => e.WellFormed()
      case ArrayTy(_, e) => e.WellFormed()
      case _ => true
    }

    /** Encoded in place, with no dynamic part and no empty array. */
    predicate Static() {
      match this
      case ArrayTy(k, e) => k >= 1 && e.Static()
      case _ => !RequiresLengthPrefix()
    }

    /** The types the codec is meant for: static ones, byte strings and slices of static ones. */
    predicate Supported() {
      && WellFormed()
      && (Static() || StringTy? || BytesTy? || (SliceTy? && elem.Static()))
    }
  }

  /** reflect.Kind, as far as the codec looks at it. A pointer is always a *big.Int. */
  datatype Kind = NativeInt(signed: bool, bits: nat) | BigPtr | BoolKind | StringKind | SliceKind | ArrayKind

  /** A Go value handed to Pack or made by Unpack. `fixed` tells a Go array from a Go slice. */
  datatype Val =
    | Num(kind: Kind, n: int)
    | Bool(b: bool)
    | Str(bytes: seq<byte>)
    | ByteArray(bytes: seq<byte>)
    | ByteSlice(bytes: seq<byte>)
    | List(fixed: bool, elems: seq<Val>)

  predicate IsNativeWidth(bits: nat) {
    bits == 8 || bits == 16 || bits == 32 || bits == 64
  }

  /** The Kind that NewType and reflectIntKindAndType give a type. */
  function KindOfTy(t: Ty): Kind {
    match t
    case IntTy(b) => if IsNativeWidth(b) then NativeInt(true, b) else BigPtr
    case UintTy(b) => if IsNativeWidth(b) then NativeInt(false, b) else BigPtr
    case BoolTy => BoolKind
    case StringTy => StringKind
    case BytesTy | SliceTy(_) => SliceKind
    case AddressTy | FixedBytesTy(_) | FunctionTy | ArrayTy(_, _) => ArrayKind
  }

  function KindOfVal(v: Val): Kind {
    match v
    case Num(k, _) => k
    case Bool(_) => BoolKind
    case Str(_) => StringKind
    case ByteArray(_) => ArrayKind
    case ByteSlice(_) => SliceKind
    case List(fixed, _) => if fixed then ArrayKind else SliceKind
  }

  /** What a Go integer variable of this kind can hold. */
  predicate Holds(k: Kind, n: int) {
    match k
    case NativeInt(signed, bits) =>
      && IsNativeWidth(bits)
      && (if signed then -(Pow256(bits / 8) / 2) <= n < Pow256(bits / 8) / 2 else 0 <= n < Pow256(bits / 8))
    case BigPtr => true
    case _ => false
  }

  /** `v` is a Go value of exactly the Go type that `t` stands for. */
  predicate WellTyped(t: Ty, v: Val)
    decreases t
  {
    match t
    case IntTy(_) => v.Num? && v.kind == KindOfTy(t) && Holds(v.kind, v.n)
    case UintTy(_) => v.Num? && v.kind == KindOfTy(t) && Holds(v.kind, v.n)
    case BoolTy => v.Bool?
    case AddressTy => v.ByteArray? && |v.bytes| == 20
    case FixedBytesTy(w) => v.ByteArray? && |v.bytes| == w
    case FunctionTy => v.ByteArray? && |v.bytes| == 24
    case StringTy => v.Str?
    case BytesTy => v.ByteSlice?
    case SliceTy(e) => v.List? && !v.fixed && forall x <- v.elems :: WellTyped(e, x)
    case ArrayTy(k, e) => v.List? && v.fixed && |v.elems| == k && forall x <- v.elems :: WellTyped(e, x)
  }

  /** What a 256-bit word keeps of a value: big integers modulo 2^256, all else unchanged. */
  function Canon(v: Val): Val {
    match v
    case Num(BigPtr, n) => Num(BigPtr, n % TWO_256)
    case List(fixed, elems) => List(fixed, CanonAll(elems))
    case _ => v
  }

  function CanonAll(vs: seq<Val>): (r: seq<Val>)
    ensures |r| == |vs|
  {
    if vs == [] then [] else [Canon(vs[0])] + CanonAll(vs[1..])
  }

  /** Every *big.Int inside lies in [0, 2^256). */
  predicate InRange(v: Val) {
    match v
    case Num(BigPtr, n) => 0 <= n < TWO_256
    case List(_, elems) => forall x <- elems :: InRange(x)
    case _ => true
  }

  lemma {:induction false} CanonIdentity(v: Val)
    ensures Canon(v) == v <==> InRange(v)
    decreases v, 0
  {
    match v
    case List(fixed, elems) => CanonAllIdentity(elems);
    case _ =>
  }

  lemma {:induction false} CanonAllIdentity(vs: seq<Val>)
    ensures CanonAll(vs) == vs <==> forall x <- vs :: InRange(x)
    decreases vs, 1
  {
    if vs != [] {
      CanonIdentity(vs[0]);
      CanonAllIdentity(vs[1..]);
      assert vs == [vs[0]] + vs[1..];
      assert (forall x <- vs :: InRange(x)) <==> InRange(vs[0]) && forall x <- vs[1..] :: InRange(x);
      if CanonAll(vs) == vs {
        assert CanonAll(vs)[0] == vs[0];
        assert CanonAll(vs)[1..] == vs[1..];
      }
    }
  }

  // ----- sizes -----

  /** Number of words a static value takes: the product of the nested array sizes. */
  function WordCount(t: Ty): nat {
    if t.ArrayTy? then t.size * WordCount(t.elem) else 1
  }

  lemma {:induction false} StaticWordCount(t: Ty)
    requires t.Static()
    ensures WordCount(t) >= 1
    ensures t.ArrayTy? ==> WordCount(t) >= t.size
  {
    if t.ArrayTy? {
      StaticWordCount(t.elem);
      assert t.size * WordCount(t.elem) >= t.size * 1;
    }
  }

  /** getArraySize: the loop multiplies the sizes of the nested arrays. */
  method GetArraySize(arr: Ty) returns (size: nat)
    requires arr.ArrayTy?
    ensures size == WordCount(arr)
  {
    size := arr.size;
    var elem := arr.elem;
    while elem.ArrayTy?
      invariant size * WordCount(elem) == WordCount(arr)
      decreases elem
    {
      MulAssociative(size, elem.size, WordCount(elem.elem));
      size := size * elem.size;
      elem := elem.elem;
    }
  }

  /** getFullElemSize: bytes taken by one element of a list. */
  method GetFullElemSize(t: Ty) returns (size: nat)
    ensures size == 32 * WordCount(t)
  {
    size := 32;
    var elem := t;
    while elem.ArrayTy?
      invariant size * WordCount(elem) == 32 * WordCount(t)
      decreases elem
    {
      MulAssociative(size, elem.size, WordCount(elem.elem));
      size := size * elem.size;
      elem := elem.elem;
    }
  }

  lemma MulAssociative(a: nat, b: nat, c: nat)
    ensures a * (b * c) == (a * b) * c
  {
  }
}
