/** The encoder (eth/abi/pack.go, eth/abi/type.go, eth/abi/error.go, eth/abi/argument.go). */
module AbiPack {
  import opened Results
  import opened Words
  import opened AbiTypes

  // ----- type checks -----

  /** sliceTypeCheck: looks down the chain of first elements and indexes one that may not exist. */
  function SliceTypeCheck(t: Ty, v: Val): Outcome<()>
    requires t.SliceTy? || t.ArrayTy?
    decreases t
  {
    if !v.List? then
      Err
    else if t.ArrayTy? && |v.elems| != t.size then
      Err
    else if t.elem.SliceTy? then
      if |v.elems| > 0 then SliceTypeCheck(t.elem, v.elems[0]) else Ok(())
    else if t.elem.ArrayTy? then
      if |v.elems| > 0 then SliceTypeCheck(t.elem, v.elems[0]) else Panic
    else if |v.elems| > 0 && KindOfVal(v.elems[0]) != KindOfTy(t.elem) then
      Err
    else
      Ok(())
  }

  function TypeCheck(t: Ty, v: Val): Outcome<()> {
    if t.SliceTy? || t.ArrayTy? then SliceTypeCheck(t, v)
    else if KindOfTy(t) != KindOfVal(v) then Err
    else if t.FixedBytesTy? && t.width != Len(v) then Err
    else Ok(())
  }

  /** reflect.Value.Len on the values that have one. */
  function Len(v: Val): nat {
    match v
    case Str(bs) => |bs|
    case ByteArray(bs) => |bs|
    case ByteSlice(bs) => |bs|
    case List(_, vs) => |vs|
    case _ => 0
  }

  // ----- one value -----

  /** packBytesSlice: a length word, then the bytes padded for `l` bytes. */
  function PackBytesSlice(bs: seq<byte>, l: nat): seq<byte> {
    U256(l) + RightPad(bs, (l + 31) / 32 * 32)
  }

  /** packElement; a value that passed TypeCheck but is not made of bytes makes reflection panic. */
  function PackElement(t: Ty, v: Val): Outcome<seq<byte>>
    requires !t.SliceTy? && !t.ArrayTy?
  {
    match t
    case IntTy(_) | UintTy(_) => if v.Num? then Ok(U256(v.n)) else Panic
    case StringTy => if v.Str? then Ok(PackBytesSlice(v.bytes, |v.bytes|)) else Panic
    case AddressTy => if v.ByteArray? then Ok(LeftPad(v.bytes, 32)) else Panic
    case BoolTy => if v.Bool? then Ok(U256(if v.b then 1 else 0)) else Panic
    case BytesTy => if v.ByteSlice? then Ok(PackBytesSlice(v.bytes, |v.bytes|)) else Panic
    case FixedBytesTy(_) | FunctionTy => if v.ByteArray? then Ok(RightPad(v.bytes, 32)) else Panic
  }

  /** What Type.pack returns. */
  function PackVal(t: Ty, v: Val): Outcome<seq<byte>>
    decreases t, 1, 0
  {
    var _ :- TypeCheck(t, v);
    if t.SliceTy? || t.ArrayTy? then
      assert v.List?;
      var packed :- PackElems(t.elem, v.elems);
      Ok(if t.SliceTy? then PackBytesSlice(packed, |v.elems|) else packed)
    else
      PackElement(t, v)
  }

  function PackElems(t: Ty, vs: seq<Val>): Outcome<seq<byte>>
    decreases t, 2, |vs|
  {
    if vs == [] then Ok([]) else
    var first :- PackVal(t, vs[0]);
    var rest :- PackElems(t, vs[1..]);
    Ok(first + rest)
  }

  /** Type.pack, with its loop over the elements. */
  method Pack1(t: Ty, v: Val) returns (r: Outcome<seq<byte>>)
    ensures r == PackVal(t, v)
    decreases t
  {
    var check := TypeCheck(t, v);
    if !check.Ok? {
      return check.PropagateFailure();
    }
    if t.SliceTy? || t.ArrayTy? {
      var packed: seq<byte> := [];
      assert v.elems[0..] == v.elems;
      PrefixedTwice([], [], PackElems(t.elem, v.elems));
      for i := 0 to |v.elems|
        invariant PackElems(t.elem, v.elems) == Prefixed(packed, PackElems(t.elem, v.elems[i..]))
      {
        assert v.elems[i..][1..] == v.elems[i + 1..];
        var val := Pack1(t.elem, v.elems[i]);
        if !val.Ok? {
          return val;
        }
        PrefixedTwice(packed, val.value, PackElems(t.elem, v.elems[i + 1..]));
        packed := packed + val.value;
      }
      assert packed + [] == packed;
      return Ok(if t.SliceTy? then PackBytesSlice(packed, |v.elems|) else packed);
    }
    r := PackElement(t, v);
  }

  function Prefixed(bs: seq<byte>, r: Outcome<seq<byte>>): Outcome<seq<byte>> {
    if r.Ok? then Ok(bs + r.value) else r
  }

  lemma PrefixedTwice(a: seq<byte>, b: seq<byte>, r: Outcome<seq<byte>>)
    ensures Prefixed(a, Prefixed(b, r)) == Prefixed(a + b, r)
    ensures Prefixed([], r) == r
  {
    if r.Ok? {
      assert [] + r.value == r.value;
      assert a + (b + r.value) == (a + b) + r.value;
    }
  }

  // ----- argument lists -----

  /** The head size Pack reserves: one level of an array only (eth/abi/argument.go:273-279). */
  function InputOffset(ts: seq<Ty>): nat {
    if ts == [] then 0 else
    (if ts[0].ArrayTy? then 32 * ts[0].size else 32) + InputOffset(ts[1..])
  }

  /** What one argument adds to `ret`: itself, or the offset of its tail. */
  function HeadPart(t: Ty, packed: seq<byte>, offset: nat): seq<byte> {
    if t.RequiresLengthPrefix() then U256(offset) else packed
  }

  /** What one argument adds to `variableInput`. */
  function TailPart(t: Ty, packed: seq<byte>): seq<byte> {
    if t.RequiresLengthPrefix() then packed else []
  }

  type Parts = (seq<byte>, seq<byte>)

  /** Heads and tails of the arguments `ts`, the first tail going to byte `offset`. */
  function PackFrom(ts: seq<Ty>, vs: seq<Val>, offset: nat): Outcome<Parts> {
    if ts == [] || vs == [] then Ok(([], [])) else
    var packed :- PackVal(ts[0], vs[0]);
    var tail := TailPart(ts[0], packed);
    Appended(HeadPart(ts[0], packed, offset), tail, PackFrom(ts[1..], vs[1..], offset + |tail|))
  }

  /** What Arguments.Pack returns. */
  function PackArgs(ts: seq<Ty>, vs: seq<Val>): Outcome<seq<byte>> {
    if |ts| != |vs| then Err else
    var r :- PackFrom(ts, vs, InputOffset(ts));
    Ok(r.0 + r.1)
  }

  /** Arguments.Pack, with the running output `ret` and the running tail `variableInput`. */
  method Pack(ts: seq<Ty>, vs: seq<Val>) returns (r: Outcome<seq<byte>>)
    ensures r == PackArgs(ts, vs)
  {
    if |vs| != |ts| {
      return Err;
    }
    var inputOffset := 0;
    for i := 0 to |ts|
      invariant InputOffset(ts) == inputOffset + InputOffset(ts[i..])
    {
      assert ts[i..][1..] == ts[i + 1..];
      if ts[i].ArrayTy? {
        inputOffset := inputOffset + 32 * ts[i].size;
      } else {
        inputOffset := inputOffset + 32;
      }
    }
    r := PackLoop(ts, vs, inputOffset);
  }

  /** The second loop of Arguments.Pack. */
  method PackLoop(ts: seq<Ty>, vs: seq<Val>, inputOffset: nat) returns (r: Outcome<seq<byte>>)
    requires |ts| == |vs|
    ensures r == match PackFrom(ts, vs, inputOffset)
                 case Ok(parts) => Ok(parts.0 + parts.1)
                 case Err => Err
                 case Panic => Panic
  {
    hide PackVal, U256;
    var ret: seq<byte>, variableInput: seq<byte> := [], [];
    ghost var all := PackFrom(ts, vs, inputOffset);
    assert ts[0..] == ts && vs[0..] == vs;
    AppendedTwice([], [], [], [], all);
    for i := 0 to |ts|
      invariant all == Appended(ret, variableInput, PackFrom(ts[i..], vs[i..], inputOffset + |variableInput|))
    {
      assert ts[i..][1..] == ts[i + 1..] && vs[i..][1..] == vs[i + 1..];
      var packed := Pack1(ts[i], vs[i]);
      if !packed.Ok? {
        return packed;
      }
      var offset := inputOffset + |variableInput|;
      AppendedTwice(ret, variableInput, HeadPart(ts[i], packed.value, offset), TailPart(ts[i], packed.value),
                    PackFrom(ts[i + 1..], vs[i + 1..], offset + |TailPart(ts[i], packed.value)|));
      if ts[i].RequiresLengthPrefix() {
        ret := ret + U256(offset);
        variableInput := variableInput + packed.value;
      } else {
        assert variableInput + [] == variableInput;
        ret := ret + packed.value;
      }
    }
    assert ret + [] == ret && variableInput + [] == variableInput;
    r := Ok(ret + variableInput);
  }

  /** `r` with `h` put before its heads and `t` before its tails. */
  function Appended(h: seq<byte>, t: seq<byte>, r: Outcome<Parts>): Outcome<Parts> {
    if r.Ok? then Ok((h + r.value.0, t + r.value.1)) else r
  }

  lemma AppendedTwice(h: seq<byte>, t: seq<byte>, h': seq<byte>, t': seq<byte>, r: Outcome<Parts>)
    ensures Appended(h, t, Appended(h', t', r)) == Appended(h + h', t + t', r)
    ensures Appended([], [], r) == r
  {
    if r.Ok? {
      assert h + (h' + r.value.0) == (h + h') + r.value.0;
      assert t + (t' + r.value.1) == (t + t') + r.value.1;
      assert [] + r.value.0 == r.value.0 && [] + r.value.1 == r.value.1;
    }
  }
}
