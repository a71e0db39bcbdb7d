/** The decoder (eth/abi/unpack.go, eth/abi/argument.go). */
module AbiUnpack {
  import opened Results
  import opened Words
  import opened AbiTypes

  const TWO_63: nat := 0x8000_0000_0000_0000

  /** The slice expression `data[from:from+count]`. */
  function Read(data: seq<byte>, from: nat, count: nat): (bs: seq<byte>)
    requires from + count <= |data|
    ensures |bs| == count
  {
    data[from..from + count]
  }

  // ----- words -----

  function ReadInteger(kind: Kind, word: seq<byte>): (v: Val)
    requires |word| == 32
    requires kind.BigPtr? || (kind.NativeInt? && IsNativeWidth(kind.bits))
  {
    match kind
    case NativeInt(signed, bits) =>
      var low := FromBytes(word[32 - bits / 8..]);
      Num(kind, if signed && low >= Pow256(bits / 8) / 2 then low - Pow256(bits / 8) else low)
    case _ => Num(kind, FromBytes(word))
  }

  function ReadBool(word: seq<byte>): Outcome<Val>
    requires |word| == 32
  {
    if exists b <- word[..31] :: b != 0 then Err
    else if word[31] == 0 then Ok(Bool(false))
    else if word[31] == 1 then Ok(Bool(true))
    else Err
  }

  function ReadFunction(word: seq<byte>): Outcome<Val>
    requires |word| == 32
  {
    if FromBytes(word[24..32]) != 0 then Err else Ok(ByteArray(word[..24]))
  }

  // ----- offsets -----

  /** lengthPrefixPointsTo: where the contents start and how long they are. */
  function LengthPrefix(index: nat, data: seq<byte>): (r: Outcome<(nat, nat)>)
    requires index + 32 <= |data|
    ensures r.Ok? ==> 32 <= r.value.0 && r.value.0 + r.value.1 <= |data|
  {
    var offsetEnd := FromBytes(Read(data, index, 32)) + 32;
    if offsetEnd > |data| then Err
    else if offsetEnd >= TWO_63 then Err
    else
      var length := FromBytes(Read(data, offsetEnd - 32, 32));
      if offsetEnd + length >= TWO_63 then Err
      else if offsetEnd + length > |data| then Err
      else Ok((offsetEnd, length))
  }

  // ----- values -----

  /** readFixedBytes: a width beyond the word slices on into the data, as far as there is any. */
  function ReadFixedBytes(width: nat, index: nat, data: seq<byte>): Outcome<Val> {
    if index + width <= |data| then Ok(ByteArray(Read(data, index, width))) else Panic
  }

  /** What toGoType returns for the value of type `t` whose head is at `index`. */
  function ToGo(index: int, t: Ty, data: seq<byte>): Outcome<Val>
    decreases t, 1, 0
  {
    if index + 32 > |data| || index < 0 then Err else
    match t
    case SliceTy(elem) =>
      var at :- LengthPrefix(index, data);
      if at.0 + 32 * at.1 > |data| then Err else
      var vs :- ToGoEach(at.0, at.1, elem, data);
      Ok(List(false, vs))
    case ArrayTy(size, elem) =>
      if index + 32 * size > |data| then Err else
      var vs :- ToGoEach(index, size, elem, data);
      Ok(List(true, vs))
    case StringTy =>
      var at :- LengthPrefix(index, data);
      Ok(Str(Read(data, at.0, at.1)))
    case BytesTy =>
      var at :- LengthPrefix(index, data);
      Ok(ByteSlice(Read(data, at.0, at.1)))
    case IntTy(_) | UintTy(_) => Ok(ReadInteger(KindOfTy(t), Read(data, index, 32)))
    case BoolTy => ReadBool(Read(data, index, 32))
    case AddressTy => Ok(ByteArray(Read(data, index, 32)[12..]))
    case FixedBytesTy(width) => ReadFixedBytes(width, index, data)
    case FunctionTy => ReadFunction(Read(data, index, 32))
  }

  /** `count` values of type `t`, the first at `start`, each taking its full size. */
  function ToGoEach(start: nat, count: nat, t: Ty, data: seq<byte>): (r: Outcome<seq<Val>>)
    ensures r.Ok? ==> |r.value| == count
    decreases t, 2, count
  {
    if count == 0 then Ok([]) else
    var first :- ToGo(start, t, data);
    var rest :- ToGoEach(start + 32 * WordCount(t), count - 1, t, data);
    Ok([first] + rest)
  }

  /** toGoType. */
  method ToGoType(index: int, t: Ty, data: seq<byte>) returns (r: Outcome<Val>)
    ensures r == ToGo(index, t, data)
    decreases t, 1
  {
    if index + 32 > |data| || index < 0 {
      return Err;
    }
    if t.RequiresLengthPrefix() {
      var at := LengthPrefix(index, data);
      if !at.Ok? {
        return at.PropagateFailure();
      }
      match t
      case SliceTy(_) => r := ForEachUnpack(t, data, at.value.0, at.value.1);
      case StringTy => r := Ok(Str(Read(data, at.value.0, at.value.1)));
      case BytesTy => r := Ok(ByteSlice(Read(data, at.value.0, at.value.1)));
    } else if t.ArrayTy? {
      r := ForEachUnpack(t, data, index, t.size);
    } else {
      r := ToGo(index, t, data);
    }
  }

  /** forEachUnpack: the loop that fills a slice or an array. */
  method ForEachUnpack(t: Ty, data: seq<byte>, start: nat, size: nat) returns (r: Outcome<Val>)
    requires t.SliceTy? || t.ArrayTy?
    ensures r == if start + 32 * size > |data| then Err
                 else match ToGoEach(start, size, t.elem, data)
                      case Ok(vs) => Ok(List(t.ArrayTy?, vs))
                      case Err => Err
                      case Panic => Panic
    decreases t, 0
  {
    if start + 32 * size > |data| {
      return Err;
    }
    var elemSize := GetFullElemSize(t.elem);
    var out: seq<Val> := [];
    var i, j := start, 0;
    ghost var all := ToGoEach(start, size, t.elem, data);
    JoinedTwice([], Bool(false), all);
    while j < size
      invariant 0 <= j <= size && i >= 0
      invariant all == Joined(out, ToGoEach(i, size - j, t.elem, data))
    {
      var inter := ToGoType(i, t.elem, data);
      if !inter.Ok? {
        return inter;
      }
      JoinedTwice(out, inter.value, ToGoEach(i + elemSize, size - j - 1, t.elem, data));
      out := out + [inter.value];
      i, j := i + elemSize, j + 1;
    }
    assert out + [] == out;
    r := Ok(List(t.ArrayTy?, out));
  }

  function Joined(vs: seq<Val>, r: Outcome<seq<Val>>): Outcome<seq<Val>> {
    if r.Ok? then Ok(vs + r.value) else r
  }

  lemma JoinedTwice(vs: seq<Val>, v: Val, r: Outcome<seq<Val>>)
    ensures Joined(vs, Joined([v], r)) == Joined(vs + [v], r)
    ensures Joined([], r) == r
  {
    if r.Ok? {
      assert [] + r.value == r.value;
      assert vs + ([v] + r.value) == (vs + [v]) + r.value;
    }
  }

  // ----- argument lists -----

  datatype Argument = Argument(ty: Ty, indexed: bool)

  /** The types of the arguments that are not indexed. */
  function NonIndexed(args: seq<Argument>): seq<Ty> {
    if args == [] then []
    else if args[0].indexed then NonIndexed(args[1..])
    else [args[0].ty] + NonIndexed(args[1..])
  }

  lemma {:induction false} NonIndexedConcat(a: seq<Argument>, b: seq<Argument>)
    ensures NonIndexed(a + b) == NonIndexed(a) + NonIndexed(b)
  {
    if a == [] {
      assert a + b == b;
    } else {
      NonIndexedConcat(a[1..], b);
      assert (a + b)[1..] == a[1..] + b && (a + b)[0] == a[0];
      FrontAssociates(if a[0].indexed then [] else [a[0].ty], NonIndexed(a[1..]), NonIndexed(b));
    }
  }

  lemma FrontAssociates(x: seq<Ty>, a: seq<Ty>, b: seq<Ty>)
    ensures x + (a + b) == (x + a) + b
    ensures [] + a == a
  {
  }

  /** How many of the arguments are not indexed. */
  function CountNonIndexed(args: seq<Argument>): nat {
    |set i | 0 <= i < |args| && !args[i].indexed|
  }

  lemma {:induction false} CountIs(args: seq<Argument>)
    ensures |NonIndexed(args)| == CountNonIndexed(args)
  {
    var n := |args| - 1;
    var all := set i | 0 <= i < |args| && !args[i].indexed;
    if args == [] {
      assert all == {};
    } else {
      var before := set i | 0 <= i < |args[..n]| && !args[..n][i].indexed;
      CountIs(args[..n]);
      assert args == args[..n] + [args[n]];
      NonIndexedConcat(args[..n], [args[n]]);
      assert [args[n]][1..] == [];
      assert all == if args[n].indexed then before else before + {n};
    }
  }

  /** An indexed argument takes no part in decoding, wherever it stands. */
  lemma IndexedIsSkipped(a: seq<Argument>, t: Ty, b: seq<Argument>, data: seq<byte>)
    ensures UnpackArgs(a + [Argument(t, true)] + b, data) == UnpackArgs(a + b, data)
  {
    var x := [Argument(t, true)];
    NonIndexedConcat(a + x, b);
    NonIndexedConcat(a, x);
    NonIndexedConcat(a, b);
    assert x[1..] == [];
    assert NonIndexed(a) + [] == NonIndexed(a);
  }

  /** Head words an argument takes in the decoder's counting. */
  function Slots(t: Ty): nat {
    if t.ArrayTy? then WordCount(t) else 1
  }

  function UnpackFrom(ts: seq<Ty>, slot: nat, data: seq<byte>): Outcome<seq<Val>>
  {
    if ts == [] then Ok([]) else
    var first :- ToGo(slot * 32, ts[0], data);
    var rest :- UnpackFrom(ts[1..], slot + Slots(ts[0]), data);
    Ok([first] + rest)
  }

  /** What Arguments.UnpackValues returns. */
  function UnpackArgs(args: seq<Argument>, data: seq<byte>): Outcome<seq<Val>>
  {
    UnpackFrom(NonIndexed(args), 0, data)
  }

  /** The slots of the first k types. */
  function SlotsBefore(ts: seq<Ty>, k: nat): nat
    requires k <= |ts|
  {
    if k == 0 then 0 else SlotsBefore(ts, k - 1) + Slots(ts[k - 1])
  }

  lemma {:induction false} SlotsBeforeTail(ts: seq<Ty>, k: nat)
    requires k < |ts|
    ensures SlotsBefore(ts, k + 1) == Slots(ts[0]) + SlotsBefore(ts[1..], k)
  {
    if k > 0 {
      SlotsBeforeTail(ts, k - 1);
    }
  }

  /** Every value is decoded by its own type at its own slot. */
  lemma {:induction false} ValueAt(ts: seq<Ty>, slot: nat, data: seq<byte>, k: nat)
    requires UnpackFrom(ts, slot, data).Ok? && k < |ts|
    ensures |UnpackFrom(ts, slot, data).value| == |ts|
    ensures ToGo((slot + SlotsBefore(ts, k)) * 32, ts[k], data) == Ok(UnpackFrom(ts, slot, data).value[k])
  {
    hide ToGo, Slots;
    if k > 0 {
      ValueAt(ts[1..], slot + Slots(ts[0]), data, k - 1);
      SlotsBeforeTail(ts, k - 1);
    } else if |ts| > 1 {
      ValueAt(ts[1..], slot + Slots(ts[0]), data, 0);
    }
  }

  /**
   What UnpackValues returns for an argument that is not indexed: the value decoded at its own type,
   at the place given by the number of such arguments before it, and no more values than those.
   */
  lemma ValueOfArgument(args: seq<Argument>, data: seq<byte>, i: nat)
    requires UnpackArgs(args, data).Ok? && i < |args| && !args[i].indexed
    ensures |UnpackArgs(args, data).value| == |NonIndexed(args)| == CountNonIndexed(args)
    ensures var k := CountNonIndexed(args[..i]);
            && k < |NonIndexed(args)| && NonIndexed(args)[k] == args[i].ty
            && ToGo(SlotsBefore(NonIndexed(args), k) * 32, args[i].ty, data) == Ok(UnpackArgs(args, data).value[k])
  {
    hide ToGo, UnpackFrom, CountNonIndexed;
    var before, after := args[..i], args[i + 1..];
    var ts := NonIndexed(args);
    assert args == before + ([args[i]] + after);
    NonIndexedConcat(before, [args[i]] + after);
    NonIndexedConcat([args[i]], after);
    assert [args[i]][1..] == [];
    CountIs(before);
    CountIs(args);
    ValueAt(ts, 0, data, |NonIndexed(before)|);
  }

  /** Arguments.UnpackValues: positions are counted by `index` and `virtualArgs`. */
  method UnpackValues(args: seq<Argument>, data: seq<byte>) returns (r: Outcome<seq<Val>>)
    ensures r == UnpackArgs(args, data)
  {
    var ts := NonIndexed(args);
    var retval: seq<Val> := [];
    var virtualArgs: int := 0;
    assert ts[0..] == ts;
    JoinedTwice([], Bool(false), UnpackFrom(ts, 0, data));
    for index := 0 to |ts|
      invariant index + virtualArgs >= 0
      invariant UnpackFrom(ts, 0, data) == Joined(retval, UnpackFrom(ts[index..], index + virtualArgs, data))
    {
      assert ts[index..][1..] == ts[index + 1..];
      var value := ToGoType((index + virtualArgs) * 32, ts[index], data);
      ghost var slot := index + virtualArgs;
      if ts[index].ArrayTy? {
        var n := GetArraySize(ts[index]);
        virtualArgs := virtualArgs + n - 1;
      }
      if !value.Ok? {
        return value.PropagateFailure();
      }
      JoinedTwice(retval, value.value, UnpackFrom(ts[index + 1..], slot + Slots(ts[index]), data));
      retval := retval + [value.value];
    }
    assert retval + [] == retval;
    r := Ok(retval);
  }
}
