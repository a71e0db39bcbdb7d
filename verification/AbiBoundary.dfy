/** Which types the codec carries at all: the boundary of the supported ones (eth/abi). */
module AbiBoundary {
  import opened Results
  import opened Words
  import opened AbiTypes
  import opened AbiPack
  import opened AbiUnpack
  import opened AbiSpec
  import opened AbiRoundTrip

  // ----- shapes of types -----

  /** What stands at the front of a value of type `t`: arrays are encoded in place. */
  function Core(t: Ty): Ty {
    if t.ArrayTy? && t.size >= 1 then Core(t.elem) else t
  }

  /** Nothing is written for such a value: it consists of empty arrays. */
  predicate Hollow(t: Ty) {
    Core(t).ArrayTy?
  }

  /** The type check never looks for the first element of an empty array. */
  predicate Checkable(t: Ty) {
    match t
    case SliceTy(e) => Checkable(e)
    case ArrayTy(k, e) => (k >= 1 || !e.ArrayTy?) && Checkable(e)
    case _ => true
  }

  lemma {:induction false} NotStatic(t: Ty)
    ensures t.Static() <==> !Core(t).ArrayTy? && !Core(t).RequiresLengthPrefix()
  {
    if t.ArrayTy? {
      NotStatic(t.elem);
    }
  }

  // ----- byte strings whose words are small -----

  function FirstWord(bs: seq<byte>): nat {
    if |bs| >= 32 then FromBytes(bs[..32]) else 0
  }

  /** The word starts with a zero byte, and after a word 1 comes another word 0 or 1. */
  predicate TameAt(bs: seq<byte>, w: nat) {
    32 * w + 32 <= |bs| ==>
      bs[32 * w] == 0 && (WordAt(bs, w) == 1 ==> 32 * w + 64 <= |bs| && WordAt(bs, w + 1) <= 1)
  }

  ghost predicate Tame(bs: seq<byte>) {
    Whole(|bs|) && forall w: nat :: TameAt(bs, w)
  }

  lemma TameAtConcat(a: seq<byte>, b: seq<byte>, words: nat, w: nat)
    requires |a| == 32 * words
    requires if w < words then TameAt(a, w) else TameAt(b, w - words)
    ensures TameAt(a + b, w)
  {
    if 32 * w + 32 <= |a + b| {
      WordInConcat(a, b, words, w);
    }
    if 32 * w + 64 <= |a + b| {
      WordInConcat(a, b, words, w + 1);
    }
  }

  lemma TameConcat(a: seq<byte>, b: seq<byte>)
    requires Tame(a) && Tame(b)
    ensures Tame(a + b)
  {
    hide TameAt;
    var words := |a| / 32;
    forall w: nat
      ensures TameAt(a + b, w)
    {
      assert if w < words then TameAt(a, w) else TameAt(b, w - words);
      TameAtConcat(a, b, words, w);
    }
  }

  lemma TameZeros(k: nat)
    requires Whole(k)
    ensures Tame(Zeros(k)) && FirstWord(Zeros(k)) == 0
  {
    U256Zero();
    FromU256(0);
    forall w: nat | 32 * w + 32 <= k
      ensures Zeros(k)[32 * w] == 0 && WordAt(Zeros(k), w) == 0
    {
      assert Read(Zeros(k), 32 * w, 32) == Zeros(32);
    }
    if k >= 32 {
      assert Zeros(k)[..32] == Zeros(32);
    }
  }

  lemma SmallWord(n: nat)
    requires n < TWO_63
    ensures |U256(n)| == 32 && U256(n)[0] == 0 && FromBytes(U256(n)) == n
  {
    FromU256(n);
    SmallMod(n);
    U256IsBigEndian(n);
    TopByte(n);
  }

  lemma {:induction false} LeadingZero(n: nat, k: nat)
    requires k >= 1 && n < Pow256(k - 1)
    ensures ToBytes(n, k)[0] == 0
  {
    if k > 1 {
      assert n / 256 < Pow256(k - 2);
      LeadingZero(n / 256, k - 1);
    }
  }

  lemma TopByte(n: nat)
    requires n < TWO_63
    ensures ToBytes(n, 32)[0] == 0
  {
    Pow256Words();
    Pow256Add(8, 23);
    MulAtLeast(Pow256(23), Pow256(8));
    LeadingZero(n, 32);
  }

  lemma TameWord(n: nat)
    requires n < TWO_63 && n != 1
    ensures Tame(U256(n)) && FirstWord(U256(n)) == n
  {
    SmallWord(n);
    assert U256(n)[..32] == U256(n);
    assert Read(U256(n), 0, 32) == U256(n);
    assert forall w: nat :: w > 0 ==> TameAt(U256(n), w);
  }

  /** A length word 1 before a tame content. */
  lemma TameLength(content: seq<byte>)
    requires Tame(content) && |content| >= 32 && FirstWord(content) <= 1
    ensures Tame(U256(1) + content) && FirstWord(U256(1) + content) == 1
  {
    SmallWord(1);
    var bs := U256(1) + content;
    assert bs[..32] == U256(1);
    forall w: nat
      ensures TameAt(bs, w)
    {
      if w == 0 {
        WordInConcat(U256(1), content, 1, 0);
        WordInConcat(U256(1), content, 1, 1);
        assert Read(content, 0, 32) == content[..32];
      } else {
        assert TameAt(content, w - 1);
        TameAtConcat(U256(1), content, 1, w);
      }
    }
  }

  // ----- what the default value packs to -----

  lemma {:induction false} DefaultTyped(t: Ty)
    requires t.WellFormed()
    ensures WellTyped(t, Default(t)) && InRange(Default(t))
  {
    if t.SliceTy? || t.ArrayTy? {
      DefaultTyped(t.elem);
    }
  }

  lemma {:induction false} DefaultChecks(t: Ty)
    requires t.WellFormed() && Checkable(t)
    ensures TypeCheck(t, Default(t)) == Ok(())
  {
    if t.SliceTy? || t.ArrayTy? {
      DefaultChecks(t.elem);
      DefaultTyped(t.elem);
      KindAgrees(t.elem, Default(t.elem));
    }
  }

  /** The bytes of a packed default value. */
  ghost predicate DefaultBytes(t: Ty, bs: seq<byte>) {
    && Tame(bs)
    && (Hollow(t) ==> bs == [])
    && (!Hollow(t) ==> |bs| >= 32 && FirstWord(bs) == if Core(t).RequiresLengthPrefix() then 1 else 0)
    && (t.ArrayTy? && !Hollow(t) ==> |bs| >= 32 * t.size)
  }

  lemma {:induction false} DefaultPacks(t: Ty)
    requires t.WellFormed() && Checkable(t)
    ensures PackVal(t, Default(t)).Ok? && DefaultBytes(t, PackVal(t, Default(t)).value)
    decreases t, 1, 0
  {
    DefaultChecks(t);
    match t
    case SliceTy(e) =>
      DefaultElemsPack(e, Default(t).elems);
      SliceBytesTame(PackElems(e, Default(t).elems).value);
    case ArrayTy(k, e) => DefaultElemsPack(e, Default(t).elems);
    case StringTy => ByteStringTame();
    case BytesTy => ByteStringTame();
    case _ => WordPacks(t);
  }

  lemma WordPacks(t: Ty)
    requires t.WellFormed() && !t.RequiresLengthPrefix() && !t.ArrayTy?
    requires TypeCheck(t, Default(t)) == Ok(())
    ensures PackVal(t, Default(t)) == Ok(Zeros(32)) && DefaultBytes(t, Zeros(32))
  {
    U256Zero();
    TameZeros(32);
    if Default(t).ByteArray? {
      var n := |Default(t).bytes|;
      assert Zeros(32 - n) + Zeros(n) == Zeros(32) && Zeros(n) + Zeros(32 - n) == Zeros(32);
    }
  }

  lemma ByteStringTame()
    ensures PackBytesSlice(Zeros(1), 1) == U256(1) + Zeros(32)
    ensures Tame(U256(1) + Zeros(32)) && FirstWord(U256(1) + Zeros(32)) == 1
  {
    hide U256;
    assert Zeros(1) + Zeros(31) == Zeros(32);
    TameZeros(32);
    TameLength(Zeros(32));
  }

  lemma SliceBytesTame(packed: seq<byte>)
    requires Tame(packed) && FirstWord(packed) <= 1 && (packed == [] || |packed| >= 32)
    ensures Tame(PackBytesSlice(packed, 1)) && FirstWord(PackBytesSlice(packed, 1)) == 1
  {
    hide U256, Tame;
    TameZeros(32);
    assert [] + Zeros(32) == Zeros(32);
    TameLength(RightPad(packed, 32));
  }

  lemma {:induction false} DefaultElemsPack(e: Ty, vs: seq<Val>)
    requires e.WellFormed() && Checkable(e) && forall i :: 0 <= i < |vs| ==> vs[i] == Default(e)
    ensures PackElems(e, vs).Ok?
    ensures var bs := PackElems(e, vs).value;
            && Tame(bs)
            && (Hollow(e) || vs == [] ==> bs == [])
            && (!Hollow(e) ==> |bs| >= 32 * |vs|)
            && FirstWord(bs) == if vs != [] && Core(e).RequiresLengthPrefix() then 1 else 0
    decreases e, 2, |vs|
  {
    hide Tame, Checkable, TypeCheck, Default;
    TameZeros(0);
    assert Zeros(0) == [];
    if vs != [] {
      DefaultPacks(e);
      DefaultElemsPack(e, vs[1..]);
      var first, rest := PackVal(e, vs[0]).value, PackElems(e, vs[1..]).value;
      TameConcat(first, rest);
      if |first| >= 32 {
        assert (first + rest)[..32] == first[..32];
      }
    }
  }

  // ----- how the decoder goes wrong -----

  lemma NotOneElement(d: Ty, x: nat, data: seq<byte>)
    requires d.RequiresLengthPrefix() && x + 32 <= |data|
    requires LengthPrefix(x, data).Ok? ==> LengthPrefix(x, data).value.1 != 1
    ensures ToGo(x, d, data) != Ok(Default(d))
  {
  }

  /** A head word 0 or 1 sends the decoder to the start of the data, where it finds no length 1. */
  lemma BadOffset(d: Ty, x: nat, data: seq<byte>)
    requires d.RequiresLengthPrefix() && x + 32 <= |data| && Tame(data)
    requires var n := FromBytes(Read(data, x, 32)); n == 1 || (n == 0 && FirstWord(data) != 1)
    ensures ToGo(x, d, data) != Ok(Default(d))
  {
    var n := FromBytes(Read(data, x, 32));
    if n == 0 {
      assert Read(data, 0, 32) == data[..32];
    } else if |data| >= 33 {
      assert TameAt(data, 1) && |data| >= 64;
      assert Read(data, 1, 32)[31] == data[32] == 0;
      LastByteZero(Read(data, 1, 32));
    }
    NotOneElement(d, x, data);
  }

  lemma LastByteZero(bs: seq<byte>)
    requires |bs| == 32 && bs[31] == 0
    ensures FromBytes(bs) != 1
  {
  }

  lemma {:induction false} BadFront(t: Ty, x: nat, data: seq<byte>)
    requires Core(t).RequiresLengthPrefix() && ToGo(x, Core(t), data) != Ok(Default(Core(t)))
    ensures ToGo(x, t, data) != Ok(Default(t))
  {
    if t.ArrayTy? {
      BadFront(t.elem, x, data);
      FirstElementBad(x, t.size, t.elem, data);
      assert Default(t).elems[0] == Default(t.elem);
    }
  }

  lemma FirstElementBad(x: nat, count: nat, e: Ty, data: seq<byte>)
    requires count >= 1 && ToGo(x, e, data) != Ok(Default(e))
    ensures ToGoEach(x, count, e, data).Ok? ==> ToGoEach(x, count, e, data).value[0] != Default(e)
  {
  }

  lemma BadSlice(t: Ty, x: nat, data: seq<byte>, p: nat)
    requires t.SliceTy? && Core(t.elem).RequiresLengthPrefix()
    requires At(data, x, U256(p)) && Whole(p) && p < TWO_63 && Tame(data) && FirstWord(data) != 1
    ensures ToGo(x, t, data) != Ok(Default(t))
  {
    hide U256, Tame, FirstWord;
    FromU256(p);
    SmallMod(p);
    assert Read(data, x, 32) == U256(p);
    if LengthPrefix(x, data).Ok? && LengthPrefix(x, data).value.1 == 1 {
      BadOnlyElement(t.elem, data, p);
    } else {
      NotOneElement(t, x, data);
    }
  }

  lemma BadOnlyElement(e: Ty, data: seq<byte>, p: nat)
    requires Core(e).RequiresLengthPrefix() && Tame(data) && FirstWord(data) != 1
    requires Whole(p) && p + 32 <= |data| && FromBytes(Read(data, p, 32)) == 1
    ensures ToGoEach(p + 32, 1, e, data) != Ok([Default(e)])
  {
    hide Tame, ToGo, Default;
    NextWordSmall(data, p);
    BadOffset(Core(e), p + 32, data);
    BadFront(e, p + 32, data);
    FirstElementBad(p + 32, 1, e, data);
  }

  lemma NextWordSmall(data: seq<byte>, p: nat)
    requires Tame(data) && Whole(p) && p + 32 <= |data| && FromBytes(Read(data, p, 32)) == 1
    ensures p + 64 <= |data| && FromBytes(Read(data, p + 32, 32)) <= 1
  {
    assert TameAt(data, p / 32);
    assert WordAt(data, p / 32) == 1;
  }

  // ----- argument lists -----

  /** Types whose single default value shows whether they are carried. */
  predicate Solid(t: Ty) {
    t.WellFormed() && Checkable(t) && !Hollow(t) && !(t.SliceTy? && Hollow(t.elem))
  }

  predicate AllSolid(ts: seq<Ty>) {
    ts != [] ==> Solid(ts[0]) && AllSolid(ts[1..])
  }

  lemma SolidCases(t: Ty)
    requires Solid(t) && !t.Supported()
    ensures || (t.SliceTy? && Core(t.elem).RequiresLengthPrefix())
            || (t.ArrayTy? && t.size >= 1 && Core(t).RequiresLengthPrefix())
  {
    NotStatic(t);
    if t.SliceTy? {
      NotStatic(t.elem);
    }
  }

  function PackedDefault(t: Ty): seq<byte> {
    var r := PackVal(t, Default(t));
    if r.Ok? then r.value else []
  }

  predicate DefaultsPacked(ts: seq<Ty>, offset: nat) {
    PackFrom(ts, Defaults(ts), offset).Ok?
  }

  /** Heads and tails of the packed default values, the first tail going to byte `offset`. */
  function DefaultParts(ts: seq<Ty>, offset: nat): Parts {
    var r := PackFrom(ts, Defaults(ts), offset);
    if r.Ok? then r.value else ([], [])
  }

  lemma PartsSplit(ts: seq<Ty>, offset: nat)
    requires ts != []
    ensures var e := PackedDefault(ts[0]); var tl := TailPart(ts[0], e);
            && (DefaultsPacked(ts, offset)
              <==> PackVal(ts[0], Default(ts[0])).Ok? && DefaultsPacked(ts[1..], offset + |tl|))
            && (DefaultsPacked(ts, offset) ==>
                  && DefaultParts(ts, offset).0 == HeadPart(ts[0], e, offset) + DefaultParts(ts[1..], offset + |tl|).0
                  && DefaultParts(ts, offset).1 == tl + DefaultParts(ts[1..], offset + |tl|).1)
  {
    hide PackVal, Default, U256;
    DefaultsStep(ts);
  }

  lemma {:induction false} DefaultsPack(ts: seq<Ty>, offset: nat)
    requires AllSolid(ts) && Whole(offset) && 32 <= offset
    ensures DefaultsPacked(ts, offset)
    ensures var parts := DefaultParts(ts, offset);
            && Whole(|parts.1|) && |parts.0| >= InputOffset(ts)
            && (offset + |parts.1| < TWO_63 ==> Tame(parts.0) && Tame(parts.1))
  {
    hide Tame, PackVal, Default, Defaults, PackedDefault, DefaultsPacked, DefaultParts, HeadPart, TailPart,
         Checkable, Hollow;
    if ts == [] {
      NoParts(offset);
    } else {
      var t := ts[0];
      var e := PackedDefault(t);
      FirstParts(t, offset);
      PartsSplit(ts, offset);
      DefaultsPack(ts[1..], offset + |TailPart(t, e)|);
      var rest := DefaultParts(ts[1..], offset + |TailPart(t, e)|);
      if offset + |TailPart(t, e)| + |rest.1| < TWO_63 {
        TameParts(t, e, offset, rest);
      }
    }
  }

  lemma NoParts(offset: nat)
    ensures DefaultsPacked([], offset) && DefaultParts([], offset) == ([], []) && Tame([])
  {
    TameZeros(0);
    assert Zeros(0) == [];
  }

  lemma FirstParts(t: Ty, offset: nat)
    requires Solid(t)
    ensures PackVal(t, Default(t)).Ok? && Tame(PackedDefault(t)) && Whole(|TailPart(t, PackedDefault(t))|)
    ensures |HeadPart(t, PackedDefault(t), offset)| >= if t.ArrayTy? then 32 * t.size else 32
  {
    DefaultPacks(t);
  }

  lemma TameParts(t: Ty, e: seq<byte>, offset: nat, rest: Parts)
    requires Tame(e) && Tame(rest.0) && Tame(rest.1) && 32 <= offset < TWO_63
    ensures Tame(HeadPart(t, e, offset) + rest.0) && Tame(TailPart(t, e) + rest.1)
  {
    hide Tame, U256;
    if t.RequiresLengthPrefix() {
      TameWord(offset);
      TameConcat(U256(offset), rest.0);
      TameConcat(e, rest.1);
    } else {
      TameConcat(e, rest.0);
      assert [] + rest.1 == rest.1;
    }
  }

  /** The head of a supported default value fills its slots and does not start with a word 1. */
  lemma SupportedHead(t: Ty, offset: nat)
    requires t.Supported() && 32 <= offset < TWO_63 && PackVal(t, Default(t)).Ok?
    ensures var hd := HeadPart(t, PackedDefault(t), offset);
            |hd| == 32 * Slots(t) && |hd| >= 32 && FirstWord(hd) != 1
    ensures Whole(|TailPart(t, PackedDefault(t))|)
  {
    hide Enc, U256, WordCount;
    DefaultOk(t);
    PackValIsEnc(t, Default(t));
    HeadPartSize(t, Default(t), offset);
    SlotIsHeadPosition(t, 0);
    EncLength(t, Default(t));
    var hd := HeadPart(t, Enc(t, Default(t)), offset);
    DefaultHeadNoOne(t, offset);
    assert WordAt(hd, 0) != 1;
    assert Read(hd, 0, 32) == hd[..32];
  }

  lemma FrontOf(data: seq<byte>, hd: seq<byte>)
    requires At(data, 0, hd) && |hd| >= 32
    ensures FirstWord(data) == FirstWord(hd)
  {
    assert data[..32] == hd[..32];
  }

  /** An unsupported first argument is not read back. */
  lemma BadFirst(t: Ty, data: seq<byte>, x: nat, offset: nat)
    requires Solid(t) && !t.Supported() && PackVal(t, Default(t)).Ok?
    requires At(data, x, HeadPart(t, PackedDefault(t), offset))
    requires Whole(offset) && 32 <= offset < TWO_63 && Tame(data) && (x == 0 || FirstWord(data) != 1)
    ensures ToGo(x, t, data) != Ok(Default(t))
  {
    hide PackVal, Default, U256, Tame, ToGo, Checkable;
    SolidCases(t);
    var e := PackedDefault(t);
    if t.SliceTy? {
      if x == 0 {
        TameWord(offset);
        FrontOf(data, U256(offset));
      }
      BadSlice(t, x, data, offset);
    } else {
      DefaultPacks(t);
      assert Read(data, x, 32) == e[..32];
      BadOffset(Core(t), x, data);
      BadFront(t, x, data);
    }
  }

  lemma {:induction false} BadArgument(ts: seq<Ty>, data: seq<byte>, slot: nat, offset: nat)
    requires AllSolid(ts) && !SupportedTypes(ts) && DefaultsPacked(ts, offset)
    requires At(data, slot * 32, DefaultParts(ts, offset).0) && Tame(data)
    requires Whole(offset) && 32 <= offset && offset + |DefaultParts(ts, offset).1| < TWO_63
    requires slot == 0 || FirstWord(data) != 1
    ensures UnpackFrom(ts, slot, data) != Ok(Defaults(ts))
  {
    hide PackVal, Default, Defaults, DefaultsPacked, Tame, ToGo, UnpackFrom, At, Solid, WordCount, HeadPart,
         TailPart, DefaultParts, PackedDefault, FirstWord;
    var t := ts[0];
    PartsSplit(ts, offset);
    DefaultsStep(ts);
    var e := PackedDefault(t);
    var hd, tl := HeadPart(t, e, offset), TailPart(t, e);
    AtSplit(data, slot * 32, hd, DefaultParts(ts[1..], offset + |tl|).0, DefaultParts(ts, offset).0);
    if t.Supported() {
      SupportedHead(t, offset);
      if slot == 0 {
        FrontOf(data, hd);
      }
      BadArgument(ts[1..], data, slot + Slots(t), offset + |tl|);
      DifferentTail(ts, slot, data, Defaults(ts));
    } else {
      BadFirst(t, data, slot * 32, offset);
      DifferentHead(ts, slot, data, Defaults(ts));
    }
  }

  // ----- the boundary -----

  /** Values the codec should carry: well typed, in range, packed without error, and fitting a Go slice. */
  ghost predicate Carriable(ts: seq<Ty>, vs: seq<Val>) {
    && |ts| == |vs| && (forall i :: 0 <= i < |ts| ==> WellTyped(ts[i], vs[i])) && AllInRange(vs)
    && PackArgs(ts, vs).Ok? && |PackArgs(ts, vs).value| < TWO_63
  }

  ghost predicate CarriesAll(ts: seq<Ty>) {
    forall vs :: Carriable(ts, vs) ==> RoundTrips(ts, vs)
  }

  lemma {:induction false} DefaultsTyped(ts: seq<Ty>)
    requires AllSolid(ts)
    ensures forall i :: 0 <= i < |ts| ==> WellTyped(ts[i], Defaults(ts)[i])
    ensures AllInRange(Defaults(ts))
  {
    hide WellTyped, InRange, Default;
    if ts != [] {
      DefaultTyped(ts[0]);
      DefaultsTyped(ts[1..]);
      DefaultsStep(ts);
      assert forall i :: 1 <= i < |ts| ==> ts[i] == ts[1..][i - 1] && Defaults(ts)[i] == Defaults(ts[1..])[i - 1];
    }
  }

  lemma DefaultsCarriable(ts: seq<Ty>)
    requires AllSolid(ts) && (PackArgs(ts, Defaults(ts)).Ok? ==> |PackArgs(ts, Defaults(ts)).value| < TWO_63)
    ensures Carriable(ts, Defaults(ts))
  {
    hide WellTyped, InRange, Default, PackFrom, Tame;
    DefaultsTyped(ts);
    if ts == [] {
      NothingPacked();
    } else {
      SolidOffset(ts);
      DefaultsPack(ts, InputOffset(ts));
    }
  }

  lemma NothingPacked()
    ensures PackArgs([], []) == Ok([]) && Defaults([]) == []
  {
    var nothing: seq<byte> := [];
    assert nothing + nothing == nothing;
    assert PackFrom([], [], 0) == Ok(([], []));
  }

  lemma SolidOffset(ts: seq<Ty>)
    requires AllSolid(ts) && ts != []
    ensures InputOffset(ts) >= 32 && Whole(InputOffset(ts))
  {
    InputOffsetWords(ts);
  }

  /** One unsupported type in a list is enough to lose the default values. */
  lemma UnsupportedFails(ts: seq<Ty>)
    requires AllSolid(ts) && !SupportedTypes(ts) && Carriable(ts, Defaults(ts))
    ensures !RoundTrips(ts, Defaults(ts))
  {
    hide WellTyped, InRange, Default, PackFrom, Tame, Defaults, UnpackFrom, Carriable;
    var p := InputOffset(ts);
    assert PackArgs(ts, Defaults(ts)).Ok? && |PackArgs(ts, Defaults(ts)).value| < TWO_63 by {
      CarriableSize(ts, Defaults(ts));
    }
    SolidOffset(ts);
    DefaultsPack(ts, p);
    var parts := DefaultParts(ts, p);
    TameConcat(parts.0, parts.1);
    assert At(parts.0 + parts.1, 0, parts.0);
    BadArgument(ts, parts.0 + parts.1, 0, p);
  }

  lemma CarriableSize(ts: seq<Ty>, vs: seq<Val>)
    requires Carriable(ts, vs)
    ensures PackArgs(ts, vs).Ok? && |PackArgs(ts, vs).value| < TWO_63
  {
  }

  lemma {:induction false} SupportedCarriable(ts: seq<Ty>, vs: seq<Val>)
    requires SupportedTypes(ts) && |ts| == |vs| && forall i :: 0 <= i < |ts| ==> WellTyped(ts[i], vs[i])
    ensures SupportedArgs(ts, vs)
  {
    if ts != [] {
      SupportedCarriable(ts[1..], vs[1..]);
    }
  }

  lemma CarriableEncoding(ts: seq<Ty>, vs: seq<Val>)
    requires SupportedTypes(ts) && Carriable(ts, vs)
    ensures SupportedArgs(ts, vs) && PackableArgs(ts, vs) && |FormalEncoding(ts, vs)| < TWO_63
  {
    hide WellTyped, InRange, PackFrom, Heads, Tails, HeadsSize, InputOffset, PackableArgs, SupportedArgs, Whole;
    SupportedCarriable(ts, vs);
    PackFromIsHeadsTails(ts, vs, InputOffset(ts));
    HeadsLength(ts, vs, InputOffset(ts));
    HeadsLength(ts, vs, HeadsSize(ts));
  }

  lemma SupportedCarries(ts: seq<Ty>, vs: seq<Val>)
    requires SupportedTypes(ts) && Carriable(ts, vs) && (!HasDynamic(ts) || !HasDeepArray(ts))
    ensures RoundTrips(ts, vs)
  {
    hide WellTyped, InRange, PackFrom, Heads, Tails, HeadsSize, InputOffset, PackableArgs, SupportedArgs,
         HasDynamic, HasDeepArray;
    CarriableEncoding(ts, vs);
    RoundTrip(AsArguments(ts), vs);
  }

  /**
   The exact reach of the codec. A list of solid types carries every value it should exactly when
   all types are supported and it has no dynamic argument or no array argument nested beyond the
   level the encoder counts.
   */
  lemma RoundTripExactly(ts: seq<Ty>)
    requires AllSolid(ts) && (PackArgs(ts, Defaults(ts)).Ok? ==> |PackArgs(ts, Defaults(ts)).value| < TWO_63)
    ensures CarriesAll(ts) <==> SupportedTypes(ts) && (!HasDynamic(ts) || !HasDeepArray(ts))
  {
    hide Carriable, RoundTrips, HasDynamic, HasDeepArray, SupportedTypes, AllSolid, Defaults, PackArgs;
    DefaultsCarriable(ts);
    if !SupportedTypes(ts) {
      UnsupportedFails(ts);
    } else if HasDynamic(ts) && HasDeepArray(ts) {
      CarriableEncoding(ts, Defaults(ts));
      DeepArrayFails(ts);
    } else {
      forall vs | Carriable(ts, vs)
        ensures RoundTrips(ts, vs)
      {
        SupportedCarries(ts, vs);
      }
    }
  }

  // ----- single types, empty arrays included -----

  /** Packing one argument that is encoded in place. */
  lemma PackOneStatic(t: Ty, v: Val)
    requires !t.RequiresLengthPrefix() && PackVal(t, v).Ok?
    ensures PackArgs([t], [v]) == PackVal(t, v)
  {
    hide PackVal;
    var e := PackVal(t, v).value;
    assert e + [] == e && [t][1..] == [] && [v][1..] == [];
    var p := InputOffset([t]);
    assert TailPart(t, e) == [] && HeadPart(t, e, p) == e;
    var nothing: seq<byte> := [];
    assert e + nothing == e && nothing + nothing == nothing;
    assert PackFrom([], [], p) == Ok((nothing, nothing));
    assert Appended(e, nothing, Ok((nothing, nothing))) == Ok((e, nothing));
    assert PackFrom([t], [v], p) == Ok((e, nothing));
  }

  lemma PackOneDynamic(t: Ty, v: Val)
    requires t.RequiresLengthPrefix() && PackVal(t, v).Ok?
    ensures PackArgs([t], [v]) == Ok(U256(32) + PackVal(t, v).value)
  {
    hide PackVal, U256;
    var e := PackVal(t, v).value;
    assert e + [] == e && U256(32) + [] == U256(32) && [t][1..] == [] && [v][1..] == [];
    assert InputOffset([t]) == 32 + InputOffset([]);
    var nothing: seq<byte> := [];
    assert PackFrom([], [], 32 + |e|) == Ok((nothing, nothing));
    assert Appended(U256(32), e, Ok((nothing, nothing))) == Ok((U256(32), e));
    assert PackFrom([t], [v], 32) == Ok((U256(32), e));
  }

  /** Empty arrays are packed to nothing, where the decoder expects a word. */
  lemma HollowFails(t: Ty)
    requires t.WellFormed() && Checkable(t) && Hollow(t)
    ensures Carriable([t], [Default(t)]) && !RoundTrips([t], [Default(t)])
  {
    hide PackVal, Default;
    DefaultPacks(t);
    DefaultTyped(t);
    PackOneStatic(t, Default(t));
    assert ToGo(0, t, []) == Err;
    DifferentHead([t], 0, [], [Default(t)]);
  }

  /** Two empty arrays in a slice leave less data than the decoder expects; one is carried. */
  lemma SliceOfHollowFails(t: Ty)
    requires t.WellFormed() && Checkable(t) && t.SliceTy? && Hollow(t.elem)
    ensures var v := List(false, [Default(t.elem), Default(t.elem)]);
            Carriable([t], [v]) && !RoundTrips([t], [v])
  {
    var e := t.elem;
    var two := [Default(e), Default(e)];
    var v := List(false, two);
    DefaultTyped(e);
    DefaultChecks(e);
    DefaultElemsPack(e, two);
    assert TypeCheck(t, v) == Ok(());
    hide U256, Default, TypeCheck;
    assert [] + Zeros(32) == Zeros(32);
    assert PackVal(t, v) == Ok(U256(2) + Zeros(32));
    PackOneDynamic(t, v);
    TwoMissing(t, v);
  }

  lemma TwoMissing(t: Ty, v: Val)
    requires t.SliceTy?
    ensures UnpackFrom([t], 0, U256(32) + (U256(2) + Zeros(32))) != Ok([v])
  {
    var data := U256(32) + (U256(2) + Zeros(32));
    hide U256;
    assert |data| == 96;
    assert data[0..32] == U256(32) && data[32..64] == U256(2);
    LengthPrefixReads(data, 0, 32, 2);
    assert ToGo(0, t, data) == Err;
    DifferentHead([t], 0, data, [v]);
  }

  /**
   For a single argument of any well-formed type without an empty array of arrays: it carries all
   its values exactly when the type is supported.
   */
  lemma SupportedExactly(t: Ty)
    requires t.WellFormed() && Checkable(t)
    requires PackArgs([t], [Default(t)]).Ok? ==> |PackArgs([t], [Default(t)]).value| < TWO_63
    ensures CarriesAll([t]) <==> t.Supported()
  {
    hide Carriable, RoundTrips, PackArgs, Default;
    NotStatic(t);
    if Hollow(t) {
      HollowFails(t);
    } else if t.SliceTy? && Hollow(t.elem) {
      NotStatic(t.elem);
      SliceOfHollowFails(t);
    } else {
      SingleType(t);
      RoundTripExactly([t]);
    }
  }

  lemma SingleType(t: Ty)
    requires Solid(t)
    ensures AllSolid([t]) && (SupportedTypes([t]) <==> t.Supported()) && Defaults([t]) == [Default(t)]
    ensures !HasDynamic([t]) || !HasDeepArray([t])
  {
  }
}
