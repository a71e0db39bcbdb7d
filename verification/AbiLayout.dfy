/** Where arguments and elements stand in the standard encoding, by byte positions. */
module AbiLayout {
  import opened Words
  import opened AbiTypes
  import opened AbiPack
  import opened AbiSpec

  lemma {:induction false} ElemAt(t: Ty, vs: seq<Val>, data: seq<byte>, pos: nat, i: nat)
    requires t.Supported() && t.Static() && (forall v <- vs :: WellTyped(t, v)) && i < |vs|
    requires At(data, pos, EncAll(t, vs))
    ensures At(data, pos + i * (32 * WordCount(t)), Enc(t, vs[i]))
  {
    hide Enc, WellTyped, WordCount, At;
    AtSplit(data, pos, Enc(t, vs[0]), EncAll(t, vs[1..]), EncAll(t, vs));
    if i > 0 {
      EncLength(t, vs[0]);
      ElemAt(t, vs[1..], data, pos + |Enc(t, vs[0])|, i - 1);
      NextElement(i, 32 * WordCount(t));
    }
  }

  lemma NextElement(i: nat, size: nat)
    requires i > 0
    ensures i * size == size + (i - 1) * size
  {
  }

  /** The tails of the first k arguments. */
  function TailBefore(ts: seq<Ty>, vs: seq<Val>, k: nat): nat {
    if k == 0 || k > |ts| || k > |vs| then 0
    else TailBefore(ts, vs, k - 1) + |TailPart(ts[k - 1], Enc(ts[k - 1], vs[k - 1]))|
  }

  function HeadBefore(ts: seq<Ty>, k: nat): nat {
    if k == 0 || k > |ts| then 0 else HeadBefore(ts, k - 1) + HeadSize(ts[k - 1])
  }

  lemma {:induction false} BeforeTail(ts: seq<Ty>, vs: seq<Val>, k: nat)
    requires |ts| == |vs| && k < |ts|
    ensures TailBefore(ts, vs, k + 1) == |TailPart(ts[0], Enc(ts[0], vs[0]))| + TailBefore(ts[1..], vs[1..], k)
    ensures HeadBefore(ts, k + 1) == HeadSize(ts[0]) + HeadBefore(ts[1..], k)
  {
    hide Enc, TailPart, HeadSize;
    if k > 0 {
      BeforeTail(ts, vs, k - 1);
    }
  }

  /** Where the k-th argument stands in data with this layout. */
  lemma {:induction false} ArgumentAt(ts: seq<Ty>, vs: seq<Val>, data: seq<byte>, head: nat, tail: nat, k: nat)
    requires |ts| == |vs| && k < |ts| && Layout(ts, vs, data, head, tail)
    ensures var e := Enc(ts[k], vs[k]);
            && At(data, head + HeadBefore(ts, k), HeadPart(ts[k], e, tail + TailBefore(ts, vs, k)))
            && At(data, tail + TailBefore(ts, vs, k), TailPart(ts[k], e))
  {
    hide Enc, HeadPart, TailPart, HeadSize, At;
    if k > 0 {
      var e := Enc(ts[0], vs[0]);
      ArgumentAt(ts[1..], vs[1..], data, head + HeadSize(ts[0]), tail + |TailPart(ts[0], e)|, k - 1);
      BeforeTail(ts, vs, k - 1);
    }
  }

  lemma BeforeNext(ts: seq<Ty>, vs: seq<Val>, k: nat)
    requires |ts| == |vs| && k < |ts|
    ensures TailBefore(ts, vs, k + 1) == TailBefore(ts, vs, k) + |TailPart(ts[k], Enc(ts[k], vs[k]))|
    ensures HeadBefore(ts, k + 1) == HeadBefore(ts, k) + HeadSize(ts[k])
    ensures TailBefore(ts, vs, 0) == 0 && HeadBefore(ts, 0) == 0
  {
    hide Enc, TailPart, HeadSize;
  }
}
