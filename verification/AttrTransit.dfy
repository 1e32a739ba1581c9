/**
  Unknown transitive attributes: they are kept as bytes, one after the other in
  the order of arrival, with the Partial bit set.
 */
module AttrTransit {
  import opened Options
  import opened Streams
  import opened AttrTlv

  const BGP_ATTR_ENCAP: Byte := 23

  /** Types that the switch of `bgp_attr_parse` leaves to `bgp_attr_unknown`. */
  predicate Unknown(typ: Byte) {
    Required(typ).None? && typ != BGP_ATTR_ENCAP
  }

  /** All but the types named in sections 4.3 of RFC 4271, 2 of RFC 6793 and their extensions. */
  lemma {:induction false} UnknownTypes(typ: Byte)
    ensures Unknown(typ) <==> typ !in {1, 2, 3, 4, 5, 6, 7, 8, 9, 10, 14, 15, 16, 17, 18, 23}
  {
  }

  predicate Carried(t: Tlv) {
    Unknown(t.typ) && FlagsOf(t.flags).optional && FlagsOf(t.flags).trans
  }

  function SetPartial(b: Byte): (m: Byte)
    ensures FlagsOf(m) == FlagsOf(b).(partial := true)
  {
    if FlagsOf(b).partial then b else b + 32
  }

  function Marked(t: Tlv): (m: Tlv)
    ensures TlvFits(t) ==> TlvFits(m)
  {
    t.(flags := SetPartial(t.flags))
  }

  ghost predicate AllFit(ts: seq<Tlv>) {
    forall i :: 0 <= i < |ts| ==> TlvFits(ts[i])
  }

  /** What `attr->transit` holds after these records. */
  function TransitBytes(ts: seq<Tlv>): seq<Byte>
    requires AllFit(ts)
  {
    if ts == [] then [] else (if Carried(ts[0]) then TlvBytes(Marked(ts[0])) else []) + TransitBytes(ts[1..])
  }

  class Transit {
    var val: seq<Byte>

    constructor ()
      ensures val == []
    {
      val := [];
    }

    /** `bgp_attr_unknown`: a well-known attribute is malformed, one that is not transitive is ignored. */
    method Store(peer: Peer, t: Tlv) returns (verdict: Option<Verdict>)
      requires Unknown(t.typ) && TlvFits(t)
      modifies this
      ensures verdict == if t.flags >= 128 then None else Some(if peer.sort == Ebgp then NotifyPls else Error)
      ensures val == old(val) + TransitBytes([t])
    {
      assert TransitBytes([t][1..]) == [];
      if !FlagsOf(t.flags).optional {
        return Malformed(peer, t.typ, FlagsOf(t.flags));
      }
      if FlagsOf(t.flags).trans {
        val := val + TlvBytes(Marked(t));
      }
      return None;
    }
  }

  /** The records kept, in order. */
  function Kept(ts: seq<Tlv>): (ks: seq<Tlv>)
    ensures forall k :: k in ks <==> k in ts && Carried(k)
    ensures AllFit(ts) ==> AllFit(ks)
  {
    if ts == [] then []
    else
      assert ts == [ts[0]] + ts[1..];
      (if Carried(ts[0]) then [ts[0]] else []) + Kept(ts[1..])
  }

  function MarkAll(ts: seq<Tlv>): (ms: seq<Tlv>)
    ensures |ms| == |ts| && forall i :: 0 <= i < |ts| ==> ms[i] == Marked(ts[i])
    ensures AllFit(ts) ==> AllFit(ms)
  {
    seq(|ts|, i requires 0 <= i < |ts| => Marked(ts[i]))
  }

  lemma {:induction false} TransitIsConcat(ts: seq<Tlv>)
    requires AllFit(ts)
    ensures TransitBytes(ts) == Concat(MarkAll(Kept(ts)))
  {
    hide TlvBytes, Carried, TlvFits;
    if ts != [] {
      var rest := ts[1..];
      TransitIsConcat(rest);
      if Carried(ts[0]) {
        var ms := MarkAll(Kept(ts));
        assert Kept(ts)[0] == ts[0] && Kept(ts)[1..] == Kept(rest);
        assert ms[0] == Marked(ts[0]) && ms[1..] == MarkAll(Kept(rest));
      } else {
        assert Kept(ts) == Kept(rest);
      }
    }
  }

  /** The bytes of records tell the records. */
  lemma {:induction false} ConcatInjective(xs: seq<Tlv>, ys: seq<Tlv>)
    requires AllFit(xs) && AllFit(ys) && Concat(xs) == Concat(ys)
    ensures xs == ys
    decreases |xs|
  {
    hide TlvBytes, TakeTlv, TlvFits;
    if xs == [] || ys == [] {
      ConcatNone(xs);
      ConcatNone(ys);
    } else {
      var x, y := TlvBytes(xs[0]), TlvBytes(ys[0]);
      TakeTlvOfBytes(xs[0], Concat(xs[1..]));
      TakeTlvOfBytes(ys[0], Concat(ys[1..]));
      assert xs[0] == ys[0];
      assert Concat(xs)[|x|..] == Concat(xs[1..]) && Concat(ys)[|y|..] == Concat(ys[1..]);
      ConcatInjective(xs[1..], ys[1..]);
      assert xs == [xs[0]] + xs[1..] && ys == [ys[0]] + ys[1..];
    }
  }

  lemma {:induction false} ConcatNone(xs: seq<Tlv>)
    requires AllFit(xs)
    ensures Concat(xs) == [] <==> xs == []
  {
  }

  lemma {:induction false} SameMarked(ts: seq<Tlv>, x: Tlv, y: Tlv)
    requires DistinctTypes(ts) && x in ts && y in ts && Marked(x) == Marked(y)
    ensures x == y
  {
    var i :| 0 <= i < |ts| && ts[i] == x;
    var j :| 0 <= j < |ts| && ts[j] == y;
    assert ts[i].typ == ts[j].typ;
  }

  /**
    Two orders of the same records leave the same transit bytes exactly when
    they have the unknown transitive ones in the same order.
   */
  lemma {:induction false} TransitOrderIff(ts: seq<Tlv>, us: seq<Tlv>)
    requires AllFit(ts) && AllFit(us) && DistinctTypes(ts) && multiset(ts) == multiset(us)
    ensures TransitBytes(ts) == TransitBytes(us) <==> Kept(ts) == Kept(us)
  {
    hide AllFit, TransitBytes, Marked, DistinctTypes, Carried;
    TransitIsConcat(ts);
    TransitIsConcat(us);
    var xs, ys := Kept(ts), Kept(us);
    if TransitBytes(ts) == TransitBytes(us) {
      ConcatInjective(MarkAll(xs), MarkAll(ys));
      assert |xs| == |ys|;
      forall i | 0 <= i < |xs| ensures xs[i] == ys[i] {
        assert xs[i] in xs && ys[i] in ys;
        assert ys[i] in multiset(us);
        assert Marked(xs[i]) == MarkAll(xs)[i] == MarkAll(ys)[i] == Marked(ys[i]);
        SameMarked(ts, xs[i], ys[i]);
      }
    }
  }

  /** Two unknown transitive records the other way round. */
  lemma {:induction false} TransitSwapped(t: Tlv, u: Tlv)
    requires TlvFits(t) && TlvFits(u) && Carried(t) && Carried(u) && t.typ != u.typ
    ensures TransitBytes([t, u]) != TransitBytes([u, t])
  {
    hide Carried, TlvFits;
    TransitOrderIff([t, u], [u, t]);
    assert [t, u] == [t] + [u] && [u, t] == [u] + [t];
    assert [t, u][1..] == [u] && [u, t][1..] == [t] && [u][1..] == [] && [t][1..] == [];
    assert Kept([t, u])[0] == t && Kept([u, t])[0] == u;
  }
}
