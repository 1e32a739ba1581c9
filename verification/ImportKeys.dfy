/** The bytes of automatic route targets and of index keys, and which match a removal unlinks. */
module ImportKeys {
  import opened Streams
  import opened AsPathBytes
  import opened Communities
  import opened ImportRt

  /**
    The automatic route target of a VNI: two bytes for the type and subtype of a
    route target, the low 16 bits of the AS number, and the VNI in four bytes.
   */
  lemma {:induction false} AutomaticBytes(asn: nat, vni: Vni)
    ensures
      var rt := AutoRt(asn, vni);
      rt[0] == 0 && rt[1] == 2 && Spelled(rt[2..4]) == asn % 65536 && Spelled(rt[4..8]) == vni
  {
    var rt := AutoRt(asn, vni);
    assert rt[2..4] == Be16(asn % 65536) && rt[4..8] == Be32(vni);
    SpelledTwo(rt[2..4]);
    SpelledFour(rt[4..8]);
    Horner(vni);
  }

  /**
    The key of an automatic route target leaves out the type and the global
    administrator, of two bytes or of four as the type says; a configured one is its own key.
   */
  lemma {:induction false} KeyBytes(rt: Rt)
    ensures KeyOf(true, rt) == rt
    ensures
      var k := KeyOf(false, rt);
      && k[0] == 0 && k[1] == rt[1] && k[6] == rt[6] && k[7] == rt[7]
      && k[2] == (if rt[0] <= 2 then 0 else rt[2]) && k[3] == (if rt[0] <= 2 then 0 else rt[3])
      && k[4] == (if rt[0] in {1, 2} then 0 else rt[4]) && k[5] == (if rt[0] in {1, 2} then 0 else rt[5])
  {
  }

  /** Routers of different AS numbers have the same automatic key exactly for the same VNI. */
  lemma {:induction false} AutomaticKeysAgree(a: nat, b: nat, v: Vni, w: Vni)
    ensures KeyOf(false, AutoRt(a, v)) == KeyOf(false, AutoRt(b, w)) <==> v == w
  {
    AutomaticBytes(a, v);
    AutomaticBytes(b, w);
    var x, y := AutoRt(a, v), AutoRt(b, w);
    KeyBytes(x);
    KeyBytes(y);
    hide AutoRt, KeyOf, Spelled;
    var k, l := KeyOf(false, x), KeyOf(false, y);
    assert x[4..8] == [x[4], x[5], x[6], x[7]] && y[4..8] == [y[4], y[5], y[6], y[7]];
    assert k[4..8] == x[4..8] && l[4..8] == y[4..8];
    if v == w {
      SameSpelling(x[4..8], y[4..8]);
      assert forall i :: 0 <= i < 8 ==> k[i] == l[i] by {
        assert x[4] == x[4..8][0] && x[5] == x[4..8][1] && x[6] == x[4..8][2] && x[7] == x[4..8][3];
        assert y[4] == y[4..8][0] && y[5] == y[4..8][1] && y[6] == y[4..8][2] && y[7] == y[4..8][3];
      }
      assert k == l;
    }
  }

  lemma {:induction false} SameSpelling(a: seq<Byte>, b: seq<Byte>)
    requires |a| == |b| && Spelled(a) == Spelled(b)
    ensures a == b
  {
    if a != [] {
      var n := |a| - 1;
      assert Spelled(a) == Spelled(a[..n]) * 256 + a[n] && Spelled(b) == Spelled(b[..n]) * 256 + b[n];
      SameSpelling(a[..n], b[..n]);
      assert a == a[..n] + [a[n]] && b == b[..n] + [b[n]];
    }
  }

  // ---------------------------------------------------------------------
  // Lists of route targets

  /** Of the sets that hold the automatic route target the last one goes. */
  lemma {:induction false} AutomaticGoes(rtl: seq<Ecom>, auto: Rt, i: nat)
    requires i < |rtl| && auto in rtl[i] && forall j :: i < j < |rtl| ==> auto !in rtl[j]
    ensures DeleteAuto(rtl, auto) == rtl[..i] + rtl[i + 1..]
    decreases |rtl|
  {
    var n := |rtl| - 1;
    if i < n {
      var t := rtl[..n];
      AutomaticGoes(t, auto, i);
      assert t[..i] == rtl[..i] && t[i + 1..] + [rtl[n]] == rtl[i + 1..];
      assert DeleteAuto(rtl, auto) == rtl[..i] + t[i + 1..] + [rtl[n]];
    } else {
      assert rtl[i + 1..] == [];
    }
  }

  lemma {:induction false} AutomaticAbsent(rtl: seq<Ecom>, auto: Rt)
    requires forall j :: 0 <= j < |rtl| ==> auto !in rtl[j]
    ensures DeleteAuto(rtl, auto) == rtl
  {
    if rtl != [] {
      AutomaticAbsent(rtl[..|rtl| - 1], auto);
    }
  }

  /** Of the sets that hold all of a given one, in its order, the first one goes. */
  lemma {:induction false} GivenGoes(rtl: seq<Ecom>, e: Ecom, i: nat)
    requires i < |rtl| && (exists places :: At(rtl[i], e, places))
    requires forall j, places :: 0 <= j < i ==> !At(rtl[j], e, places)
    ensures DeleteFirst(rtl, e) == rtl[..i] + rtl[i + 1..]
    decreases |rtl|
  {
    WithinIff(rtl[0], e);
    if i > 0 {
      hide Within, At;
      assert rtl == [rtl[0]] + rtl[1..];
      GivenGoes(rtl[1..], e, i - 1);
      assert rtl[1..][..i - 1] == rtl[1..i] && rtl[1..][i..] == rtl[i + 1..];
      assert rtl[..i] == [rtl[0]] + rtl[1..i];
    }
  }

  /** A configured set goes in front of the first one that compares larger. */
  lemma {:induction false} ConfiguredGoes(cmp: (Ecom, Ecom) -> int, rtl: seq<Ecom>, e: Ecom, i: nat)
    requires i <= |rtl| && (forall j :: 0 <= j < i ==> cmp(e, rtl[j]) >= 0) && (i < |rtl| ==> cmp(e, rtl[i]) < 0)
    ensures AddSort(cmp, rtl, e) == rtl[..i] + [e] + rtl[i..]
    decreases |rtl|
  {
    if i > 0 {
      ConfiguredGoes(cmp, rtl[1..], e, i - 1);
      assert rtl == [rtl[0]] + rtl[1..];
      assert rtl[1..][..i - 1] == rtl[1..i] && rtl[1..][i - 1..] == rtl[i..];
      assert rtl[..i] == [rtl[0]] + rtl[1..i];
    }
  }
}
