/**
  The EVPN import route-target index: for every route target the VNIs that
  import routes carrying it.
 */
module ImportRt {
  import opened Options
  import opened Sequences
  import opened Streams
  import opened Communities

  /** An extended community value, 8 bytes. */
  type Rt = s: seq<Byte> | |s| == 8 witness [0, 0, 0, 0, 0, 0, 0, 0]

  type Vni = v: int | 0 <= v < 0x100_0000

  const ECOMMUNITY_ENCODE_AS: Byte := 0
  const ECOMMUNITY_ENCODE_IP: Byte := 1
  const ECOMMUNITY_ENCODE_AS4: Byte := 2
  const ECOMMUNITY_ROUTE_TARGET: Byte := 2

  /** A set of route targets given together (`struct ecommunity`). */
  type Ecom = seq<Rt>

  /** One VNI: its import route targets, and whether they are configured. */
  datatype Vpn = Vpn(rtl: seq<Ecom>, configured: bool)

  /** `mask_ecom_global_admin`: only the local administrator field is kept. */
  function Mask(rt: Rt): Rt {
    if rt[0] == ECOMMUNITY_ENCODE_AS then rt[0 := 0][2 := 0][3 := 0]
    else if rt[0] == ECOMMUNITY_ENCODE_AS4 || rt[0] == ECOMMUNITY_ENCODE_IP then rt[0 := 0][2 := 0][3 := 0][4 := 0][5 := 0]
    else rt[0 := 0]
  }

  /** `encode_route_target_as` of the low AS bits and the VNI. */
  function AutoRt(asn: nat, vni: Vni): Rt {
    [ECOMMUNITY_ENCODE_AS, ECOMMUNITY_ROUTE_TARGET] + Be16(asn % 0x1_0000) + Be32(vni)
  }

  /** Automatic route targets count by their local administrator field only. */
  function KeyOf(configured: bool, rt: Rt): Rt {
    if configured then rt else Mask(rt)
  }

  ghost predicate SetYields(configured: bool, ecom: Ecom, k: Rt) {
    exists j :: 0 <= j < |ecom| && KeyOf(configured, ecom[j]) == k
  }

  ghost predicate ListYields(configured: bool, rtl: seq<Ecom>, k: Rt) {
    exists i :: 0 <= i < |rtl| && SetYields(configured, rtl[i], k)
  }

  /** The index keys a VNI's import list yields. */
  ghost predicate Yields(vpn: Vpn, k: Rt) {
    ListYields(vpn.configured, vpn.rtl, k)
  }

  lemma SetYieldsMore(configured: bool, ecom: Ecom, i: nat, k: Rt)
    requires i < |ecom|
    ensures SetYields(configured, ecom[..i + 1], k) <==> SetYields(configured, ecom[..i], k) || KeyOf(configured, ecom[i]) == k
  {
    var a, b := ecom[..i], ecom[..i + 1];
    assert forall j :: 0 <= j < i ==> a[j] == b[j];
    assert b[i] == ecom[i];
    if SetYields(configured, a, k) {
      var j :| 0 <= j < |a| && KeyOf(configured, a[j]) == k;
      assert KeyOf(configured, b[j]) == k;
    }
  }

  lemma ListYieldsMore(configured: bool, rtl: seq<Ecom>, i: nat, k: Rt)
    requires i < |rtl|
    ensures ListYields(configured, rtl[..i + 1], k) <==> ListYields(configured, rtl[..i], k) || SetYields(configured, rtl[i], k)
  {
    hide SetYields;
    var a, b := rtl[..i], rtl[..i + 1];
    assert forall j :: 0 <= j < i ==> a[j] == b[j];
    assert b[i] == rtl[i];
    if ListYields(configured, a, k) {
      var j :| 0 <= j < |a| && SetYields(configured, a[j], k);
      assert SetYields(configured, b[j], k);
    }
  }

  // ---------------------------------------------------------------------
  // The index

  type Index = map<Rt, seq<Vni>>

  ghost predicate Listed(index: Index, k: Rt, v: Vni) {
    k in index && v in index[k]
  }

  /** No key has an empty list, and no list names a VNI twice. */
  ghost predicate Tidy(index: Index) {
    forall k :: k in index ==> index[k] != [] && Distinct(index[k])
  }

  /** `map_vni_to_rt` at the key. */
  function MapAt(index: Index, k: Rt, v: Vni): Index {
    if k in index then
      if v in index[k] then index else index[k := index[k] + [v]]
    else index[k := [v]]
  }

  /** `unmap_vni_from_rt` at the key, if there is an entry. */
  function UnmapAt(index: Index, k: Rt, v: Vni): Index {
    if k !in index then index
    else
      var s := Remove(index[k], v);
      if s == [] then index - {k} else index[k := s]
  }

  lemma MapAtListed(index: Index, k: Rt, v: Vni)
    requires Tidy(index)
    ensures Tidy(MapAt(index, k, v))
    ensures forall l, w :: Listed(MapAt(index, k, v), l, w) <==> Listed(index, l, w) || (l == k && w == v)
  {
  }

  lemma UnmapAtListed(index: Index, k: Rt, v: Vni)
    requires Tidy(index)
    ensures Tidy(UnmapAt(index, k, v))
    ensures forall l, w :: Listed(UnmapAt(index, k, v), l, w) <==> Listed(index, l, w) && !(l == k && w == v)
  {
    if k in index {
      RemoveMembers(index[k], v);
      hide Remove;
      assert forall w :: w in Remove(index[k], v) <==> w in index[k] && w != v;
    }
  }

  // ---------------------------------------------------------------------
  // Agreement

  /**
    Every VNI is listed at exactly the keys its import list yields, except the
    stale ones, which are listed nowhere.
   */
  ghost predicate Agrees(vnis: map<Vni, Vpn>, index: Index, stale: set<Vni>) {
    && Tidy(index)
    && stale <= vnis.Keys
    && forall k, v :: Listed(index, k, v) <==> v in vnis && v !in stale && Yields(vnis[v], k)
  }

  /** No list holds two sets of route targets with the automatic one. */
  ghost predicate OneAuto(asn: nat, v: Vni, rtl: seq<Ecom>) {
    forall i, j :: 0 <= i < j < |rtl| ==> AutoRt(asn, v) !in rtl[i] || AutoRt(asn, v) !in rtl[j]
  }

  /** What the index is for: it finds exactly the VNIs that import a key. */
  ghost predicate Exact(vnis: map<Vni, Vpn>, index: Index) {
    && Tidy(index)
    && forall k, v :: Listed(index, k, v) <==> v in vnis && Yields(vnis[v], k)
  }

  /** The index is exact exactly when no stale VNI yields a key. */
  lemma ExactIff(vnis: map<Vni, Vpn>, index: Index, stale: set<Vni>)
    requires Agrees(vnis, index, stale)
    ensures Exact(vnis, index) <==> forall v, k :: v in stale ==> !Yields(vnis[v], k)
  {
    if Exact(vnis, index) {
      forall v, k | v in stale ensures !Yields(vnis[v], k) {
        assert !Listed(index, k, v);
      }
    }
  }

  /** With a single VNI left out. */
  lemma {:induction false} LeftOutExact(vnis: map<Vni, Vpn>, index: Index, stale: set<Vni>, v: Vni)
    requires Agrees(vnis, index, stale) && v in stale
    ensures (forall w, k :: w in stale && w != v ==> !Yields(vnis[w], k)) ==>
      (Exact(vnis, index) <==> forall k :: !ListYields(vnis[v].configured, vnis[v].rtl, k))
  {
    hide ListYields, Exact, Listed, Tidy;
    ExactIff(vnis, index, stale);
    if Exact(vnis, index) {
      forall k ensures !ListYields(vnis[v].configured, vnis[v].rtl, k) {
        assert !Yields(vnis[v], k);
      }
    }
  }

  // ---------------------------------------------------------------------
  // The instance

  /** `listnode_add_sort`. */
  function AddSort(cmp: (Ecom, Ecom) -> int, rtl: seq<Ecom>, e: Ecom): seq<Ecom> {
    if rtl == [] || cmp(e, rtl[0]) < 0 then [e] + rtl else [rtl[0]] + AddSort(cmp, rtl[1..], e)
  }

  /** `bgp_evpn_rt_delete_auto`: the last match is unlinked. */
  function DeleteAuto(rtl: seq<Ecom>, auto: Rt): seq<Ecom> {
    if rtl == [] then []
    else
      var n := |rtl| - 1;
      if auto in rtl[n] then rtl[..n] else DeleteAuto(rtl[..n], auto) + [rtl[n]]
  }

  /** The first match is unlinked. */
  function DeleteFirst(rtl: seq<Ecom>, e: Ecom): seq<Ecom> {
    if rtl == [] then [] else if Within(rtl[0], e) then rtl[1..] else [rtl[0]] + DeleteFirst(rtl[1..], e)
  }

  ghost predicate NoAuto(rtl: seq<Ecom>, auto: Rt) {
    forall i :: 0 <= i < |rtl| ==> auto !in rtl[i]
  }

  lemma {:induction false} DeleteAutoLast(rtl: seq<Ecom>, auto: Rt)
    requires forall i, j :: 0 <= i < j < |rtl| ==> auto !in rtl[i] || auto !in rtl[j]
    ensures NoAuto(DeleteAuto(rtl, auto), auto)
    decreases |rtl|
  {
    if rtl != [] && auto !in rtl[|rtl| - 1] {
      DeleteAutoLast(rtl[..|rtl| - 1], auto);
    }
  }

  lemma {:induction false} AddSortOne(cmp: (Ecom, Ecom) -> int, rtl: seq<Ecom>, e: Ecom, auto: Rt)
    requires NoAuto(rtl, auto)
    ensures forall i, j :: 0 <= i < j < |AddSort(cmp, rtl, e)| ==> auto !in AddSort(cmp, rtl, e)[i] || auto !in AddSort(cmp, rtl, e)[j]
  {
    if rtl != [] && cmp(e, rtl[0]) >= 0 {
      AddSortOne(cmp, rtl[1..], e, auto);
    }
  }

  lemma {:induction false} DeleteFirstKeeps(rtl: seq<Ecom>, e: Ecom, auto: Rt)
    requires forall i, j :: 0 <= i < j < |rtl| ==> auto !in rtl[i] || auto !in rtl[j]
    ensures forall i, j :: 0 <= i < j < |DeleteFirst(rtl, e)| ==> auto !in DeleteFirst(rtl, e)[i] || auto !in DeleteFirst(rtl, e)[j]
    ensures forall i :: 0 <= i < |DeleteFirst(rtl, e)| ==> DeleteFirst(rtl, e)[i] in rtl
  {
    if rtl != [] && !Within(rtl[0], e) {
      var t := rtl[1..];
      DeleteFirstKeeps(t, e, auto);
      var d := DeleteFirst(t, e);
      if auto in rtl[0] {
        forall j | 0 <= j < |d| ensures auto !in d[j] {
          assert d[j] in t;
        }
      }
    }
  }

  lemma {:induction false} WithinOne(a: Ecom, x: Rt)
    ensures Within(a, [x]) <==> x in a
  {
    if a != [] {
      assert [x][1..] == [];
      WithinOne(a[1..], x);
    }
  }

  method AddSorted(cmp: (Ecom, Ecom) -> int, rtl: seq<Ecom>, e: Ecom) returns (r: seq<Ecom>)
    ensures r == AddSort(cmp, rtl, e)
  {
    hide AddSort;
    assert rtl[0..] == rtl;
    for n := 0 to |rtl|
      invariant rtl[..n] + AddSort(cmp, rtl[n..], e) == AddSort(cmp, rtl, e)
    {
      AddSortFrom(cmp, rtl, n, e);
      if cmp(e, rtl[n]) < 0 {
        return rtl[..n] + [e] + rtl[n..];
      }
    }
    AddSortFrom(cmp, rtl, |rtl|, e);
    return rtl + [e];
  }

  /** Where the new set goes, `n` places into the list. */
  lemma {:induction false} AddSortFrom(cmp: (Ecom, Ecom) -> int, rtl: seq<Ecom>, n: nat, e: Ecom)
    requires n <= |rtl|
    ensures rtl[..n] + AddSort(cmp, rtl[n..], e) ==
      if n == |rtl| then rtl + [e]
      else if cmp(e, rtl[n]) < 0 then rtl[..n] + [e] + rtl[n..]
      else rtl[..n + 1] + AddSort(cmp, rtl[n + 1..], e)
  {
    var front, rest := rtl[..n], rtl[n..];
    if n < |rtl| {
      assert rest[0] == rtl[n] && rest[1..] == rtl[n + 1..];
      assert rtl[..n + 1] == front + [rtl[n]];
      var t := AddSort(cmp, rtl[n + 1..], e);
      assert front + ([rtl[n]] + t) == front + [rtl[n]] + t;
      assert front + ([e] + rest) == front + [e] + rest;
    }
  }

  /** The loop of `bgp_evpn_rt_delete_auto`. */
  method RtDeleteAuto(rtl: seq<Ecom>, auto: Rt) returns (r: seq<Ecom>)
    ensures r == DeleteAuto(rtl, auto)
  {
    hide Within, DeleteAuto;
    var found: Option<nat> := None;
    assert DeleteAuto(rtl[..0], auto) == [] by { DeleteAutoNone(rtl[..0], auto); }
    for n := 0 to |rtl|
      invariant found.Some? ==> found.value < n
      invariant DeleteAuto(rtl[..n], auto) == if found.None? then rtl[..n] else rtl[..found.value] + rtl[found.value + 1..n]
    {
      var same := Match(Some(rtl[n]), Some([auto]));
      WithinOne(rtl[n], auto);
      DeleteAutoSnoc(rtl, n, auto);
      if same {
        found := Some(n);
      }
    }
    assert rtl[..|rtl|] == rtl;
    if found.Some? {
      return rtl[..found.value] + rtl[found.value + 1..];
    }
    return rtl;
  }

  lemma DeleteAutoNone(rtl: seq<Ecom>, auto: Rt)
    requires rtl == []
    ensures DeleteAuto(rtl, auto) == []
  {
  }

  lemma DeleteAutoSnoc(rtl: seq<Ecom>, n: nat, auto: Rt)
    requires n < |rtl|
    ensures DeleteAuto(rtl[..n + 1], auto) == if auto in rtl[n] then rtl[..n] else DeleteAuto(rtl[..n], auto) + [rtl[n]]
  {
    assert rtl[..n + 1][..n] == rtl[..n] && rtl[..n + 1][n] == rtl[n];
  }

  /** The loop that removes one configured route target set. */
  method RtDeleteFirst(rtl: seq<Ecom>, e: Ecom) returns (r: seq<Ecom>)
    ensures r == DeleteFirst(rtl, e)
  {
    hide Within, DeleteFirst;
    assert rtl[0..] == rtl;
    for n := 0 to |rtl|
      invariant rtl[..n] + DeleteFirst(rtl[n..], e) == DeleteFirst(rtl, e)
    {
      DeleteFirstFrom(rtl, n, e);
      var same := Match(Some(rtl[n]), Some(e));
      if same {
        return rtl[..n] + rtl[n + 1..];
      }
      Shift(rtl, n, DeleteFirst(rtl[n + 1..], e));
    }
    DeleteFirstNone(rtl[|rtl|..], e);
    return rtl;
  }

  lemma DeleteFirstFrom(rtl: seq<Ecom>, n: nat, e: Ecom)
    requires n < |rtl|
    ensures DeleteFirst(rtl[n..], e) == if Within(rtl[n], e) then rtl[n + 1..] else [rtl[n]] + DeleteFirst(rtl[n + 1..], e)
  {
    hide Within;
    assert rtl[n..][1..] == rtl[n + 1..];
  }

  lemma DeleteFirstNone(rtl: seq<Ecom>, e: Ecom)
    requires rtl == []
    ensures DeleteFirst(rtl, e) == []
  {
  }

  lemma Shift(rtl: seq<Ecom>, n: nat, t: seq<Ecom>)
    requires n < |rtl|
    ensures rtl[..n] + ([rtl[n]] + t) == rtl[..n + 1] + t
  {
  }

  class Evpn {
    const asn: nat
    /** `route_target_cmp`. */
    const cmp: (Ecom, Ecom) -> int
    var vnis: map<Vni, Vpn>
    var index: Index
    /** VNIs that are not in the index although they may have import route targets. */
    ghost var stale: set<Vni>

    ghost predicate Valid()
      reads this
    {
      && Agrees(vnis, index, stale)
      && forall v :: v in vnis ==> OneAuto(asn, v, vnis[v].rtl)
    }

    constructor (asn: nat, cmp: (Ecom, Ecom) -> int)
      ensures Valid() && vnis == map[] && stale == {} && this.asn == asn && this.cmp == cmp
    {
      this.asn, this.cmp := asn, cmp;
      vnis, index, stale := map[], map[], {};
    }

    /** `map_vni_to_rt`. */
    method MapRt(v: Vni, configured: bool, rt: Rt)
      requires Tidy(index)
      modifies this`index
      ensures index == MapAt(old(index), KeyOf(configured, rt), v)
    {
      var key := rt;
      if !configured {
        key := Mask(rt);
      }
      if key in index && v in index[key] {
        return;
      }
      if key !in index {
        index := index[key := []];
      }
      index := index[key := index[key] + [v]];
      assert [] + [v] == [v];
      assert index == MapAt(old(index), key, v);
    }

    /** `bgp_evpn_map_vni_to_its_rts`. */
    method MapVni(v: Vni, vpn: Vpn)
      requires Tidy(index)
      modifies this`index
      ensures Tidy(index)
      ensures forall k, w :: Listed(index, k, w) <==> Listed(old(index), k, w) || (w == v && Yields(vpn, k))
    {
      for i := 0 to |vpn.rtl|
        invariant Tidy(index)
        invariant forall k, w :: Listed(index, k, w) <==> Listed(old(index), k, w) || (w == v && ListYields(vpn.configured, vpn.rtl[..i], k))
      {
        hide Tidy, Listed, ListYields, SetYields;
        MapSet(v, vpn.configured, vpn.rtl[i]);
        forall k ensures ListYields(vpn.configured, vpn.rtl[..i + 1], k) <==> ListYields(vpn.configured, vpn.rtl[..i], k) || SetYields(vpn.configured, vpn.rtl[i], k) {
          ListYieldsMore(vpn.configured, vpn.rtl, i, k);
        }
      }
      assert vpn.rtl[..|vpn.rtl|] == vpn.rtl;
    }

    method MapSet(v: Vni, configured: bool, ecom: Ecom)
      requires Tidy(index)
      modifies this`index
      ensures Tidy(index)
      ensures forall k, w :: Listed(index, k, w) <==> Listed(old(index), k, w) || (w == v && SetYields(configured, ecom, k))
    {
      for i := 0 to |ecom|
        invariant Tidy(index)
        invariant forall k, w :: Listed(index, k, w) <==> Listed(old(index), k, w) || (w == v && SetYields(configured, ecom[..i], k))
      {
        hide Tidy, Listed, SetYields, MapAt, KeyOf;
        MapAtListed(index, KeyOf(configured, ecom[i]), v);
        MapRt(v, configured, ecom[i]);
        forall k ensures SetYields(configured, ecom[..i + 1], k) <==> SetYields(configured, ecom[..i], k) || KeyOf(configured, ecom[i]) == k {
          SetYieldsMore(configured, ecom, i, k);
        }
      }
      assert ecom[..|ecom|] == ecom;
    }

    /** The body of the loops of `bgp_evpn_unmap_vni_from_its_rts`, with `unmap_vni_from_rt`. */
    method UnmapRt(v: Vni, configured: bool, rt: Rt)
      modifies this`index
      ensures index == UnmapAt(old(index), KeyOf(configured, rt), v)
    {
      var key := rt;
      if !configured {
        key := Mask(rt);
      }
      if key in index {
        var s := Remove(index[key], v);
        if s == [] {
          index := index - {key};
        } else {
          index := index[key := s];
        }
      }
    }

    /** `bgp_evpn_unmap_vni_from_its_rts`. */
    method UnmapVni(v: Vni, vpn: Vpn)
      requires Tidy(index)
      modifies this`index
      ensures Tidy(index)
      ensures forall k, w :: Listed(index, k, w) <==> Listed(old(index), k, w) && !(w == v && Yields(vpn, k))
    {
      for i := 0 to |vpn.rtl|
        invariant Tidy(index)
        invariant forall k, w :: Listed(index, k, w) <==> Listed(old(index), k, w) && !(w == v && ListYields(vpn.configured, vpn.rtl[..i], k))
      {
        hide Tidy, Listed, ListYields, SetYields;
        UnmapSet(v, vpn.configured, vpn.rtl[i]);
        forall k ensures ListYields(vpn.configured, vpn.rtl[..i + 1], k) <==> ListYields(vpn.configured, vpn.rtl[..i], k) || SetYields(vpn.configured, vpn.rtl[i], k) {
          ListYieldsMore(vpn.configured, vpn.rtl, i, k);
        }
      }
      assert vpn.rtl[..|vpn.rtl|] == vpn.rtl;
    }

    method UnmapSet(v: Vni, configured: bool, ecom: Ecom)
      requires Tidy(index)
      modifies this`index
      ensures Tidy(index)
      ensures forall k, w :: Listed(index, k, w) <==> Listed(old(index), k, w) && !(w == v && SetYields(configured, ecom, k))
    {
      for i := 0 to |ecom|
        invariant Tidy(index)
        invariant forall k, w :: Listed(index, k, w) <==> Listed(old(index), k, w) && !(w == v && SetYields(configured, ecom[..i], k))
      {
        hide Tidy, Listed, SetYields, UnmapAt, KeyOf;
        UnmapAtListed(index, KeyOf(configured, ecom[i]), v);
        UnmapRt(v, configured, ecom[i]);
        forall k ensures SetYields(configured, ecom[..i + 1], k) <==> SetYields(configured, ecom[..i], k) || KeyOf(configured, ecom[i]) == k {
          SetYieldsMore(configured, ecom, i, k);
        }
      }
      assert ecom[..|ecom|] == ecom;
    }

    /** `bgp_evpn_derive_auto_rt_import`, for a VNI whose list is empty and that is listed nowhere. */
    method DeriveAuto(v: Vni)
      requires Tidy(index) && v !in stale
      requires forall k, w :: Listed(index, k, w) <==> w in vnis && w != v && w !in stale && Yields(vnis[w], k)
      requires stale <= vnis.Keys && forall w :: w in vnis && w != v ==> OneAuto(asn, w, vnis[w].rtl)
      modifies this`vnis, this`index
      ensures Valid() && vnis == old(vnis)[v := Vpn([[AutoRt(asn, v)]], false)]
    {
      hide Tidy, Listed, Yields;
      var rtl := AddSorted(cmp, [], [AutoRt(asn, v)]);
      assert rtl == [[AutoRt(asn, v)]];
      vnis := vnis[v := Vpn(rtl, false)];
      MapVni(v, vnis[v]);
    }

    /** `bgp_evpn_new`; the caller has looked the VNI up before. */
    method New(v: Vni)
      requires Valid() && v !in vnis
      modifies this`vnis, this`index
      ensures Valid() && vnis == old(vnis)[v := Vpn([[AutoRt(asn, v)]], false)]
      ensures old(Exact(vnis, index)) ==> Exact(vnis, index)
    {
      hide Tidy, Listed, Yields, OneAuto, Exact;
      ExactIff(vnis, index, stale);
      DeriveAuto(v);
      ExactIff(vnis, index, stale);
    }

    /** `bgp_evpn_free`. */
    method Free(v: Vni)
      requires Valid() && v in vnis
      modifies this
      ensures Valid() && vnis == old(vnis) - {v} && stale == old(stale) - {v}
      ensures forall k :: !Listed(index, k, v)
      ensures old(Exact(vnis, index)) ==> Exact(vnis, index)
    {
      hide Tidy, Listed, Yields, OneAuto, Exact;
      ExactIff(vnis, index, stale);
      UnmapVni(v, vnis[v]);
      vnis := vnis - {v};
      stale := stale - {v};
      ExactIff(vnis, index, stale);
    }

    /** `bgp_evpn_configure_import_rt`. */
    method ConfigureImport(v: Vni, ecom: Ecom)
      requires Valid() && v in vnis
      modifies this
      ensures Valid() && stale == old(stale) - {v}
      ensures vnis == old(vnis)[v := Vpn(AddSort(cmp, DeleteAuto(old(vnis)[v].rtl, AutoRt(asn, v)), ecom), true)]
      ensures old(Exact(vnis, index)) ==> Exact(vnis, index)
    {
      hide Tidy, Listed, Yields, AddSort, DeleteAuto, AutoRt, Exact;
      ExactIff(vnis, index, stale);
      var auto := AutoRt(asn, v);
      UnmapVni(v, vnis[v]);
      DeleteAutoLast(vnis[v].rtl, auto);
      var rtl := RtDeleteAuto(vnis[v].rtl, auto);
      AddSortOne(cmp, rtl, ecom, auto);
      rtl := AddSorted(cmp, rtl, ecom);
      vnis := vnis[v := Vpn(rtl, true)];
      stale := stale - {v};
      MapVni(v, vnis[v]);
      ExactIff(vnis, index, stale);
    }

    /** `bgp_evpn_unconfigure_import_rt` without an argument: back to the automatic route target. */
    method UnconfigureAll(v: Vni)
      requires Valid() && v in vnis
      modifies this
      ensures Valid() && stale == old(stale) - {v}
      ensures vnis == old(vnis)[v := Vpn([[AutoRt(asn, v)]], false)]
      ensures old(Exact(vnis, index)) ==> Exact(vnis, index)
    {
      hide Tidy, Listed, Yields, OneAuto, AutoRt, Exact;
      ExactIff(vnis, index, stale);
      UnmapVni(v, vnis[v]);
      vnis := vnis[v := Vpn([], false)];
      stale := stale - {v};
      DeriveAuto(v);
      ExactIff(vnis, index, stale);
    }

    /**
      `bgp_evpn_unconfigure_import_rt` for one set.  The index follows only when
      the list has become empty: an exact index stays exact if and only if no
      set is left or the sets left hold no route target.
     */
    method UnconfigureOne(v: Vni, ecom: Ecom)
      requires Valid() && v in vnis
      modifies this
      ensures Valid()
      ensures
        var rest := DeleteFirst(old(vnis)[v].rtl, ecom);
        if rest == [] then vnis == old(vnis)[v := Vpn([[AutoRt(asn, v)]], false)] && stale == old(stale) - {v}
        else vnis == old(vnis)[v := old(vnis)[v].(rtl := rest)] && stale == old(stale) + {v}
      ensures
        var vpn := old(vnis)[v];
        var rest := DeleteFirst(vpn.rtl, ecom);
        old(Exact(vnis, index)) ==> (Exact(vnis, index) <==> rest == [] || forall k :: !ListYields(vpn.configured, rest, k))
    {
      hide Tidy, Listed, AutoRt, DeleteFirst, ListYields, Exact;
      ExactIff(vnis, index, stale);
      UnmapVni(v, vnis[v]);
      DeleteFirstKeeps(vnis[v].rtl, ecom, AutoRt(asn, v));
      var rtl := RtDeleteFirst(vnis[v].rtl, ecom);
      vnis := vnis[v := vnis[v].(rtl := rtl)];
      if rtl == [] {
        stale := stale - {v};
        DeriveAuto(v);
        ExactIff(vnis, index, stale);
      } else {
        stale := stale + {v};
        LeftOutExact(vnis, index, stale, v);
      }
    }
  }

  /** From an empty instance: two sets configured for a new VNI, one of them removed, and the index has lost the VNI. */
  method RemovingOneLosesVni(cmp: (Ecom, Ecom) -> int) returns (e: Evpn)
    ensures fresh(e) && e.Valid() && !Exact(e.vnis, e.index)
  {
    var a: Rt, b: Rt := [0, 2, 0, 1, 0, 0, 0, 1], [0, 2, 0, 1, 0, 0, 0, 2];
    e := new Evpn(65000, cmp);
    NothingExact(e);
    e.New(7);
    e.ConfigureImport(7, [a]);
    e.ConfigureImport(7, [b]);
    ghost var rtl := e.vnis[7].rtl;
    assert AutoRt(65000, 7)[2] == 253 && a[2] == 0 && b[2] == 0 && a[7] == 1 && b[7] == 2;
    TwoConfigured(cmp, AutoRt(65000, 7), a, b);
    e.UnconfigureOne(7, [a]);
    ghost var rest := DeleteFirst(rtl, [a]);
    assert rest == [[b]];
    assert SetYields(true, rest[0], b) by {
      assert KeyOf(true, [b][0]) == b;
    }
    assert ListYields(true, rest, b);
  }

  lemma {:induction false} NothingExact(e: Evpn)
    requires e.Valid() && e.vnis == map[]
    ensures Exact(e.vnis, e.index)
  {
    hide Tidy;
  }

  /** The import list after both sets are configured, without the first one. */
  lemma {:induction false} TwoConfigured(cmp: (Ecom, Ecom) -> int, auto: Rt, a: Rt, b: Rt)
    requires auto != a && auto != b && a != b
    ensures
      var one := AddSort(cmp, DeleteAuto([[auto]], auto), [a]);
      var two := AddSort(cmp, DeleteAuto(one, auto), [b]);
      DeleteFirst(two, [a]) == [[b]]
  {
    AutoGone(auto, a);
    assert AddSort(cmp, [], [a]) == [[a]];
    AddTwo(cmp, a, b);
    hide DeleteAuto, AddSort;
    DropOne(a, b);
  }

  lemma {:induction false} AutoGone(auto: Rt, a: Rt)
    requires auto != a
    ensures DeleteAuto([[auto]], auto) == [] && DeleteAuto([[a]], auto) == [[a]]
  {
    assert [[auto]][..0] == [] && [[a]][..0] == [];
    assert DeleteAuto([], auto) == [];
  }

  lemma {:induction false} AddTwo(cmp: (Ecom, Ecom) -> int, a: Rt, b: Rt)
    ensures AddSort(cmp, [[a]], [b]) == [[b], [a]] || AddSort(cmp, [[a]], [b]) == [[a], [b]]
  {
    assert [[a]][1..] == [] && AddSort(cmp, [], [b]) == [[b]];
  }

  lemma {:induction false} DropOne(a: Rt, b: Rt)
    requires a != b
    ensures DeleteFirst([[a], [b]], [a]) == [[b]] && DeleteFirst([[b], [a]], [a]) == [[b]]
  {
    WithinOne([a], a);
    WithinOne([b], a);
    hide Within;
    assert [[a], [b]][1..] == [[b]] && [[b], [a]][1..] == [[a]] && [[a]][1..] == [];
    assert DeleteFirst([[a]], [a]) == [];
  }
}
