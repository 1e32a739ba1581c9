/**
  The keys and compare functions of the AS path table and the attribute table:
  the compare functions are equivalences, and equal values have equal keys, so
  both tables are maps keyed by them.
 */
module HashKeys {
  import opened Asns
  import opened AsPaths
  import opened AsPathObjects
  import opened AsPathText
  import opened AsPathStrings
  import opened HashTables
  import opened Options

  // ---------------------------------------------------------------------
  // AS paths

  /** A path object with its text, made when it is first needed. */
  class CachedPath {
    const path: AsPath
    var str: Option<string>

    /** The text, if there is one, is that of the segments. */
    ghost predicate Coherent()
      reads this, path
    {
      str.Some? ==> str.value == Print(path.segments)
    }

    constructor (p: Path)
      ensures Coherent() && fresh(path) && path.segments == p
    {
      path := new AsPath(p);
      str := None;
    }

    /** `aspath_str_update`. */
    method StrUpdate()
      modifies this`str
      ensures Coherent() && str.Some?
    {
      var text, size := MakeStr(path.segments);
      str := Some(text);
    }

    /** `aspath_key_make`: the hash of the text that is kept is the hash of the text of the segments. */
    method KeyMake(jhash: string -> nat) returns (key: nat)
      requires Coherent()
      modifies this`str
      ensures Coherent() && key == jhash(Print(path.segments))
    {
      hide Print;
      if str.None? {
        StrUpdate();
      }
      key := jhash(str.value);
    }

    /** `aspath_delete_confed_seq`: the text is made anew when a segment was removed. */
    method DeleteConfeds()
      requires Coherent()
      modifies this`str, path
      ensures Coherent() && path.segments == DropConfeds(old(path.segments))
    {
      hide Print, DropConfeds;
      var n := |path.segments|;
      DropConfedsSize(path.segments);
      path.DeleteConfeds();
      if |path.segments| < n {
        StrUpdate();
      }
    }

    /** `aspath_add_asns`: the text is made anew when segments were added. */
    method AddToLeft(asno: Asn, kind: SegKind, num: nat)
      requires Coherent()
      modifies this`str, path
      ensures Coherent() && path.segments == AddAsns(old(path.segments), asno, kind, num)
    {
      hide Print;
      var kept := |path.segments| > 0 && path.segments[0].kind == kind && (num == 0 || num >= AS_SEGMENT_MAX);
      path.AddToLeft(asno, kind, num);
      if !kept {
        StrUpdate();
      }
    }
  }

  lemma {:induction false} DropConfedsSize(p: Path)
    ensures |DropConfeds(p)| <= |p| && (|DropConfeds(p)| == |p| ==> DropConfeds(p) == p)
  {
    if p != [] {
      DropConfedsSize(p[1..]);
    }
  }

  /** Interned paths are normal, and for these the text tells all paths apart. */
  lemma {:induction false} TextsTellApart(p: Path, q: Path)
    requires Normal(p) && Normal(q)
    ensures Print(p) == Print(q) <==> p == q
  {
    hide Print, ParseText, Normal;
    NormalTextRoundTrip(p);
    NormalTextRoundTrip(q);
  }

  /** The value of a path object whose text is kept up to date. */
  type PathValue = v: (Path, string) | v.1 == Print(v.0) ghost witness ([], Print([]))

  ghost function PathSameFn(): (PathValue, PathValue) -> bool {
    (v: PathValue, u: PathValue) => v.0 == u.0
  }

  ghost function PathKeyFn(jhash: string -> nat): PathValue -> nat {
    (v: PathValue) => jhash(v.1)
  }

  /** The table of such paths is a map keyed by the segments, for any hash function. */
  lemma {:induction false} AsPathTable(jhash: string -> nat)
    ensures Equivalence(PathSameFn()) && Respects(PathKeyFn(jhash), PathSameFn())
  {
    hide Print;
  }

  /** The keys of two normal paths agree under every hash function if and only if the paths are equal. */
  lemma {:induction false} KeysAgreeIff(v: PathValue, u: PathValue)
    requires Normal(v.0) && Normal(u.0)
    ensures (forall jhash :: PathKeyFn(jhash)(v) == PathKeyFn(jhash)(u)) <==> PathSameFn()(v, u)
  {
    hide Print, Normal;
    TextsTellApart(v.0, u.0);
    if v.0 != u.0 {
      var apart := (s: string) => if s == v.1 then 0 else 1;
      assert PathKeyFn(apart)(v) != PathKeyFn(apart)(u);
    }
  }

  /**
    A path changed in place after it was entered: its entry keeps the key of the
    old text, and a lookup stops there only for the new path, and only if the
    hash function takes both texts to one key.
   */
  lemma {:induction false} StaleEntryIff(jhash: string -> nat, was: PathValue, now: PathValue, sought: PathValue)
    ensures Matches(PathKeyFn(jhash), PathSameFn(), Backet(PathKeyFn(jhash)(was), now), sought)
      <==> sought.0 == now.0 && jhash(Print(was.0)) == jhash(Print(now.0))
  {
    hide Print;
  }

  // ---------------------------------------------------------------------
  // Attributes

  /** Identity of an interned structure. */
  type Ref = nat

  datatype SubTlv = SubTlv(kind: int, value: seq<int>)

  datatype Extra = Extra(
    aggregatorAs: int,
    aggregatorAddr: int,
    weight: int,
    tag: int,
    mpNexthopLen: int,
    mpNexthopGlobal: seq<int>,
    mpNexthopLocal: seq<int>,
    mpNexthopGlobalIn: int,
    originatorId: int,
    ecommunity: Option<Ref>,
    cluster: Option<Ref>,
    transit: Option<Ref>,
    encapTunnel: int,
    encapSubtlvs: seq<SubTlv>,
    /** neither compared nor hashed */
    preferGlobal: int,
    mmSeqnum: int)

  datatype AttrValue = AttrValue(
    flag: int,
    origin: int,
    nexthop: int,
    med: int,
    localPref: int,
    rmapChange: int,
    aspath: Option<Ref>,
    community: Option<Ref>,
    extra: Option<Extra>,
    /** neither compared nor hashed */
    ifindex: int,
    refcnt: nat)

  ghost function Tlvs(s: seq<SubTlv>): set<SubTlv> {
    set t | t in s
  }

  /** Is `t` in the list? */
  method Listed(t: SubTlv, s: seq<SubTlv>) returns (b: bool)
    ensures b <==> t in s
  {
    for i := 0 to |s|
      invariant t !in s[..i]
    {
      if s[i] == t {
        return true;
      }
      assert s[..i + 1] == s[..i] + [s[i]];
    }
    assert s[..|s|] == s;
    return false;
  }

  method AllListed(s: seq<SubTlv>, t: seq<SubTlv>) returns (b: bool)
    ensures b <==> Tlvs(s) <= Tlvs(t)
  {
    for i := 0 to |s|
      invariant forall k :: 0 <= k < i ==> s[k] in t
    {
      var here := Listed(s[i], t);
      if !here {
        assert s[i] in Tlvs(s);
        return false;
      }
    }
    return true;
  }

  /** `encap_same`: the lists hold the same sub-TLVs, whatever their order and repetitions. */
  method EncapSame(s: seq<SubTlv>, t: seq<SubTlv>) returns (b: bool)
    ensures b <==> Tlvs(s) == Tlvs(t)
  {
    if |s| == 0 && |t| == 0 {
      return true;
    }
    if |t| == 0 {
      assert s[0] in Tlvs(s);
      return false;
    }
    if |s| == 0 {
      assert t[0] in Tlvs(t);
      return false;
    }
    b := AllListed(s, t);
    if b {
      b := AllListed(t, s);
    }
  }

  ghost predicate ExtraSame(x: Extra, y: Extra) {
    && x.aggregatorAs == y.aggregatorAs && x.aggregatorAddr == y.aggregatorAddr
    && x.weight == y.weight && x.tag == y.tag
    && x.mpNexthopLen == y.mpNexthopLen
    && x.mpNexthopGlobal == y.mpNexthopGlobal && x.mpNexthopLocal == y.mpNexthopLocal
    && x.mpNexthopGlobalIn == y.mpNexthopGlobalIn
    && x.ecommunity == y.ecommunity && x.cluster == y.cluster && x.transit == y.transit
    && x.encapTunnel == y.encapTunnel && Tlvs(x.encapSubtlvs) == Tlvs(y.encapSubtlvs)
    && x.originatorId == y.originatorId
  }

  ghost predicate AttrSame(a: AttrValue, b: AttrValue) {
    && a.flag == b.flag && a.origin == b.origin && a.nexthop == b.nexthop
    && a.aspath == b.aspath && a.community == b.community
    && a.med == b.med && a.localPref == b.localPref && a.rmapChange == b.rmapChange
    && a.extra.Some? == b.extra.Some?
    && (a.extra.Some? ==> ExtraSame(a.extra.value, b.extra.value))
  }

  /** What is left of an attribute without what is never compared, and without the sub-TLVs. */
  ghost function Erased(a: AttrValue): AttrValue {
    a.(ifindex := 0, refcnt := 0,
       extra := if a.extra.None? then None else Some(a.extra.value.(preferGlobal := 0, mmSeqnum := 0, encapSubtlvs := [])))
  }

  /** Two attributes compare equal exactly when they differ in nothing but these and the order of the sub-TLVs. */
  lemma {:induction false} SameIffErased(a: AttrValue, b: AttrValue)
    ensures AttrSame(a, b) <==>
      && Erased(a) == Erased(b)
      && (a.extra.Some? && b.extra.Some? ==> Tlvs(a.extra.value.encapSubtlvs) == Tlvs(b.extra.value.encapSubtlvs))
  {
    hide Tlvs;
  }

  /** `attrhash_cmp`. */
  method AttrCmp(a: AttrValue, b: AttrValue) returns (same: bool)
    ensures same <==> AttrSame(a, b)
  {
    if
      && a.flag == b.flag && a.origin == b.origin && a.nexthop == b.nexthop
      && a.aspath == b.aspath && a.community == b.community
      && a.med == b.med && a.localPref == b.localPref && a.rmapChange == b.rmapChange
    {
      if a.extra.Some? && b.extra.Some? {
        var x, y := a.extra.value, b.extra.value;
        var encap := EncapSame(x.encapSubtlvs, y.encapSubtlvs);
        return
          && x.aggregatorAs == y.aggregatorAs && x.aggregatorAddr == y.aggregatorAddr
          && x.weight == y.weight && x.tag == y.tag
          && x.mpNexthopLen == y.mpNexthopLen
          && x.mpNexthopGlobal == y.mpNexthopGlobal && x.mpNexthopLocal == y.mpNexthopLocal
          && x.mpNexthopGlobalIn == y.mpNexthopGlobalIn
          && x.ecommunity == y.ecommunity && x.cluster == y.cluster && x.transit == y.transit
          && x.encapTunnel == y.encapTunnel && encap
          && x.originatorId == y.originatorId;
      }
      return a.extra.None? && b.extra.None?;
    }
    return false;
  }

  /** Hash functions, and the key of the structure behind a pointer. */
  datatype Hashing = Hashing(word: (int, nat) -> nat, bytes: (seq<int>, nat) -> nat, content: Ref -> int)

  function MixAll(h: Hashing, vals: seq<int>, key: nat): nat {
    if vals == [] then key else MixAll(h, vals[1..], h.word(vals[0], key))
  }

  function MixRef(h: Hashing, r: Option<Ref>, key: nat): nat {
    if r.Some? then h.word(h.content(r.value), key) else key
  }

  /** `attrhash_key_make`; sums are taken modulo 32 bits. */
  function AttrKey(h: Hashing, a: AttrValue): nat {
    var k0 := MixAll(h, [a.origin, a.nexthop, a.med, a.localPref], 0);
    var k1 := (k0 + a.origin + a.nexthop + a.med + a.localPref) % 0x1_0000_0000;
    var k2 :=
      if a.extra.None? then k1
      else
        var x := a.extra.value;
        MixAll(h, [x.aggregatorAs, x.aggregatorAddr, x.weight, x.mpNexthopGlobalIn, x.originatorId, x.tag], k1);
    var k3 := MixRef(h, a.community, MixRef(h, a.aspath, k2));
    if a.extra.None? then k3
    else
      var x := a.extra.value;
      var k4 := MixRef(h, x.transit, MixRef(h, x.cluster, MixRef(h, x.ecommunity, k3)));
      h.bytes(x.mpNexthopLocal, h.bytes(x.mpNexthopGlobal, h.word(x.mpNexthopLen, k4)))
  }

  /** The compare function as the hash table takes it. */
  ghost function AttrSameFn(): (AttrValue, AttrValue) -> bool {
    (a: AttrValue, b: AttrValue) => AttrSame(a, b)
  }

  ghost function AttrKeyFn(h: Hashing): AttrValue -> nat {
    (a: AttrValue) => AttrKey(h, a)
  }

  lemma {:induction false} SameKey(h: Hashing, a: AttrValue, b: AttrValue)
    requires AttrSame(a, b)
    ensures AttrKey(h, a) == AttrKey(h, b)
  {
    hide MixAll, MixRef, Tlvs;
  }

  /** The table of attributes is a map keyed by what `attrhash_cmp` compares, for any hash functions and any contents. */
  lemma {:induction false} AttrTable(h: Hashing)
    ensures Equivalence(AttrSameFn()) && Respects(AttrKeyFn(h), AttrSameFn())
  {
    hide AttrSame, AttrKey;
    forall a, b | AttrSame(a, b) ensures AttrKey(h, a) == AttrKey(h, b) && AttrSame(b, a) {
      SameKey(h, a, b);
      SameSymmetric(a, b);
    }
    forall a ensures AttrSame(a, a) {
      SameReflexive(a);
    }
    forall a, b, c | AttrSame(a, b) && AttrSame(b, c) ensures AttrSame(a, c) {
      SameTransitive(a, b, c);
    }
  }

  lemma {:induction false} SameReflexive(a: AttrValue)
    ensures AttrSame(a, a)
  {
  }

  lemma {:induction false} SameSymmetric(a: AttrValue, b: AttrValue)
    requires AttrSame(a, b)
    ensures AttrSame(b, a)
  {
    hide Tlvs;
  }

  lemma {:induction false} SameTransitive(a: AttrValue, b: AttrValue, c: AttrValue)
    requires AttrSame(a, b) && AttrSame(b, c)
    ensures AttrSame(a, c)
  {
    hide Tlvs;
  }
}
