/**
  4-byte AS paths through 2-byte speakers (sections 4.2.2 and 4.2.3 of RFC 6793):
  a path is announced with large AS numbers replaced by AS_TRANS and, if it has
  any, a copy in AS4_PATH; 2-byte speakers prepend to AS_PATH only; the next
  4-byte speaker reconciles both.
 */
module As4Transit {
  import opened Asns
  import opened AsPaths
  import opened AsPathObjects
  import opened AsPathLaws
  import opened AsPathWire
  import opened AsPathParse
  import opened AsPathRoundTrip
  import opened Options
  import opened Streams

  // ---------------------------------------------------------------------
  // The speakers

  ghost predicate HoldsLarge(p: Path) {
    exists x :: x in Members(p) && x > BGP_AS_MAX
  }

  /** `aspath_has_as4`. */
  method HasAs4(p: Path) returns (b: bool)
    ensures b <==> HoldsLarge(p)
  {
    for k := 0 to |p|
      invariant forall i, j :: 0 <= i < k && 0 <= j < |p[i].asns| ==> p[i].asns[j] <= BGP_AS_MAX
    {
      for j := 0 to |p[k].asns|
        invariant forall i :: 0 <= i < j ==> p[k].asns[i] <= BGP_AS_MAX
      {
        if p[k].asns[j] > BGP_AS_MAX {
          var large := p[k].asns[j];
          assert large in p[k].asns;
          assert large in Members(p);
          return true;
        }
      }
    }
    return false;
  }

  /** The two path attributes of an update on a 2-byte session. */
  datatype Update = Update(asPath: seq<Byte>, as4Path: Option<seq<Byte>>)

  /** The path part of `bgp_packet_attribute` for a 2-byte peer. */
  ghost function Announce(p: Path): Update {
    Update(PutBytes(p, false), if HoldsLarge(p) then Some(PutBytes(DropConfeds(p), true)) else None)
  }

  /** A 2-byte speaker prepends its own number and passes AS4_PATH along untouched. */
  function RelayOne(u: Update, x: Asn): Option<Update> {
    match ParsePath(u.asPath, false)
    case None => None
    case Some(q) => Some(u.(asPath := PutBytes(AddAsns(q, x, AsSequence, 1), false)))
  }

  /** A chain of 2-byte speakers, the last one first. */
  function Relay(u: Update, xs: seq<Asn>): Option<Update> {
    if xs == [] then Some(u)
    else match Relay(u, xs[1..])
      case None => None
      case Some(v) => RelayOne(v, xs[0])
  }

  /** `bgp_attr_aspath`, `bgp_attr_as4_path` and the path part of `bgp_attr_munge_as4_attrs`. */
  ghost function Receive(u: Update): Option<Path> {
    match ParsePath(u.asPath, false)
    case None => None
    case Some(a) =>
      match u.as4Path
      case None => Some(a)
      case Some(b) =>
        match ParsePath(b, true)
        case None => None
        case Some(as4) => Some(Reconcile(a, as4))
  }

  ghost function Transit(p: Path, xs: seq<Asn>): Option<Path> {
    match Relay(Announce(p), xs)
    case None => None
    case Some(u) => Receive(u)
  }

  // ---------------------------------------------------------------------
  // Wire limits, read off the hops

  ghost predicate HopFits(h: Hop) {
    match h
    case One(_) => true
    case AnyOf(_, m) => |m| <= AS_SEGMENT_MAX
    case Confed(s) => |s| <= AS_SEGMENT_MAX
  }

  /** No run of single hops is longer than 510, no set or confed sequence larger than 255. */
  ghost predicate HopsFit(h: seq<Hop>) {
    h == [] || (SingleRun(h) <= 2 * AS_SEGMENT_MAX && HopFits(h[0]) && HopsFit(h[1..]))
  }

  lemma {:induction false} HopsFitSuffix(h: seq<Hop>, k: nat)
    requires HopsFit(h) && k <= |h|
    ensures HopsFit(h[k..])
  {
    if k == 0 {
      assert h[0..] == h;
    } else {
      HopsFitSuffix(h[1..], k - 1);
      assert h[1..][k - 1..] == h[k..];
    }
  }

  lemma {:induction false} IncreasingSize(s: seq<Asn>)
    requires StrictlyIncreasing(s)
    ensures |Elems(s)| == |s|
  {
    if s != [] {
      IncreasingSize(s[1..]);
      ElemsCons(s[0], s[1..]);
      assert [s[0]] + s[1..] == s;
      assert s[0] !in Elems(s[1..]);
    } else {
      assert Elems(s) == {};
    }
  }

  /** A normal path whose hops fit is written and read back faithfully. */
  lemma {:induction false} HopsFitWire(q: Path)
    requires Normal(q) && HopsFit(Hops(q))
    ensures WireFits(q)
  {
    if q != [] {
      var n := |SegmentHops(q[0])|;
      NormalTail(q);
      FirstHop(q);
      HopsFitSuffix(Hops(q), n);
      assert Hops(q)[n..] == Hops(q[1..]);
      HopsFitWire(q[1..]);
      if IsSet(q[0].kind) { IncreasingSize(q[0].asns); }
      forall i | 0 <= i < |q|
        ensures |q[i].asns| <= if q[i].kind == AsSequence then 2 * AS_SEGMENT_MAX else AS_SEGMENT_MAX
      {
        assert i > 0 ==> q[i] == q[1..][i - 1];
      }
    }
  }

  lemma ImageSize(m: set<Asn>, use32bit: bool)
    ensures |set x | x in m :: Narrow(x, use32bit)| <= |m|
  {
    var image := set x | x in m :: Narrow(x, use32bit);
    if m == {} {
      assert image == {};
    } else {
      var a :| a in m;
      var m', image' := m - {a}, set x | x in m - {a} :: Narrow(x, use32bit);
      ImageSize(m', use32bit);
      assert image == image' + {Narrow(a, use32bit)};
    }
  }

  lemma {:induction false} NarrowFits(h: seq<Hop>, use32bit: bool)
    requires HopsFit(h)
    ensures SingleRun(NarrowHops(h, use32bit)) == SingleRun(h)
    ensures HopsFit(NarrowHops(h, use32bit))
  {
    if h != [] {
      NarrowFits(h[1..], use32bit);
      assert NarrowHops(h, use32bit)[1..] == NarrowHops(h[1..], use32bit);
      if h[0].AnyOf? { ImageSize(h[0].members, use32bit); }
    }
  }

  // ---------------------------------------------------------------------
  // Through the relays

  lemma SinglesCons(xs: seq<Asn>, h: seq<Hop>)
    requires xs != []
    ensures (Singles(xs) + h)[0] == One(xs[0])
    ensures (Singles(xs) + h)[1..] == Singles(xs[1..]) + h
    ensures Singles(xs) + h == [One(xs[0])] + (Singles(xs[1..]) + h)
  {
  }

  lemma NarrowSmallHops(xs: seq<Asn>, h: seq<Hop>)
    requires forall i :: 0 <= i < |xs| ==> xs[i] <= BGP_AS_MAX
    ensures NarrowHops(Singles(xs) + NarrowHops(h, false), false) == Singles(xs) + NarrowHops(h, false)
  {
    var a := Singles(xs) + NarrowHops(h, false);
    forall i | 0 <= i < |a|
      ensures NarrowHop(a[i], false) == a[i]
    {
      if i >= |xs| {
        NarrowTwice(h[i - |xs|]);
      }
    }
    assert NarrowHops(a, false) == a;
  }

  lemma NarrowTwice(h: Hop)
    ensures NarrowHop(NarrowHop(h, false), false) == NarrowHop(h, false)
  {
    match h
    case One(_) =>
    case Confed(s) =>
      assert NarrowAsns(NarrowAsns(s, false), false) == NarrowAsns(s, false);
    case AnyOf(_, m) =>
      var n := set x | x in m :: Narrow(x, false);
      assert forall y :: y in n ==> Narrow(y, false) == y;
      assert (set x | x in n :: Narrow(x, false)) == n;
  }

  lemma ReadBackIsParse(p: Path, use32bit: bool)
    requires Normal(p) && WireFits(p)
    ensures ReadBack(p, use32bit) == ParsePath(PutBytes(p, use32bit), use32bit)
  {
    hide ParsePath, PutBytes, PutCount;
    PutCountExact(p, use32bit);
    assert PutBytes(p, use32bit)[..|PutBytes(p, use32bit)|] == PutBytes(p, use32bit);
  }

  /** After the relays, AS_PATH parses to the prepended numbers and the narrowed hops; AS4_PATH is untouched. */
  lemma {:induction false} RelayHops(p: Path, xs: seq<Asn>) returns (u: Update, q: Path)
    requires Normal(p)
    requires forall i :: 0 <= i < |xs| ==> xs[i] <= BGP_AS_MAX
    requires HopsFit(Singles(xs) + Hops(p))
    ensures Relay(Announce(p), xs) == Some(u)
    ensures u.as4Path == Announce(p).as4Path
    ensures ParsePath(u.asPath, false) == Some(q)
    ensures Normal(q) && Hops(q) == Singles(xs) + NarrowHops(Hops(p), false)
    decreases |xs|
  {
    hide ParsePath, PutBytes, Hops, Normal, HopsFit, NarrowHop;
    var narrow := NarrowHops(Hops(p), false);
    if xs == [] {
      assert Singles(xs) + Hops(p) == Hops(p);
      HopsFitWire(p);
      NarrowRoundTrip(p);
      ReadBackIsParse(p, false);
      u := Announce(p);
      q := ParsePath(PutBytes(p, false), false).value;
      assert Singles(xs) + narrow == narrow;
    } else {
      SinglesCons(xs, Hops(p));
      HopsFitSuffix(Singles(xs) + Hops(p), 1);
      var v, r := RelayHops(p, xs[1..]);
      var s := AddAsns(r, xs[0], AsSequence, 1);
      AddSequenceNormal(r, xs[0]);
      SinglesCons(xs, narrow);
      RelayFits(p, xs);
      HopsFitWire(s);
      NarrowRoundTrip(s);
      ReadBackIsParse(s, false);
      NarrowSmallHops(xs, Hops(p));
      u := v.(asPath := PutBytes(s, false));
      q := ParsePath(PutBytes(s, false), false).value;
    }
  }

  lemma RelayFits(p: Path, xs: seq<Asn>)
    requires HopsFit(Singles(xs) + Hops(p))
    ensures HopsFit(Singles(xs) + NarrowHops(Hops(p), false))
  {
    PrefixFits(xs, Hops(p));
  }

  /** Replacing single hops by other single hops does not change the limits. */
  lemma {:induction false} PrefixFits(xs: seq<Asn>, h: seq<Hop>)
    requires HopsFit(Singles(xs) + h)
    ensures SingleRun(Singles(xs) + NarrowHops(h, false)) == SingleRun(Singles(xs) + h)
    ensures HopsFit(Singles(xs) + NarrowHops(h, false))
  {
    if xs == [] {
      assert Singles(xs) + h == h && Singles(xs) + NarrowHops(h, false) == NarrowHops(h, false);
      NarrowFits(h, false);
    } else {
      SinglesCons(xs, h);
      SinglesCons(xs, NarrowHops(h, false));
      PrefixFits(xs[1..], h);
    }
  }

  // ---------------------------------------------------------------------
  // Reconciliation at the far end

  /** Confederation segments first, then segments from outside the confederation. */
  ghost predicate LeadingConfeds(c: Path, q: Path) {
    && (forall i :: 0 <= i < |c| ==> IsConfed(c[i].kind))
    && ConfedFree(q)
  }

  lemma {:induction false} LeadingParts(c: Path, q: Path)
    requires LeadingConfeds(c, q) && Normal(c + q)
    ensures DropConfeds(c + q) == q
    ensures Normal(q) && NonEmptySegments(c)
  {
    if c == [] {
      assert c + q == q;
      ConfedFreeKept(q);
    } else {
      assert (c + q)[0] == c[0] && (c + q)[1..] == c[1..] + q;
      NormalTail(c + q);
      LeadingParts(c[1..], q);
    }
  }

  lemma {:induction false} NarrowKeepsWeight(h: seq<Hop>, use32bit: bool)
    ensures Total(Weight, NarrowHops(h, use32bit)) == Total(Weight, h)
  {
    if h != [] {
      NarrowKeepsWeight(h[1..], use32bit);
      assert NarrowHops(h, use32bit)[1..] == NarrowHops(h[1..], use32bit);
    }
  }

  lemma {:induction false} PlainWeightOnly(h: seq<Hop>)
    requires forall x :: x in h ==> !IsConfedHop(x)
    ensures Total(PlainWeight, h) == Total(Weight, h)
  {
    if h != [] {
      assert h[0] in h;
      PlainWeightOnly(h[1..]);
    }
  }

  lemma {:induction false} PositiveWeights(p: Path)
    requires NonEmptySegments(p)
    ensures forall x :: x in Hops(p) ==> Weight(x) > 0
  {
    if p != [] {
      PositiveWeights(p[1..]);
      assert forall x :: x in SegmentHops(p[0]) ==> Weight(x) > 0;
    }
  }

  lemma NarrowHopsConcat(a: seq<Hop>, b: seq<Hop>, use32bit: bool)
    ensures NarrowHops(a + b, use32bit) == NarrowHops(a, use32bit) + NarrowHops(b, use32bit)
  {
  }

  /** Reconciling the relayed AS_PATH with AS4_PATH: only confederation hops stay narrow. */
  lemma ReconcileRelayed(xs: seq<Asn>, c: Path, q: Path, a: Path)
    requires NonEmptySegments(c) && ConfedFree(q)
    requires NonEmptySegments(a)
    requires Hops(a) == Singles(xs) + NarrowHops(Hops(c + q), false)
    ensures Hops(Reconcile(a, q)) == Singles(xs) + NarrowHops(Hops(c), false) + Hops(q)
  {
    hide Reconcile, SegmentHops, NarrowHops, Hops, TakeWeight, Singles, Weight, PlainWeight, NonEmptySegments, ConfedFree, IsConfedHop;
    var n, m := NarrowHops(Hops(c), false), NarrowHops(Hops(q), false);
    HopsConcat(c, q);
    NarrowHopsConcat(Hops(c), Hops(q), false);
    var head := Singles(xs) + n;
    assert Hops(a) == head + m;
    TotalConcat(Weight, head, m);
    NarrowKeepsWeight(Hops(q), false);
    ConfedFreeHops(q);
    PlainWeightOnly(Hops(q));
    HeadWeights(xs, c);
    TakeWeightExact(head, m);
    ReconcileHops(a, q);
  }

  lemma HeadWeights(xs: seq<Asn>, c: Path)
    requires NonEmptySegments(c)
    ensures var head := Singles(xs) + NarrowHops(Hops(c), false);
            forall i :: 0 <= i < |head| ==> Weight(head[i]) > 0
  {
    PositiveWeights(c);
    var head := Singles(xs) + NarrowHops(Hops(c), false);
    forall i | 0 <= i < |head|
      ensures Weight(head[i]) > 0
    {
      if i >= |xs| {
        var h := Hops(c)[i - |xs|];
        assert h in Hops(c);
        assert head[i] == NarrowHop(h, false);
      }
    }
  }

  /** What arrives: everything in full, except confederation segments of a path that needed AS4_PATH. */
  lemma TransitHops(c: Path, q: Path, xs: seq<Asn>)
    requires LeadingConfeds(c, q) && Normal(c + q)
    requires forall i :: 0 <= i < |xs| ==> xs[i] <= BGP_AS_MAX
    requires HopsFit(Singles(xs) + Hops(c + q))
    ensures Transit(c + q, xs).Some? && Normal(Transit(c + q, xs).value)
    ensures Hops(Transit(c + q, xs).value) ==
      Singles(xs) + (if HoldsLarge(c + q) then NarrowHops(Hops(c), false) else Hops(c)) + Hops(q)
  {
    hide ParsePath, PutBytes, Hops, Normal, HopsFit, NarrowHop, Reconcile, NarrowHops, Singles, HoldsLarge;
    var p := c + q;
    var u, a := RelayHops(p, xs);
    LeadingParts(c, q);
    NormalNonEmpty(a);
    HopsConcat(c, q);
    if HoldsLarge(p) {
      As4Arrives(c, q, xs);
      ReconcileRelayed(xs, c, q, a);
      ReconcileSafe(a, q);
    } else {
      SmallHopsKept(p);
      assert Singles(xs) + (Hops(c) + Hops(q)) == Singles(xs) + Hops(c) + Hops(q);
    }
  }

  lemma NormalNonEmpty(p: Path)
    requires Normal(p)
    ensures NonEmptySegments(p)
  {
  }

  lemma As4Arrives(c: Path, q: Path, xs: seq<Asn>)
    requires LeadingConfeds(c, q) && Normal(q)
    requires HopsFit(Singles(xs) + Hops(c + q))
    ensures ParsePath(PutBytes(q, true), true) == Some(q)
  {
    hide ParsePath, PutBytes, ReadBack;
    HopsConcat(c, q);
    var h, k := Singles(xs) + Hops(c + q), |xs| + |Hops(c)|;
    HopsFitSuffix(h, k);
    assert h[k..] == Hops(q);
    HopsFitWire(q);
    WireRoundTrip(q);
    ReadBackIsParse(q, true);
  }

  lemma NarrowFixed(h: seq<Hop>)
    ensures NarrowHops(h, false) == h <==> forall x :: x in AllMembers(h) ==> x <= BGP_AS_MAX
  {
    var n := NarrowHops(h, false);
    if forall x :: x in AllMembers(h) ==> x <= BGP_AS_MAX {
      forall i | 0 <= i < |h|
        ensures n[i] == h[i]
      {
        assert forall x :: x in HopMembers(h[i]) ==> x in AllMembers(h);
        NarrowHopFixed(h[i]);
      }
    } else {
      var x :| x in AllMembers(h) && x > BGP_AS_MAX;
      var i :| 0 <= i < |h| && x in HopMembers(h[i]);
      NarrowHopFixed(h[i]);
      assert n[i] != h[i];
    }
  }

  lemma NarrowHopFixed(h: Hop)
    ensures NarrowHop(h, false) == h <==> forall x :: x in HopMembers(h) ==> x <= BGP_AS_MAX
  {
    match h
    case One(a) =>
      assert a in HopMembers(h);
    case AnyOf(_, m) =>
      var n := set x | x in m :: Narrow(x, false);
      assert NarrowHop(h, false).members == n;
      assert forall y :: y in n ==> y <= BGP_AS_MAX;
      if forall x :: x in m ==> x <= BGP_AS_MAX {
        assert n == m;
      } else {
        var x :| x in m && x > BGP_AS_MAX;
        assert x !in n && x in HopMembers(h);
      }
    case Confed(s) =>
      var n := NarrowAsns(s, false);
      if forall x :: x in Elems(s) ==> x <= BGP_AS_MAX {
        assert forall i :: 0 <= i < |s| ==> s[i] in Elems(s);
        assert n == s;
      } else {
        var x :| x in Elems(s) && x > BGP_AS_MAX;
        var i :| 0 <= i < |s| && s[i] == x;
        assert n[i] != s[i] && x in HopMembers(h);
      }
  }

  lemma SmallHopsKept(p: Path)
    requires !HoldsLarge(p)
    ensures NarrowHops(Hops(p), false) == Hops(p)
  {
    MembersOfHops(p);
    NarrowFixed(Hops(p));
  }

  ghost function Prefixed(xs: seq<Asn>, p: Path): Path {
    if xs == [] then p else [Segment(AsSequence, xs)] + p
  }

  lemma PrefixedHops(xs: seq<Asn>, p: Path)
    requires NonEmptySegments(p)
    ensures NonEmptySegments(Prefixed(xs, p))
    ensures Hops(Prefixed(xs, p)) == Singles(xs) + Hops(p)
  {
    HopsCons(Segment(AsSequence, xs), p);
  }

  /**
    AS4 transparency.  A normal path with leading confederation segments `c`
    arrives as the same path behind the prepended numbers exactly when no
    confederation segment holds an AS number above 65535.
   */
  lemma As4Transparency(c: Path, q: Path, xs: seq<Asn>)
    requires LeadingConfeds(c, q) && Normal(c + q)
    requires forall i :: 0 <= i < |xs| ==> xs[i] <= BGP_AS_MAX
    requires HopsFit(Singles(xs) + Hops(c + q))
    ensures Transit(c + q, xs) == Some(Norm(Prefixed(xs, c + q)))
      <==> forall x :: x in Members(c) ==> x <= BGP_AS_MAX
  {
    hide Transit, Hops, Normal, Norm, HopsFit, NarrowHops, Singles, AllMembers;
    TransitHops(c, q, xs);
    var r := Transit(c + q, xs).value;
    HopsConcat(c, q);
    NormalNonEmpty(c + q);
    PrefixedHops(xs, c + q);
    NormReaches(Prefixed(xs, c + q), r);
    MembersOfHops(c);
    MembersConcat(c, q);
    NarrowFixed(Hops(c));
    var s, k := Singles(xs), if HoldsLarge(c + q) then NarrowHops(Hops(c), false) else Hops(c);
    assert s + (Hops(c) + Hops(q)) == s + Hops(c) + Hops(q);
    if s + k + Hops(q) == s + Hops(c) + Hops(q) {
      MiddleEqual(s, k, Hops(c), Hops(q));
    }
  }

  lemma MiddleEqual<T>(a: seq<T>, b: seq<T>, b': seq<T>, c: seq<T>)
    requires a + b + c == a + b' + c
    ensures b == b'
  {
    assert |b| == |b'|;
    assert b == (a + b + c)[|a|..|a| + |b|];
    assert b' == (a + b' + c)[|a|..|a| + |b'|];
  }

  /** The headline: a path without confederation segments survives transit through 2-byte speakers. */
  lemma As4TransparencyPlain(p: Path, xs: seq<Asn>)
    requires Normal(p) && ConfedFree(p)
    requires forall i :: 0 <= i < |xs| ==> xs[i] <= BGP_AS_MAX
    requires HopsFit(Singles(xs) + Hops(p))
    ensures Transit(p, xs) == Some(Norm(Prefixed(xs, p)))
  {
    hide Transit, Norm, HopsFit, Singles, Normal;
    assert [] + p == p;
    As4Transparency([], p, xs);
  }

  /** A large AS number inside a confederation segment arrives as AS_TRANS. */
  lemma ConfedNumberLost()
    ensures var c := [Segment(ConfedSequence, [70000])];
            Transit(c, []) != Some(c)
  {
    var c: Path := [Segment(ConfedSequence, [70000])];
    assert c + [] == c;
    assert 70000 in c[0].asns;
    assert 70000 in Members(c);
    HopsCons(c[0], []);
    var h := Hops(c);
    assert h == [Confed([70000])];
    assert Singles([]) + h == h;
    assert h[1..] == [];
    As4Transparency(c, [], []);
    NormalIsFixed(c);
  }
}
