/**
  Transit of any normal path through 2-byte speakers, with confederation
  segments wherever they are.
 */
module As4Exact {
  import opened Asns
  import opened AsPaths
  import opened AsPathObjects
  import opened AsPathLaws
  import opened AsPathWire
  import opened AsPathParse
  import opened AsPathRoundTrip
  import opened AsPathPacking
  import opened As4Transit
  import opened As4Packed
  import opened Options

  /** Confederation segments come before all others. */
  ghost predicate Leads(p: Path) {
    forall i, j :: 0 <= i < j < |p| && IsConfed(p[j].kind) ==> IsConfed(p[i].kind)
  }

  /** The AS numbers in confederation segments. */
  ghost function ConfedMembers(p: Path): set<Asn> {
    set i, x | 0 <= i < |p| && IsConfed(p[i].kind) && x in p[i].asns :: x
  }

  ghost predicate HopsLead(h: seq<Hop>) {
    forall i, j :: 0 <= i < j < |h| && IsConfedHop(h[j]) ==> IsConfedHop(h[i])
  }

  // ---------------------------------------------------------------------
  // Segments and hops

  lemma {:induction false} SegmentHopKinds(s: Segment)
    requires s.asns != []
    ensures SegmentHops(s) != []
    ensures forall i :: 0 <= i < |SegmentHops(s)| ==> (IsConfedHop(SegmentHops(s)[i]) <==> IsConfed(s.kind))
  {
  }

  lemma {:induction false} PlainTail(p: Path)
    requires NonEmptySegments(p) && forall i :: 0 <= i < |Hops(p)| ==> !IsConfedHop(Hops(p)[i])
    ensures ConfedFree(p)
  {
    if p != [] {
      var h, t := SegmentHops(p[0]), Hops(p[1..]);
      SegmentHopKinds(p[0]);
      hide SegmentHops, IsConfedHop;
      assert forall i :: 0 <= i < |h| ==> h[i] == Hops(p)[i];
      assert forall i :: 0 <= i < |t| ==> t[i] == Hops(p)[|h| + i];
      assert h[0] == Hops(p)[0];
      PlainTail(p[1..]);
      assert forall i :: 0 < i < |p| ==> p[i] == p[1..][i - 1];
    }
  }

  lemma {:induction false} HopsLeadSegments(p: Path)
    requires NonEmptySegments(p) && HopsLead(Hops(p))
    ensures Leads(p)
  {
    if p != [] {
      var h, t := SegmentHops(p[0]), Hops(p[1..]);
      SegmentHopKinds(p[0]);
      hide SegmentHops, IsConfedHop;
      assert h[0] == Hops(p)[0];
      forall i | 0 <= i < |t| ensures t[i] == Hops(p)[|h| + i] {
      }
      if IsConfed(p[0].kind) {
        assert HopsLead(t);
        HopsLeadSegments(p[1..]);
      } else {
        PlainTail(p[1..]);
      }
      assert forall i :: 0 < i < |p| ==> p[i] == p[1..][i - 1];
    }
  }

  lemma {:induction false} PlainOnlyNone(h: seq<Hop>)
    ensures |PlainOnly(h)| <= |h|
    ensures PlainOnly(h) == [] <==> forall i :: 0 <= i < |h| ==> IsConfedHop(h[i])
    ensures forall i :: 0 <= i < |PlainOnly(h)| ==> !IsConfedHop(PlainOnly(h)[i])
  {
    hide IsConfedHop;
    if h != [] {
      PlainOnlyNone(h[1..]);
      assert forall i :: 0 < i < |h| ==> h[i] == h[1..][i - 1];
      assert forall i :: 0 <= i < |h| - 1 ==> h[1..][i] == h[i + 1];
    }
  }

  lemma {:induction false} SuffixSame(s: seq<Hop>, h: seq<Hop>, x: seq<Hop>, t: seq<Hop>)
    requires s + h == x + t && |t| <= |h|
    ensures h[|h| - |t|..] == t
  {
    assert h[|h| - |t|..] == (s + h)[|s| + |h| - |t|..];
    assert (x + t)[|x|..] == t;
  }

  /** A sequence of hops that ends with all its plain ones has the confederation hops in front. */
  lemma {:induction false} SuffixPlain(s: seq<Hop>, h: seq<Hop>, x: seq<Hop>)
    requires s + h == x + PlainOnly(h)
    ensures HopsLead(h)
  {
    hide IsConfedHop, PlainOnly;
    var plain := PlainOnly(h);
    PlainOnlyNone(h);
    var k := |h| - |plain|;
    SuffixSame(s, h, x, plain);
    PlainBehind(h, k);
  }

  lemma {:induction false} PlainBehind(h: seq<Hop>, k: nat)
    requires k <= |h| && h[k..] == PlainOnly(h)
    ensures HopsLead(h)
  {
    hide IsConfedHop, PlainOnly;
    var a, b := h[..k], h[k..];
    assert h == a + b;
    PlainOnlyNone(h);
    PlainOnlyConcat(a, b);
    PlainOnlyAll(b);
    assert PlainOnly(a) == [];
    PlainOnlyNone(a);
    ConfedsBefore(a, b);
  }

  lemma {:induction false} ConfedsBefore(a: seq<Hop>, b: seq<Hop>)
    requires forall i :: 0 <= i < |a| ==> IsConfedHop(a[i])
    requires forall i :: 0 <= i < |b| ==> !IsConfedHop(b[i])
    ensures HopsLead(a + b)
  {
    hide IsConfedHop;
    var h := a + b;
    forall m | 0 <= m < |h| ensures IsConfedHop(h[m]) <==> m < |a| {
      assert h[m] == if m < |a| then a[m] else b[m - |a|];
    }
  }

  // ---------------------------------------------------------------------
  // What arrives

  lemma {:induction false} DropConfedsParts(p: Path)
    requires NonEmptySegments(p) && WireFits(p)
    ensures NonEmptySegments(DropConfeds(p)) && WireFits(DropConfeds(p))
  {
    if p != [] {
      assert NonEmptySegments(p[1..]) && WireFits(p[1..]);
      DropConfedsParts(p[1..]);
    }
  }

  /** The AS4_PATH that a path with a large number is sent with arrives with its plain hops. */
  lemma {:induction false} As4PathArrives(p: Path) returns (g: Path)
    requires Normal(p) && HopsFit(Hops(p)) && !PacksTwo(DropConfeds(p))
    ensures ParsePath(PutBytes(DropConfeds(p), true), true) == Some(g)
    ensures Normal(g) && Hops(g) == PlainOnly(Hops(p))
  {
    hide ParsePath, PutBytes, PacksTwo, HopsFit, NarrowHops, Hops, PlainOnly;
    HopsFitWire(p);
    NormalNonEmpty(p);
    DropConfedsParts(p);
    hide DropConfeds, WireFits, Normal;
    HopsReadBack(DropConfeds(p), true);
    NarrowHopsWide(Hops(DropConfeds(p)));
    DropConfedsHops(p);
    g := ReadBack(DropConfeds(p), true).value;
  }

  lemma {:induction false} FitsBehind(xs: seq<Asn>, h: seq<Hop>)
    requires HopsFit(Singles(xs) + h)
    ensures HopsFit(h)
  {
    HopsFitSuffix(Singles(xs) + h, |xs|);
    assert (Singles(xs) + h)[|xs|..] == h;
  }

  /** A path whose confederation segments do not lead does not survive once AS4_PATH is needed. */
  lemma {:induction false} ScatteredLost(p: Path, xs: seq<Asn>)
    requires Normal(p) && HoldsLarge(p) && !PacksTwo(DropConfeds(p))
    requires forall i :: 0 <= i < |xs| ==> xs[i] <= BGP_AS_MAX
    requires HopsFit(Singles(xs) + Hops(p))
    requires Transit(p, xs) == Some(Norm(Prefixed(xs, p)))
    ensures Leads(p)
  {
    hide ParsePath, PutBytes, PacksTwo, HopsFit, NarrowHops, Hops, PlainOnly, DropConfeds, Normal, HoldsLarge, Reconcile, Singles, TakeWeight, Norm, Leads, NonEmptySegments;
    FitsBehind(xs, Hops(p));
    var u, a := RelayHops(p, xs);
    var g := As4PathArrives(p);
    NormalNonEmpty(p);
    NormalNonEmpty(a);
    NormalNonEmpty(g);
    var r := Reconcile(a, g);
    assert Transit(p, xs) == Some(r);
    ReconcileHops(a, g);
    PrefixedHops(xs, p);
    NormKeepsHops(Prefixed(xs, p));
    SuffixPlain(Singles(xs), Hops(p), TakeWeight(Hops(a), KeptHops(a, g)));
    HopsLeadSegments(p);
  }

  /** How many leading segments are confederation segments. */
  ghost function Leading(p: Path): (n: nat)
    ensures n <= |p|
    ensures forall i :: 0 <= i < n ==> IsConfed(p[i].kind)
    ensures n < |p| ==> !IsConfed(p[n].kind)
  {
    if p == [] || !IsConfed(p[0].kind) then 0 else 1 + Leading(p[1..])
  }

  /** In a leading arrangement the confederation segments are the first ones. */
  lemma {:induction false} LeadsBefore(p: Path, i: nat)
    requires Leads(p) && i < |p|
    ensures IsConfed(p[i].kind) <==> i < Leading(p)
  {
    hide Leading;
  }

  lemma {:induction false} LeadingCut(p: Path, n: nat)
    requires n <= |p|
    requires forall i :: 0 <= i < |p| ==> (IsConfed(p[i].kind) <==> i < n)
    ensures LeadingConfeds(p[..n], p[n..])
  {
    var q := p[n..];
    forall i | 0 <= i < |q| ensures !IsConfed(q[i].kind) {
      assert q[i] == p[n + i];
    }
  }

  lemma {:induction false} LeadsSplit(p: Path)
    requires Leads(p)
    ensures
      var n := Leading(p);
      && p == p[..n] + p[n..] && LeadingConfeds(p[..n], p[n..])
      && Members(p[..n]) == ConfedMembers(p)
  {
    var n := Leading(p);
    forall i: nat | i < |p| ensures IsConfed(p[i].kind) <==> i < n {
      LeadsBefore(p, i);
    }
    hide Leads, Leading, Members, ConfedMembers, LeadingConfeds, IsConfed;
    LeadingCut(p, n);
    ConfedMembersIn(p, n);
  }

  lemma {:induction false} ConfedMembersIn(p: Path, n: nat)
    requires n <= |p|
    requires forall i :: 0 <= i < |p| ==> (IsConfed(p[i].kind) <==> i < n)
    ensures Members(p[..n]) == ConfedMembers(p)
  {
    var c := p[..n];
    forall x | x in ConfedMembers(p) ensures x in Members(c) {
      var i :| 0 <= i < |p| && IsConfed(p[i].kind) && x in p[i].asns;
      assert c[i] == p[i];
    }
    forall x | x in Members(c) ensures x in ConfedMembers(p) {
      var i :| 0 <= i < |c| && x in c[i].asns;
      assert p[i] == c[i];
    }
  }

  /** Without a large number no AS4_PATH is needed and nothing is lost. */
  lemma {:induction false} SmallSurvives(p: Path, xs: seq<Asn>)
    requires Normal(p) && !HoldsLarge(p)
    requires forall i :: 0 <= i < |xs| ==> xs[i] <= BGP_AS_MAX
    requires HopsFit(Singles(xs) + Hops(p))
    ensures Transit(p, xs) == Some(Norm(Prefixed(xs, p)))
  {
    hide ParsePath, PutBytes, HopsFit, NarrowHops, Hops, Normal, HoldsLarge, Singles, Norm, NonEmptySegments;
    var u, a := RelayHops(p, xs);
    SmallHopsKept(p);
    NormalNonEmpty(p);
    PrefixedHops(xs, p);
    NormReaches(Prefixed(xs, p), a);
  }

  // ---------------------------------------------------------------------
  // AS4_PATH with two neighbours packed

  lemma {:induction false} TakeWeightPrefix(h: seq<Hop>, w: int)
    ensures |TakeWeight(h, w)| <= |h| && TakeWeight(h, w) == h[..|TakeWeight(h, w)|]
    decreases |h|
  {
    if h != [] && w > 0 {
      var t := TakeWeight(h[1..], w - Weight(h[0]));
      TakeWeightPrefix(h[1..], w - Weight(h[0]));
      hide Weight;
      assert TakeWeight(h, w) == [h[0]] + t;
      assert h == [h[0]] + h[1..];
    }
  }

  lemma {:induction false} NoConfedWeight(h: seq<Hop>, i: nat)
    requires Total(ConfedWeight, h) == 0 && i < |h| && Weight(h[i]) > 0
    ensures !IsConfedHop(h[i])
  {
    if i > 0 {
      NoConfedWeight(h[1..], i - 1);
    }
  }

  /** What a receiver parsed out of the bytes of a path. */
  lemma {:induction false} RawSegments(d: Path, g: Path) returns (r: Path)
    requires d != [] && NonEmptySegments(d) && ParsePath(PutBytes(d, true), true) == Some(g)
    ensures WireValid(r) && EncodePath(r, true) == PutFrom(d, true) && g == Norm(r) && Hops(r) == Hops(g)
    ensures NonEmptySegments(g)
  {
    hide PutFrom, ParseSegments, EncodePath, Norm, Hops, WireValid;
    var b := PutFrom(d, true);
    assert PutBytes(d, true) == b;
    r := ParseSegments(b, true).value;
    ParsedIsEncoded(b, true);
    NormKeepsHops(r);
    ValidNonEmpty(r);
    NormIsNormal(r);
    NormalNonEmpty(g);
  }

  lemma {:induction false} ValidNonEmpty(r: Path)
    requires WireValid(r)
    ensures NonEmptySegments(r)
  {
  }

  /** AS4_PATH of a path that survives carries no confederation hops. */
  lemma {:induction false} SurvivorPlain(a: Path, g: Path, s: seq<Hop>)
    requires NonEmptySegments(a) && NonEmptySegments(g)
    requires Hops(Reconcile(a, g)) == s && Total(Weight, s) == Total(Weight, Hops(a))
    ensures forall i :: 0 <= i < |Hops(g)| ==> !IsConfedHop(Hops(g)[i])
  {
    hide Reconcile, Hops, Weight, ConfedWeight, IsConfedHop, Straddles, KeptHops;
    ReconcileLength(a, g);
    PositiveWeights(g);
    forall i | 0 <= i < |Hops(g)| ensures !IsConfedHop(Hops(g)[i]) {
      assert Hops(g)[i] in Hops(g);
      NoConfedWeight(Hops(g), i);
    }
  }

  lemma {:induction false} RelayedWeight(xs: seq<Asn>, h: seq<Hop>)
    ensures Total(Weight, Singles(xs) + NarrowHops(h, false)) == Total(Weight, Singles(xs) + h)
  {
    hide Singles, NarrowHops, Weight, Total;
    TotalConcat(Weight, Singles(xs), NarrowHops(h, false));
    TotalConcat(Weight, Singles(xs), h);
    NarrowKeepsWeight(h, false);
  }

  /**
    Hops that come out as a relayed prefix with plain ones behind it, where a
    confederation hop is in the prefix: what stands before the plain ones is small.
   */
  lemma {:induction false} SmallFront(xs: seq<Asn>, h: seq<Hop>, x: seq<Hop>, t: seq<Hop>, c: nat) returns (y: seq<Hop>)
    requires Singles(xs) + h == x + t && |x| <= |xs| + |h|
    requires x == (Singles(xs) + NarrowHops(h, false))[..|x|]
    requires forall i :: 0 <= i < |t| ==> !IsConfedHop(t[i])
    requires c < |h| && IsConfedHop(h[c])
    ensures PlainOnly(h) == y + t && SmallHops(y)
  {
    hide IsConfedHop, PlainOnly, NarrowHop;
    var s, n := Singles(xs), NarrowHops(h, false);
    var z := x + t;
    forall i | |x| <= i < |z| ensures !IsConfedHop(z[i]) {
      assert z[i] == t[i - |x|];
    }
    assert z[|xs| + c] == (s + h)[|xs| + c] == h[c];
    var front := x[|xs|..];
    assert h == (s + h)[|xs|..] == (x + t)[|xs|..] == front + t;
    forall i | 0 <= i < |front| ensures NarrowHop(front[i], false) == front[i] {
      assert front[i] == x[|xs| + i] == (s + n)[|xs| + i] == n[i] == NarrowHop(h[i], false);
      assert front[i] == (front + t)[i] == h[i];
    }
    PlainOnlyConcat(front, t);
    PlainOnlyAll(t);
    PlainOnlySmall(front);
    y := PlainOnly(front);
  }

  lemma {:induction false} PlainOnlySmall(h: seq<Hop>)
    requires SmallHops(h)
    ensures SmallHops(PlainOnly(h))
  {
    hide NarrowHop, IsConfedHop;
    if h != [] {
      PlainOnlySmall(h[1..]);
    }
  }

  /** Packing happens only where confederation segments were removed. */
  lemma {:induction false} PackedHasConfed(p: Path) returns (c: nat)
    requires Normal(p) && PacksTwo(DropConfeds(p))
    ensures c < |Hops(p)| && IsConfedHop(Hops(p)[c])
  {
    hide IsConfedHop, Hops, PacksTwo, DropConfeds;
    NormalPacksNone(p);
    ConfedFreeKept(p);
    if forall i :: 0 <= i < |Hops(p)| ==> !IsConfedHop(Hops(p)[i]) {
      PlainTail(p);
    }
    c :| 0 <= c < |Hops(p)| && IsConfedHop(Hops(p)[c]);
  }

  /** A path whose AS4_PATH packs two neighbours does not survive. */
  lemma {:induction false} PackedLost(p: Path, xs: seq<Asn>)
    requires Normal(p) && HoldsLarge(p) && PacksTwo(DropConfeds(p))
    requires forall i :: 0 <= i < |xs| ==> xs[i] <= BGP_AS_MAX
    requires HopsFit(Singles(xs) + Hops(p))
    ensures Transit(p, xs) != Some(Norm(Prefixed(xs, p)))
  {
    hide ParsePath, PutBytes, PacksTwo, HopsFit, NarrowHops, Hops, PlainOnly, DropConfeds, Normal, HoldsLarge, Reconcile, Singles, TakeWeight, Norm, NonEmptySegments, WireFits, IsConfedHop, SmallHops, EncodePath, PutFrom, KeptHops, Total;
    var d := DropConfeds(p);
    var u, a := RelayHops(p, xs);
    var four := ParsePath(PutBytes(d, true), true);
    if four.Some? && Reconcile(a, four.value) == Norm(Prefixed(xs, p)) {
      var g := four.value;
      FitsBehind(xs, Hops(p));
      HopsFitWire(p);
      NormalNonEmpty(p);
      NormalNonEmpty(a);
      DropConfedsParts(p);
      PutNone(true);
      var r := RawSegments(d, g);
      PrefixedHops(xs, p);
      NormKeepsHops(Prefixed(xs, p));
      RelayedWeight(xs, Hops(p));
      SurvivorPlain(a, g, Singles(xs) + Hops(p));
      ReconcileHops(a, g);
      TakeWeightPrefix(Hops(a), KeptHops(a, g));
      SinglesSize(xs, Hops(p));
      var c := PackedHasConfed(p);
      var y := SmallFront(xs, Hops(p), TakeWeight(Hops(a), KeptHops(a, g)), Hops(g), c);
      DropConfedsHops(p);
      NotAnnounced(d, r, y);
    }
  }

  lemma {:induction false} SinglesSize(xs: seq<Asn>, h: seq<Hop>)
    ensures |Singles(xs) + NarrowHops(h, false)| == |xs| + |h|
  {
  }

  /** Neither shifted nor whole do the hops come out of bytes with two neighbours packed. */
  lemma {:induction false} NotAnnounced(d: Path, r: Path, y: seq<Hop>)
    requires NonEmptySegments(d) && WireFits(d) && WireValid(r) && EncodePath(r, true) == PutFrom(d, true)
    requires Hops(d) == y + Hops(r) && SmallHops(y)
    ensures !PacksTwo(d)
  {
    hide PacksTwo, Hops, EncodePath, PutFrom, WireFits, WireValid, SmallHops, NonEmptySegments, NarrowHops;
    if y == [] {
      assert y + Hops(r) == Hops(r);
      NarrowHopsWide(Hops(d));
      RightHopsAnnounced(d, r, true);
    } else {
      ShiftedAnnounced(d, r, y);
    }
  }

  /**
    AS4 transparency for every normal path: it arrives as the same path behind
    the prepended numbers exactly when it holds no number above 65535, or its
    confederation segments come first and hold none.
   */
  lemma {:induction false} As4TransparencyExact(p: Path, xs: seq<Asn>)
    requires Normal(p)
    requires forall i :: 0 <= i < |xs| ==> xs[i] <= BGP_AS_MAX
    requires HopsFit(Singles(xs) + Hops(p))
    ensures Transit(p, xs) == Some(Norm(Prefixed(xs, p))) <==>
      !HoldsLarge(p) || (Leads(p) && forall x :: x in ConfedMembers(p) ==> x <= BGP_AS_MAX)
  {
    hide Transit, PacksTwo, HopsFit, Hops, Normal, HoldsLarge, Singles, Norm, Leads, LeadingConfeds, ConfedMembers, Members, Prefixed, DropConfeds;
    if !HoldsLarge(p) {
      SmallSurvives(p, xs);
    } else {
      if Transit(p, xs) == Some(Norm(Prefixed(xs, p))) {
        if PacksTwo(DropConfeds(p)) {
          PackedLost(p, xs);
        }
        ScatteredLost(p, xs);
      }
      if Leads(p) {
        LeadsSplit(p);
        As4Transparency(p[..Leading(p)], p[Leading(p)..], xs);
      }
    }
  }
}
