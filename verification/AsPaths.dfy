/**
  AS_PATH values: segment lists, their normal form, and the sequence of hops a
  segment list stands for.

  The hop sequence is the reference reading of a path.  It forgets exactly what
  normalisation is free to change: where a run of AS_SEQUENCE segments is cut,
  and the order and repetition of AS numbers inside a set.
 */
module AsPaths {
  import opened Asns

  datatype SegKind = AsSet | AsSequence | ConfedSequence | ConfedSet

  datatype Segment = Segment(kind: SegKind, asns: seq<Asn>)

  type Path = seq<Segment>

  predicate IsSet(kind: SegKind) {
    kind == AsSet || kind == ConfedSet
  }

  predicate IsConfed(kind: SegKind) {
    kind == ConfedSequence || kind == ConfedSet
  }

  /** Only AS_SEQUENCE segments may be joined. */
  predicate Packable(x: Segment, y: Segment) {
    x.kind == y.kind == AsSequence
  }

  ghost predicate NonEmptySegments(p: Path) {
    forall i :: 0 <= i < |p| ==> p[i].asns != []
  }

  ghost predicate ConfedFree(p: Path) {
    forall i :: 0 <= i < |p| ==> !IsConfed(p[i].kind)
  }

  /** What every interned path looks like. */
  ghost predicate Normal(p: Path) {
    && NonEmptySegments(p)
    && (forall i :: 0 <= i < |p| && IsSet(p[i].kind) ==> StrictlyIncreasing(p[i].asns))
    && (forall i :: 0 <= i < |p| - 1 ==> !Packable(p[i], p[i + 1]))
  }

  /** The AS numbers a path mentions, in whatever kind of segment. */
  ghost function Members(p: Path): set<Asn> {
    set i, x | 0 <= i < |p| && x in p[i].asns :: x
  }

  // ---------------------------------------------------------------------
  // Normal form

  function CanonSegment(s: Segment): Segment {
    if IsSet(s.kind) then Segment(s.kind, CanonSet(s.asns)) else s
  }

  /** Puts a segment in front of a normalised list, joining two sequences. */
  function Join(h: Segment, t: Path): Path {
    if t != [] && Packable(h, t[0]) then
      [Segment(AsSequence, h.asns + t[0].asns)] + t[1..]
    else
      [h] + t
  }

  function Norm(p: Path): Path {
    if p == [] then [] else Join(CanonSegment(p[0]), Norm(p[1..]))
  }

  lemma NormHead(p: Path)
    requires p != []
    ensures Norm(p) != [] && Norm(p)[0].kind == p[0].kind
  {
  }

  /** Joining two adjacent sequences first changes nothing. */
  lemma NormJoins(a: seq<Asn>, b: seq<Asn>, rest: Path)
    ensures Norm([Segment(AsSequence, a), Segment(AsSequence, b)] + rest)
         == Norm([Segment(AsSequence, a + b)] + rest)
  {
    var x, y, xy := Segment(AsSequence, a), Segment(AsSequence, b), Segment(AsSequence, a + b);
    var t := Norm(rest);
    assert ([x, y] + rest)[1..] == [y] + rest;
    assert ([y] + rest)[1..] == rest;
    assert ([xy] + rest)[1..] == rest;
    assert Norm([x, y] + rest) == Join(x, Join(y, t));
    assert Norm([xy] + rest) == Join(xy, t);
    if t != [] && t[0].kind == AsSequence {
      assert a + (b + t[0].asns) == (a + b) + t[0].asns;
      assert Join(y, t)[1..] == t[1..];
    } else {
      assert Join(y, t)[1..] == t;
    }
  }

  lemma {:induction false} NormIsNormal(p: Path)
    requires NonEmptySegments(p)
    ensures Normal(Norm(p))
  {
    if p != [] {
      NormIsNormal(p[1..]);
    }
  }

  lemma {:induction false} NormalIsFixed(p: Path)
    requires Normal(p)
    ensures Norm(p) == p
  {
    if p != [] {
      assert Normal(p[1..]) by {
        forall i | 0 <= i < |p[1..]| - 1 ensures !Packable(p[1..][i], p[1..][i + 1]) {
          assert !Packable(p[i + 1], p[i + 2]);
        }
      }
      NormalIsFixed(p[1..]);
      if IsSet(p[0].kind) { CanonSetFixed(p[0].asns); }
      assert |p| > 1 ==> !Packable(p[0], p[1]);
    }
  }

  /** The AS numbers of all segments, one after the other. */
  function Flat(p: Path): seq<Asn> {
    if p == [] then [] else p[0].asns + Flat(p[1..])
  }

  lemma {:induction false} FlatConcat(p: Path, q: Path)
    ensures Flat(p + q) == Flat(p) + Flat(q)
  {
    if p == [] {
      assert p + q == q;
    } else {
      assert (p + q)[0] == p[0] && (p + q)[1..] == p[1..] + q;
      FlatConcat(p[1..], q);
    }
  }

  // ---------------------------------------------------------------------
  // Hop sequence

  datatype Hop =
    | One(asn: Asn)
    | AnyOf(confed: bool, members: set<Asn>)
    | Confed(asns: seq<Asn>)

  ghost function SegmentHops(s: Segment): seq<Hop> {
    match s.kind
    case AsSequence => seq(|s.asns|, i requires 0 <= i < |s.asns| => One(s.asns[i]))
    case AsSet => [AnyOf(false, Elems(s.asns))]
    case ConfedSet => [AnyOf(true, Elems(s.asns))]
    case ConfedSequence => [Confed(s.asns)]
  }

  /** The hops of one sequence. */
  ghost function Singles(xs: seq<Asn>): seq<Hop> {
    SegmentHops(Segment(AsSequence, xs))
  }

  ghost function Hops(p: Path): seq<Hop> {
    if p == [] then [] else SegmentHops(p[0]) + Hops(p[1..])
  }

  lemma {:induction false} HopsConcat(p: Path, q: Path)
    ensures Hops(p + q) == Hops(p) + Hops(q)
  {
    if p == [] {
      assert p + q == q;
    } else {
      assert (p + q)[0] == p[0] && (p + q)[1..] == p[1..] + q;
      HopsConcat(p[1..], q);
    }
  }

  lemma HopsJoin(h: Segment, t: Path)
    ensures Hops(Join(h, t)) == SegmentHops(h) + Hops(t)
  {
    if t != [] && Packable(h, t[0]) {
      var j := Segment(AsSequence, h.asns + t[0].asns);
      assert Join(h, t)[1..] == t[1..];
      assert SegmentHops(j) == SegmentHops(h) + SegmentHops(t[0]);
    } else {
      assert Join(h, t)[1..] == t;
    }
  }

  /** Normalisation keeps the hop sequence. */
  lemma {:induction false} NormKeepsHops(p: Path)
    ensures Hops(Norm(p)) == Hops(p)
  {
    if p != [] {
      NormKeepsHops(p[1..]);
      HopsJoin(CanonSegment(p[0]), Norm(p[1..]));
    }
  }

  /** The first hop of a list of non-empty segments tells the kind of its first segment. */
  lemma FirstHop(p: Path)
    requires p != [] && p[0].asns != []
    ensures Hops(p) != [] && Hops(p)[0] == SegmentHops(p[0])[0]
  {
  }

  /** How many leading hops are single AS numbers. */
  ghost function SingleRun(h: seq<Hop>): nat {
    if h == [] || !h[0].One? then 0 else 1 + SingleRun(h[1..])
  }

  lemma {:induction false} SingleRunPrefix(a: seq<Hop>, b: seq<Hop>)
    requires forall i :: 0 <= i < |a| ==> a[i].One?
    requires b != [] ==> !b[0].One?
    ensures SingleRun(a + b) == |a|
  {
    if a == [] {
      assert a + b == b;
    } else {
      assert (a + b)[1..] == a[1..] + b;
      SingleRunPrefix(a[1..], b);
    }
  }

  lemma NormalTail(p: Path)
    requires Normal(p) && p != []
    ensures Normal(p[1..])
    ensures p[0].kind == AsSequence ==> SingleRun(Hops(p)) == |p[0].asns|
  {
    forall i | 0 <= i < |p[1..]| - 1 ensures !Packable(p[1..][i], p[1..][i + 1]) {
      assert !Packable(p[i + 1], p[i + 2]);
    }
    if p[0].kind == AsSequence {
      if p[1..] != [] {
        assert !Packable(p[0], p[1]);
        FirstHop(p[1..]);
      }
      SingleRunPrefix(SegmentHops(p[0]), Hops(p[1..]));
    }
  }

  /** A normal path is determined by its hop sequence. */
  lemma {:induction false} NormalDeterminedByHops(p: Path, q: Path)
    requires Normal(p) && Normal(q)
    requires Hops(p) == Hops(q)
    ensures p == q
  {
    if p == [] || q == [] {
      if p != [] { FirstHop(p); }
      if q != [] { FirstHop(q); }
    } else {
      NormalTail(p);
      NormalTail(q);
      FirstHop(p);
      FirstHop(q);
      assert p[0].kind == q[0].kind;
      var a, b := SegmentHops(p[0]), SegmentHops(q[0]);
      assert |a| == |b|;
      assert a == Hops(p)[..|a|] && b == Hops(q)[..|b|];
      assert p[0].asns == q[0].asns by {
        if IsSet(p[0].kind) {
          StrictlyIncreasingUnique(p[0].asns, q[0].asns);
        } else if p[0].kind == AsSequence {
          forall i | 0 <= i < |p[0].asns|
            ensures p[0].asns[i] == q[0].asns[i]
          {
            assert a[i] == b[i];
          }
        }
      }
      assert Hops(p[1..]) == Hops(p)[|a|..];
      assert Hops(q[1..]) == Hops(q)[|b|..];
      NormalDeterminedByHops(p[1..], q[1..]);
      assert p == [p[0]] + p[1..] && q == [q[0]] + q[1..];
    }
  }

  /**
    Normalisation is canonical: two lists of non-empty segments normalise to
    the same list exactly when they stand for the same hops.
   */
  lemma NormCanonical(p: Path, q: Path)
    requires NonEmptySegments(p) && NonEmptySegments(q)
    ensures Norm(p) == Norm(q) <==> Hops(p) == Hops(q)
  {
    NormKeepsHops(p);
    NormKeepsHops(q);
    if Hops(p) == Hops(q) {
      NormIsNormal(p);
      NormIsNormal(q);
      NormalDeterminedByHops(Norm(p), Norm(q));
    }
  }

  /** A normal path is recovered from any other reading of the same hops. */
  lemma NormReaches(p: Path, q: Path)
    requires NonEmptySegments(p) && Normal(q)
    ensures Norm(p) == q <==> Hops(p) == Hops(q)
  {
    NormalIsFixed(q);
    NormCanonical(p, q);
  }

  /** Normalising twice is normalising once. */
  lemma NormIdempotent(p: Path)
    requires NonEmptySegments(p)
    ensures Norm(Norm(p)) == Norm(p)
  {
    NormIsNormal(p);
    NormalIsFixed(Norm(p));
  }

  // ---------------------------------------------------------------------
  // Counts and membership, read off the hops

  ghost function HopMembers(h: Hop): set<Asn> {
    match h
    case One(a) => {a}
    case AnyOf(_, m) => m
    case Confed(s) => Elems(s)
  }

  ghost function AllMembers(h: seq<Hop>): set<Asn> {
    set i, x | 0 <= i < |h| && x in HopMembers(h[i]) :: x
  }

  lemma AllMembersConcat(a: seq<Hop>, b: seq<Hop>)
    ensures AllMembers(a + b) == AllMembers(a) + AllMembers(b)
  {
    var c := a + b;
    forall x | x in AllMembers(a) ensures x in AllMembers(c) {
      var i :| 0 <= i < |a| && x in HopMembers(a[i]);
      assert c[i] == a[i];
    }
    forall x | x in AllMembers(b) ensures x in AllMembers(c) {
      var i :| 0 <= i < |b| && x in HopMembers(b[i]);
      assert c[|a| + i] == b[i];
    }
  }

  lemma MembersCons(s: Segment, p: Path)
    ensures Members([s] + p) == Elems(s.asns) + Members(p)
  {
    var c := [s] + p;
    forall x | x in Members(p) ensures x in Members(c) {
      var i :| 0 <= i < |p| && x in p[i].asns;
      assert c[i + 1] == p[i];
    }
    forall x | x in Elems(s.asns) ensures x in Members(c) {
      assert c[0] == s;
    }
    forall x | x in Members(c) ensures x in Elems(s.asns) + Members(p) {
      var i :| 0 <= i < |c| && x in c[i].asns;
      assert i > 0 ==> c[i] == p[i - 1];
    }
  }

  lemma SegmentMembers(s: Segment)
    ensures AllMembers(SegmentHops(s)) == Elems(s.asns)
  {
    var h := SegmentHops(s);
    forall x | x in Elems(s.asns) ensures x in AllMembers(h) {
      if s.kind == AsSequence {
        var i :| 0 <= i < |s.asns| && s.asns[i] == x;
        assert x in HopMembers(h[i]);
      } else {
        assert x in HopMembers(h[0]);
      }
    }
  }

  lemma {:induction false} MembersOfHops(p: Path)
    ensures Members(p) == AllMembers(Hops(p))
  {
    if p != [] {
      MembersOfHops(p[1..]);
      MembersCons(p[0], p[1..]);
      assert [p[0]] + p[1..] == p;
      SegmentMembers(p[0]);
      AllMembersConcat(SegmentHops(p[0]), Hops(p[1..]));
    }
  }

  lemma MembersConcat(p: Path, q: Path)
    ensures Members(p + q) == Members(p) + Members(q)
  {
    MembersOfHops(p);
    MembersOfHops(q);
    MembersOfHops(p + q);
    HopsConcat(p, q);
    AllMembersConcat(Hops(p), Hops(q));
  }

  /** Hops that count towards path length outside the confederation. */
  ghost function PlainWeight(h: Hop): nat {
    match h
    case One(_) => 1
    case AnyOf(confed, _) => if confed then 0 else 1
    case Confed(_) => 0
  }

  ghost function ConfedWeight(h: Hop): nat {
    match h
    case One(_) => 0
    case AnyOf(confed, _) => if confed then 1 else 0
    case Confed(s) => |s|
  }

  ghost function Weight(h: Hop): nat {
    PlainWeight(h) + ConfedWeight(h)
  }

  /** Sum of a hop measure over a hop sequence. */
  ghost function Total(f: Hop -> nat, h: seq<Hop>): nat {
    if h == [] then 0 else f(h[0]) + Total(f, h[1..])
  }

  lemma {:induction false} TotalConcat(f: Hop -> nat, a: seq<Hop>, b: seq<Hop>)
    ensures Total(f, a + b) == Total(f, a) + Total(f, b)
  {
    if a == [] {
      assert a + b == b;
    } else {
      assert (a + b)[0] == a[0] && (a + b)[1..] == a[1..] + b;
      TotalConcat(f, a[1..], b);
    }
  }

  lemma {:induction false} TotalOfSingles(f: Hop -> nat, h: seq<Hop>, c: nat)
    requires forall i :: 0 <= i < |h| ==> f(h[i]) == c
    ensures Total(f, h) == c * |h|
  {
    if h != [] {
      TotalOfSingles(f, h[1..], c);
      assert c * |h| == c + c * (|h| - 1);
    }
  }

  lemma {:induction false} TotalWeightSplits(h: seq<Hop>)
    ensures Total(Weight, h) == Total(PlainWeight, h) + Total(ConfedWeight, h)
  {
    if h != [] {
      TotalWeightSplits(h[1..]);
    }
  }

  ghost function SegmentPlain(s: Segment): nat {
    if s.kind == AsSequence then |s.asns| else if s.kind == AsSet then 1 else 0
  }

  ghost function SegmentConfed(s: Segment): nat {
    if s.kind == ConfedSequence then |s.asns| else if s.kind == ConfedSet then 1 else 0
  }

  lemma SegmentTotals(s: Segment)
    ensures Total(PlainWeight, SegmentHops(s)) == SegmentPlain(s)
    ensures Total(ConfedWeight, SegmentHops(s)) == SegmentConfed(s)
  {
    if s.kind == AsSequence {
      TotalOfSingles(PlainWeight, SegmentHops(s), 1);
      TotalOfSingles(ConfedWeight, SegmentHops(s), 0);
    } else {
      assert SegmentHops(s)[1..] == [];
    }
  }

  /** `aspath_count_hops` counts the plain hops of the path's hop sequence. */
  method CountHops(p: Path) returns (count: nat)
    ensures count == Total(PlainWeight, Hops(p))
  {
    count := 0;
    for i := 0 to |p|
      invariant count == Total(PlainWeight, Hops(p[..i]))
    {
      HopsSnoc(p, i);
      TotalConcat(PlainWeight, Hops(p[..i]), SegmentHops(p[i]));
      SegmentTotals(p[i]);
      if p[i].kind == AsSequence {
        count := count + |p[i].asns|;
      } else if p[i].kind == AsSet {
        count := count + 1;
      }
    }
    assert p[..|p|] == p;
  }

  /** `aspath_count_confeds` counts the confederation hops. */
  method CountConfeds(p: Path) returns (count: nat)
    ensures count == Total(ConfedWeight, Hops(p))
  {
    count := 0;
    for i := 0 to |p|
      invariant count == Total(ConfedWeight, Hops(p[..i]))
    {
      HopsSnoc(p, i);
      TotalConcat(ConfedWeight, Hops(p[..i]), SegmentHops(p[i]));
      SegmentTotals(p[i]);
      if p[i].kind == ConfedSequence {
        count := count + |p[i].asns|;
      } else if p[i].kind == ConfedSet {
        count := count + 1;
      }
    }
    assert p[..|p|] == p;
  }

  lemma HopsSnoc(p: Path, i: nat)
    requires i < |p|
    ensures Hops(p[..i + 1]) == Hops(p[..i]) + SegmentHops(p[i])
  {
    assert p[..i + 1] == p[..i] + [p[i]];
    HopsConcat(p[..i], [p[i]]);
    assert [p[i]][1..] == [];
    assert Hops([p[i]]) == SegmentHops(p[i]);
  }

  /** Normalisation keeps hop count, confederation count and AS membership. */
  lemma NormKeepsCounts(p: Path)
    ensures Total(PlainWeight, Hops(Norm(p))) == Total(PlainWeight, Hops(p))
    ensures Total(ConfedWeight, Hops(Norm(p))) == Total(ConfedWeight, Hops(p))
    ensures Members(Norm(p)) == Members(p)
  {
    NormKeepsHops(p);
    MembersOfHops(p);
    MembersOfHops(Norm(p));
  }
}
