/** Path lengths and prepends in figures. */
module AsPathFigures {
  import opened Asns
  import opened AsPaths
  import opened AsPathObjects
  import opened AsPathLaws

  // ---------------------------------------------------------------------
  // Lengths (section 9.1.2.2 of RFC 4271, section 5.3 of RFC 5065)

  /** A sequence counts its numbers, a set counts one; confederation segments count in the same way, but apart. */
  lemma {:induction false} SegmentLength(kind: SegKind, s: seq<Asn>)
    ensures PlainHops([Segment(kind, s)]) == match kind { case AsSequence => |s| case AsSet => 1 case _ => 0 }
    ensures ConfedHops([Segment(kind, s)]) == match kind { case ConfedSequence => |s| case ConfedSet => 1 case _ => 0 }
  {
    var seg := Segment(kind, s);
    HopsCons(seg, []);
    assert [seg] + [] == [seg];
    assert Hops([seg]) == SegmentHops(seg);
    if kind == AsSequence {
      OnesTotal(s);
    } else {
      OneTotal(SegmentHops(seg));
    }
  }

  lemma {:induction false} OneTotal(h: seq<Hop>)
    requires |h| == 1
    ensures Total(PlainWeight, h) == PlainWeight(h[0]) && Total(ConfedWeight, h) == ConfedWeight(h[0])
  {
    assert h[1..] == [];
  }

  lemma {:induction false} OnesTotal(s: seq<Asn>)
    ensures Total(PlainWeight, Singles(s)) == |s| && Total(ConfedWeight, Singles(s)) == 0
  {
    if s != [] {
      OnesTotal(s[1..]);
      assert Singles(s)[1..] == Singles(s[1..]);
    }
  }

  /** The length of a path is that of its parts. */
  lemma {:induction false} LengthsAdd(p: Path, q: Path)
    ensures PlainHops(p + q) == PlainHops(p) + PlainHops(q)
    ensures ConfedHops(p + q) == ConfedHops(p) + ConfedHops(q)
    ensures AllHops(p) == PlainHops(p) + ConfedHops(p)
  {
    hide Hops, PlainWeight, ConfedWeight;
    HopsConcat(p, q);
    TotalConcat(PlainWeight, Hops(p), Hops(q));
    TotalConcat(ConfedWeight, Hops(p), Hops(q));
    TotalWeightSplits(Hops(p));
  }

  // ---------------------------------------------------------------------
  // Reconciliation

  /** How many hops the head of AS_PATH is meant to have: what AS4_PATH is short of, or all plain ones when it is too long. */
  ghost function Wanted(path: Path, as4: Path): nat {
    if PlainHops(as4) <= PlainHops(path) + ConfedHops(path) then PlainHops(path) + ConfedHops(path) - PlainHops(as4) else PlainHops(path)
  }

  /**
    A reconciled path is the shortest front of AS_PATH that has the wanted hops,
    and behind it all of AS4_PATH.
   */
  lemma {:induction false} ReconciledHead(path: Path, as4: Path) returns (n: nat)
    requires NonEmptySegments(path) && NonEmptySegments(as4)
    ensures n <= |Hops(path)| && Hops(Reconcile(path, as4)) == Hops(path)[..n] + Hops(as4)
    ensures Total(Weight, Hops(path)[..n]) >= Wanted(path, as4)
    ensures n > 0 ==> Total(Weight, Hops(path)[..n - 1]) < Wanted(path, as4)
  {
    hide Hops, Weight, PlainWeight, ConfedWeight, Reconcile;
    TotalWeightSplits(Hops(path));
    ReconcileHops(path, as4);
    assert KeptHops(path, as4) == Wanted(path, as4);
    n := ShortestFront(Hops(path), Wanted(path, as4));
  }

  lemma {:induction false} ShortestFront(h: seq<Hop>, w: nat) returns (n: nat)
    requires w <= Total(Weight, h)
    ensures n <= |h| && TakeWeight(h, w) == h[..n]
    ensures Total(Weight, h[..n]) >= w
    ensures n > 0 ==> Total(Weight, h[..n - 1]) < w
    decreases |h|
  {
    hide Weight;
    if h == [] || w == 0 {
      n := 0;
    } else {
      var v := if Weight(h[0]) <= w then w - Weight(h[0]) else 0;
      TakeMore(h[1..], w - Weight(h[0]));
      var k := ShortestFront(h[1..], v);
      n := k + 1;
      assert h[..n] == [h[0]] + h[1..][..k];
      if k > 0 {
        assert h[..n - 1] == [h[0]] + h[1..][..k - 1];
        assert h[..n - 1][1..] == h[1..][..k - 1];
      } else {
        assert h[..0] == [];
      }
      assert h[..n][1..] == h[1..][..k];
    }
  }

  lemma {:induction false} TakeMore(h: seq<Hop>, w: int)
    ensures w <= 0 ==> TakeWeight(h, w) == [] && TakeWeight(h, 0) == []
  {
  }

  /** An AS4_PATH that is too long for a path without confederation segments is put behind all of it. */
  lemma {:induction false} As4TooLong(path: Path, as4: Path)
    requires NonEmptySegments(path) && NonEmptySegments(as4) && ConfedFree(path) && PlainHops(as4) > PlainHops(path)
    ensures Hops(Reconcile(path, as4)) == Hops(path) + Hops(as4)
  {
    hide Hops, Weight, PlainWeight, ConfedWeight, Reconcile;
    var n := ReconciledHead(path, as4);
    PlainPath(path);
    TotalWeightSplits(Hops(path));
    FrontLighter(path, n);
  }

  lemma {:induction false} PlainPath(p: Path)
    requires ConfedFree(p)
    ensures ConfedHops(p) == 0
  {
    if p != [] {
      PlainPath(p[1..]);
      assert p == [p[0]] + p[1..];
      LengthsAdd([p[0]], p[1..]);
      SegmentLength(p[0].kind, p[0].asns);
      assert p[0] == Segment(p[0].kind, p[0].asns);
      assert !IsConfed(p[0].kind);
    } else {
      assert Hops(p) == [];
    }
  }

  /** Every hop of a path of non-empty segments weighs something. */
  lemma {:induction false} FrontLighter(p: Path, n: nat)
    requires NonEmptySegments(p) && n <= |Hops(p)| && Total(Weight, Hops(p)[..n]) >= Total(Weight, Hops(p))
    ensures Hops(p)[..n] == Hops(p)
  {
    hide Hops, Weight;
    var h := Hops(p);
    HopsWeigh(p);
    assert h == h[..n] + h[n..];
    assert forall x :: x in h[n..] ==> x in h;
    Heavier(h[n..]);
    TotalConcat(Weight, h[..n], h[n..]);
  }

  lemma {:induction false} Heavier(t: seq<Hop>)
    requires forall x :: x in t ==> Weight(x) > 0
    ensures t != [] ==> Total(Weight, t) > 0
  {
    hide Weight;
    if t != [] {
      assert t[0] in t;
    }
  }

  lemma {:induction false} HopsWeigh(p: Path)
    requires NonEmptySegments(p)
    ensures forall x :: x in Hops(p) ==> Weight(x) > 0
  {
    if p != [] {
      HopsWeigh(p[1..]);
      assert forall x :: x in SegmentHops(p[0]) ==> Weight(x) > 0;
    }
  }

  // ---------------------------------------------------------------------
  // Prepends

  /**
    Copies of a number go in front of a first segment of the same kind, unless
    there are 255 of them or more; else they are a segment of their own, in the
    place of a first segment that is empty.
   */
  lemma {:induction false} PrependMeans(p: Path, asno: Asn, kind: SegKind, num: nat)
    ensures
      var q := AddAsns(p, asno, kind, num);
      var own := p == [] || p[0].kind != kind;
      var rest := if p != [] && (!own || p[0].asns == []) then p[1..] else p;
      if !own && num >= 255 then q == p
      else
        && |q| == 1 + |rest| && q[1..] == rest && q[0].kind == kind
        && |q[0].asns| == num + (if own then 0 else |p[0].asns|)
        && (forall i :: 0 <= i < num ==> q[0].asns[i] == asno)
        && (!own ==> q[0].asns[num..] == p[0].asns)
  {
    if p != [] && p[0].kind == kind && num == 0 {
      assert Segment(kind, p[0].asns) == p[0];
    }
  }
}
