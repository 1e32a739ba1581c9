/**
  What the path operations do to the hops of a path: prepending, removing
  confederation segments, and reconciling AS_PATH with AS4_PATH.
 */
module AsPathLaws {
  import opened Asns
  import opened AsPaths
  import opened AsPathObjects

  // ---------------------------------------------------------------------
  // Prepending

  lemma HopsCons(s: Segment, p: Path)
    ensures Hops([s] + p) == SegmentHops(s) + Hops(p)
  {
    assert ([s] + p)[0] == s && ([s] + p)[1..] == p;
  }

  lemma SequenceHopsConcat(a: seq<Asn>, b: seq<Asn>)
    ensures SegmentHops(Segment(AsSequence, a + b))
         == SegmentHops(Segment(AsSequence, a)) + SegmentHops(Segment(AsSequence, b))
  {
  }

  ghost function Ones(asno: Asn, num: nat): seq<Hop> {
    SegmentHops(Segment(AsSequence, Repeat(asno, num)))
  }

  lemma AddSequenceAccepted(p: Path, asno: Asn, num: nat)
    requires NonEmptySegments(p)
    requires num < AS_SEGMENT_MAX || p == [] || p[0].kind != AsSequence
    ensures Hops(AddAsns(p, asno, AsSequence, num)) == Ones(asno, num) + Hops(p)
  {
    if p != [] && p[0].kind == AsSequence {
      if num == 0 {
        assert Ones(asno, num) == [];
      } else {
        SequenceHopsConcat(Repeat(asno, num), p[0].asns);
        HopsCons(Segment(AsSequence, Repeat(asno, num) + p[0].asns), p[1..]);
        assert p[0] == Segment(AsSequence, p[0].asns);
        assert Ones(asno, num) + (SegmentHops(p[0]) + Hops(p[1..])) == (Ones(asno, num) + SegmentHops(p[0])) + Hops(p[1..]);
      }
    } else {
      HopsCons(Segment(AsSequence, Repeat(asno, num)), p);
    }
  }

  /**
    `aspath_add_seq_n` puts `num` copies in front of the hops, unless it refuses
    a huge prepend onto an existing sequence.
   */
  lemma AddSequenceHops(p: Path, asno: Asn, num: nat)
    requires NonEmptySegments(p)
    ensures Hops(AddAsns(p, asno, AsSequence, num)) == Ones(asno, num) + Hops(p)
      <==> (num < AS_SEGMENT_MAX || p == [] || p[0].kind != AsSequence)
  {
    if num < AS_SEGMENT_MAX || p == [] || p[0].kind != AsSequence {
      AddSequenceAccepted(p, asno, num);
    } else {
      assert |Ones(asno, num) + Hops(p)| == num + |Hops(p)|;
    }
  }

  lemma AddSequenceNormal(p: Path, asno: Asn)
    requires Normal(p)
    ensures Normal(AddAsns(p, asno, AsSequence, 1))
    ensures Hops(AddAsns(p, asno, AsSequence, 1)) == [One(asno)] + Hops(p)
  {
    AddSequenceAccepted(p, asno, 1);
    assert Ones(asno, 1) == [One(asno)];
    var q := AddAsns(p, asno, AsSequence, 1);
    forall i | 0 <= i < |q| - 1
      ensures !Packable(q[i], q[i + 1])
    {
      if p[0].kind == AsSequence {
        assert !Packable(p[i], p[i + 1]);
      } else {
        assert i > 0 ==> !Packable(p[i - 1], p[i]);
      }
    }
  }

  // ---------------------------------------------------------------------
  // Removing confederation segments

  ghost predicate IsConfedHop(h: Hop) {
    h.Confed? || (h.AnyOf? && h.confed)
  }

  ghost function PlainOnly(h: seq<Hop>): seq<Hop> {
    if h == [] then []
    else if IsConfedHop(h[0]) then PlainOnly(h[1..])
    else [h[0]] + PlainOnly(h[1..])
  }

  lemma {:induction false} PlainOnlyConcat(a: seq<Hop>, b: seq<Hop>)
    ensures PlainOnly(a + b) == PlainOnly(a) + PlainOnly(b)
  {
    if a == [] {
      assert a + b == b;
    } else {
      assert (a + b)[0] == a[0] && (a + b)[1..] == a[1..] + b;
      PlainOnlyConcat(a[1..], b);
    }
  }

  lemma {:induction false} PlainOnlyAll(a: seq<Hop>)
    requires forall i :: 0 <= i < |a| ==> !IsConfedHop(a[i])
    ensures PlainOnly(a) == a
  {
    if a != [] {
      PlainOnlyAll(a[1..]);
    }
  }

  /** Section 4.1 of RFC 5065: exactly the confederation hops disappear. */
  lemma {:induction false} DropConfedsHops(p: Path)
    ensures Hops(DropConfeds(p)) == PlainOnly(Hops(p))
    ensures ConfedFree(DropConfeds(p))
  {
    if p != [] {
      DropConfedsHops(p[1..]);
      PlainOnlyConcat(SegmentHops(p[0]), Hops(p[1..]));
      if IsConfed(p[0].kind) {
        assert SegmentHops(p[0])[1..] == [];
      } else {
        PlainOnlyAll(SegmentHops(p[0]));
        HopsCons(p[0], DropConfeds(p[1..]));
      }
    }
  }

  /** Every hop of a confederation-free path is a plain one. */
  lemma {:induction false} ConfedFreeHops(p: Path)
    requires ConfedFree(p)
    ensures forall h :: h in Hops(p) ==> !IsConfedHop(h)
  {
    if p != [] {
      ConfedFreeHops(p[1..]);
      assert forall h :: h in SegmentHops(p[0]) ==> !IsConfedHop(h);
    }
  }

  /** Exactly the paths without confederation segments are left alone. */
  lemma {:induction false} ConfedFreeKept(p: Path)
    ensures DropConfeds(p) == p <==> ConfedFree(p)
    ensures |DropConfeds(p)| <= |p|
  {
    if p != [] {
      ConfedFreeKept(p[1..]);
      assert p == [p[0]] + p[1..];
      assert forall i :: 0 <= i < |p| - 1 ==> p[1..][i] == p[i + 1];
    }
  }

  /** The first segment outside the confederation is an AS_SEQUENCE. */
  ghost predicate FirstPlainIsSequence(p: Path) {
    p != [] && if IsConfed(p[0].kind) then FirstPlainIsSequence(p[1..]) else p[0].kind == AsSequence
  }

  /** Two sequences with nothing but confederation segments between them. */
  ghost predicate ConfedsBetweenSequences(p: Path) {
    p != [] && ((p[0].kind == AsSequence && FirstPlainIsSequence(p[1..])) || ConfedsBetweenSequences(p[1..]))
  }

  lemma {:induction false} DropConfedsHead(p: Path)
    ensures FirstPlainIsSequence(p) <==> (DropConfeds(p) != [] && DropConfeds(p)[0].kind == AsSequence)
  {
    if p != [] {
      DropConfedsHead(p[1..]);
    }
  }

  lemma NormalCons(s: Segment, p: Path)
    ensures Normal([s] + p) <==>
      (&& Normal(p) && s.asns != [] && (IsSet(s.kind) ==> StrictlyIncreasing(s.asns))
       && (p != [] ==> !Packable(s, p[0])))
  {
    var c := [s] + p;
    assert c[1..] == p && c[0] == s;
    if Normal(c) {
      NormalTail(c);
      assert p != [] ==> !Packable(c[0], c[1]);
    } else if Normal(p) {
      forall i | 0 < i < |c| - 1
        ensures !Packable(c[i], c[i + 1])
      {
        assert !Packable(p[i - 1], p[i]);
      }
    }
  }

  /**
    Removing confederation segments keeps a normal path normal exactly when
    they never separate two sequences.
   */
  lemma {:induction false} DropConfedsNormal(p: Path)
    requires Normal(p)
    ensures Normal(DropConfeds(p)) <==> !ConfedsBetweenSequences(p)
  {
    if p != [] {
      NormalTail(p);
      DropConfedsNormal(p[1..]);
      DropConfedsHead(p[1..]);
      NormalCons(p[0], DropConfeds(p[1..]));
    }
  }

  // ---------------------------------------------------------------------
  // Reconciliation

  /** Leading hops until `w` of them are counted; a hop is never divided. */
  ghost function TakeWeight(h: seq<Hop>, w: int): seq<Hop>
    decreases |h|
  {
    if h == [] || w <= 0 then [] else [h[0]] + TakeWeight(h[1..], w - Weight(h[0]))
  }

  lemma {:induction false} TakeWeightFirst(h: seq<Hop>, w: int)
    requires h != [] && h[0].One? && w > 0
    ensures TakeWeight(h, w) == [h[0]] + if w == 1 then [] else TakeWeight(h[1..], w - 1)
  {
  }

  lemma {:induction false} TakeWeightSingles(a: seq<Hop>, b: seq<Hop>, w: int)
    requires forall i :: 0 <= i < |a| ==> a[i].One?
    requires w > 0
    ensures TakeWeight(a + b, w) == if w <= |a| then a[..w] else a + TakeWeight(b, w - |a|)
  {
    hide TakeWeight;
    if a == [] {
      assert a + b == b;
    } else {
      var x, t := a[0], a[1..];
      assert a == [x] + t;
      assert (a + b)[0] == x && (a + b)[1..] == t + b;
      TakeWeightFirst(a + b, w);
      if w > 1 {
        TakeWeightSingles(t, b, w - 1);
        if w <= |a| {
          assert [x] + t[..w - 1] == a[..w];
        } else {
          assert [x] + (t + TakeWeight(b, w - |a|)) == a + TakeWeight(b, w - |a|);
        }
      }
    }
  }

  lemma {:induction false} CutHops(p: Path, hops: int)
    requires NonEmptySegments(p)
    ensures Hops(Cut(p, hops)) == TakeWeight(Hops(p), hops)
    decreases |p|
  {
    if p != [] && hops > 0 {
      var rest := Cut(p[1..], CutLeft(p[0], hops));
      CutHops(p[1..], CutLeft(p[0], hops));
      HopsCons(CutPart(p[0], hops), rest);
      CutFirst(p[0], Hops(p[1..]), hops);
    }
  }

  /** How one segment contributes to the copied hops. */
  lemma CutFirst(seg: Segment, rest: seq<Hop>, hops: int)
    requires hops > 0 && seg.asns != []
    ensures TakeWeight(SegmentHops(seg) + rest, hops)
         == SegmentHops(CutPart(seg, hops)) + TakeWeight(rest, CutLeft(seg, hops))
  {
    var h := SegmentHops(seg);
    if seg.kind == AsSequence {
      TakeWeightSingles(h, rest, hops);
      if hops <= |h| {
        assert SegmentHops(CutPart(seg, hops)) == h[..hops];
      }
    } else {
      assert (h + rest)[0] == h[0] && (h + rest)[1..] == rest;
    }
  }

  lemma {:induction false} CutNonEmpty(p: Path, hops: int)
    requires NonEmptySegments(p)
    ensures NonEmptySegments(Cut(p, hops))
    decreases |p|
  {
    if p != [] && hops > 0 {
      CutNonEmpty(p[1..], CutLeft(p[0], hops));
    }
  }

  /** The hops of a reconciled path: the head of AS_PATH, then all of AS4_PATH. */
  lemma ReconcileHops(path: Path, as4: Path)
    requires NonEmptySegments(path)
    ensures Hops(Reconcile(path, as4)) == TakeWeight(Hops(path), KeptHops(path, as4)) + Hops(as4)
  {
    var w := KeptHops(path, as4);
    if w == 0 {
      assert TakeWeight(Hops(path), 0) + Hops(as4) == Hops(as4);
    } else {
      CutHops(path, w);
      HopsConcat(Cut(path, w), as4);
      NormKeepsHops(Cut(path, w) + as4);
    }
  }

  /** A reconciled path is normal and keeps every AS number AS4_PATH mentions. */
  lemma ReconcileSafe(path: Path, as4: Path)
    requires NonEmptySegments(path) && Normal(as4)
    ensures Normal(Reconcile(path, as4))
    ensures Members(as4) <= Members(Reconcile(path, as4))
  {
    ReconcileHops(path, as4);
    MembersOfHops(as4);
    MembersOfHops(Reconcile(path, as4));
    AllMembersConcat(TakeWeight(Hops(path), KeptHops(path, as4)), Hops(as4));
    if KeptHops(path, as4) > 0 {
      CutNonEmpty(path, KeptHops(path, as4));
      NormIsNormal(Cut(path, KeptHops(path, as4)) + as4);
    }
  }

  /** The merge of a reconciliation always has a head to walk. */
  lemma ReconcileHeadNonEmpty(path: Path, as4: Path)
    requires KeptHops(path, as4) > 0
    ensures Cut(path, KeptHops(path, as4)) != []
  {
    assert path != [];
  }

  /** The cut falls inside a confederation sequence. */
  ghost predicate Straddles(h: seq<Hop>, w: int)
    decreases |h|
  {
    h != [] && w > 0 && (Weight(h[0]) > w || Straddles(h[1..], w - Weight(h[0])))
  }

  lemma {:induction false} TakeWeightTotal(h: seq<Hop>, w: nat)
    requires w <= Total(Weight, h)
    ensures Total(Weight, TakeWeight(h, w)) >= w
    ensures Total(Weight, TakeWeight(h, w)) == w <==> !Straddles(h, w)
  {
    if h != [] && w > 0 {
      var rest := TakeWeight(h[1..], w - Weight(h[0]));
      assert ([h[0]] + rest)[1..] == rest;
      if w >= Weight(h[0]) {
        TakeWeightTotal(h[1..], w - Weight(h[0]));
      }
    }
  }

  /**
    Reconciliation keeps the path length exactly when AS4_PATH is no longer than
    AS_PATH, carries no confederation hops, and the cut does not fall inside a
    confederation sequence.
   */
  lemma ReconcileLength(path: Path, as4: Path)
    requires NonEmptySegments(path)
    ensures AllHops(Reconcile(path, as4)) == AllHops(path)
      <==> (&& PlainHops(as4) <= AllHops(path)
            && ConfedHops(as4) == 0
            && !Straddles(Hops(path), KeptHops(path, as4)))
  {
    var w := KeptHops(path, as4);
    ReconcileHops(path, as4);
    TotalConcat(Weight, TakeWeight(Hops(path), w), Hops(as4));
    TotalWeightSplits(Hops(as4));
    TotalWeightSplits(Hops(path));
    TakeWeightTotal(Hops(path), w);
  }

  /** A cut at the weight of a prefix gives back the prefix. */
  lemma {:induction false} TakeWeightExact(a: seq<Hop>, b: seq<Hop>)
    requires forall i :: 0 <= i < |a| ==> Weight(a[i]) > 0
    ensures TakeWeight(a + b, Total(Weight, a)) == a
  {
    if a == [] {
      assert a + b == b;
    } else {
      assert (a + b)[0] == a[0] && (a + b)[1..] == a[1..] + b;
      TakeWeightExact(a[1..], b);
    }
  }
}
