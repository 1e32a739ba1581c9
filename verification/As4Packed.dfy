/**
  AS4_PATH written with two neighbours packed.  The receiver takes the first AS
  number it was not told of for the header of a segment, so that number is large;
  but what precedes the hops read must have come through AS_PATH and be small.
 */
module As4Packed {
  import opened Asns
  import opened AsPaths
  import opened AsPathObjects
  import opened AsPathLaws
  import opened AsPathWire
  import opened AsPathParse
  import opened AsPathRoundTrip
  import opened AsPathPacking
  import opened As4Transit
  import opened Options
  import opened Streams

  // ---------------------------------------------------------------------
  // Hops that are the same to a 2-byte speaker

  ghost predicate SmallHops(h: seq<Hop>) {
    forall i :: 0 <= i < |h| ==> NarrowHop(h[i], false) == h[i]
  }

  /** Shifting hops by small ones makes everything small up to the shift of `f`. */
  lemma {:induction false} Periodic(f: seq<Hop>, u: seq<Hop>, v: seq<Hop>, y: seq<Hop>, j: nat)
    requires f + u == y + (f + v) && y != [] && SmallHops(y) && j < |f| + |y|
    ensures j < |f + u| && NarrowHop((f + u)[j], false) == (f + u)[j]
    decreases j
  {
    hide NarrowHop;
    assert |f + u| == |y| + (|f| + |v|);
    var w := f + u;
    if j < |y| {
      assert w[j] == (y + (f + v))[j] == y[j];
    } else {
      var i := j - |y|;
      Periodic(f, u, v, y, i);
      assert w[j] == (y + (f + v))[j] == (f + v)[i] == f[i] == w[i];
    }
  }

  /** A common front can be taken off: the shift stays as long, and small. */
  lemma {:induction false} ShiftRest(f: seq<Hop>, u: seq<Hop>, v: seq<Hop>, y: seq<Hop>) returns (z: seq<Hop>)
    requires f + u == y + (f + v) && y != [] && SmallHops(y)
    ensures u == z + v && z != [] && SmallHops(z)
  {
    hide NarrowHop;
    assert |f + u| == |y| + (|f| + |v|);
    z := u[..|y|];
    assert u[|y|..] == (f + u)[|f| + |y|..] == (y + (f + v))[|y| + |f|..] == v;
    forall i | 0 <= i < |z| ensures NarrowHop(z[i], false) == z[i] {
      Periodic(f, u, v, y, |f| + i);
      assert z[i] == (f + u)[|f| + i];
    }
  }

  // ---------------------------------------------------------------------
  // Bytes that start with the encoding of segments

  lemma {:induction false} SegmentRead(w: Segment, s: Segment, x: seq<Byte>, y: seq<Byte>)
    requires 1 <= |w.asns| <= AS_SEGMENT_MAX && 1 <= |s.asns| <= AS_SEGMENT_MAX
    requires EncodeSegment(w.kind, |w.asns|, w.asns, true) + x == EncodeSegment(s.kind, |s.asns|, s.asns, true) + y
    ensures w == s && x == y
  {
    hide EncodeSegment, ParseOne, NarrowSegment;
    var a, b := EncodeSegment(w.kind, |w.asns|, w.asns, true), EncodeSegment(s.kind, |s.asns|, s.asns, true);
    ParseOneEncoded(w, x, true);
    ParseOneEncoded(s, y, true);
    WideSegment(w);
    WideSegment(s);
    assert (a + x)[|a|..] == x && (b + y)[|b|..] == y;
  }

  lemma {:induction false} WideSegment(s: Segment)
    ensures NarrowSegment(s, true) == s
  {
    assert NarrowAsns(s.asns, true) == s.asns;
  }

  lemma {:induction false} EncodeCons(w: Path)
    requires WireValid(w)
    ensures EncodePath(w, true) == [] <==> w == []
    ensures w != [] ==>
      && WireValid(w[1..]) && 1 <= |w[0].asns| <= AS_SEGMENT_MAX
      && EncodePath(w, true) == EncodeSegment(w[0].kind, |w[0].asns|, w[0].asns, true) + EncodePath(w[1..], true)
  {
    hide EncodeSegment;
  }

  /** Whatever segments have these bytes start with those encoded first. */
  lemma {:induction false} EncodePrefix(w: Path, r: Path, b: seq<Byte>)
    requires WireValid(w) && WireValid(r) && EncodePath(r, true) == EncodePath(w, true) + b
    ensures |w| <= |r| && r == w + r[|w|..]
    ensures WireValid(r[|w|..]) && EncodePath(r[|w|..], true) == b
  {
    hide EncodeSegment, EncodePath, WireValid;
    EncodeCons(w);
    EncodeCons(r);
    if w == [] {
      assert EncodePath(w, true) + b == b;
      assert r[0..] == r;
    } else {
      var h, t := EncodeSegment(w[0].kind, |w[0].asns|, w[0].asns, true), EncodePath(w[1..], true);
      assert h + t + b == h + (t + b);
      SegmentRead(w[0], r[0], t + b, EncodePath(r[1..], true));
      EncodePrefix(w[1..], r[1..], b);
      ConsPrefix(w, r);
    }
  }

  lemma {:induction false} ConsPrefix(w: Path, r: Path)
    requires w != [] && r != [] && w[0] == r[0]
    requires |w[1..]| <= |r[1..]| && r[1..] == w[1..] + r[1..][|w[1..]|..]
    ensures |w| <= |r| && r == w + r[|w|..] && r[1..][|w[1..]|..] == r[|w|..]
  {
    assert r == [r[0]] + r[1..] && w == [w[0]] + w[1..];
  }

  // ---------------------------------------------------------------------
  // The first number left over

  /** What a turn that packs two neighbours writes: fewer numbers announced than follow. */
  lemma {:induction false} PackedGroup(d: Path, n: nat) returns (asns: seq<Asn>, k: nat)
    requires d != [] && NonEmptySegments(d) && n == PackCount(d[0], d[1..]) && n > 1
    ensures Hops(d[..1 + n]) == Singles(asns)
    ensures 1 <= k < |asns| && k <= AS_SEGMENT_MAX
    ensures GroupBytes(d[0], d[1..], n, true) == EncodeSegment(AsSequence, k, asns, true)
  {
    hide EncodeSegment, Hops, PackCount;
    var rest := d[1..];
    assert Fits(d[0], rest[n - 1]) && Fits(d[0], rest[0]);
    asns := d[0].asns + PackedAsns(rest, n);
    k := |d[0].asns| + |rest[n - 1].asns|;
    SplitsBounds(|d[0].asns|);
    assert Rest(d[0]) == d[0].asns;
    PackedSizes(rest, n);
    assert SplitBytes(d[0], 0, true) + EncodeSegment(AsSequence, k, asns, true) == EncodeSegment(AsSequence, k, asns, true);
    PackedFlat(d, n);
    SequenceHops(d[..1 + n]);
  }

  lemma {:induction false} PackedSizes(rest: Path, n: nat)
    requires 1 < n <= |rest| && rest[0].asns != []
    ensures |PackedAsns(rest, n)| > |rest[n - 1].asns|
  {
    PackedStarts(rest, n - 1);
  }

  lemma {:induction false} PackedStarts(rest: Path, n: nat)
    requires 1 <= n <= |rest|
    ensures |PackedAsns(rest, n)| >= |rest[0].asns|
  {
    if n == 1 {
      assert PackedAsns(rest, 0) == [];
    } else {
      PackedStarts(rest, n - 1);
    }
  }

  lemma {:induction false} PackedFlat(d: Path, n: nat)
    requires d != [] && n == PackCount(d[0], d[1..]) && n > 0
    ensures AllSequences(d[..1 + n])
    ensures Flat(d[..1 + n]) == d[0].asns + PackedAsns(d[1..], n)
  {
    var q := d[..1 + n];
    forall i | 0 <= i < |q| ensures q[i].kind == AsSequence {
      assert i > 0 ==> Fits(d[0], d[1..][i - 1]);
      assert Fits(d[0], d[1..][0]);
    }
    PackedIsFlat(d[1..], n);
    assert q[1..] == d[1..][..n];
  }

  /** The receiver reads the announced numbers, and then takes a large one for a header. */
  lemma {:induction false} LargeLeftOver(d: Path, r: Path, n: nat) returns (f: seq<Hop>, u: seq<Hop>, v: seq<Hop>)
    requires d != [] && NonEmptySegments(d) && n == PackCount(d[0], d[1..]) && n > 1
    requires WireValid(r) && EncodePath(r, true) == PutFrom(d, true)
    ensures Hops(d) == f + u && Hops(r) == f + v
    ensures u != [] && NarrowHop(u[0], false) != u[0]
  {
    hide GroupBytes, PackCount, PutFrom, Hops, EncodePath, PacksTwo;
    var rest := d[1 + n..];
    PutStep(d, n, true);
    var asns, k := PackedGroup(d, n);
    var tail := PutFrom(rest, true);
    var s := Segment(AsSequence, asns[..k]);
    var b := EncodeAsns(asns[k..], true) + tail;
    AnnouncedPart(asns, k, tail);
    EncodePathOne(s, true);
    EncodePrefix([s], r, b);
    HeaderByte(asns[k..], tail, r[1..]);
    f, u, v := Singles(asns[..k]), Singles(asns[k..]) + Hops(rest), Hops(r[1..]);
    assert d == d[..1 + n] + rest;
    HopsConcat(d[..1 + n], rest);
    assert Singles(asns) == f + Singles(asns[k..]);
    assert f + Singles(asns[k..]) + Hops(rest) == f + u;
    HopsCons(s, r[1..]);
    assert u[0] == One(asns[k]);
  }

  lemma {:induction false} AnnouncedPart(asns: seq<Asn>, k: nat, tail: seq<Byte>)
    requires 1 <= k < |asns| && k <= AS_SEGMENT_MAX
    ensures EncodeSegment(AsSequence, k, asns, true) + tail
      == EncodeSegment(AsSequence, k, asns[..k], true) + (EncodeAsns(asns[k..], true) + tail)
  {
    hide EncodeAsns;
    assert asns == asns[..k] + asns[k..];
    EncodeAsnsConcat(asns[..k], asns[k..], true);
  }

  /** An AS number whose bytes start a segment is a large one. */
  lemma {:induction false} HeaderByte(asns: seq<Asn>, tail: seq<Byte>, r: Path)
    requires asns != [] && WireValid(r) && EncodePath(r, true) == EncodeAsns(asns, true) + tail
    ensures asns[0] > BGP_AS_MAX
  {
    FirstByte(asns);
    assert r != [];
    var h := EncodeSegment(r[0].kind, |r[0].asns|, r[0].asns, true);
    assert EncodePath(r, true)[0] == h[0] == KindCode(r[0].kind);
  }

  lemma {:induction false} FirstByte(asns: seq<Asn>)
    requires asns != []
    ensures EncodeAsns(asns, true) != [] && EncodeAsns(asns, true)[0] == asns[0] / 0x100_0000
  {
    assert asns == [asns[0]] + asns[1..];
    EncodeAsnsConcat([asns[0]], asns[1..], true);
    assert [asns[0]][..0] == [];
    assert EncodeAsns([], true) == [];
    assert EncodeAsns([asns[0]], true) == [] + EncodeAsn(asns[0], true);
  }

  // ---------------------------------------------------------------------
  // No shifted reading

  /** Bytes that decode to a proper suffix of the hops, behind small ones, were written without packing two neighbours. */
  lemma {:induction false} ShiftedAnnounced(d: Path, r: Path, y: seq<Hop>)
    requires NonEmptySegments(d) && WireFits(d) && WireValid(r) && EncodePath(r, true) == PutFrom(d, true)
    requires Hops(d) == y + Hops(r) && y != [] && SmallHops(y)
    ensures !PacksTwo(d)
    decreases |d|
  {
    hide GroupBytes, PackCount, PutFrom, Hops, EncodePath, PacksTwo, GroupSegments, WireValid, SmallHops, NarrowHop;
    if d == [] {
      PutNone(true);
    } else {
      var n := PackCount(d[0], d[1..]);
      var rest := d[1 + n..];
      PutStep(d, n, true);
      if n > 1 {
        var f, u, v := LargeLeftOver(d, r, n);
        assert (f + u)[|f|] == u[0];
        Periodic(f, u, v, y, |f|);
      } else {
        var w := GroupSegments(d[0], d[1..], n);
        GroupEncoded(d[0], d[1..], n, true);
        EncodePrefix(w, r, PutFrom(rest, true));
        var t := r[|w|..];
        GroupHops(d, n);
        assert d == d[..1 + n] + rest;
        HopsConcat(d[..1 + n], rest);
        HopsConcat(w, t);
        RestFits(d, n);
        var z := ShiftRest(Hops(w), Hops(rest), Hops(t), y);
        ShiftedAnnounced(rest, t, z);
      }
    }
  }

  lemma {:induction false} RestFits(d: Path, n: nat)
    requires NonEmptySegments(d) && WireFits(d) && n < |d|
    ensures NonEmptySegments(d[1 + n..]) && WireFits(d[1 + n..])
  {
  }
}
