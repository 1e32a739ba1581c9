/**
  What packing does to a path that is not normalised: a receiver reads the right
  hops exactly when no turn of `aspath_put` packs two neighbours.

  Both the writer's headers and the headers a receiver finds lie in the same
  bytes.  Were the AS numbers read the right ones, the two sets of headers would
  be the same bytes too, and would announce the same number of AS numbers; but a
  turn that packs two neighbours announces fewer than it writes.
 */
module AsPathPacking {
  import opened Asns
  import opened AsPaths
  import opened AsPathObjects
  import opened AsPathLaws
  import opened AsPathWire
  import opened AsPathParse
  import opened AsPathRoundTrip
  import opened Streams

  // ---------------------------------------------------------------------
  // Weighing bytes two at a time

  type Measure = (Byte, Byte) -> nat

  ghost function Weigh(f: Measure, b: seq<Byte>): nat {
    if |b| < 2 then 0 else f(b[0], b[1]) + Weigh(f, b[2..])
  }

  lemma {:induction false} WeighConcat(f: Measure, a: seq<Byte>, b: seq<Byte>)
    requires |a| % 2 == 0
    ensures Weigh(f, a + b) == Weigh(f, a) + Weigh(f, b)
    decreases |a|
  {
    if a == [] {
      assert a + b == b;
    } else {
      assert (a + b)[0] == a[0] && (a + b)[1] == a[1] && (a + b)[2..] == a[2..] + b;
      WeighConcat(f, a[2..], b);
    }
  }

  /** Counts pairs that are not the header of an AS_SEQUENCE. */
  const OtherKind: Measure := (h: Byte, l: Byte) => if h == KindCode(AsSequence) then 0 else 1

  /** Adds up second bytes: the lengths that headers announce. */
  const Announced: Measure := (h: Byte, l: Byte) => l

  ghost function AsnWeight(f: Measure, s: seq<Asn>, use32bit: bool): nat {
    Weigh(f, EncodeAsns(s, use32bit))
  }

  lemma {:induction false} AsnWeightConcat(f: Measure, a: seq<Asn>, b: seq<Asn>, use32bit: bool)
    ensures AsnWeight(f, a + b, use32bit) == AsnWeight(f, a, use32bit) + AsnWeight(f, b, use32bit)
  {
    EncodeAsnsConcat(a, b, use32bit);
    WeighConcat(f, EncodeAsns(a, use32bit), EncodeAsns(b, use32bit));
  }

  lemma {:induction false} SegmentWeight(f: Measure, kind: SegKind, length: Byte, asns: seq<Asn>, use32bit: bool)
    ensures Weigh(f, EncodeSegment(kind, length, asns, use32bit)) == f(KindCode(kind), length) + AsnWeight(f, asns, use32bit)
  {
    hide EncodeAsns;
    var b := EncodeSegment(kind, length, asns, use32bit);
    assert b[2..] == EncodeAsns(asns, use32bit);
  }

  // ---------------------------------------------------------------------
  // Runs of sequences

  ghost predicate AllSequences(p: Path) {
    forall i :: 0 <= i < |p| ==> p[i].kind == AsSequence
  }

  /** How many leading segments are AS_SEQUENCE. */
  ghost function Lead(p: Path): (n: nat)
    ensures n <= |p| && AllSequences(p[..n])
    ensures n < |p| ==> p[n].kind != AsSequence
  {
    if p == [] || p[0].kind != AsSequence then 0
    else
      var n := Lead(p[1..]);
      assert p[..1 + n] == [p[0]] + p[1..][..n];
      1 + n
  }

  lemma {:induction false} PackedIsFlat(rest: Path, n: nat)
    requires n <= |rest|
    ensures PackedAsns(rest, n) == Flat(rest[..n])
  {
    if n > 0 {
      PackedIsFlat(rest, n - 1);
      assert rest[..n] == rest[..n - 1] + [rest[n - 1]];
      FlatConcat(rest[..n - 1], [rest[n - 1]]);
      assert [rest[n - 1]][1..] == [];
      assert rest[n - 1].asns + [] == rest[n - 1].asns;
    }
  }

  lemma {:induction false} SequenceHops(p: Path)
    requires AllSequences(p)
    ensures Hops(p) == Singles(Flat(p))
  {
    if p != [] {
      SequenceHops(p[1..]);
      SequenceHopsConcat(p[0].asns, Flat(p[1..]));
    }
  }

  /** A path's hops start with the AS numbers of its leading sequences, and no further single hop. */
  lemma {:induction false} LeadHops(p: Path)
    requires NonEmptySegments(p)
    ensures Hops(p) == Singles(Flat(p[..Lead(p)])) + Hops(p[Lead(p)..])
    ensures SingleRun(Hops(p)) == |Flat(p[..Lead(p)])|
  {
    var n := Lead(p);
    var q, t := p[..n], p[n..];
    assert p == q + t;
    HopsConcat(q, t);
    SequenceHops(q);
    if t != [] {
      FirstHop(t);
    }
    SingleRunPrefix(Singles(Flat(q)), Hops(t));
  }

  // ---------------------------------------------------------------------
  // What a receiver read

  /** Encoding what a receiver decoded gives the bytes back. */
  lemma {:induction false} EncodeDecoded(b: seq<Byte>, n: nat, use32bit: bool)
    requires |b| == Width(n, use32bit)
    ensures EncodeAsns(DecodeAsns(b, n, use32bit), use32bit) == b
  {
    hide EncodeAsn, DecodeAsn;
    if n > 0 {
      var k := Width(n - 1, use32bit);
      EncodeDecoded(b[..k], n - 1, use32bit);
      EncodeDecodedOne(b[k..], use32bit);
      var t, a := DecodeAsns(b[..k], n - 1, use32bit), DecodeAsn(b[k..]);
      assert DecodeAsns(b, n, use32bit) == t + [a];
      hide DecodeAsns;
      EncodeSnoc(t, a, use32bit);
    }
  }

  lemma {:induction false} EncodeSnoc(s: seq<Asn>, a: Asn, use32bit: bool)
    ensures EncodeAsns(s + [a], use32bit) == EncodeAsns(s, use32bit) + EncodeAsn(a, use32bit)
  {
    hide EncodeAsn;
    assert (s + [a])[..|s|] == s;
  }

  lemma {:induction false} EncodeDecodedOne(b: seq<Byte>, use32bit: bool)
    requires |b| == Width(1, use32bit)
    ensures EncodeAsn(DecodeAsn(b), use32bit) == b
  {
    hide Be16, Be32, Val16, Val32;
    if use32bit {
      Be32OfVal32(b);
    } else {
      Be16OfVal16(b);
    }
  }

  /** The segments a receiver found are the bytes. */
  lemma {:induction false} ParsedIsEncoded(b: seq<Byte>, use32bit: bool)
    requires ParseSegments(b, use32bit).Some?
    ensures WireValid(ParseSegments(b, use32bit).value)
    ensures EncodePath(ParseSegments(b, use32bit).value, use32bit) == b
    decreases |b|
  {
    hide ParseOne, EncodeSegment, After;
    if b != [] {
      var (seg, size) := ParseOne(b, use32bit).value;
      ParsedStep(b, use32bit);
      ParsedIsEncoded(b[size..], use32bit);
      ParsedOne(b, use32bit);
      var rest := ParseSegments(b[size..], use32bit).value;
      var r := ParseSegments(b, use32bit).value;
      assert r[0] == seg && r[1..] == rest;
      assert b == b[..size] + b[size..];
    }
  }

  lemma {:induction false} ParsedStep(b: seq<Byte>, use32bit: bool)
    requires b != [] && ParseSegments(b, use32bit).Some?
    ensures ParseOne(b, use32bit).Some?
    ensures
      var (seg, size) := ParseOne(b, use32bit).value;
      && ParseSegments(b[size..], use32bit).Some?
      && ParseSegments(b, use32bit).value == [seg] + ParseSegments(b[size..], use32bit).value
  {
    hide ParseOne;
  }

  lemma {:induction false} ParsedOne(b: seq<Byte>, use32bit: bool)
    requires ParseOne(b, use32bit).Some?
    ensures
      var (seg, size) := ParseOne(b, use32bit).value;
      && 1 <= |seg.asns| <= AS_SEGMENT_MAX
      && EncodeSegment(seg.kind, |seg.asns|, seg.asns, use32bit) == b[..size]
  {
    hide EncodeAsns, DecodeAsns;
    var (seg, size) := ParseOne(b, use32bit).value;
    EncodeDecoded(b[AS_HEADER_SIZE..size], b[1], use32bit);
    assert b[..size] == [b[0], b[1]] + b[AS_HEADER_SIZE..size];
  }

  /** Headers of sequences on the wire announce what they carry. */
  lemma {:induction false} EncodeWeight(w: Path, use32bit: bool)
    requires WireValid(w) && AllSequences(w)
    ensures |EncodePath(w, use32bit)| % 2 == 0
    ensures Weigh(OtherKind, EncodePath(w, use32bit)) == AsnWeight(OtherKind, Flat(w), use32bit)
    ensures Weigh(Announced, EncodePath(w, use32bit)) == |Flat(w)| + AsnWeight(Announced, Flat(w), use32bit)
  {
    EncodePathEven(w, use32bit);
    if w != [] {
      hide EncodePath, AsnWeight, Weigh;
      EncodeWeight(w[1..], use32bit);
      EncodePathStep(OtherKind, w, use32bit);
      EncodePathStep(Announced, w, use32bit);
      AsnWeightConcat(OtherKind, w[0].asns, Flat(w[1..]), use32bit);
      AsnWeightConcat(Announced, w[0].asns, Flat(w[1..]), use32bit);
    }
  }

  lemma {:induction false} EncodePathStep(f: Measure, w: Path, use32bit: bool)
    requires w != [] && WireValid(w)
    ensures Weigh(f, EncodePath(w, use32bit)) ==
      f(KindCode(w[0].kind), |w[0].asns|) + AsnWeight(f, w[0].asns, use32bit) + Weigh(f, EncodePath(w[1..], use32bit))
  {
    hide EncodeSegment, Weigh, AsnWeight;
    var h := EncodeSegment(w[0].kind, |w[0].asns|, w[0].asns, use32bit);
    WeighConcat(f, h, EncodePath(w[1..], use32bit));
    SegmentWeight(f, w[0].kind, |w[0].asns|, w[0].asns, use32bit);
  }

  // ---------------------------------------------------------------------
  // What the writer announced

  /** Bytes that hold these AS numbers under headers of sequences, and whether these announce them all. */
  ghost predicate Holds(b: seq<Byte>, asns: seq<Asn>, all: bool, use32bit: bool) {
    && |b| % 2 == 0
    && Weigh(OtherKind, b) == AsnWeight(OtherKind, asns, use32bit)
    && Weigh(Announced, b) <= |asns| + AsnWeight(Announced, asns, use32bit)
    && (Weigh(Announced, b) == |asns| + AsnWeight(Announced, asns, use32bit) <==> all)
  }

  lemma {:induction false} HoldsConcat(a: seq<Byte>, s: seq<Asn>, x: bool, b: seq<Byte>, t: seq<Asn>, y: bool, use32bit: bool)
    requires Holds(a, s, x, use32bit) && Holds(b, t, y, use32bit)
    ensures Holds(a + b, s + t, x && y, use32bit)
  {
    hide Weigh, AsnWeight;
    WeighConcat(OtherKind, a, b);
    WeighConcat(Announced, a, b);
    AsnWeightConcat(OtherKind, s, t, use32bit);
    AsnWeightConcat(Announced, s, t, use32bit);
  }

  /** One turn of the outer loop over sequences. */
  lemma {:induction false} GroupWeight(seg: Segment, rest: Path, n: nat, use32bit: bool)
    requires n == PackCount(seg, rest) && seg.kind == AsSequence && seg.asns != [] && NonEmptySegments(rest)
    requires |seg.asns| <= 2 * AS_SEGMENT_MAX
    ensures Holds(GroupBytes(seg, rest, n, use32bit), seg.asns + Flat(rest[..n]), n <= 1, use32bit)
  {
    hide GroupBytes, Weigh, AsnWeight, EncodePath, GroupSegments, PackCount, WireValid, Flat;
    if n <= 1 {
      GroupEncoded(seg, rest, n, use32bit);
      GroupSequences(seg, rest, n);
      EncodeWeight(GroupSegments(seg, rest, n), use32bit);
    } else {
      PackedWeight(seg, rest, n, use32bit);
    }
  }

  lemma {:induction false} GroupSequences(seg: Segment, rest: Path, n: nat)
    requires n == PackCount(seg, rest) <= 1 && seg.kind == AsSequence && |seg.asns| <= 2 * AS_SEGMENT_MAX
    ensures AllSequences(GroupSegments(seg, rest, n)) && Flat(GroupSegments(seg, rest, n)) == seg.asns + Flat(rest[..n])
  {
    if n == 0 {
      if |seg.asns| <= AS_SEGMENT_MAX {
        PiecesWhole(seg);
        FlatOne(seg);
      } else {
        PiecesTwo(seg);
        var x, y := Segment(seg.kind, seg.asns[..AS_SEGMENT_MAX]), Segment(seg.kind, seg.asns[AS_SEGMENT_MAX..]);
        FlatConcat([x], [y]);
        FlatOne(x);
        FlatOne(y);
        assert [x] + [y] == [x, y];
      }
    } else {
      PackedIsFlat(rest, 1);
      FlatOne(Segment(seg.kind, seg.asns + PackedAsns(rest, 1)));
    }
  }

  lemma {:induction false} FlatOne(s: Segment)
    ensures Flat([s]) == s.asns
  {
    assert [s][1..] == [];
  }

  /** Several packed neighbours: only the last one is announced. */
  lemma {:induction false} PackedBytes(seg: Segment, rest: Path, n: nat, use32bit: bool)
    requires n == PackCount(seg, rest) && n > 1 && NonEmptySegments(rest)
    ensures LengthByte(seg, rest, n) < |seg.asns + Flat(rest[..n])| && seg.kind == AsSequence
    ensures GroupBytes(seg, rest, n, use32bit) == EncodeSegment(AsSequence, LengthByte(seg, rest, n), seg.asns + Flat(rest[..n]), use32bit)
  {
    hide EncodeSegment;
    assert Fits(seg, rest[0]);
    assert Splits(|seg.asns|) == 0 && Rest(seg) == seg.asns;
    PackedIsFlat(rest, n);
    PackedIsFlat(rest, n - 1);
    FlatNonEmpty(rest[..n - 1]);
    assert PackedAsns(rest, n) == PackedAsns(rest, n - 1) + rest[n - 1].asns;
    hide Flat, PackedAsns, PackCount, Rest, Splits;
    assert SplitBytes(seg, 0, use32bit) == [];
  }

  lemma {:induction false} PackedWeight(seg: Segment, rest: Path, n: nat, use32bit: bool)
    requires n == PackCount(seg, rest) && n > 1 && NonEmptySegments(rest)
    ensures Holds(GroupBytes(seg, rest, n, use32bit), seg.asns + Flat(rest[..n]), false, use32bit)
  {
    hide Holds, Flat, GroupBytes, PackCount, LengthByte, EncodeSegment;
    PackedBytes(seg, rest, n, use32bit);
    ShortHeader(LengthByte(seg, rest, n), seg.asns + Flat(rest[..n]), use32bit);
  }

  lemma {:induction false} ShortHeader(length: Byte, asns: seq<Asn>, use32bit: bool)
    requires length < |asns|
    ensures Holds(EncodeSegment(AsSequence, length, asns, use32bit), asns, false, use32bit)
  {
    hide Weigh, AsnWeight, EncodeSegment, Width;
    HeaderMeasures(length);
    WidthEven(|asns|, use32bit);
    SegmentWeight(OtherKind, AsSequence, length, asns, use32bit);
    SegmentWeight(Announced, AsSequence, length, asns, use32bit);
  }

  lemma {:induction false} HeaderMeasures(length: Byte)
    ensures OtherKind(KindCode(AsSequence), length) == 0 && Announced(KindCode(AsSequence), length) == length
  {
  }

  lemma {:induction false} WidthEven(n: nat, use32bit: bool)
    ensures Width(n, use32bit) % 2 == 0
  {
  }

  lemma {:induction false} FlatNonEmpty(p: Path)
    requires p != [] && p[0].asns != []
    ensures Flat(p) != []
  {
  }

  /** A run of sequences announces all it carries exactly when no two neighbours are packed. */
  lemma {:induction false} PutWeight(q: Path, use32bit: bool)
    requires AllSequences(q) && NonEmptySegments(q) && AtMostTwoPieces(q)
    ensures Holds(PutFrom(q, use32bit), Flat(q), !PacksTwo(q), use32bit)
    decreases |q|
  {
    hide GroupBytes, PackCount, Flat, Holds;
    if q != [] {
      var n := PackCount(q[0], q[1..]);
      var rest := q[1 + n..];
      assert AllSequences(rest) && NonEmptySegments(rest) && AtMostTwoPieces(rest) && NonEmptySegments(q[1..]);
      PutWeight(rest, use32bit);
      GroupWeight(q[0], q[1..], n, use32bit);
      FlatSplit(q, n);
      HoldsConcat(GroupBytes(q[0], q[1..], n, use32bit), q[0].asns + Flat(q[1..][..n]), n <= 1,
                  PutFrom(rest, use32bit), Flat(rest), !PacksTwo(rest), use32bit);
    } else {
      HoldsNothing(q, use32bit);
    }
  }

  lemma {:induction false} HoldsNothing(q: Path, use32bit: bool)
    requires q == []
    ensures Holds([], Flat(q), true, use32bit)
  {
    assert EncodeAsns([], use32bit) == [];
  }

  lemma {:induction false} FlatSplit(q: Path, n: nat)
    requires q != [] && n < |q|
    ensures Flat(q) == (q[0].asns + Flat(q[1..][..n])) + Flat(q[1 + n..])
  {
    assert q[1..] == q[1..][..n] + q[1 + n..];
    FlatConcat(q[1..][..n], q[1 + n..]);
  }

  // ---------------------------------------------------------------------
  // Cutting at the first other segment

  lemma {:induction false} PackCountStops(seg: Segment, q: Path, t: Path)
    requires t != [] ==> t[0].kind != AsSequence
    ensures PackCount(seg, q + t) == PackCount(seg, q)
  {
    if q == [] {
      assert q + t == t;
    } else {
      assert (q + t)[0] == q[0] && (q + t)[1..] == q[1..] + t;
      PackCountStops(seg, q[1..], t);
    }
  }

  lemma {:induction false} PackedPrefix(q: Path, t: Path, n: nat)
    requires n <= |q|
    ensures PackedAsns(q + t, n) == PackedAsns(q, n)
  {
    PackedIsFlat(q + t, n);
    PackedIsFlat(q, n);
    assert (q + t)[..n] == q[..n];
  }

  /** Nothing is packed across a segment that is not a sequence. */
  lemma {:induction false} PutCut(q: Path, t: Path, use32bit: bool)
    requires t != [] ==> t[0].kind != AsSequence
    ensures PutFrom(q + t, use32bit) == PutFrom(q, use32bit) + PutFrom(t, use32bit)
    ensures PacksTwo(q + t) <==> PacksTwo(q) || PacksTwo(t)
    decreases |q|
  {
    hide GroupBytes, PackCount, PutFrom, PacksTwo;
    if q == [] {
      assert q + t == t;
      PutNone(use32bit);
    } else {
      var n := PackCount(q[0], q[1..]);
      var rest := q[1 + n..];
      assert (q + t)[0] == q[0] && (q + t)[1..] == q[1..] + t;
      PackCountStops(q[0], q[1..], t);
      assert (q + t)[1 + n..] == rest + t;
      PutStep(q + t, n, use32bit);
      PutStep(q, n, use32bit);
      PutCut(rest, t, use32bit);
      GroupCut(q[0], q[1..], t, n, use32bit);
    }
  }

  lemma {:induction false} PutNone(use32bit: bool)
    ensures PutFrom([], use32bit) == [] && !PacksTwo([])
  {
  }

  lemma {:induction false} PutStep(p: Path, n: nat, use32bit: bool)
    requires p != [] && n == PackCount(p[0], p[1..])
    ensures PutFrom(p, use32bit) == GroupBytes(p[0], p[1..], n, use32bit) + PutFrom(p[1 + n..], use32bit)
    ensures PacksTwo(p) <==> n > 1 || PacksTwo(p[1 + n..])
  {
    hide GroupBytes, PackCount;
  }

  lemma {:induction false} GroupCut(seg: Segment, q: Path, t: Path, n: nat, use32bit: bool)
    requires n == PackCount(seg, q) == PackCount(seg, q + t)
    ensures GroupBytes(seg, q + t, n, use32bit) == GroupBytes(seg, q, n, use32bit)
  {
    hide EncodeSegment, PackedAsns, PackCount, Splits, Rest, SplitBytes;
    PackedPrefix(q, t, n);
  }

  // ---------------------------------------------------------------------
  // The receiver's reading against the writer's

  lemma {:induction false} NarrowSameBytes(s: seq<Asn>, use32bit: bool)
    ensures EncodeAsns(NarrowAsns(s, use32bit), use32bit) == EncodeAsns(s, use32bit)
  {
    if s != [] {
      var n := |s| - 1;
      NarrowSameBytes(s[..n], use32bit);
      assert NarrowAsns(s, use32bit)[..n] == NarrowAsns(s[..n], use32bit);
    }
  }

  lemma {:induction false} SingleRunNarrow(h: seq<Hop>, use32bit: bool)
    ensures SingleRun(NarrowHops(h, use32bit)) == SingleRun(h)
  {
    if h != [] {
      SingleRunNarrow(h[1..], use32bit);
      assert NarrowHops(h, use32bit)[1..] == NarrowHops(h[1..], use32bit);
    }
  }

  /** The leading sequences of both readings hold the same AS numbers. */
  lemma {:induction false} LeadAgree(p: Path, r: Path, use32bit: bool)
    requires NonEmptySegments(p) && NonEmptySegments(r) && Hops(r) == NarrowHops(Hops(p), use32bit)
    ensures
      var s, a := Lead(p), Lead(r);
      && Flat(r[..a]) == NarrowAsns(Flat(p[..s]), use32bit)
      && Hops(r[a..]) == NarrowHops(Hops(p[s..]), use32bit)
  {
    hide Lead, Flat, Hops, SingleRun, NonEmptySegments, NarrowHops, NarrowAsns;
    var s, a := Lead(p), Lead(r);
    LeadHops(p);
    LeadHops(r);
    SingleRunNarrow(Hops(p), use32bit);
    OnesAgree(Flat(p[..s]), Hops(p[s..]), Flat(r[..a]), Hops(r[a..]), use32bit);
  }

  lemma {:induction false} OnesAgree(x: seq<Asn>, h: seq<Hop>, y: seq<Asn>, k: seq<Hop>, use32bit: bool)
    requires |x| == |y| && Singles(y) + k == NarrowHops(Singles(x) + h, use32bit)
    ensures y == NarrowAsns(x, use32bit) && k == NarrowHops(h, use32bit)
  {
    var a, b := Singles(x) + h, Singles(y) + k;
    forall i | 0 <= i < |x| ensures y[i] == Narrow(x[i], use32bit) {
      assert b[i] == One(y[i]) && a[i] == One(x[i]);
    }
    forall i | 0 <= i < |h| ensures k[i] == NarrowHop(h[i], use32bit) {
      assert b[|x| + i] == k[i] && a[|x| + i] == h[i];
    }
    assert |k| == |b| - |y| == |h|;
  }

  /** The same bytes cut twice where no pair of another kind is inside either head but one begins each tail. */
  lemma {:induction false} SameCut(a: seq<Byte>, a': seq<Byte>, b: seq<Byte>, b': seq<Byte>)
    requires a + a' == b + b' && |a| % 2 == 0 && |b| % 2 == 0
    requires Weigh(OtherKind, a) == Weigh(OtherKind, b)
    requires a' != [] ==> |a'| >= 2 && a'[0] != KindCode(AsSequence)
    requires b' != [] ==> |b'| >= 2 && b'[0] != KindCode(AsSequence)
    ensures a == b && a' == b'
  {
    if |a| < |b| {
      LongerWeighsMore(a, b, a', b');
    } else if |b| < |a| {
      LongerWeighsMore(b, a, b', a');
    }
    assert a == (a + a')[..|a|] && b == (b + b')[..|b|];
    assert a' == (a + a')[|a|..] && b' == (b + b')[|b|..];
  }

  lemma {:induction false} LongerWeighsMore(a: seq<Byte>, b: seq<Byte>, a': seq<Byte>, b': seq<Byte>)
    requires a + a' == b + b' && |a| % 2 == 0 && |b| % 2 == 0 && |a| < |b|
    requires a' != [] ==> |a'| >= 2 && a'[0] != KindCode(AsSequence)
    ensures Weigh(OtherKind, a) < Weigh(OtherKind, b)
  {
    var x := b[|a|..];
    assert a == (a + a')[..|a|] == (b + b')[..|a|] == b[..|a|];
    assert b == a + x;
    WeighConcat(OtherKind, a, x);
    assert x[0] == (b + b')[|a|] == (a + a')[|a|] == a'[0];
  }

  /** Bytes that give the right hops have announced everything. */
  lemma {:induction false} RightHopsAnnounced(p: Path, r: Path, use32bit: bool)
    requires NonEmptySegments(p) && WireFits(p) && WireValid(r)
    requires EncodePath(r, use32bit) == PutFrom(p, use32bit)
    requires Hops(r) == NarrowHops(Hops(p), use32bit)
    ensures !PacksTwo(p)
    decreases |p|
  {
    hide PutFrom, EncodePath, PacksTwo, Hops, Flat, NarrowHops, Lead, Weigh, NarrowAsns;
    var s, a := Lead(p), Lead(r);
    var q, t, u, v := p[..s], p[s..], r[..a], r[a..];
    assert p == q + t && r == u + v;
    LeadAgree(p, r, use32bit);
    PutCut(q, t, use32bit);
    EncodePathConcat(u, v, use32bit);
    HeadsHold(q, u, use32bit);
    if t != [] {
      OtherBytes(t, use32bit);
    } else {
      PutNone(use32bit);
    }
    OtherStarts(v, use32bit);
    SameCut(EncodePath(u, use32bit), EncodePath(v, use32bit), PutFrom(q, use32bit), PutFrom(t, use32bit));
    if t != [] {
      OtherFirst(t, v, use32bit);
      RightHopsAnnounced(t[1..], v[1..], use32bit);
    }
  }

  lemma {:induction false} HeadsHold(q: Path, u: Path, use32bit: bool)
    requires AllSequences(q) && NonEmptySegments(q) && AtMostTwoPieces(q) && AllSequences(u) && WireValid(u)
    requires Flat(u) == NarrowAsns(Flat(q), use32bit)
    ensures |EncodePath(u, use32bit)| % 2 == 0 && |PutFrom(q, use32bit)| % 2 == 0
    ensures Weigh(OtherKind, EncodePath(u, use32bit)) == Weigh(OtherKind, PutFrom(q, use32bit))
    ensures EncodePath(u, use32bit) == PutFrom(q, use32bit) ==> !PacksTwo(q)
  {
    hide EncodePath, PutFrom, PacksTwo, Flat, Weigh, EncodeAsns;
    PutWeight(q, use32bit);
    EncodeWeight(u, use32bit);
    NarrowSameBytes(Flat(q), use32bit);
  }

  /** A segment that is not a sequence goes out by itself. */
  lemma {:induction false} OtherBytes(t: Path, use32bit: bool)
    requires t != [] && t[0].kind != AsSequence && 1 <= |t[0].asns| <= AS_SEGMENT_MAX
    ensures PutFrom(t, use32bit) == EncodeSegment(t[0].kind, |t[0].asns|, t[0].asns, use32bit) + PutFrom(t[1..], use32bit)
    ensures |PutFrom(t, use32bit)| >= 2 && PutFrom(t, use32bit)[0] != KindCode(AsSequence)
    ensures PacksTwo(t) <==> PacksTwo(t[1..])
  {
    hide PutFrom, PacksTwo, EncodeAsns, GroupBytes;
    assert PackCount(t[0], t[1..]) == 0;
    PutStep(t, 0, use32bit);
    PiecesEncoded(t[0], t[1..], use32bit);
    PiecesWhole(t[0]);
    EncodePathOne(t[0], use32bit);
  }

  lemma {:induction false} OtherStarts(v: Path, use32bit: bool)
    requires WireValid(v) && (v != [] ==> v[0].kind != AsSequence)
    ensures v == [] ==> EncodePath(v, use32bit) == []
    ensures v != [] ==> |EncodePath(v, use32bit)| >= 2 && EncodePath(v, use32bit)[0] != KindCode(AsSequence)
    ensures v != [] ==> EncodePath(v, use32bit) == EncodeSegment(v[0].kind, |v[0].asns|, v[0].asns, use32bit) + EncodePath(v[1..], use32bit)
  {
    hide EncodeAsns;
  }

  /** Both readings agree on such a segment, and on what follows. */
  lemma {:induction false} OtherFirst(t: Path, v: Path, use32bit: bool)
    requires t != [] && t[0].kind != AsSequence && 1 <= |t[0].asns| <= AS_SEGMENT_MAX
    requires WireValid(v) && (v != [] ==> v[0].kind != AsSequence)
    requires EncodePath(v, use32bit) == PutFrom(t, use32bit) && Hops(v) == NarrowHops(Hops(t), use32bit)
    ensures v != [] && EncodePath(v[1..], use32bit) == PutFrom(t[1..], use32bit)
    ensures Hops(v[1..]) == NarrowHops(Hops(t[1..]), use32bit)
    ensures PacksTwo(t) <==> PacksTwo(t[1..])
  {
    hide PutFrom, EncodePath, PacksTwo, EncodeAsns, Hops, NarrowHops, Width, KindCode;
    OtherBytes(t, use32bit);
    OtherStarts(v, use32bit);
    var g, h := EncodeSegment(t[0].kind, |t[0].asns|, t[0].asns, use32bit), EncodeSegment(v[0].kind, |v[0].asns|, v[0].asns, use32bit);
    var x, y := PutFrom(t[1..], use32bit), EncodePath(v[1..], use32bit);
    assert g[1] == (g + x)[1] == (h + y)[1] == h[1];
    assert |g| == |h|;
    assert x == (g + x)[|g|..] && y == (h + y)[|h|..];
    OtherHops(t, v, use32bit);
  }

  lemma {:induction false} OtherHops(t: Path, v: Path, use32bit: bool)
    requires t != [] && v != [] && t[0].kind != AsSequence && v[0].kind != AsSequence
    requires Hops(v) == NarrowHops(Hops(t), use32bit)
    ensures Hops(v[1..]) == NarrowHops(Hops(t[1..]), use32bit)
  {
    OtherHop(t);
    OtherHop(v);
    hide Hops, NarrowHop, SegmentHops;
    assert NarrowHops(Hops(t), use32bit)[1..] == NarrowHops(Hops(t[1..]), use32bit);
  }

  lemma {:induction false} OtherHop(t: Path)
    requires t != [] && t[0].kind != AsSequence
    ensures Hops(t) != [] && Hops(t[1..]) == Hops(t)[1..]
  {
    assert |SegmentHops(t[0])| == 1;
    hide SegmentHops;
  }

  /**
    What a receiver makes of any path within the wire limits: the right hops
    exactly when no turn of the encoder packs two neighbours.
   */
  lemma {:induction false} PutReadBackIff(p: Path, use32bit: bool)
    requires NonEmptySegments(p) && WireFits(p)
    ensures (ReadBack(p, use32bit).Some? && Hops(ReadBack(p, use32bit).value) == NarrowHops(Hops(p), use32bit)) <==> !PacksTwo(p)
  {
    hide PacksTwo, PutFrom, Hops, NarrowHops, ParseSegments, EncodePath, WireFits, Norm;
    if !PacksTwo(p) {
      HopsReadBack(p, use32bit);
    } else if ReadBack(p, use32bit).Some? && Hops(ReadBack(p, use32bit).value) == NarrowHops(Hops(p), use32bit) {
      ReadBackRaw(p, use32bit);
      var r := ParseSegments(PutFrom(p, use32bit), use32bit).value;
      ParsedIsEncoded(PutFrom(p, use32bit), use32bit);
      RightHopsAnnounced(p, r, use32bit);
    }
  }

  lemma {:induction false} ReadBackRaw(p: Path, use32bit: bool)
    requires NonEmptySegments(p) && WireFits(p) && ReadBack(p, use32bit).Some?
    ensures ParseSegments(PutFrom(p, use32bit), use32bit).Some?
    ensures Hops(ParseSegments(PutFrom(p, use32bit), use32bit).value) == Hops(ReadBack(p, use32bit).value)
  {
    hide PutFrom, PutCount, ParseSegments, Norm, Hops;
    PutCountExact(p, use32bit);
    PutNone(use32bit);
    var b := PutFrom(p, use32bit);
    assert PutBytes(p, use32bit) == b;
    assert b[..|b|] == b;
    NormKeepsHops(ParseSegments(b, use32bit).value);
  }

  /**
    Normal paths lead there: three short sequences with confederation segments
    between them are packed together once these are removed, and what is written
    is not read back.
   */
  lemma {:induction false} DropConfedsPacks(x: Segment, c: Segment, y: Segment, e: Segment, z: Segment, use32bit: bool)
    requires Normal([x, c, y, e, z]) && IsConfed(c.kind) && IsConfed(e.kind)
    requires Fits(x, y) && Fits(x, z)
    ensures
      var d := DropConfeds([x, c, y, e, z]);
      && NonEmptySegments(d) && WireFits(d)
      && !(ReadBack(d, use32bit).Some? && Hops(ReadBack(d, use32bit).value) == NarrowHops(Hops(d), use32bit))
  {
    var p, d := [x, c, y, e, z], [x, y, z];
    assert p[0] == x && p[2] == y && p[4] == z;
    assert NonEmptySegments(d) && WireFits(d);
    DropFive(x, c, y, e, z);
    PacksThree(x, y, z);
    hide PacksTwo, ReadBack, NarrowHops, Hops, DropConfeds, Normal;
    PutReadBackIff(d, use32bit);
  }

  lemma {:induction false} DropFive(x: Segment, c: Segment, y: Segment, e: Segment, z: Segment)
    requires IsConfed(c.kind) && IsConfed(e.kind) && !IsConfed(x.kind) && !IsConfed(y.kind) && !IsConfed(z.kind)
    ensures DropConfeds([x, c, y, e, z]) == [x, y, z]
  {
    assert [x, c, y, e, z][1..] == [c, y, e, z] && [c, y, e, z][1..] == [y, e, z];
    assert [y, e, z][1..] == [e, z] && [e, z][1..] == [z] && [z][1..] == [];
    assert DropConfeds([z]) == [z];
    assert DropConfeds([e, z]) == [z];
    assert DropConfeds([y, e, z]) == [y, z];
    assert DropConfeds([c, y, e, z]) == [y, z];
  }

  /** Such a path, with a number that makes AS4_PATH necessary. */
  lemma {:induction false} DropConfedsPacksExample()
    ensures
      var p := [Segment(AsSequence, [70000]), Segment(ConfedSequence, [1]), Segment(AsSequence, [2]),
                Segment(ConfedSequence, [3]), Segment(AsSequence, [4])];
      var d := DropConfeds(p);
      Normal(p) && !(ReadBack(d, true).Some? && Hops(ReadBack(d, true).value) == Hops(d))
  {
    var x, y, z := Segment(AsSequence, [70000]), Segment(AsSequence, [2]), Segment(AsSequence, [4]);
    var c, e := Segment(ConfedSequence, [1]), Segment(ConfedSequence, [3]);
    assert Normal([x, c, y, e, z]);
    hide Normal, ReadBack, NarrowHops, Hops, DropConfeds;
    DropConfedsPacks(x, c, y, e, z, true);
    NarrowHopsWide(Hops(DropConfeds([x, c, y, e, z])));
  }

  lemma {:induction false} PacksThree(x: Segment, y: Segment, z: Segment)
    requires Fits(x, y) && Fits(x, z)
    ensures PacksTwo([x, y, z])
  {
    assert [x, y, z][1..] == [y, z] && [y, z][1..] == [z] && [z][1..] == [];
    assert PackCount(x, [z]) == 1;
    assert PackCount(x, [y, z]) == 2;
  }

  lemma {:induction false} NarrowHopsWide(h: seq<Hop>)
    ensures NarrowHops(h, true) == h
  {
    forall i | 0 <= i < |h| ensures NarrowHop(h[i], true) == h[i] {
      match h[i]
      case One(_) =>
      case AnyOf(_, m) => assert (set x | x in m :: Narrow(x, true)) == m;
      case Confed(s) => assert NarrowAsns(s, true) == s;
    }
  }
}
