/** The exact conditions under which parsing undoes `aspath_put`. */
module AsPathRoundTrip {
  import opened Asns
  import opened AsPaths
  import opened AsPathObjects
  import opened AsPathLaws
  import opened AsPathWire
  import opened AsPathParse
  import opened Options
  import opened Streams

  // ---------------------------------------------------------------------
  // The byte count

  /** No segment is cut into more than two pieces. */
  ghost predicate AtMostTwoPieces(p: Path) {
    forall i :: 0 <= i < |p| ==> |p[i].asns| <= 2 * AS_SEGMENT_MAX
  }

  lemma {:induction false} SplitBytesLength(seg: Segment, k: nat, use32bit: bool)
    requires k > 0 ==> AS_SEGMENT_MAX <= |seg.asns|
    ensures |SplitBytes(seg, k, use32bit)| == k * (AS_HEADER_SIZE + Width(AS_SEGMENT_MAX, use32bit))
    ensures SplitCount(k, use32bit) >= |SplitBytes(seg, k, use32bit)|
    ensures SplitCount(k, use32bit) == |SplitBytes(seg, k, use32bit)| <==> k <= 1
  {
    if k > 0 {
      SplitBytesLength(seg, k - 1, use32bit);
    }
  }

  lemma GroupBytesLength(seg: Segment, rest: Path, n: nat, use32bit: bool)
    requires n == PackCount(seg, rest)
    ensures |GroupBytes(seg, rest, n, use32bit)| ==
      |SplitBytes(seg, Splits(|seg.asns|), use32bit)| + AS_HEADER_SIZE + Width(|Rest(seg)| + |PackedAsns(rest, n)|, use32bit)
  {
    hide SplitBytes, SplitCount, PackedAsns, LengthByte, EncodeAsns, Width, Rest, Splits, PackCount;
    SplitsBounds(|seg.asns|);
    var asns := Rest(seg) + PackedAsns(rest, n);
    assert |EncodeSegment(seg.kind, LengthByte(seg, rest, n), asns, use32bit)| == AS_HEADER_SIZE + Width(|asns|, use32bit);
  }

  /** The count charged for one turn of the outer loop, against what it wrote. */
  lemma GroupCounts(seg: Segment, rest: Path, n: nat, use32bit: bool)
    requires n == PackCount(seg, rest)
    ensures GroupCount(seg, rest, n, use32bit) >= |GroupBytes(seg, rest, n, use32bit)|
    ensures GroupCount(seg, rest, n, use32bit) == |GroupBytes(seg, rest, n, use32bit)|
      <==> |seg.asns| <= 2 * AS_SEGMENT_MAX
  {
    hide SplitBytes, SplitCount, PackedAsns, GroupBytes, Width, Rest, Splits, PackCount;
    SplitsBounds(|seg.asns|);
    SplitBytesLength(seg, Splits(|seg.asns|), use32bit);
    GroupBytesLength(seg, rest, n, use32bit);
  }

  /** Packed segments are short, so only the first and those behind them matter. */
  lemma {:induction false} TwoPiecesBehind(p: Path)
    requires p != []
    ensures AtMostTwoPieces(p) <==>
      |p[0].asns| <= 2 * AS_SEGMENT_MAX && AtMostTwoPieces(p[1 + PackCount(p[0], p[1..])..])
  {
    var n := PackCount(p[0], p[1..]);
    var rest := p[1 + n..];
    assert forall i :: 0 <= i < |rest| ==> rest[i] == p[1 + n + i];
    if AtMostTwoPieces(rest) && |p[0].asns| <= 2 * AS_SEGMENT_MAX {
      forall i | 0 <= i < |p|
        ensures |p[i].asns| <= 2 * AS_SEGMENT_MAX
      {
        if 0 < i <= n {
          assert Fits(p[0], p[1..][i - 1]);
        } else if i > n {
          assert p[i] == rest[i - 1 - n];
        }
      }
    }
  }

  lemma {:induction false} CountFromExact(p: Path, use32bit: bool)
    ensures CountFrom(p, use32bit) >= |PutFrom(p, use32bit)|
    ensures CountFrom(p, use32bit) == |PutFrom(p, use32bit)| <==> AtMostTwoPieces(p)
  {
    if p != [] {
      hide GroupBytes, GroupCount, AtMostTwoPieces, PackCount;
      var n := PackCount(p[0], p[1..]);
      GroupCounts(p[0], p[1..], n, use32bit);
      CountFromExact(p[1 + n..], use32bit);
      TwoPiecesBehind(p);
    }
  }

  /**
    The byte count returned by `aspath_put` is the number of bytes it wrote
    exactly when no segment is longer than 510; otherwise it is too large.
   */
  lemma PutCountExact(p: Path, use32bit: bool)
    requires p != [] ==> p[0].asns != []
    ensures PutCount(p, use32bit) >= |PutBytes(p, use32bit)|
    ensures PutCount(p, use32bit) == |PutBytes(p, use32bit)| <==> AtMostTwoPieces(p)
  {
    CountFromExact(p, use32bit);
  }

  // ---------------------------------------------------------------------
  // The segments on the wire

  function SplitPieces(seg: Segment, k: nat): Path
    requires k > 0 ==> AS_SEGMENT_MAX <= |seg.asns|
  {
    if k == 0 then [] else SplitPieces(seg, k - 1) + [Segment(seg.kind, seg.asns[..AS_SEGMENT_MAX])]
  }

  /** The wire segments `aspath_put` makes of one segment. */
  function Pieces(seg: Segment): Path {
    SplitsBounds(|seg.asns|);
    SplitPieces(seg, Splits(|seg.asns|)) + [Segment(seg.kind, Rest(seg))]
  }

  /** The wire segments of one turn of the outer loop that packs `n` neighbours. */
  function GroupSegments(seg: Segment, rest: Path, n: nat): Path
    requires n <= |rest|
  {
    if n == 0 then Pieces(seg) else [Segment(seg.kind, seg.asns + PackedAsns(rest, n))]
  }

  function WireSegments(p: Path): Path {
    if p == [] then []
    else
      var n := PackCount(p[0], p[1..]);
      GroupSegments(p[0], p[1..], n) + WireSegments(p[1 + n..])
  }

  /** Some turn of the outer loop packs more than one neighbour. */
  ghost predicate PacksTwo(p: Path) {
    && p != []
    && var n := PackCount(p[0], p[1..]);
       n > 1 || PacksTwo(p[1 + n..])
  }

  lemma {:induction false} NormalPacksNone(p: Path)
    requires forall i :: 0 <= i < |p| - 1 ==> !Packable(p[i], p[i + 1])
    ensures !PacksTwo(p)
  {
    if p != [] {
      assert p[1..] != [] ==> !Packable(p[0], p[1]);
      assert PackCount(p[0], p[1..]) == 0;
      forall i | 0 <= i < |p[1..]| - 1 ensures !Packable(p[1..][i], p[1..][i + 1]) {
        assert !Packable(p[i + 1], p[i + 2]);
      }
      NormalPacksNone(p[1..]);
    }
  }

  ghost predicate WireValid(w: Path) {
    forall i :: 0 <= i < |w| ==> 1 <= |w[i].asns| <= AS_SEGMENT_MAX
  }

  function EncodePath(w: Path, use32bit: bool): seq<Byte>
    requires WireValid(w)
  {
    if w == [] then []
    else EncodeSegment(w[0].kind, |w[0].asns|, w[0].asns, use32bit) + EncodePath(w[1..], use32bit)
  }

  lemma {:induction false} EncodePathConcat(a: Path, b: Path, use32bit: bool)
    requires WireValid(a) && WireValid(b)
    ensures EncodePath(a + b, use32bit) == EncodePath(a, use32bit) + EncodePath(b, use32bit)
  {
    hide EncodeSegment;
    if a == [] {
      assert a + b == b;
    } else {
      assert (a + b)[0] == a[0] && (a + b)[1..] == a[1..] + b;
      EncodePathConcat(a[1..], b, use32bit);
      var h := EncodeSegment(a[0].kind, |a[0].asns|, a[0].asns, use32bit);
      assert h + (EncodePath(a[1..], use32bit) + EncodePath(b, use32bit))
          == (h + EncodePath(a[1..], use32bit)) + EncodePath(b, use32bit);
    }
  }

  lemma EncodePathOne(s: Segment, use32bit: bool)
    requires 1 <= |s.asns| <= AS_SEGMENT_MAX
    ensures EncodePath([s], use32bit) == EncodeSegment(s.kind, |s.asns|, s.asns, use32bit)
  {
    assert [s][1..] == [];
  }

  lemma {:induction false} SplitPiecesEncoded(seg: Segment, k: nat, use32bit: bool)
    requires k > 0 ==> AS_SEGMENT_MAX <= |seg.asns|
    ensures WireValid(SplitPieces(seg, k))
    ensures EncodePath(SplitPieces(seg, k), use32bit) == SplitBytes(seg, k, use32bit)
  {
    if k > 0 {
      hide EncodeSegment;
      SplitPiecesEncoded(seg, k - 1, use32bit);
      var s := Segment(seg.kind, seg.asns[..AS_SEGMENT_MAX]);
      EncodePathConcat(SplitPieces(seg, k - 1), [s], use32bit);
      EncodePathOne(s, use32bit);
    }
  }

  lemma PiecesEncoded(seg: Segment, rest: Path, use32bit: bool)
    requires seg.asns != []
    requires PackCount(seg, rest) == 0
    ensures WireValid(Pieces(seg))
    ensures EncodePath(Pieces(seg), use32bit) == GroupBytes(seg, rest, 0, use32bit)
  {
    hide EncodeSegment, SplitBytes, SplitPieces, Splits;
    var k := Splits(|seg.asns|);
    SplitsBounds(|seg.asns|);
    SplitPiecesEncoded(seg, k, use32bit);
    var s := Segment(seg.kind, Rest(seg));
    EncodePathConcat(SplitPieces(seg, k), [s], use32bit);
    EncodePathOne(s, use32bit);
    assert Rest(seg) + PackedAsns(rest, 0) == Rest(seg);
  }

  /** A single packed neighbour is counted in full. */
  lemma PackedEncoded(seg: Segment, rest: Path, use32bit: bool)
    requires PackCount(seg, rest) == 1 && seg.asns != []
    ensures WireValid(GroupSegments(seg, rest, 1))
    ensures EncodePath(GroupSegments(seg, rest, 1), use32bit) == GroupBytes(seg, rest, 1, use32bit)
  {
    hide EncodeSegment;
    assert PackedAsns(rest, 1) == rest[0].asns by { assert PackedAsns(rest, 0) == []; }
    assert Splits(|seg.asns|) == 0 && Rest(seg) == seg.asns;
    EncodePathOne(Segment(seg.kind, seg.asns + rest[0].asns), use32bit);
  }

  /** Unless two neighbours are packed, the bytes written are the encoding of the wire segments. */
  lemma {:induction false} PutFromEncoded(p: Path, use32bit: bool)
    requires NonEmptySegments(p) && !PacksTwo(p)
    ensures WireValid(WireSegments(p))
    ensures PutFrom(p, use32bit) == EncodePath(WireSegments(p), use32bit)
    decreases |p|
  {
    if p != [] {
      hide GroupBytes, GroupSegments, EncodePath, WireValid;
      var n := PackCount(p[0], p[1..]);
      var rest := p[1 + n..];
      assert NonEmptySegments(rest);
      PutFromEncoded(rest, use32bit);
      GroupEncoded(p[0], p[1..], n, use32bit);
      ValidConcat(GroupSegments(p[0], p[1..], n), WireSegments(rest));
      EncodePathConcat(GroupSegments(p[0], p[1..], n), WireSegments(rest), use32bit);
    } else {
      assert WireValid([]);
    }
  }

  lemma GroupEncoded(seg: Segment, rest: Path, n: nat, use32bit: bool)
    requires seg.asns != [] && n == PackCount(seg, rest) && n <= 1
    ensures WireValid(GroupSegments(seg, rest, n))
    ensures EncodePath(GroupSegments(seg, rest, n), use32bit) == GroupBytes(seg, rest, n, use32bit)
  {
    hide GroupBytes, EncodePath, WireValid, Pieces, PackedAsns, PackCount;
    if n == 0 {
      PiecesEncoded(seg, rest, use32bit);
    } else {
      PackedEncoded(seg, rest, use32bit);
    }
  }

  lemma ValidConcat(a: Path, b: Path)
    requires WireValid(a) && WireValid(b)
    ensures WireValid(a + b)
  {
  }

  // ---------------------------------------------------------------------
  // Parsing the wire segments

  lemma ParseOneEncoded(s: Segment, rest: seq<Byte>, use32bit: bool)
    requires 1 <= |s.asns| <= AS_SEGMENT_MAX
    ensures var b := EncodeSegment(s.kind, |s.asns|, s.asns, use32bit);
            ParseOne(b + rest, use32bit) == Some((NarrowSegment(s, use32bit), |b|))
  {
    hide EncodeAsns, DecodeAsns, NarrowAsns;
    var d := EncodeAsns(s.asns, use32bit);
    var b := EncodeSegment(s.kind, |s.asns|, s.asns, use32bit);
    assert (b + rest)[AS_HEADER_SIZE..|b|] == d;
    assert (b + rest)[0] == KindCode(s.kind) && (b + rest)[1] == |s.asns|;
    DecodeEncodeAsns(s.asns, use32bit);
  }

  lemma NarrowPathCons(w: Path, use32bit: bool)
    requires w != []
    ensures NarrowPath(w, use32bit) == [NarrowSegment(w[0], use32bit)] + NarrowPath(w[1..], use32bit)
  {
  }

  lemma {:induction false} ParseEncodePath(w: Path, use32bit: bool)
    requires WireValid(w)
    ensures ParseSegments(EncodePath(w, use32bit), use32bit) == Some(NarrowPath(w, use32bit))
  {
    if w != [] {
      hide EncodeSegment, ParseOne, NarrowSegment, NarrowPath;
      var b := EncodeSegment(w[0].kind, |w[0].asns|, w[0].asns, use32bit);
      var t := EncodePath(w[1..], use32bit);
      ParseOneEncoded(w[0], t, use32bit);
      ParseEncodePath(w[1..], use32bit);
      assert (b + t)[|b|..] == t;
      NarrowPathCons(w, use32bit);
    } else {
      assert NarrowPath(w, use32bit) == [];
    }
  }

  lemma {:induction false} EncodePathEven(w: Path, use32bit: bool)
    requires WireValid(w)
    ensures |EncodePath(w, use32bit)| % 2 == 0
  {
    if w != [] {
      hide EncodeAsns;
      EncodePathEven(w[1..], use32bit);
    }
  }

  /** What a receiver of the written bytes ends up with. */
  lemma ParsePut(p: Path, use32bit: bool)
    requires NonEmptySegments(p) && !PacksTwo(p)
    ensures WireValid(WireSegments(p))
    ensures ParsePath(PutBytes(p, use32bit), use32bit) == Some(Norm(NarrowPath(WireSegments(p), use32bit)))
  {
    hide Norm;
    PutFromEncoded(p, use32bit);
    var w := WireSegments(p);
    ParseEncodePath(w, use32bit);
    EncodePathEven(w, use32bit);
  }

  // ---------------------------------------------------------------------
  // Hops on the wire

  ghost function NarrowHop(h: Hop, use32bit: bool): Hop {
    match h
    case One(a) => One(Narrow(a, use32bit))
    case AnyOf(c, m) => AnyOf(c, set x | x in m :: Narrow(x, use32bit))
    case Confed(s) => Confed(NarrowAsns(s, use32bit))
  }

  ghost function NarrowHops(h: seq<Hop>, use32bit: bool): seq<Hop> {
    seq(|h|, i requires 0 <= i < |h| => NarrowHop(h[i], use32bit))
  }

  lemma NarrowSegmentHops(s: Segment, use32bit: bool)
    ensures SegmentHops(NarrowSegment(s, use32bit)) == NarrowHops(SegmentHops(s), use32bit)
  {
    var t := NarrowAsns(s.asns, use32bit);
    if IsSet(s.kind) {
      var image := set x | x in Elems(s.asns) :: Narrow(x, use32bit);
      forall y | y in image ensures y in Elems(t) {
        var i :| 0 <= i < |s.asns| && Narrow(s.asns[i], use32bit) == y;
        assert t[i] == y;
      }
      forall y | y in Elems(t) ensures y in image {
        var i :| 0 <= i < |t| && t[i] == y;
        assert s.asns[i] in Elems(s.asns);
      }
      assert Elems(t) == image;
    }
  }

  lemma {:induction false} NarrowPathHops(p: Path, use32bit: bool)
    ensures Hops(NarrowPath(p, use32bit)) == NarrowHops(Hops(p), use32bit)
  {
    if p != [] {
      hide SegmentHops, NarrowSegment, NarrowHop;
      NarrowSegmentHops(p[0], use32bit);
      NarrowPathHops(p[1..], use32bit);
      assert NarrowPath(p, use32bit)[0] == NarrowSegment(p[0], use32bit);
      assert NarrowPath(p, use32bit)[1..] == NarrowPath(p[1..], use32bit);
    }
  }

  /** A 4-byte peer sees every AS number as it is. */
  lemma NarrowWide(p: Path)
    ensures NarrowPath(p, true) == p
  {
    forall i | 0 <= i < |p|
      ensures NarrowPath(p, true)[i] == p[i]
    {
      assert NarrowAsns(p[i].asns, true) == p[i].asns;
    }
  }

  /** Sequences fit in two wire segments, everything else in one. */
  ghost predicate WireFits(p: Path) {
    forall i :: 0 <= i < |p| ==> |p[i].asns| <= if p[i].kind == AsSequence then 2 * AS_SEGMENT_MAX else AS_SEGMENT_MAX
  }

  lemma PiecesWhole(seg: Segment)
    requires |seg.asns| <= AS_SEGMENT_MAX
    ensures Pieces(seg) == [seg]
  {
    assert Splits(|seg.asns|) == 0;
  }

  lemma PiecesTwo(seg: Segment)
    requires AS_SEGMENT_MAX < |seg.asns| <= 2 * AS_SEGMENT_MAX
    ensures Pieces(seg) == [Segment(seg.kind, seg.asns[..AS_SEGMENT_MAX]), Segment(seg.kind, seg.asns[AS_SEGMENT_MAX..])]
  {
    assert Splits(|seg.asns|) == 1;
    assert SplitPieces(seg, 0) == [];
    assert SplitPieces(seg, 1) == [Segment(seg.kind, seg.asns[..AS_SEGMENT_MAX])];
  }

  lemma HopsTwo(x: Segment, y: Segment)
    ensures Hops([x, y]) == SegmentHops(x) + SegmentHops(y)
  {
    HopsCons(x, [y]);
    HopsCons(y, []);
    assert [x] + [y] == [x, y] && [y] + [] == [y];
  }

  /** One segment on the wire: the same hops exactly when it is not a split set or confed sequence. */
  lemma PiecesHops(seg: Segment)
    requires seg.asns != [] && |seg.asns| <= 2 * AS_SEGMENT_MAX
    ensures seg.kind == AsSequence || |seg.asns| <= AS_SEGMENT_MAX ==> Hops(Pieces(seg)) == SegmentHops(seg)
    ensures seg.kind != AsSequence && |seg.asns| > AS_SEGMENT_MAX ==> |Hops(Pieces(seg))| > |SegmentHops(seg)|
  {
    if |seg.asns| <= AS_SEGMENT_MAX {
      PiecesWhole(seg);
      assert [seg][1..] == [];
    } else {
      PiecesTwo(seg);
      var x, y := Segment(seg.kind, seg.asns[..AS_SEGMENT_MAX]), Segment(seg.kind, seg.asns[AS_SEGMENT_MAX..]);
      HopsTwo(x, y);
      if seg.kind == AsSequence {
        SequenceHopsConcat(x.asns, y.asns);
        assert seg == Segment(AsSequence, x.asns + y.asns);
      }
    }
  }

  lemma {:induction false} WireHops(p: Path)
    requires NonEmptySegments(p) && AtMostTwoPieces(p) && !PacksTwo(p)
    ensures |Hops(WireSegments(p))| >= |Hops(p)|
    ensures WireFits(p) ==> Hops(WireSegments(p)) == Hops(p)
    ensures !WireFits(p) ==> |Hops(WireSegments(p))| > |Hops(p)|
    decreases |p|
  {
    if p != [] {
      hide GroupSegments, SegmentHops, Hops, WireFits, PackCount;
      var n := PackCount(p[0], p[1..]);
      var rest := p[1 + n..];
      assert forall i :: 0 <= i < |rest| ==> rest[i] == p[1 + n + i];
      WireHops(rest);
      HopsConcat(GroupSegments(p[0], p[1..], n), WireSegments(rest));
      assert p == p[..1 + n] + rest;
      HopsConcat(p[..1 + n], rest);
      WireFitsFrom(p, n);
      GroupHops(p, n);
    }
  }

  /** One turn of the outer loop: the same hops exactly when it does not split a set or confed sequence. */
  lemma GroupHops(p: Path, n: nat)
    requires p != [] && n == PackCount(p[0], p[1..]) && n <= 1 && p[0].asns != [] && |p[0].asns| <= 2 * AS_SEGMENT_MAX
    ensures
      var g, h := Hops(GroupSegments(p[0], p[1..], n)), Hops(p[..1 + n]);
      if n > 0 || p[0].kind == AsSequence || |p[0].asns| <= AS_SEGMENT_MAX then g == h else |g| > |h|
  {
    hide Pieces, SegmentHops, Hops, PackCount;
    if n == 0 {
      PiecesHops(p[0]);
      HopsCons(p[0], []);
      HopsNone();
      assert p[..1] == [p[0]] + [];
    } else {
      PackedHops(p[0], p[1..]);
      HopsTwo(p[0], p[1]);
      assert p[..2] == [p[0], p[1]];
    }
  }

  lemma HopsNone()
    ensures Hops([]) == []
  {
  }

  lemma PackedHops(seg: Segment, rest: Path)
    requires PackCount(seg, rest) == 1
    ensures Hops(GroupSegments(seg, rest, 1)) == SegmentHops(seg) + SegmentHops(rest[0])
  {
    assert PackedAsns(rest, 1) == rest[0].asns by { assert PackedAsns(rest, 0) == []; }
    SequenceHopsConcat(seg.asns, rest[0].asns);
    HopsCons(Segment(seg.kind, seg.asns + rest[0].asns), []);
    assert seg == Segment(AsSequence, seg.asns) && rest[0] == Segment(AsSequence, rest[0].asns);
    assert [Segment(seg.kind, seg.asns + rest[0].asns)] + [] == [Segment(seg.kind, seg.asns + rest[0].asns)];
  }

  lemma WireFitsFrom(p: Path, n: nat)
    requires p != [] && n == PackCount(p[0], p[1..]) && AtMostTwoPieces(p)
    ensures WireFits(p) <==> WireFits(p[1 + n..]) && (n > 0 || p[0].kind == AsSequence || |p[0].asns| <= AS_SEGMENT_MAX)
  {
    var rest := p[1 + n..];
    assert forall i :: 0 <= i < |rest| ==> rest[i] == p[1 + n + i];
    assert forall i :: n < i < |p| ==> p[i] == rest[i - 1 - n];
    forall i | 0 < i <= n ensures p[i].kind == AsSequence {
      assert Fits(p[0], p[1..][i - 1]);
    }
    if n > 0 {
      assert Fits(p[0], p[1..][0]);
    }
  }

  /** What is read back from a buffer that holds exactly what `aspath_put` wrote and counted. */
  function ReadBack(p: Path, use32bit: bool): Option<Path> {
    if PutCount(p, use32bit) > |PutBytes(p, use32bit)| then None
    else ParsePath(PutBytes(p, use32bit)[..PutCount(p, use32bit)], use32bit)
  }

  /**
    Wire round trip: a normal path is read back unchanged by a 4-byte peer
    exactly when every AS_SEQUENCE has at most 510 AS numbers and every other
    segment at most 255.
   */
  lemma WireRoundTrip(p: Path)
    requires Normal(p)
    ensures ReadBack(p, true) == Some(p) <==> WireFits(p)
  {
    hide ParsePath, WireSegments, PutBytes, PutCount, Norm, PacksTwo;
    PutCountExact(p, true);
    NormalPacksNone(p);
    if AtMostTwoPieces(p) {
      ParsePut(p, true);
      assert PutBytes(p, true)[..PutCount(p, true)] == PutBytes(p, true);
      NarrowWide(WireSegments(p));
      WireHops(p);
      NormReaches(WireSegments(p), p);
    }
  }

  /**
    A path in which no two neighbours are packed is read back with the same
    hops, large AS numbers replaced by AS_TRANS for a 2-byte peer.
   */
  lemma HopsReadBack(p: Path, use32bit: bool)
    requires NonEmptySegments(p) && WireFits(p) && !PacksTwo(p)
    ensures ReadBack(p, use32bit).Some? && ReadBack(p, use32bit) == ParsePath(PutBytes(p, use32bit), use32bit)
    ensures Normal(ReadBack(p, use32bit).value)
    ensures Hops(ReadBack(p, use32bit).value) == NarrowHops(Hops(p), use32bit)
  {
    hide ParsePath, WireSegments, PutBytes, PutCount, Norm, PacksTwo;
    PutCountExact(p, use32bit);
    ParsePut(p, use32bit);
    assert PutBytes(p, use32bit)[..PutCount(p, use32bit)] == PutBytes(p, use32bit);
    var w := WireSegments(p);
    WireHops(p);
    NarrowPathHops(w, use32bit);
    NormKeepsHops(NarrowPath(w, use32bit));
    NormIsNormal(NarrowPath(w, use32bit));
  }

  /** A 2-byte peer reads back the same path with large AS numbers replaced by AS_TRANS. */
  lemma NarrowRoundTrip(p: Path)
    requires Normal(p) && WireFits(p)
    ensures ReadBack(p, false).Some?
    ensures Normal(ReadBack(p, false).value)
    ensures Hops(ReadBack(p, false).value) == NarrowHops(Hops(p), false)
  {
    hide ReadBack, PacksTwo;
    NormalPacksNone(p);
    HopsReadBack(p, false);
  }

  /** Whatever path holds a segment longer than 510 is announced with a length the bytes do not have. */
  lemma OverlongSegmentFails(p: Path, i: nat, use32bit: bool)
    requires NonEmptySegments(p) && i < |p| && |p[i].asns| > 2 * AS_SEGMENT_MAX
    ensures ReadBack(p, use32bit) == None
  {
    hide PutBytes, PutCount, ParsePath;
    PutCountExact(p, use32bit);
  }
}
