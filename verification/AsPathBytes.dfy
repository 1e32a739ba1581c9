/**
  The bytes of an AS path as section 4.3 of RFC 4271 and section 3 of RFC 5065
  lay them out: type codes, lengths, and numbers most significant byte first.
 */
module AsPathBytes {
  import opened Asns
  import opened AsPaths
  import opened AsPathObjects
  import opened AsPathWire
  import opened AsPathParse
  import opened AsPathRoundTrip
  import opened AsPathPacking
  import opened Options
  import opened Streams

  /** The number that bytes spell, most significant first. */
  function Spelled(b: seq<Byte>): (n: nat)
    ensures |b| == 0 ==> n == 0
    ensures |b| == 1 ==> n < 0x100
    ensures |b| == 2 ==> n < 0x1_0000
    ensures |b| == 3 ==> n < 0x100_0000
    ensures |b| == 4 ==> n < 0x1_0000_0000
  {
    if b == [] then 0 else Spelled(b[..|b| - 1]) * 256 + b[|b| - 1]
  }

  lemma {:induction false} SpelledTwo(b: seq<Byte>)
    requires |b| == 2
    ensures Spelled(b) == (b[0] as int) * 256 + b[1]
  {
    assert b[..1] == [b[0]] && [b[0]][..0] == [];
    assert Spelled([]) == 0;
  }

  lemma {:induction false} SpelledFour(b: seq<Byte>)
    requires |b| == 4
    ensures Spelled(b) == (b[0] as int) * 0x100_0000 + (b[1] as int) * 0x1_0000 + (b[2] as int) * 256 + b[3]
  {
    var c := b[..3];
    assert c[..2] == b[..2];
    SpelledTwo(b[..2]);
    assert Spelled(c) == Spelled(b[..2]) * 256 + b[2];
  }

  // ---------------------------------------------------------------------
  // Writing

  lemma {:induction false} NumberBytes(a: Asn, use32bit: bool)
    ensures
      var b := EncodeAsn(a, use32bit);
      && |b| == (if use32bit then 4 else 2)
      && Spelled(b) == if use32bit || a <= 65535 then a else 23456
  {
    var b := EncodeAsn(a, use32bit);
    if use32bit {
      SpelledFour(b);
      Horner(a);
    } else {
      SpelledTwo(b);
    }
  }

  lemma {:induction false} Horner(a: Asn)
    ensures
      var b := Be32(a);
      (b[0] as int) * 0x100_0000 + (b[1] as int) * 0x1_0000 + (b[2] as int) * 256 + b[3] == a
  {
    var hi, lo := a / 0x1_0000, a % 0x1_0000;
    assert Be32(a) == [hi / 256, hi % 256, lo / 256, lo % 256];
    assert hi / 256 * 256 + hi % 256 == hi && lo / 256 * 256 + lo % 256 == lo;
  }

  /** The bytes of the number at one place. */
  lemma {:induction false} NumbersBytes(s: seq<Asn>, use32bit: bool, k: nat)
    requires k < |s|
    ensures
      var n := if use32bit then 4 else 2;
      var b := EncodeAsns(s, use32bit);
      && |b| == n * |s| && n * k + n <= |b|
      && b[n * k..n * k + n] == EncodeAsn(s[k], use32bit)
    decreases |s|
  {
    hide EncodeAsn;
    NumberBytes(s[k], use32bit);
    var n := if use32bit then 4 else 2;
    var t := s[..|s| - 1];
    if k < |t| {
      NumbersBytes(t, use32bit, k);
      assert t[k] == s[k];
      assert EncodeAsns(s, use32bit)[n * k..n * k + n] == EncodeAsns(t, use32bit)[n * k..n * k + n];
    }
  }

  /**
    A path of one segment is written as its code (1 set, 2 sequence, 3
    confederation sequence, 4 confederation set), its length, and its numbers in
    4 bytes, or in 2 bytes with 23456 for those above 65535.
   */
  lemma {:induction false} SegmentBytes(kind: SegKind, s: seq<Asn>, use32bit: bool)
    requires 1 <= |s| <= 255
    ensures
      var n := if use32bit then 4 else 2;
      var b := PutBytes([Segment(kind, s)], use32bit);
      && |b| == 2 + n * |s|
      && b[0] == (match kind { case AsSet => 1 case AsSequence => 2 case ConfedSequence => 3 case ConfedSet => 4 })
      && b[1] == |s|
      && forall k :: 0 <= k < |s| ==>
           Spelled(b[2 + n * k..2 + n * k + n]) == if use32bit || s[k] <= 65535 then s[k] else 23456
  {
    hide EncodeAsns, EncodeAsn;
    var p := [Segment(kind, s)];
    OneGroup(p[0], use32bit);
    var n := if use32bit then 4 else 2;
    var b := PutBytes(p, use32bit);
    forall k | 0 <= k < |s|
      ensures 2 + n * k + n <= |b|
      ensures Spelled(b[2 + n * k..2 + n * k + n]) == if use32bit || s[k] <= 65535 then s[k] else 23456
    {
      NumbersBytes(s, use32bit, k);
      NumberBytes(s[k], use32bit);
      assert b[2 + n * k..2 + n * k + n] == EncodeAsns(s, use32bit)[n * k..n * k + n];
    }
  }

  lemma {:induction false} OneTurn(seg: Segment, use32bit: bool)
    requires seg.asns != []
    ensures PutBytes([seg], use32bit) ==
      SplitBytes(seg, Splits(|seg.asns|), use32bit) + EncodeSegment(seg.kind, |Rest(seg)|, Rest(seg), use32bit)
  {
    hide EncodeSegment, Splits, SplitBytes, Rest;
    assert [seg][1..] == [];
    assert PackCount(seg, []) == 0 && PackedAsns([], 0) == [];
    assert Rest(seg) + [] == Rest(seg);
    assert PutFrom([], use32bit) == [];
  }

  lemma {:induction false} OneGroup(seg: Segment, use32bit: bool)
    requires 1 <= |seg.asns| <= 255
    ensures PutBytes([seg], use32bit) == [KindCode(seg.kind), |seg.asns|] + EncodeAsns(seg.asns, use32bit)
    ensures |EncodeAsns(seg.asns, use32bit)| == |seg.asns| * if use32bit then 4 else 2
  {
    hide EncodeAsns, PutBytes;
    OneTurn(seg, use32bit);
    assert Splits(|seg.asns|) == 0 && Rest(seg) == seg.asns;
    assert SplitBytes(seg, 0, use32bit) == [];
  }

  // ---------------------------------------------------------------------
  // Reading

  lemma {:induction false} Slice(b: seq<Byte>, i: nat, j: nat, x: nat, y: nat)
    requires i <= j <= |b| && x <= y <= j - i
    ensures b[i..j][x..y] == b[i + x..i + y]
  {
    var c := b[i..j];
    forall k | 0 <= k < y - x ensures c[x..y][k] == b[i + x..i + y][k] {
    }
    assert c[x..y] == b[i + x..i + y];
  }

  lemma {:induction false} NumberRead(b: seq<Byte>)
    requires |b| == 2 || |b| == 4
    ensures DecodeAsn(b) == Spelled(b)
  {
    if |b| == 2 {
      SpelledTwo(b);
    } else {
      SpelledFour(b);
    }
  }

  lemma {:induction false} NumbersRead(b: seq<Byte>, n: nat, use32bit: bool, k: nat)
    requires |b| == Width(n, use32bit) && k < n
    ensures
      var w := if use32bit then 4 else 2;
      && w * k + w <= |b|
      && DecodeAsns(b, n, use32bit)[k] == Spelled(b[w * k..w * k + w])
    decreases n
  {
    hide DecodeAsn, Spelled;
    var w := if use32bit then 4 else 2;
    var front := b[..Width(n - 1, use32bit)];
    if k < n - 1 {
      NumbersRead(front, n - 1, use32bit, k);
      assert front[w * k..w * k + w] == b[w * k..w * k + w];
    } else {
      assert b[Width(n - 1, use32bit)..] == b[w * k..w * k + w];
      NumberRead(b[w * k..w * k + w]);
    }
  }

  /**
    A segment is read exactly from a code between 1 and 4, a length above zero
    and as many numbers behind it; it has the kind of the code and these numbers.
   */
  lemma {:induction false} SegmentRead(b: seq<Byte>, use32bit: bool)
    ensures
      var n := if use32bit then 4 else 2;
      ParseOne(b, use32bit).Some? <==> |b| > 2 && 1 <= b[0] <= 4 && b[1] > 0 && 2 + n * b[1] <= |b|
    ensures ParseOne(b, use32bit).Some? ==>
      var n := if use32bit then 4 else 2;
      var (seg, size) := ParseOne(b, use32bit).value;
      && (b[0] == 1 <==> seg.kind == AsSet) && (b[0] == 2 <==> seg.kind == AsSequence)
      && (b[0] == 3 <==> seg.kind == ConfedSequence) && (b[0] == 4 <==> seg.kind == ConfedSet)
      && |seg.asns| == b[1] && size == 2 + n * b[1]
      && forall k :: 0 <= k < |seg.asns| ==> seg.asns[k] == Spelled(b[2 + n * k..2 + n * k + n])
  {
    hide DecodeAsns, Spelled;
    if ParseOne(b, use32bit).Some? {
      var n := if use32bit then 4 else 2;
      var (seg, size) := ParseOne(b, use32bit).value;
      var d := b[2..size];
      forall k | 0 <= k < |seg.asns|
        ensures 2 + n * k + n <= |b|
        ensures seg.asns[k] == Spelled(b[2 + n * k..2 + n * k + n])
      {
        NumbersRead(d, b[1], use32bit, k);
        Slice(b, 2, size, n * k, n * k + n);
      }
    }
  }

  // ---------------------------------------------------------------------
  // Limits

  /** A segment of 511 numbers or more is what the byte count and the length cannot bear. */
  lemma {:induction false} TwoPiecesMeans(p: Path, use32bit: bool)
    requires p != [] ==> p[0].asns != []
    ensures PutCount(p, use32bit) == |PutBytes(p, use32bit)| <==> forall i :: 0 <= i < |p| ==> |p[i].asns| <= 510
  {
    hide PutCount, PutBytes;
    PutCountExact(p, use32bit);
  }

  /** A long segment goes out as full pieces of 255 numbers and a rest. */
  lemma {:induction false} LongSegmentBytes(kind: SegKind, s: seq<Asn>, use32bit: bool)
    requires 255 < |s| <= 510
    ensures PutBytes([Segment(kind, s)], use32bit) ==
      PutBytes([Segment(kind, s[..255])], use32bit) + PutBytes([Segment(kind, s[255..])], use32bit)
  {
    hide EncodeSegment, PutBytes, SplitBytes, Splits, Rest;
    var x, y := s[..255], s[255..];
    OneTurn(Segment(kind, s), use32bit);
    TwoPieces(kind, s, use32bit);
    OnePiece(kind, x, use32bit);
    OnePiece(kind, y, use32bit);
  }

  lemma {:induction false} TwoPieces(kind: SegKind, s: seq<Asn>, use32bit: bool)
    requires 255 < |s| <= 510
    ensures
      var seg := Segment(kind, s);
      && Splits(|s|) == 1 && Rest(seg) == s[255..]
      && SplitBytes(seg, 1, use32bit) == EncodeSegment(kind, 255, s[..255], use32bit)
  {
    hide EncodeSegment;
    var seg := Segment(kind, s);
    assert Splits(|s| - 255) == 0;
    assert SplitBytes(seg, 0, use32bit) == [];
    assert [] + EncodeSegment(kind, 255, s[..255], use32bit) == EncodeSegment(kind, 255, s[..255], use32bit);
  }

  lemma {:induction false} OnePiece(kind: SegKind, s: seq<Asn>, use32bit: bool)
    requires 1 <= |s| <= 255
    ensures PutBytes([Segment(kind, s)], use32bit) == EncodeSegment(kind, |s|, s, use32bit)
  {
    hide PutBytes, EncodeAsns;
    OneGroup(Segment(kind, s), use32bit);
  }

  // ---------------------------------------------------------------------
  // Two segments

  /** Two sequences of 255 numbers at most are written as one if they are no longer together, and otherwise one by one. */
  lemma {:induction false} TwoSequencesBytes(a: seq<Asn>, b: seq<Asn>, use32bit: bool)
    requires 1 <= |a| <= 255 && 1 <= |b| <= 255
    ensures
      var x, y := Segment(AsSequence, a), Segment(AsSequence, b);
      PutBytes([x, y], use32bit) ==
        if |a| + |b| <= 255 then PutBytes([Segment(AsSequence, a + b)], use32bit)
        else PutBytes([x], use32bit) + PutBytes([y], use32bit)
  {
    hide EncodeSegment, PutBytes;
    var x, y := Segment(AsSequence, a), Segment(AsSequence, b);
    if |a| + |b| <= 255 {
      PackedPair(x, y, use32bit);
      OnePiece(AsSequence, a + b, use32bit);
    } else {
      UnpackedPair(x, y, use32bit);
      OnePiece(AsSequence, a, use32bit);
      OnePiece(AsSequence, b, use32bit);
    }
  }

  /** One turn of the encoder from a segment that is not split. */
  lemma {:induction false} ShortTurn(p: Path, n: nat, use32bit: bool)
    requires p != [] && 1 <= |p[0].asns| <= 255 && n == PackCount(p[0], p[1..])
    ensures PutFrom(p, use32bit) ==
      EncodeSegment(p[0].kind, LengthByte(p[0], p[1..], n), p[0].asns + PackedAsns(p[1..], n), use32bit) + PutFrom(p[1 + n..], use32bit)
  {
    hide EncodeSegment, PutFrom, PackCount, PackedAsns, LengthByte;
    PutStep(p, n, use32bit);
    assert Splits(|p[0].asns|) == 0 && Rest(p[0]) == p[0].asns;
    assert SplitBytes(p[0], 0, use32bit) == [];
  }

  lemma {:induction false} PackedPair(x: Segment, y: Segment, use32bit: bool)
    requires x.kind == y.kind == AsSequence && 1 <= |x.asns| && 1 <= |y.asns| && |x.asns| + |y.asns| <= 255
    ensures PutBytes([x, y], use32bit) == EncodeSegment(AsSequence, |x.asns| + |y.asns|, x.asns + y.asns, use32bit)
  {
    hide EncodeSegment, PutFrom;
    var p := [x, y];
    assert p[1..] == [y] && [y][1..] == [] && p[2..] == [];
    assert PackCount(x, []) == 0 && PackCount(x, [y]) == 1;
    ShortTurn(p, 1, use32bit);
    assert PackedAsns([y], 0) == [] && PackedAsns([y], 1) == y.asns;
    assert Splits(|x.asns|) == 0 && Rest(x) == x.asns;
    PutNone(use32bit);
    assert PutBytes(p, use32bit) == PutFrom(p, use32bit);
  }

  /** Neighbours that are not packed are written one by one. */
  lemma {:induction false} UnpackedPair(x: Segment, y: Segment, use32bit: bool)
    requires 1 <= |x.asns| <= 255 && 1 <= |y.asns| <= 255
    requires x.kind != AsSequence || y.kind != AsSequence || |x.asns| + |y.asns| > 255
    ensures PutBytes([x, y], use32bit) ==
      EncodeSegment(x.kind, |x.asns|, x.asns, use32bit) + EncodeSegment(y.kind, |y.asns|, y.asns, use32bit)
  {
    hide EncodeSegment, PutFrom;
    var p := [x, y];
    assert p[1..] == [y] && [y][1..] == [];
    assert PackCount(x, [y]) == 0 && PackCount(y, []) == 0;
    ShortTurn(p, 0, use32bit);
    ShortTurn([y], 0, use32bit);
    assert PackedAsns([y], 0) == [] && PackedAsns([], 0) == [] && x.asns + [] == x.asns && y.asns + [] == y.asns;
    assert Splits(|x.asns|) == 0 && Splits(|y.asns|) == 0 && Rest(x) == x.asns && Rest(y) == y.asns;
    PutNone(use32bit);
    assert PutBytes(p, use32bit) == PutFrom(p, use32bit);
  }
}
