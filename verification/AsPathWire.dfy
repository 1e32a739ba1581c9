/**
  AS_PATH on the wire (section 4.3 of RFC 4271): `aspath_put` with its splitting
  of overlength segments and its back-patched packing, and `aspath_parse`.
 */
module AsPathWire {
  import opened Asns
  import opened AsPaths
  import opened AsPathObjects
  import opened Options
  import opened Streams

  // ---------------------------------------------------------------------
  // Byte layout

  const AS_HEADER_SIZE := 2

  function KindCode(k: SegKind): (c: Byte)
  {
    match k
    case AsSet => 1
    case AsSequence => 2
    case ConfedSequence => 3
    case ConfedSet => 4
  }

  function KindOf(c: Byte): (k: Option<SegKind>)
    ensures k.Some? ==> KindCode(k.value) == c
    ensures k.None? ==> forall j :: KindCode(j) != c
  {
    if c == 1 then Some(AsSet)
    else if c == 2 then Some(AsSequence)
    else if c == 3 then Some(ConfedSequence)
    else if c == 4 then Some(ConfedSet)
    else None
  }

  /** Bytes taken by `n` AS numbers. */
  function Width(n: nat, use32bit: bool): nat {
    if use32bit then 4 * n else 2 * n
  }

  /** What a 2-byte peer sees of an AS number. */
  function Narrow(a: Asn, use32bit: bool): Asn {
    if use32bit || a <= BGP_AS_MAX then a else BGP_AS_TRANS
  }

  function NarrowAsns(s: seq<Asn>, use32bit: bool): seq<Asn> {
    seq(|s|, i requires 0 <= i < |s| => Narrow(s[i], use32bit))
  }

  function NarrowSegment(s: Segment, use32bit: bool): Segment {
    Segment(s.kind, NarrowAsns(s.asns, use32bit))
  }

  function NarrowPath(p: Path, use32bit: bool): Path {
    seq(|p|, i requires 0 <= i < |p| => NarrowSegment(p[i], use32bit))
  }

  function EncodeAsn(a: Asn, use32bit: bool): seq<Byte> {
    if use32bit then Be32(a) else Be16(Narrow(a, false))
  }

  function EncodeAsns(s: seq<Asn>, use32bit: bool): (b: seq<Byte>)
    ensures |b| == Width(|s|, use32bit)
  {
    if s == [] then [] else EncodeAsns(s[..|s| - 1], use32bit) + EncodeAsn(s[|s| - 1], use32bit)
  }

  function DecodeAsn(b: seq<Byte>): Asn
    requires |b| == 2 || |b| == 4
  {
    if |b| == 4 then Val32(b) else Val16(b)
  }

  function DecodeAsns(b: seq<Byte>, n: nat, use32bit: bool): (s: seq<Asn>)
    requires |b| == Width(n, use32bit)
    ensures |s| == n
  {
    if n == 0 then []
    else
      var k := Width(n - 1, use32bit);
      DecodeAsns(b[..k], n - 1, use32bit) + [DecodeAsn(b[k..])]
  }

  lemma DecodeEncodeAsn(a: Asn, use32bit: bool)
    ensures |EncodeAsn(a, use32bit)| == Width(1, use32bit)
    ensures DecodeAsn(EncodeAsn(a, use32bit)) == Narrow(a, use32bit)
  {
    if use32bit { Val32OfBe32(a); } else { Val16OfBe16(Narrow(a, false)); }
  }

  lemma NarrowAsnsSnoc(s: seq<Asn>, a: Asn, use32bit: bool)
    ensures NarrowAsns(s + [a], use32bit) == NarrowAsns(s, use32bit) + [Narrow(a, use32bit)]
  {
  }

  lemma {:induction false} DecodeEncodeAsns(s: seq<Asn>, use32bit: bool)
    ensures DecodeAsns(EncodeAsns(s, use32bit), |s|, use32bit) == NarrowAsns(s, use32bit)
  {
    if s != [] {
      var t, a := s[..|s| - 1], s[|s| - 1];
      var x, y := EncodeAsns(t, use32bit), EncodeAsn(a, use32bit);
      DecodeEncodeAsns(t, use32bit);
      DecodeEncodeAsn(a, use32bit);
      NarrowAsnsSnoc(t, a, use32bit);
      assert s == t + [a];
      DecodeSnoc(x, y, |t|, use32bit);
    }
  }

  lemma DecodeSnoc(x: seq<Byte>, y: seq<Byte>, n: nat, use32bit: bool)
    requires |x| == Width(n, use32bit) && |y| == Width(1, use32bit)
    ensures DecodeAsns(x + y, n + 1, use32bit) == DecodeAsns(x, n, use32bit) + [DecodeAsn(y)]
  {
    assert (x + y)[..|x|] == x && (x + y)[|x|..] == y;
  }

  lemma {:induction false} EncodeAsnsConcat(a: seq<Asn>, b: seq<Asn>, use32bit: bool)
    ensures EncodeAsns(a + b, use32bit) == EncodeAsns(a, use32bit) + EncodeAsns(b, use32bit)
  {
    hide EncodeAsn;
    if b == [] {
      assert a + b == a;
    } else {
      var n := |b| - 1;
      assert (a + b)[..|a + b| - 1] == a + b[..n];
      EncodeAsnsConcat(a, b[..n], use32bit);
    }
  }

  function EncodeSegment(kind: SegKind, length: Byte, asns: seq<Asn>, use32bit: bool): (b: seq<Byte>)
    ensures |b| == AS_HEADER_SIZE + Width(|asns|, use32bit)
  {
    [KindCode(kind), length] + EncodeAsns(asns, use32bit)
  }

  // ---------------------------------------------------------------------
  // aspath_put

  /** How many full-size segments the splitting loop emits for `n` AS numbers. */
  function Splits(n: nat): nat {
    if n <= AS_SEGMENT_MAX then 0 else 1 + Splits(n - AS_SEGMENT_MAX)
  }

  lemma {:induction false} SplitsBounds(n: nat)
    ensures AS_SEGMENT_MAX * Splits(n) <= n
    ensures n - AS_SEGMENT_MAX * Splits(n) <= AS_SEGMENT_MAX
    ensures n > 0 ==> AS_SEGMENT_MAX * Splits(n) < n
    ensures Splits(n) == 0 <==> n <= AS_SEGMENT_MAX
    ensures Splits(n) <= 1 <==> n <= 2 * AS_SEGMENT_MAX
  {
    if n > AS_SEGMENT_MAX {
      SplitsBounds(n - AS_SEGMENT_MAX);
    }
  }

  /** The splitting loop always re-sends the first 255 AS numbers of the segment. */
  function SplitBytes(seg: Segment, k: nat, use32bit: bool): seq<Byte>
    requires k > 0 ==> AS_SEGMENT_MAX <= |seg.asns|
  {
    if k == 0 then [] else
      SplitBytes(seg, k - 1, use32bit)
      + EncodeSegment(seg.kind, AS_SEGMENT_MAX, seg.asns[..AS_SEGMENT_MAX], use32bit)
  }

  /** The byte count the splitting loop adds up: it charges the running total each time. */
  function SplitCount(k: nat, use32bit: bool): nat {
    if k == 0 then 0
    else SplitCount(k - 1, use32bit) + AS_HEADER_SIZE + Width(AS_SEGMENT_MAX * k, use32bit)
  }

  function Rest(seg: Segment): (r: seq<Asn>)
    ensures |r| <= AS_SEGMENT_MAX && |r| <= |seg.asns|
    ensures seg.asns != [] ==> r != []
  {
    SplitsBounds(|seg.asns|);
    seg.asns[AS_SEGMENT_MAX * Splits(|seg.asns|)..]
  }

  /** Does `next` fit behind `seg`?  Earlier packed segments are not taken into account. */
  predicate Fits(seg: Segment, next: Segment) {
    Packable(seg, next) && |seg.asns| + |next.asns| <= AS_SEGMENT_MAX
  }

  /** How many following segments are packed behind `seg`. */
  function PackCount(seg: Segment, rest: Path): (n: nat)
    ensures n <= |rest|
    ensures n < |rest| ==> !Fits(seg, rest[n])
    ensures forall i :: 0 <= i < n ==> Fits(seg, rest[i])
  {
    if rest != [] && Fits(seg, rest[0]) then 1 + PackCount(seg, rest[1..]) else 0
  }

  function PackedAsns(rest: Path, n: nat): seq<Asn>
    requires n <= |rest|
  {
    if n == 0 then [] else PackedAsns(rest, n - 1) + rest[n - 1].asns
  }

  /** The length byte: patched to the last packed segment only. */
  function LengthByte(seg: Segment, rest: Path, n: nat): Byte
    requires n <= |rest|
    requires n > 0 ==> Fits(seg, rest[n - 1])
  {
    SplitsBounds(|seg.asns|);
    if n == 0 then |Rest(seg)| else |Rest(seg)| + |rest[n - 1].asns|
  }

  function GroupBytes(seg: Segment, rest: Path, n: nat, use32bit: bool): seq<Byte>
    requires n <= |rest|
    requires n > 0 ==> Fits(seg, rest[n - 1])
  {
    SplitsBounds(|seg.asns|);
    SplitBytes(seg, Splits(|seg.asns|), use32bit)
    + EncodeSegment(seg.kind, LengthByte(seg, rest, n), Rest(seg) + PackedAsns(rest, n), use32bit)
  }

  function GroupCount(seg: Segment, rest: Path, n: nat, use32bit: bool): nat
    requires n <= |rest|
  {
    SplitCount(Splits(|seg.asns|), use32bit)
    + AS_HEADER_SIZE + Width(|Rest(seg)| + |PackedAsns(rest, n)|, use32bit)
  }

  function PutFrom(p: Path, use32bit: bool): seq<Byte> {
    if p == [] then []
    else
      var n := PackCount(p[0], p[1..]);
      GroupBytes(p[0], p[1..], n, use32bit) + PutFrom(p[1 + n..], use32bit)
  }

  function CountFrom(p: Path, use32bit: bool): nat {
    if p == [] then 0
    else
      var n := PackCount(p[0], p[1..]);
      GroupCount(p[0], p[1..], n, use32bit) + CountFrom(p[1 + n..], use32bit)
  }

  /** A path whose first segment is empty is not written at all. */
  function PutBytes(p: Path, use32bit: bool): seq<Byte> {
    if p == [] || p[0].asns == [] then [] else PutFrom(p, use32bit)
  }

  function PutCount(p: Path, use32bit: bool): nat {
    if p == [] || p[0].asns == [] then 0 else CountFrom(p, use32bit)
  }

  /** `assegment_data_put`. */
  method DataPut(s: Stream, asns: seq<Asn>, use32bit: bool)
    requires |asns| <= AS_SEGMENT_MAX
    modifies s`data
    ensures s.data == old(s.data) + EncodeAsns(asns, use32bit)
  {
    for i := 0 to |asns|
      invariant s.data == old(s.data) + EncodeAsns(asns[..i], use32bit)
    {
      assert asns[..i + 1][..i] == asns[..i];
      if use32bit {
        s.PutL(asns[i]);
      } else if asns[i] <= BGP_AS_MAX {
        s.PutW(asns[i]);
      } else {
        s.PutW(BGP_AS_TRANS);
      }
    }
    assert asns[..|asns|] == asns;
  }

  /** `assegment_header_put`: returns where the length byte is. */
  method HeaderPut(s: Stream, kind: SegKind, length: nat) returns (lenp: nat)
    requires length <= AS_SEGMENT_MAX
    modifies s`data
    ensures s.data == old(s.data) + [KindCode(kind), length]
    ensures lenp == |old(s.data)| + 1
  {
    s.PutC(KindCode(kind));
    lenp := |s.data|;
    s.PutC(length);
  }

  /** The splitting loop of `aspath_put`. */
  method PutSplits(s: Stream, seg: Segment, use32bit: bool) returns (written: nat, bytes: nat)
    modifies s`data
    ensures written == AS_SEGMENT_MAX * Splits(|seg.asns|) <= |seg.asns|
    ensures s.data == old(s.data) + SplitBytes(seg, Splits(|seg.asns|), use32bit)
    ensures bytes == SplitCount(Splits(|seg.asns|), use32bit)
  {
    hide EncodeAsns, KindCode;
    ghost var k := 0;
    written, bytes := 0, 0;
    while |seg.asns| - written > AS_SEGMENT_MAX
      invariant written == AS_SEGMENT_MAX * k <= |seg.asns|
      invariant Splits(|seg.asns|) == k + Splits(|seg.asns| - written)
      invariant s.data == old(s.data) + SplitBytes(seg, k, use32bit)
      invariant bytes == SplitCount(k, use32bit)
      decreases |seg.asns| - written
    {
      var _ := HeaderPut(s, seg.kind, AS_SEGMENT_MAX);
      DataPut(s, seg.asns[..AS_SEGMENT_MAX], use32bit);
      k := k + 1;
      written := written + AS_SEGMENT_MAX;
      bytes := bytes + AS_HEADER_SIZE + Width(written, use32bit);
    }
  }

  lemma PatchLength(front: seq<Byte>, kind: SegKind, was: Byte, now: Byte, asns: seq<Asn>, more: seq<Asn>, use32bit: bool)
    ensures (front + EncodeSegment(kind, was, asns, use32bit) + EncodeAsns(more, use32bit))[|front| + 1 := now]
         == front + EncodeSegment(kind, now, asns + more, use32bit)
  {
    hide EncodeAsn, EncodeAsns, KindCode;
    EncodeAsnsConcat(asns, more, use32bit);
    var d, e := EncodeAsns(asns, use32bit), EncodeAsns(more, use32bit);
    var was' := front + EncodeSegment(kind, was, asns, use32bit) + e;
    assert was' == front + [KindCode(kind), was] + (d + e);
  }

  lemma {:induction false} PackCountIs(seg: Segment, rest: Path, n: nat)
    requires n <= |rest| && forall i :: 0 <= i < n ==> Fits(seg, rest[i])
    requires n < |rest| ==> !Fits(seg, rest[n])
    ensures n == PackCount(seg, rest)
  {
    hide Fits, PackCount;
  }

  /** The last piece of `seg` with `n` segments packed behind it. */
  ghost function PackedBytes(seg: Segment, rest: Path, n: nat, use32bit: bool): seq<Byte>
    requires n <= |rest| && (n > 0 ==> Fits(seg, rest[n - 1]))
  {
    EncodeSegment(seg.kind, LengthByte(seg, rest, n), Rest(seg) + PackedAsns(rest, n), use32bit)
  }

  lemma {:induction false} PackedNone(seg: Segment, rest: Path, use32bit: bool)
    ensures |Rest(seg)| <= AS_SEGMENT_MAX
    ensures PackedBytes(seg, rest, 0, use32bit) == EncodeSegment(seg.kind, |Rest(seg)|, Rest(seg), use32bit)
  {
    hide EncodeSegment, Rest;
    SplitsBounds(|seg.asns|);
    assert Rest(seg) + PackedAsns(rest, 0) == Rest(seg);
  }

  lemma {:induction false} PackedRoom(seg: Segment, next: Segment)
    requires Fits(seg, next)
    ensures |Rest(seg)| + |next.asns| <= AS_SEGMENT_MAX
  {
    SplitsBounds(|seg.asns|);
  }

  lemma {:induction false} PackedAsnsNext(rest: Path, n: nat, a: seq<Asn>)
    requires n < |rest|
    ensures a + PackedAsns(rest, n + 1) == a + PackedAsns(rest, n) + rest[n].asns
  {
  }

  lemma {:induction false} PackedAsnsLength(rest: Path, n: nat)
    requires n < |rest|
    ensures |PackedAsns(rest, n + 1)| == |PackedAsns(rest, n)| + |rest[n].asns|
  {
  }

  /** One more packed segment: its numbers are appended, the length byte patched. */
  lemma {:induction false} PackedNext(front: seq<Byte>, seg: Segment, rest: Path, n: nat, use32bit: bool)
    requires n < |rest| && Fits(seg, rest[n]) && (n > 0 ==> Fits(seg, rest[n - 1]))
    ensures |Rest(seg)| + |rest[n].asns| <= AS_SEGMENT_MAX
    ensures |PackedBytes(seg, rest, n, use32bit)| >= AS_HEADER_SIZE
    ensures
      (front + PackedBytes(seg, rest, n, use32bit) + EncodeAsns(rest[n].asns, use32bit))[|front| + 1 := |Rest(seg)| + |rest[n].asns|]
      == front + PackedBytes(seg, rest, n + 1, use32bit)
  {
    hide EncodeAsns, Rest, Splits, Fits, PackedAsns, KindCode;
    PackedRoom(seg, rest[n]);
    PackedAsnsNext(rest, n, Rest(seg));
    assert |PackedBytes(seg, rest, n, use32bit)| >= AS_HEADER_SIZE;
    hide EncodeSegment;
    PatchLength(front, seg.kind, LengthByte(seg, rest, n), LengthByte(seg, rest, n + 1), Rest(seg) + PackedAsns(rest, n), rest[n].asns, use32bit);
  }

  lemma {:induction false} PackedAsnsNone(rest: Path)
    ensures PackedAsns(rest, 0) == []
  {
  }

  /** One turn of the packing loop: the numbers are appended and the length byte patched. */
  method PackOne(s: Stream, ghost front: seq<Byte>, seg: Segment, final: seq<Asn>, rest: Path, n: nat, lenp: nat, use32bit: bool)
    requires final == Rest(seg) && lenp == |front| + 1
    requires n < |rest| && Fits(seg, rest[n]) && (n > 0 ==> Fits(seg, rest[n - 1]))
    requires s.data == front + PackedBytes(seg, rest, n, use32bit)
    modifies s`data
    ensures s.data == front + PackedBytes(seg, rest, n + 1, use32bit)
  {
    hide EncodeSegment, EncodeAsns, Rest, PackedAsns, PackedBytes, Fits;
    PackedNext(front, seg, rest, n, use32bit);
    DataPut(s, rest[n].asns, use32bit);
    s.PutCAt(lenp, |final| + |rest[n].asns|);
  }

  /** The packing loop of `aspath_put` behind the segment `seg`, whose last piece `final` is written. */
  method PackFollowing(s: Stream, ghost front: seq<Byte>, seg: Segment, final: seq<Asn>, rest: Path, lenp: nat, use32bit: bool)
    returns (n: nat, packed: nat)
    requires final == Rest(seg) && |final| <= AS_SEGMENT_MAX
    requires lenp == |front| + 1
    requires s.data == front + EncodeSegment(seg.kind, |final|, final, use32bit)
    modifies s`data
    ensures n == PackCount(seg, rest) && packed == |PackedAsns(rest, n)|
    ensures s.data == front + PackedBytes(seg, rest, n, use32bit)
  {
    hide EncodeSegment, EncodeAsns, Rest, PackCount, PackedAsns, PackedBytes, Fits;
    n, packed := 0, 0;
    PackedNone(seg, rest, use32bit);
    PackedAsnsNone(rest);
    while n < |rest| && Fits(seg, rest[n])
      invariant 0 <= n <= |rest|
      invariant forall i :: 0 <= i < n ==> Fits(seg, rest[i])
      invariant packed == |PackedAsns(rest, n)|
      invariant s.data == front + PackedBytes(seg, rest, n, use32bit)
    {
      PackOne(s, front, seg, final, rest, n, lenp, use32bit);
      PackedAsnsLength(rest, n);
      packed := packed + |rest[n].asns|;
      n := n + 1;
    }
    PackCountIs(seg, rest, n);
  }

  /** One turn of the outer loop of `aspath_put`: a segment and what is packed behind it. */
  method PutGroup(s: Stream, seg: Segment, rest: Path, use32bit: bool) returns (n: nat, bytes: nat)
    modifies s`data
    ensures n == PackCount(seg, rest)
    ensures s.data == old(s.data) + GroupBytes(seg, rest, n, use32bit)
    ensures bytes == GroupCount(seg, rest, n, use32bit)
  {
    hide EncodeAsns, SplitBytes, SplitCount, Splits, PackedAsns, LengthByte, KindCode;
    SplitsBounds(|seg.asns|);
    var written, splitBytes := PutSplits(s, seg, use32bit);
    ghost var front := s.data;
    var final := seg.asns[written..];
    var lenp := HeaderPut(s, seg.kind, |final|);
    DataPut(s, final, use32bit);
    assert s.data == front + EncodeSegment(seg.kind, |final|, final, use32bit);
    var packed;
    n, packed := PackFollowing(s, front, seg, final, rest, lenp, use32bit);
    bytes := splitBytes + AS_HEADER_SIZE + Width(|final| + packed, use32bit);
  }

  lemma PutFromStep(p: Path, k: nat, use32bit: bool)
    requires k < |p|
    ensures var n := PackCount(p[k], p[k + 1..]);
            && PutFrom(p[k..], use32bit) == GroupBytes(p[k], p[k + 1..], n, use32bit) + PutFrom(p[k + 1 + n..], use32bit)
            && CountFrom(p[k..], use32bit) == GroupCount(p[k], p[k + 1..], n, use32bit) + CountFrom(p[k + 1 + n..], use32bit)
  {
    var n := PackCount(p[k], p[k + 1..]);
    assert p[k..][0] == p[k] && p[k..][1..] == p[k + 1..];
    assert p[k..][1 + n..] == p[k + 1 + n..];
  }

  /** `aspath_put`, into a stream with room. */
  method Put(s: Stream, p: Path, use32bit: bool) returns (bytes: nat)
    modifies s`data
    ensures s.data == old(s.data) + PutBytes(p, use32bit)
    ensures bytes == PutCount(p, use32bit)
  {
    hide GroupBytes, GroupCount, PackCount, PutFrom, CountFrom;
    bytes := 0;
    if |p| == 0 || |p[0].asns| == 0 {
      return;
    }
    var k := 0;
    assert p[0..] == p;
    while k < |p|
      invariant 0 <= k <= |p|
      invariant s.data + PutFrom(p[k..], use32bit) == old(s.data) + PutFrom(p, use32bit)
      invariant bytes + CountFrom(p[k..], use32bit) == CountFrom(p, use32bit)
    {
      PutFromStep(p, k, use32bit);
      ghost var before := s.data;
      var n, more := PutGroup(s, p[k], p[k + 1..], use32bit);
      ghost var g, t := GroupBytes(p[k], p[k + 1..], n, use32bit), PutFrom(p[k + 1 + n..], use32bit);
      assert before + (g + t) == (before + g) + t;
      bytes := bytes + more;
      k := k + 1 + n;
    }
    PutFromEnd(p, k, use32bit);
  }

  lemma PutFromEnd(p: Path, k: nat, use32bit: bool)
    requires k == |p|
    ensures PutFrom(p[k..], use32bit) == [] && CountFrom(p[k..], use32bit) == 0
  {
  }
}
