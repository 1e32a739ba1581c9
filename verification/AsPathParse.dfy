/** `aspath_parse`: reading a path from an attribute's bytes. */
module AsPathParse {
  import opened Asns
  import opened AsPaths
  import opened AsPathObjects
  import opened AsPathWire
  import opened Options
  import opened Streams

  // ---------------------------------------------------------------------
  // Parsing

  /** The first segment and its size. */
  function ParseOne(b: seq<Byte>, use32bit: bool): (r: Option<(Segment, nat)>)
    ensures r.Some? ==> AS_HEADER_SIZE < r.value.1 <= |b|
  {
    if |b| <= AS_HEADER_SIZE then None
    else
      var size := AS_HEADER_SIZE + Width(b[1], use32bit);
      if size > |b| || b[1] == 0 || KindOf(b[0]).None? then None
      else Some((Segment(KindOf(b[0]).value, DecodeAsns(b[AS_HEADER_SIZE..size], b[1], use32bit)), size))
  }

  function ParseSegments(b: seq<Byte>, use32bit: bool): Option<Path> {
    if b == [] then Some([])
    else match ParseOne(b, use32bit)
      case None => None
      case Some((seg, size)) => After([seg], ParseSegments(b[size..], use32bit))
  }

  /** A parse result with segments already read in front. */
  function After(segs: Path, r: Option<Path>): Option<Path> {
    if r.None? then None else Some(segs + r.value)
  }

  function ParsePath(b: seq<Byte>, use32bit: bool): Option<Path> {
    if |b| % 2 != 0 then None
    else match ParseSegments(b, use32bit)
      case None => None
      case Some(p) => Some(Norm(p))
  }

  lemma SliceSplit<T>(d: seq<T>, i: nat, j: nat, k: nat)
    requires i <= j <= k <= |d|
    ensures d[i..k] == d[i..j] + d[j..k]
  {
  }

  method GetAsn(s: Stream, use32bit: bool) returns (a: Asn)
    requires s.getp + Width(1, use32bit) <= |s.data|
    modifies s`getp
    ensures s.getp == old(s.getp) + Width(1, use32bit)
    ensures a == DecodeAsn(s.data[old(s.getp)..s.getp])
  {
    if use32bit {
      a := s.GetL();
    } else {
      a := s.GetW();
    }
  }

  method GetAsns(s: Stream, n: nat, use32bit: bool) returns (asns: seq<Asn>)
    requires s.getp + Width(n, use32bit) <= |s.data|
    modifies s`getp
    ensures s.getp == old(s.getp) + Width(n, use32bit)
    ensures asns == DecodeAsns(s.data[old(s.getp)..s.getp], n, use32bit)
  {
    asns := [];
    ghost var g := s.getp;
    for i := 0 to n
      invariant s.getp == g + Width(i, use32bit)
      invariant asns == DecodeAsns(s.data[g..s.getp], i, use32bit)
    {
      hide DecodeAsn, DecodeAsns;
      ghost var mid := s.getp;
      var a := GetAsn(s, use32bit);
      SliceSplit(s.data, g, mid, s.getp);
      DecodeSnoc(s.data[g..mid], s.data[mid..s.getp], i, use32bit);
      asns := asns + [a];
    }
  }

  /** Header checks and AS numbers of one segment, with `left` bytes of the attribute to go. */
  method ReadOne(s: Stream, left: nat, use32bit: bool) returns (r: Option<(Segment, nat)>)
    requires s.getp + left <= |s.data|
    modifies s`getp
    ensures r == ParseOne(s.data[old(s.getp)..old(s.getp) + left], use32bit)
    ensures r.Some? ==> s.getp == old(s.getp) + r.value.1
  {
    hide KindOf, DecodeAsns;
    ghost var b := s.data[s.getp..s.getp + left];
    if left <= AS_HEADER_SIZE {
      return None;
    }
    var code := s.GetC();
    var n := s.GetC();
    var size := AS_HEADER_SIZE + Width(n, use32bit);
    if size > left || n == 0 {
      return None;
    }
    var kind := KindOf(code);
    if kind.None? {
      return None;
    }
    var asns := GetAsns(s, n, use32bit);
    assert s.data[old(s.getp) + AS_HEADER_SIZE..s.getp] == b[AS_HEADER_SIZE..size];
    return Some((Segment(kind.value, asns), size));
  }

  lemma ParseStep(segs: Path, b: seq<Byte>, use32bit: bool)
    requires b != []
    ensures ParseOne(b, use32bit).None? ==> After(segs, ParseSegments(b, use32bit)).None?
    ensures ParseOne(b, use32bit).Some? ==>
      var (seg, size) := ParseOne(b, use32bit).value;
      After(segs, ParseSegments(b, use32bit)) == After(segs + [seg], ParseSegments(b[size..], use32bit))
  {
    hide ParseOne;
    if ParseOne(b, use32bit).Some? {
      var (seg, size) := ParseOne(b, use32bit).value;
      var t := ParseSegments(b[size..], use32bit);
      if t.Some? {
        assert segs + ([seg] + t.value) == (segs + [seg]) + t.value;
      }
    }
  }

  lemma ParseEnds(segs: Path, r: Option<Path>, b: seq<Byte>, use32bit: bool)
    ensures After([], r) == r
    ensures b == [] ==> After(segs, ParseSegments(b, use32bit)) == Some(segs)
  {
    if r.Some? {
      assert [] + r.value == r.value;
    }
    assert segs + [] == segs;
  }

  /** `assegments_parse` without its final normalisation. */
  method ReadSegments(s: Stream, length: nat, use32bit: bool) returns (r: Option<Path>)
    requires s.getp + length <= |s.data|
    modifies s`getp
    ensures r == ParseSegments(s.data[old(s.getp)..old(s.getp) + length], use32bit)
    ensures r.Some? ==> s.getp == old(s.getp) + length
  {
    hide ParseOne, After, ParseSegments;
    ghost var end := s.getp + length;
    ghost var whole := ParseSegments(s.data[s.getp..end], use32bit);
    var segs := [];
    var bytes := 0;
    ParseEnds([], whole, [], use32bit);
    while bytes < length
      invariant 0 <= bytes <= length
      invariant s.getp == old(s.getp) + bytes
      invariant whole == After(segs, ParseSegments(s.data[s.getp..end], use32bit))
    {
      ghost var rest := s.data[s.getp..end];
      ParseStep(segs, rest, use32bit);
      var one := ReadOne(s, length - bytes, use32bit);
      if one.None? {
        AfterNone(segs, ParseSegments(rest, use32bit));
        return None;
      }
      var (seg, size) := one.value;
      assert rest[size..] == s.data[s.getp..end];
      segs := segs + [seg];
      bytes := bytes + size;
    }
    ParseEnds(segs, whole, s.data[s.getp..end], use32bit);
    return Some(segs);
  }

  lemma AfterNone(segs: Path, r: Option<Path>)
    ensures After(segs, r).None? ==> r.None? && After(segs, r) == None
  {
  }

  /** `aspath_parse`: an AS_PATH of `length` bytes, normalised. */
  method Parse(s: Stream, length: nat, use32bit: bool) returns (r: Option<Path>)
    requires s.Valid()
    modifies s`getp
    ensures length > |s.data| - old(s.getp) ==> r.None?
    ensures length <= |s.data| - old(s.getp) ==>
      && r == ParsePath(s.data[old(s.getp)..old(s.getp) + length], use32bit)
      && (r.Some? ==> s.getp == old(s.getp) + length)
  {
    if length == 0 {
      assert s.data[s.getp..s.getp] == [];
      return Some([]);
    }
    if |s.data| - s.getp < length || |s.data| - s.getp < AS_HEADER_SIZE || length % 2 != 0 {
      return None;
    }
    var segs := ReadSegments(s, length, use32bit);
    if segs.None? {
      return None;
    }
    var path := new AsPath(segs.value);
    path.Normalise();
    return Some(path.segments);
  }
}
