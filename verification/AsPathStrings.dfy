/** The loops that print an AS path into a sized buffer and read it back token by token. */
module AsPathStrings {
  import opened Asns
  import opened AsPaths
  import opened Decimals
  import opened Options
  import opened Sequences
  import opened AsPathText

  const ASPATH_STR_DEFAULT_LEN: nat := 32
  /** Ten digits and a separator. */
  const ASN_STR_LEN: nat := 11

  function CountAsns(p: Path): nat {
    if p == [] then 0 else |p[0].asns| + CountAsns(p[1..])
  }

  /** `assegment_count_asns` from the first segment. */
  method CountAllAsns(p: Path) returns (n: nat)
    ensures n == CountAsns(p)
  {
    n := 0;
    var i := 0;
    while i < |p|
      invariant 0 <= i <= |p|
      invariant n + CountAsns(p[i..]) == CountAsns(p)
    {
      assert p[i..][1..] == p[i + 1..];
      n := n + |p[i].asns|;
      i := i + 1;
    }
  }

  function SegmentStrLen(s: Segment): nat {
    |s.asns| * ASN_STR_LEN + 2 + 1 + 1
  }

  lemma {:induction false} AsnsTextLength(asns: seq<Asn>, sep: char)
    ensures |AsnsText(asns, sep)| <= ASN_STR_LEN * |asns|
    ensures asns != [] ==> |AsnsText(asns, sep)| < ASN_STR_LEN * |asns|
  {
    hide Dec;
    if asns != [] {
      DecLengths(asns[0]);
      AsnsTextLength(asns[1..], sep);
    }
  }

  /** Text printed so far, in a buffer of `size` characters; a print that does not fit would be cut. */
  datatype Buffer = Buffer(text: string, size: nat)

  /** `snprintf` at the end of the text, with room for the terminating zero. */
  method Snprintf(b: Buffer, s: string) returns (r: Buffer)
    requires |b.text| + |s| < b.size
    ensures r == Buffer(b.text + s, b.size)
  {
    r := Buffer(b.text + s, b.size);
  }

  lemma AsnsTextFrom(asns: seq<Asn>, i: nat, sep: char)
    requires i < |asns|
    ensures AsnsText(asns[i..], sep) == Dec(asns[i]) + if i < |asns| - 1 then [sep] + AsnsText(asns[i + 1..], sep) else ""
  {
    hide Dec;
    assert asns[i..][1..] == asns[i + 1..];
  }

  /** The AS numbers of one segment with their separators, bar the last one. */
  method PrintAsns(b: Buffer, asns: seq<Asn>, sep: char) returns (r: Buffer)
    requires |b.text| + ASN_STR_LEN * |asns| < b.size
    ensures r == Buffer(b.text + AsnsText(asns, sep), b.size)
  {
    hide Dec, AsnsText;
    r := b;
    assert asns[0..] == asns;
    for i := 0 to |asns|
      invariant r.size == b.size && |r.text| <= |b.text| + ASN_STR_LEN * i
      invariant r.text + AsnsText(asns[i..], sep) == b.text + AsnsText(asns, sep)
    {
      DecLengths(asns[i]);
      AsnsTextFrom(asns, i, sep);
      ghost var before := r.text;
      r := Snprintf(r, Dec(asns[i]));
      if i < |asns| - 1 {
        r := Snprintf(r, [sep]);
        Regroup(before, Dec(asns[i]), [sep], AsnsText(asns[i + 1..], sep));
      } else {
        NoAsns(asns[i + 1..], sep);
      }
    }
    NoAsns(asns[|asns|..], sep);
  }

  lemma NoAsns(asns: seq<Asn>, sep: char)
    requires asns == []
    ensures AsnsText(asns, sep) == ""
  {
  }

  lemma PrintCons(p: Path, i: nat)
    requires i < |p|
    ensures Print(p[i..]) == SegmentText(p[i]) + if i + 1 < |p| then " " + Print(p[i + 1..]) else ""
  {
    hide SegmentText;
    assert p[i..][1..] == p[i + 1..];
    assert SegmentText(p[i]) + "" == SegmentText(p[i]);
  }

  /**
    `aspath_make_str_count`: the text is the printed path, every print fits in
    the buffer of its moment, and the final length stays below the buffer size.
   */
  method MakeStr(p: Path) returns (str: string, size: nat)
    ensures str == Print(p)
    ensures |str| < size
  {
    if |p| == 0 {
      return "", 1;
    }
    var n := CountAllAsns(p);
    size := n * ASN_STR_LEN + 2 + 1;
    if size < ASPATH_STR_DEFAULT_LEN {
      size := ASPATH_STR_DEFAULT_LEN;
    }
    var b := Buffer([], size);
    assert p[0..] == p;
    for i := 0 to |p|
      invariant |b.text| < b.size
      invariant b.text + Print(p[i..]) == Print(p)
    {
      hide SegmentText, Print;
      PrintCons(p, i);
      ghost var before := b.text;
      b := PrintSegment(b, p[i], i + 1 < |p|);
      if i + 1 < |p| {
        Regroup(before, SegmentText(p[i]), " ", Print(p[i + 1..]));
      } else {
        NoSegments(p[i + 1..]);
      }
    }
    str, size := b.text, b.size;
    NoSegments(p[|p|..]);
  }

  lemma NoSegments(p: Path)
    requires p == []
    ensures Print(p) == ""
  {
  }

  /** One round of the loop, which enlarges the buffer when its guess was too small. */
  method PrintSegment(b: Buffer, seg: Segment, more: bool) returns (r: Buffer)
    requires |b.text| < b.size
    ensures r.text == b.text + SegmentText(seg) + if more then " " else ""
    ensures |r.text| < r.size
  {
    hide AsnsText;
    AsnsTextLength(seg.asns, Separator(seg.kind));
    r := b;
    if |b.text| + SegmentStrLen(seg) > b.size {
      r := Buffer(b.text, |b.text| + SegmentStrLen(seg));
    }
    if seg.kind != AsSequence {
      r := Snprintf(r, Opening(seg.kind));
    }
    r := PrintAsns(r, seg.asns, Separator(seg.kind));
    if seg.kind != AsSequence {
      r := Snprintf(r, Closing(seg.kind));
    }
    assert r.text == b.text + SegmentText(seg);
    if more {
      r := Snprintf(r, " ");
    }
  }

  // ---------------------------------------------------------------------
  // Reading

  lemma {:induction false} SkipFrom(str: string, i: nat, j: nat)
    requires i <= j <= |str|
    requires forall k :: i <= k < j ==> IsSeparator(str[k])
    ensures Skip(str[i..]) == Skip(str[j..])
    decreases j - i
  {
    if i < j {
      assert str[i..][1..] == str[i + 1..];
      SkipFrom(str, i + 1, j);
    }
  }

  /** The token behind the separators. */
  lemma {:induction false} TokenBehind(s: string, t: string)
    requires Skip(s) == t
    ensures NextToken(s) ==
      if t == [] then None
      else if Delimiter(t[0]).Some? then Some((Delimiter(t[0]).value, t[1..]))
      else if IsDigit(t[0]) then Some((AsVal(Read(0, t[..DigitsLength(t)]) % 0x1_0000_0000), t[DigitsLength(t)..]))
      else Some((Unknown, t))
  {
    hide Read, Skip, Delimiter, DigitsLength;
  }

  /**
    `aspath_gettoken` from position `p`: none at the end of the text, else the
    token and the position behind it.
   */
  method GetToken(str: string, p: nat) returns (r: Option<(Token, nat)>)
    requires p <= |str|
    ensures r.None? <==> NextToken(str[p..]).None?
    ensures r.Some? ==>
      && r.value.1 <= |str|
      && NextToken(str[p..]) == Some((r.value.0, str[r.value.1..]))
      && (r.value.0 != Unknown ==> p < r.value.1)
  {
    hide Read;
    var q := p;
    while q < |str| && IsSeparator(str[q])
      invariant p <= q <= |str|
      invariant forall k :: p <= k < q ==> IsSeparator(str[k])
    {
      q := q + 1;
    }
    SkipFrom(str, p, q);
    ghost var t := str[q..];
    assert Skip(t) == t;
    TokenBehind(str[p..], t);
    hide NextToken, Skip, DigitsLength, Delimiter;
    if q == |str| {
      return None;
    }
    var delimiter := Delimiter(str[q]);
    if delimiter.Some? {
      assert t[1..] == str[q + 1..];
      return Some((delimiter.value, q + 1));
    }
    if IsDigit(str[q]) {
      var a, e := GetNumber(str, q);
      assert t[..e - q] == str[q..e] && t[e - q..] == str[e..];
      return Some((AsVal(a), e));
    }
    return Some((Unknown, q));
  }

  /** The digits of an AS number, accumulated in 32 bits. */
  method GetNumber(str: string, p: nat) returns (a: Asn, e: nat)
    requires p < |str| && IsDigit(str[p])
    ensures p < e <= |str| && e - p == DigitsLength(str[p..])
    ensures (forall i :: 0 <= i < |str[p..e]| ==> IsDigit(str[p..e][i])) && a == Read(0, str[p..e]) % 0x1_0000_0000
  {
    a := ValueOf(str[p]);
    e := p + 1;
    assert str[p..e] == [str[p]];
    assert Read(0, [str[p]]) == a by { assert [str[p]][1..] == []; }
    while e < |str| && IsDigit(str[e])
      invariant p < e <= |str|
      invariant forall i :: p <= i < e ==> IsDigit(str[i])
      invariant a == Read(0, str[p..e])
    {
      hide Read;
      ReadSnoc(0, str[p..e], str[e]);
      assert str[p..e + 1] == str[p..e] + [str[e]];
      a := ((a as int) * 10 + ValueOf(str[e])) % 0x1_0000_0000;
      e := e + 1;
    }
    hide Read;
    DigitsLengthIs(str[p..e], str[e..]);
    assert str[p..e] + str[e..] == str[p..];
  }

  /** `aspath_str2aspath`. */
  method StrToPath(str: string) returns (r: Option<Path>)
    ensures r == ParseText(str)
  {
    var segs: Path := [];
    var needtype := true;
    var kind := AsSequence;
    var p := 0;
    assert str[0..] == str;
    var t: Option<(Token, nat)> := GetToken(str, 0);
    while t.Some?
      invariant p <= |str|
      invariant needtype ==> kind == AsSequence
      invariant t.None? <==> NextToken(str[p..]).None?
      invariant t.Some? ==> t.value.1 <= |str| && NextToken(str[p..]) == Some((t.value.0, str[t.value.1..]))
      invariant t.Some? && t.value.0 != Unknown ==> p < t.value.1
      invariant ParseText(str) == Built(TakeAll(Build(segs, needtype), Lex(str[p..])))
      decreases |str| - p, t.Some?
    {
      hide NextToken, AddLast;
      ghost var b := Build(segs, needtype);
      match t.value.0 {
        case AsVal(a) =>
          if needtype {
            segs := segs + [Segment(kind, [])];
            needtype := false;
          }
          segs := AddLast(segs, a);
        case Open(k) =>
          kind := k;
          segs := segs + [Segment(kind, [])];
          needtype := false;
        case Close =>
          kind := AsSequence;
          needtype := true;
        case Unknown =>
          return None;
      }
      LexStep(str[p..], t.value.0, str[t.value.1..]);
      TakeAllCons(b, t.value.0, Lex(str[t.value.1..]), Build(segs, needtype));
      p := t.value.1;
      t := GetToken(str, p);
    }
    r := Some(segs);
  }

  function Built(b: Option<Build>): Option<Path> {
    match b case None => None case Some(c) => Some(c.segs)
  }
}
