/**
  The `struct aspath` object: operations that edit a segment list in place.
  Each method is tied to a function on segment lists; the lemmas say what those
  functions do to the hops of the path.
 */
module AsPathObjects {
  import opened Asns
  import opened AsPaths

  const AS_SEGMENT_MAX := 255

  // ---------------------------------------------------------------------
  // What the operations compute

  function Repeat(x: Asn, n: nat): seq<Asn> {
    seq(n, _ => x)
  }

  /** `aspath_add_asns`: huge prepends to an existing segment are ignored. */
  function AddAsns(p: Path, asno: Asn, kind: SegKind, num: nat): Path {
    if p != [] && p[0].kind == kind then
      if num == 0 || num >= AS_SEGMENT_MAX then p
      else [Segment(kind, Repeat(asno, num) + p[0].asns)] + p[1..]
    else if p != [] && p[0].asns == [] then
      [Segment(kind, Repeat(asno, num))] + p[1..]
    else
      [Segment(kind, Repeat(asno, num))] + p
  }

  function DropConfeds(p: Path): Path {
    if p == [] then []
    else if IsConfed(p[0].kind) then DropConfeds(p[1..])
    else [p[0]] + DropConfeds(p[1..])
  }

  lemma {:induction false} DropConfedsFirst(p: Path)
    requires p != []
    ensures DropConfeds(p) == if IsConfed(p[0].kind) then DropConfeds(p[1..]) else [p[0]] + DropConfeds(p[1..])
  {
  }

  /** The part of a segment copied when `hops` hops are still wanted; a confed sequence is never split. */
  function CutPart(seg: Segment, hops: int): Segment {
    if seg.kind == AsSequence && 0 <= hops < |seg.asns| then Segment(AsSequence, seg.asns[..hops]) else seg
  }

  /** Hops still wanted after that segment. */
  function CutLeft(seg: Segment, hops: int): int {
    match seg.kind
    case AsSequence => hops - |seg.asns|
    case ConfedSequence => if hops < |seg.asns| then 0 else hops - |seg.asns|
    case _ => hops - 1
  }

  /** The copied head of `aspath_reconcile_as4`. */
  function Cut(p: Path, hops: int): Path
    decreases |p|
  {
    if p == [] || hops <= 0 then []
    else [CutPart(p[0], hops)] + Cut(p[1..], CutLeft(p[0], hops))
  }

  lemma {:induction false} CutStarts(p: Path, hops: int)
    ensures Cut(p, hops) != [] <==> p != [] && hops > 0
  {
  }

  ghost function PlainHops(p: Path): nat { Total(PlainWeight, Hops(p)) }
  ghost function ConfedHops(p: Path): nat { Total(ConfedWeight, Hops(p)) }
  ghost function AllHops(p: Path): nat { Total(Weight, Hops(p)) }

  /** How many hops `aspath_reconcile_as4` keeps from AS_PATH. */
  ghost function KeptHops(path: Path, as4: Path): nat {
    if AllHops(path) < PlainHops(as4) then PlainHops(path) else AllHops(path) - PlainHops(as4)
  }

  ghost function Reconcile(path: Path, as4: Path): Path {
    if KeptHops(path, as4) == 0 then as4
    else Norm(Cut(path, KeptHops(path, as4)) + as4)
  }

  // ---------------------------------------------------------------------
  // The object

  /** `aspath_cmp`: segment by segment, AS number by AS number. */
  method Cmp(p: Path, q: Path) returns (same: bool)
    ensures same <==> p == q
  {
    var k := 0;
    while k < |p| || k < |q|
      invariant 0 <= k <= |p| && k <= |q|
      invariant p[..k] == q[..k]
      decreases |p| - k
    {
      if k >= |p| || k >= |q| {
        return false;
      }
      if p[k].kind != q[k].kind || |p[k].asns| != |q[k].asns| {
        return false;
      }
      var i := 0;
      while i < |p[k].asns|
        invariant 0 <= i <= |p[k].asns|
        invariant forall j :: 0 <= j < i ==> p[k].asns[j] == q[k].asns[j]
      {
        if p[k].asns[i] != q[k].asns[i] {
          return false;
        }
        i := i + 1;
      }
      assert p[k].asns == q[k].asns;
      assert p[..k + 1] == p[..k] + [p[k]] && q[..k + 1] == q[..k] + [q[k]];
      k := k + 1;
    }
    assert p[..k] == p && q[..k] == q;
    return true;
  }

  /** Sorting and weeding the array of a set segment. */
  method SortSet(s: Segment) returns (r: Segment)
    requires IsSet(s.kind)
    ensures r == CanonSegment(s) && CanonSegment(r) == r
  {
    var kept := WeedDupes(Qsort(s.asns));
    CanonSetOfPermutation(Qsort(s.asns), s.asns);
    CanonSetFixed(kept);
    r := Segment(s.kind, kept);
  }

  lemma NormCanonFirst(p: Path)
    requires p != []
    ensures CanonSegment(CanonSegment(p[0])) == CanonSegment(p[0])
    ensures Norm([CanonSegment(p[0])] + p[1..]) == Norm(p)
  {
    if IsSet(p[0].kind) { CanonSetFixed(CanonSet(p[0].asns)); }
    assert ([CanonSegment(p[0])] + p[1..])[1..] == p[1..];
  }

  lemma NormPinned(s: Segment, rest: Path)
    requires CanonSegment(s) == s
    requires rest != [] ==> !Packable(s, rest[0])
    ensures Norm([s] + rest) == [s] + Norm(rest)
  {
    assert ([s] + rest)[1..] == rest;
    if rest != [] { NormHead(rest); }
  }

  /**
    The pinned segment of `assegment_normalise`: sorted if it is a set, then
    extended by the packable segments that follow; `next` is the first one left.
   */
  method Pin(segs: Path, pin: nat) returns (pinned: Segment, next: nat)
    requires pin < |segs|
    ensures pin < next <= |segs|
    ensures Norm(segs[pin..]) == [pinned] + Norm(segs[next..])
  {
    ghost var todo := segs[pin..];
    pinned := segs[pin];
    if IsSet(pinned.kind) {
      pinned := SortSet(pinned);
    }
    NormCanonFirst(todo);
    assert CanonSegment(todo[0]) == pinned;
    next := pin + 1;
    while next < |segs| && Packable(pinned, segs[next])
      invariant pin < next <= |segs|
      invariant CanonSegment(pinned) == pinned
      invariant Norm([pinned] + segs[next..]) == Norm(todo)
    {
      NormJoins(pinned.asns, segs[next].asns, segs[next + 1..]);
      assert [pinned] + segs[next..]
          == [Segment(AsSequence, pinned.asns), Segment(AsSequence, segs[next].asns)] + segs[next + 1..];
      pinned := Segment(AsSequence, pinned.asns + segs[next].asns);
      next := next + 1;
    }
    NormPinned(pinned, segs[next..]);
  }

  class AsPath {
    var segments: Path

    constructor (p: Path)
      ensures segments == p
    {
      segments := p;
    }

    /**
      `assegment_normalise`: the pinned segment is sorted if it is a set, then
      swallows the packable segments that follow it.
     */
    method Normalise()
      modifies this
      ensures segments == Norm(old(segments))
    {
      var pin := 0;
      while pin < |segments|
        invariant 0 <= pin <= |segments|
        invariant segments[..pin] + Norm(segments[pin..]) == Norm(old(segments))
        decreases |segments| - pin
      {
        var pinned, next := Pin(segments, pin);
        var head, rest := segments[..pin] + [pinned], segments[next..];
        hide Norm;
        assert segments[..pin] + ([pinned] + Norm(rest)) == head + Norm(rest);
        segments := head + rest;
        pin := pin + 1;
        assert segments[..|head|] == head && segments[|head|..] == rest;
      }
    }

    /** `aspath_add_asns`. */
    method AddToLeft(asno: Asn, kind: SegKind, num: nat)
      modifies this
      ensures segments == AddAsns(old(segments), asno, kind, num)
    {
      var fresh_ := [];
      if |segments| > 0 && segments[0].kind == kind {
        if num == 0 || num >= AS_SEGMENT_MAX {
          return;
        }
        for i := 0 to num
          invariant fresh_ == Repeat(asno, i)
        {
          fresh_ := fresh_ + [asno];
        }
        segments := segments[0 := Segment(kind, fresh_ + segments[0].asns)];
      } else {
        for i := 0 to num
          invariant fresh_ == Repeat(asno, i)
        {
          fresh_ := fresh_ + [asno];
        }
        var rest := if |segments| > 0 && |segments[0].asns| == 0 then segments[1..] else segments;
        segments := [Segment(kind, fresh_)] + rest;
      }
    }

    /** `aspath_delete_confed_seq`: unlinks confederation segments one by one. */
    method DeleteConfeds()
      modifies this
      ensures segments == DropConfeds(old(segments))
    {
      var k := 0;
      while k < |segments|
        invariant 0 <= k <= |segments|
        invariant segments[..k] + DropConfeds(segments[k..]) == DropConfeds(old(segments))
        decreases |segments| - k
      {
        ghost var before, rest := segments, segments[k..];
        assert rest[0] == segments[k] && rest[1..] == segments[k + 1..];
        DropConfedsFirst(rest);
        hide DropConfeds;
        if IsConfed(segments[k].kind) {
          segments := segments[..k] + segments[k + 1..];
          assert segments[k..] == before[k + 1..] && segments[..k] == before[..k];
        } else {
          assert segments[..k] + ([segments[k]] + DropConfeds(rest[1..])) == segments[..k + 1] + DropConfeds(rest[1..]);
          k := k + 1;
        }
      }
    }

    /** `aspath_merge`: the walk to the last segment needs a non-empty head. */
    method Merge(head: Path)
      requires head != []
      modifies this
      ensures segments == head + old(segments)
    {
      var last := 0;
      while last + 1 < |head|
        invariant 0 <= last < |head|
      {
        last := last + 1;
      }
      segments := head[..last + 1] + segments;
      assert head[..last + 1] == head;
    }
  }

  /** The copying loop of `aspath_reconcile_as4`. */
  method CopyHead(path: Path, hops: nat) returns (newpath: Path)
    ensures newpath == Cut(path, hops)
    ensures path != [] && hops > 0 ==> newpath != []
  {
    newpath := [];
    var k := 0;
    var left: int := hops;
    while k < |path| && left > 0
      invariant 0 <= k <= |path|
      invariant newpath + Cut(path[k..], left) == Cut(path, hops)
      invariant k > 0 ==> newpath != []
      decreases |path| - k
    {
      var copied, after := CopySegment(path[k], left);
      ghost var rest := path[k + 1..];
      assert path[k..][0] == path[k] && path[k..][1..] == rest;
      assert newpath + ([copied] + Cut(rest, after)) == (newpath + [copied]) + Cut(rest, after);
      newpath := newpath + [copied];
      left := after;
      k := k + 1;
    }
    assert Cut(path[k..], left) == [];
  }

  /** `aspath_reconcile_as4`. */
  method ReconcileAs4(path: Path, as4: Path) returns (merged: AsPath)
    ensures fresh(merged)
    ensures merged.segments == Reconcile(path, as4)
  {
    hide Norm, Cut;
    var h := CountHops(path);
    var c := CountConfeds(path);
    var h4 := CountHops(as4);
    TotalWeightSplits(Hops(path));
    var hops := if h + c < h4 then h else h + c - h4;
    merged := new AsPath(as4);
    if hops == 0 {
      return;
    }
    var newpath := CopyHead(path, hops);
    CutStarts(path, hops);
    merged.Merge(newpath);
    merged.Normalise();
  }

  method CopySegment(seg: Segment, hops: int) returns (copied: Segment, left: int)
    requires hops > 0
    ensures copied == CutPart(seg, hops) && left == CutLeft(seg, hops)
  {
    var cpasns := 0;
    left := hops;
    match seg.kind {
      case AsSet =>
        left := left - 1;
        cpasns := |seg.asns|;
      case ConfedSet =>
        left := left - 1;
        cpasns := |seg.asns|;
      case ConfedSequence =>
        if left < |seg.asns| {
          left := |seg.asns|;
        }
        cpasns := if |seg.asns| < left then |seg.asns| else left;
        left := left - |seg.asns|;
      case AsSequence =>
        cpasns := if |seg.asns| < left then |seg.asns| else left;
        left := left - |seg.asns|;
    }
    copied := Segment(seg.kind, seg.asns[..cpasns]);
  }
}
