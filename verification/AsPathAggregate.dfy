/** Route aggregation of AS paths (section 9.2.2.2 of RFC 4271): `aspath_aggregate`. */
module AsPathAggregate {
  import opened Asns
  import opened AsPaths
  import opened AsPathObjects
  import opened AsPathLaws

  // ---------------------------------------------------------------------
  // What is computed

  function CommonLength(a: seq<Asn>, b: seq<Asn>): (n: nat)
    ensures n <= |a| && n <= |b|
    ensures a[..n] == b[..n]
    ensures n < |a| && n < |b| ==> a[n] != b[n]
  {
    if a == [] || b == [] || a[0] != b[0] then 0
    else
      var n := 1 + CommonLength(a[1..], b[1..]);
      assert a[..n] == [a[0]] + a[1..][..n - 1];
      assert b[..n] == [b[0]] + b[1..][..n - 1];
      n
  }

  /** The leading segments kept as they are; the last one may be cut. */
  function Common(p: Path, q: Path): Path {
    if p == [] || q == [] || p[0].kind != q[0].kind then []
    else
      var head := Head(p[0], CommonLength(p[0].asns, q[0].asns));
      if p[0].asns == q[0].asns then head + Common(p[1..], q[1..]) else head
  }

  function Head(s: Segment, m: nat): Path
    requires m <= |s.asns|
  {
    if m > 0 then [Segment(s.kind, s.asns[..m])] else []
  }

  /** The AS numbers of `p` that are not in the common head. */
  function LeftOver(p: Path, q: Path): seq<Asn> {
    if p == [] then []
    else if q == [] || p[0].kind != q[0].kind then Flat(p)
    else if p[0].asns == q[0].asns then LeftOver(p[1..], q[1..])
    else p[0].asns[CommonLength(p[0].asns, q[0].asns)..] + Flat(p[1..])
  }

  function SetTail(left: seq<Asn>): Path {
    if left == [] then [] else [Segment(AsSet, CanonSet(left))]
  }

  function Aggregate(p: Path, q: Path): Path {
    Norm(Common(p, q) + SetTail(LeftOver(p, q) + LeftOver(q, p)))
  }

  // ---------------------------------------------------------------------
  // The code

  /** `aspath_aggregate_as_set_add` for one number; an empty set stands for the missing segment. */
  method SetAdd(asset: seq<Asn>, a: Asn) returns (r: seq<Asn>)
    ensures Elems(r) == Elems(asset) + {a}
  {
    for i := 0 to |asset|
      invariant forall j :: 0 <= j < i ==> asset[j] != a
    {
      if asset[i] == a {
        return asset;
      }
    }
    ElemsSnoc(asset, a);
    return asset + [a];
  }

  /** Adds what is left of a path, starting `from` AS numbers into its first segment. */
  method SetAddRest(asset: seq<Asn>, rest: Path, from: nat) returns (r: seq<Asn>)
    requires rest != [] ==> from <= |rest[0].asns|
    ensures rest == [] ==> r == asset
    ensures rest != [] ==> Elems(r) == Elems(asset) + Elems(rest[0].asns[from..]) + Elems(Flat(rest[1..]))
  {
    r := asset;
    if |rest| == 0 {
      return;
    }
    r := SetAddAll(r, rest[0].asns[from..]);
    for k := 1 to |rest|
      invariant Elems(r) + Elems(Flat(rest[k..])) == Elems(asset) + Elems(rest[0].asns[from..]) + Elems(Flat(rest[1..]))
    {
      FlatStep(rest, k);
      r := SetAddAll(r, rest[k].asns);
    }
    assert Flat(rest[|rest|..]) == [];
  }

  method SetAddAll(asset: seq<Asn>, s: seq<Asn>) returns (r: seq<Asn>)
    ensures Elems(r) == Elems(asset) + Elems(s)
  {
    r := asset;
    for i := 0 to |s|
      invariant Elems(r) == Elems(asset) + Elems(s[..i])
    {
      r := SetAdd(r, s[i]);
      ElemsSnoc(s[..i], s[i]);
      assert s[..i + 1] == s[..i] + [s[i]];
    }
    assert s[..|s|] == s;
  }

  lemma ElemsConcat(a: seq<Asn>, b: seq<Asn>)
    ensures Elems(a + b) == Elems(a) + Elems(b)
  {
    assert forall y :: y in a + b <==> y in a || y in b;
  }

  lemma FlatStep(rest: Path, k: nat)
    requires k < |rest|
    ensures Elems(Flat(rest[k..])) == Elems(rest[k].asns) + Elems(Flat(rest[k + 1..]))
  {
    assert rest[k..][0] == rest[k] && rest[k..][1..] == rest[k + 1..];
    ElemsConcat(rest[k].asns, Flat(rest[k + 1..]));
  }

  /** Where the common walk stops, and with how many matching numbers. */
  ghost predicate Stopped(p: Path, q: Path, match_: nat) {
    if p == [] || q == [] || p[0].kind != q[0].kind then match_ == 0
    else p[0].asns != q[0].asns && match_ == CommonLength(p[0].asns, q[0].asns)
  }

  lemma CommonUnfold(p: Path, q: Path)
    requires p != [] && q != [] && p[0].kind == q[0].kind
    ensures Common(p, q) == Head(p[0], CommonLength(p[0].asns, q[0].asns))
              + if p[0].asns == q[0].asns then Common(p[1..], q[1..]) else []
    ensures p[0].asns == q[0].asns ==>
      LeftOver(p, q) == LeftOver(p[1..], q[1..]) && LeftOver(q, p) == LeftOver(q[1..], p[1..])
  {
    hide CommonLength, Head;
  }

  /** The walk over the common leading segments, `i` segments in. */
  ghost predicate Walked(p: Path, q: Path, i: nat, head: Path) {
    && i <= |p| && i <= |q|
    && head + Common(p[i..], q[i..]) == Common(p, q)
    && LeftOver(p, q) == LeftOver(p[i..], q[i..]) && LeftOver(q, p) == LeftOver(q[i..], p[i..])
  }

  /** Where it ends. */
  ghost predicate WalkedOut(p: Path, q: Path, i: nat, head: Path, match_: nat) {
    && i <= |p| && i <= |q|
    && head == Common(p, q)
    && LeftOver(p, q) == LeftOver(p[i..], q[i..]) && LeftOver(q, p) == LeftOver(q[i..], p[i..])
    && Stopped(p[i..], q[i..], match_)
  }

  lemma {:induction false} WalkStart(p: Path, q: Path)
    ensures Walked(p, q, 0, [])
  {
    assert p[0..] == p && q[0..] == q;
    assert [] + Common(p, q) == Common(p, q);
  }

  /** One turn of the loop, at index `i`. */
  lemma {:induction false} WalkStep(p: Path, q: Path, i: nat, head: Path)
    requires Walked(p, q, i, head) && i < |p| && i < |q| && p[i].kind == q[i].kind
    ensures
      var m := CommonLength(p[i].asns, q[i].asns);
      var next := head + Head(p[i], m);
      if p[i].asns == q[i].asns then Walked(p, q, i + 1, next) else WalkedOut(p, q, i, next, m)
  {
    hide CommonLength, Common, LeftOver, Head;
    var h := Head(p[i], CommonLength(p[i].asns, q[i].asns));
    CommonUnfold(p[i..], q[i..]);
    assert p[i..][1..] == p[i + 1..] && q[i..][1..] == q[i + 1..];
    var t := Common(p[i + 1..], q[i + 1..]);
    assert head + (h + t) == head + h + t;
    assert head + (h + []) == head + h;
  }

  lemma {:induction false} WalkEnd(p: Path, q: Path, i: nat, head: Path)
    requires Walked(p, q, i, head)
    requires i == |p| || i == |q| || p[i].kind != q[i].kind
    ensures WalkedOut(p, q, i, head, 0)
  {
    hide LeftOver, CommonLength, Head;
    assert Common(p[i..], q[i..]) == [];
  }

  /** The loop over the common leading segments: `i` segments consumed, `match_` numbers of the next. */
  method CommonHead(p: Path, q: Path) returns (head: Path, i: nat, match_: nat)
    ensures WalkedOut(p, q, i, head, match_)
  {
    hide Walked, WalkedOut, CommonLength, Head;
    head, i, match_ := [], 0, 0;
    WalkStart(p, q);
    while i < |p| && i < |q|
      invariant i <= |p| && i <= |q| && match_ == 0 && Walked(p, q, i, head)
    {
      if p[i].kind != q[i].kind {
        break;
      }
      WalkStep(p, q, i, head);
      match_ := MatchLength(p[i].asns, q[i].asns);
      HeadCases(p[i], match_);
      assert head + [] == head;
      if match_ > 0 {
        head := head + [Segment(p[i].kind, p[i].asns[..match_])];
      }
      if match_ != |p[i].asns| || |p[i].asns| != |q[i].asns| {
        return;
      }
      match_ := 0;
      i := i + 1;
    }
    WalkEnd(p, q, i, head);
  }

  lemma HeadCases(s: Segment, m: nat)
    requires m <= |s.asns|
    ensures Head(s, m) == if m > 0 then [Segment(s.kind, s.asns[..m])] else []
  {
  }

  method MatchLength(a: seq<Asn>, b: seq<Asn>) returns (n: nat)
    ensures n == CommonLength(a, b)
    ensures n == |a| == |b| <==> a == b
  {
    n := 0;
    while n < |a| && n < |b| && a[n] == b[n]
      invariant n <= |a| && n <= |b|
      invariant a[..n] == b[..n]
    {
      n := n + 1;
    }
    CommonLengthUnique(a, b, n);
  }

  lemma CommonLengthUnique(a: seq<Asn>, b: seq<Asn>, n: nat)
    requires n <= |a| && n <= |b| && a[..n] == b[..n]
    requires n < |a| && n < |b| ==> a[n] != b[n]
    ensures n == CommonLength(a, b)
  {
    var m := CommonLength(a, b);
    assert forall k :: 0 <= k < n ==> a[..n][k] == a[k] && b[..n][k] == b[k];
    assert forall k :: 0 <= k < m ==> a[..m][k] == a[k] && b[..m][k] == b[k];
  }

  /** `aspath_aggregate`. */
  method AggregatePaths(p: Path, q: Path) returns (r: AsPath)
    ensures fresh(r)
    ensures r.segments == Aggregate(p, q)
  {
    hide Norm, Common, LeftOver, Flat, CommonLength, Elems, SetTail;
    var head, i, match_ := CommonHead(p, q);
    StoppedLeft(p[i..], q[i..], match_);
    var asset := SetAddRest([], p[i..], match_);
    asset := SetAddRest(asset, q[i..], match_);
    ElemsConcat(LeftOver(p, q), LeftOver(q, p));
    NoLeft(p[i..], q[i..]);
    var all := if |asset| > 0 then head + [Segment(AsSet, asset)] else head;
    r := new AsPath(all);
    r.Normalise();
    AssetTail(head, asset, LeftOver(p, q) + LeftOver(q, p));
  }

  lemma NoLeft(p: Path, q: Path)
    ensures Elems([]) == {}
    ensures p == [] ==> Elems(LeftOver(p, q)) == {}
    ensures q == [] ==> Elems(LeftOver(q, p)) == {}
  {
  }

  lemma StoppedLeft(p: Path, q: Path, match_: nat)
    requires Stopped(p, q, match_)
    ensures p != [] ==> match_ <= |p[0].asns| && Elems(LeftOver(p, q)) == Elems(p[0].asns[match_..]) + Elems(Flat(p[1..]))
    ensures q != [] ==> match_ <= |q[0].asns| && Elems(LeftOver(q, p)) == Elems(q[0].asns[match_..]) + Elems(Flat(q[1..]))
  {
    if p != [] {
      ElemsConcat(p[0].asns[match_..], Flat(p[1..]));
    }
    if q != [] {
      ElemsConcat(q[0].asns[match_..], Flat(q[1..]));
    }
    if p != [] && q != [] {
      CommonLengthSymmetric(p[0].asns, q[0].asns);
    }
  }

  lemma CommonLengthSymmetric(a: seq<Asn>, b: seq<Asn>)
    ensures CommonLength(a, b) == CommonLength(b, a)
  {
    CommonLengthUnique(a, b, CommonLength(b, a));
  }

  lemma {:induction false} NormLast(head: Path, x: Segment, y: Segment)
    requires CanonSegment(x) == CanonSegment(y)
    ensures Norm(head + [x]) == Norm(head + [y])
  {
    if head == [] {
      assert ([x] + [])[1..] == [] && ([y] + [])[1..] == [];
      assert head + [x] == [x] && head + [y] == [y];
    } else {
      assert (head + [x])[1..] == head[1..] + [x] && (head + [y])[1..] == head[1..] + [y];
      NormLast(head[1..], x, y);
    }
  }

  lemma AssetTail(head: Path, asset: seq<Asn>, left: seq<Asn>)
    requires Elems(asset) == Elems(left)
    ensures Norm(if asset != [] then head + [Segment(AsSet, asset)] else head) == Norm(head + SetTail(left))
  {
    EmptyElems(asset);
    EmptyElems(left);
    if asset == [] {
      assert head + [] == head;
    } else {
      StrictlyIncreasingUnique(CanonSet(asset), CanonSet(left));
      CanonSetFixed(CanonSet(left));
      NormLast(head, Segment(AsSet, asset), Segment(AsSet, CanonSet(left)));
    }
  }

  lemma EmptyElems(s: seq<Asn>)
    ensures Elems(s) == {} <==> s == []
  {
    if s != [] {
      assert s[0] in Elems(s);
    }
  }

  // ---------------------------------------------------------------------
  // Laws

  lemma {:induction false} CommonSymmetric(p: Path, q: Path)
    ensures Common(p, q) == Common(q, p)
  {
    if p != [] && q != [] && p[0].kind == q[0].kind {
      CommonLengthSymmetric(p[0].asns, q[0].asns);
      CommonSymmetric(p[1..], q[1..]);
    }
  }

  /** Aggregation does not depend on the order of its arguments. */
  lemma AggregateCommutes(p: Path, q: Path)
    ensures Aggregate(p, q) == Aggregate(q, p)
  {
    hide Norm, Common, LeftOver;
    CommonSymmetric(p, q);
    var a, b := LeftOver(p, q), LeftOver(q, p);
    ElemsConcat(a, b);
    ElemsConcat(b, a);
    EmptyElems(a + b);
    EmptyElems(b + a);
    StrictlyIncreasingUnique(CanonSet(a + b), CanonSet(b + a));
  }

  lemma {:induction false} CommonSelf(p: Path)
    requires NonEmptySegments(p)
    ensures Common(p, p) == p && LeftOver(p, p) == []
  {
    if p != [] {
      CommonSelf(p[1..]);
      var s := p[0].asns;
      assert CommonLength(s, s) == |s|;
      assert s[..|s|] == s;
    }
  }

  /** Aggregating a path with itself changes nothing. */
  lemma AggregateSelf(p: Path)
    requires Normal(p)
    ensures Aggregate(p, p) == p
  {
    CommonSelf(p);
    NormalIsFixed(p);
    assert p + SetTail([]) == p;
  }

  lemma {:induction false} FlatMembers(p: Path)
    ensures Elems(Flat(p)) == Members(p)
  {
    if p != [] {
      FlatMembers(p[1..]);
      ElemsConcat(p[0].asns, Flat(p[1..]));
      MembersCons(p[0], p[1..]);
      assert [p[0]] + p[1..] == p;
    }
  }

  lemma ElemsSplit(s: seq<Asn>, m: nat)
    requires m <= |s|
    ensures Elems(s) == Elems(s[..m]) + Elems(s[m..])
  {
    ElemsConcat(s[..m], s[m..]);
    assert s == s[..m] + s[m..];
  }

  lemma MembersOfHead(s: Segment, m: nat, rest: Path)
    requires m <= |s.asns|
    ensures Members(Head(s, m) + rest) == Elems(s.asns[..m]) + Members(rest)
  {
    if m > 0 {
      MembersCons(Segment(s.kind, s.asns[..m]), rest);
    } else {
      assert [] + rest == rest;
    }
  }

  /** Common head and left-over together mention exactly the AS numbers of the path. */
  lemma {:induction false} CommonMembers(p: Path, q: Path)
    ensures Members(Common(p, q)) + Elems(LeftOver(p, q)) == Members(p)
  {
    FlatMembers(p);
    if p != [] && q != [] && p[0].kind == q[0].kind {
      hide Members, CommonLength;
      var m := CommonLength(p[0].asns, q[0].asns);
      ElemsSplit(p[0].asns, m);
      FlatMembers(p[1..]);
      if p[0].asns == q[0].asns {
        CommonMembers(p[1..], q[1..]);
        MembersOfHead(p[0], m, Common(p[1..], q[1..]));
        MembersCons(p[0], p[1..]);
        assert [p[0]] + p[1..] == p;
        CommonLengthSelf(p[0].asns);
      } else {
        MembersOfHead(p[0], m, []);
        ElemsConcat(p[0].asns[m..], Flat(p[1..]));
        ElemsConcat(p[0].asns, Flat(p[1..]));
        NoMembers();
        assert Common(p, q) == Head(p[0], m) + [];
      }
    } else {
      NoMembers();
    }
  }

  lemma NoMembers()
    ensures Members([]) == {} && Elems([]) == {}
  {
  }

  lemma CommonLengthSelf(s: seq<Asn>)
    ensures CommonLength(s, s) == |s|
  {
  }

  /** An aggregate is normal and mentions exactly the AS numbers of both paths. */
  lemma AggregateMembers(p: Path, q: Path)
    requires NonEmptySegments(p) && NonEmptySegments(q)
    ensures Normal(Aggregate(p, q))
    ensures Members(Aggregate(p, q)) == Members(p) + Members(q)
  {
    hide Norm, Common, LeftOver, Members;
    var left := LeftOver(p, q) + LeftOver(q, p);
    var whole := Common(p, q) + SetTail(left);
    CommonMembers(p, q);
    CommonMembers(q, p);
    CommonSymmetric(p, q);
    ElemsConcat(LeftOver(p, q), LeftOver(q, p));
    SetTailMembers(left);
    MembersConcat(Common(p, q), SetTail(left));
    NormKeepsCounts(whole);
    CommonNonEmpty(p, q);
    NormIsNormal(whole);
  }

  lemma SetTailMembers(left: seq<Asn>)
    ensures Members(SetTail(left)) == Elems(left)
    ensures NonEmptySegments(SetTail(left))
  {
    NoMembers();
    if left != [] {
      MembersCons(Segment(AsSet, CanonSet(left)), []);
      assert SetTail(left) == [Segment(AsSet, CanonSet(left))] + [];
    }
  }

  lemma {:induction false} CommonNonEmpty(p: Path, q: Path)
    ensures NonEmptySegments(Common(p, q))
  {
    if p != [] && q != [] {
      CommonNonEmpty(p[1..], q[1..]);
    }
  }

  /** The longest common prefix of two hop sequences. */
  ghost function CommonHops(a: seq<Hop>, b: seq<Hop>): seq<Hop> {
    if a == [] || b == [] || a[0] != b[0] then [] else [a[0]] + CommonHops(a[1..], b[1..])
  }

  lemma {:induction false} CommonHopsConcat(a: seq<Hop>, b: seq<Hop>, c: seq<Hop>)
    ensures CommonHops(a + b, a + c) == a + CommonHops(b, c)
  {
    if a == [] {
      assert a + b == b && a + c == c;
    } else {
      assert (a + b)[1..] == a[1..] + b && (a + c)[1..] == a[1..] + c;
      CommonHopsConcat(a[1..], b, c);
    }
  }

  lemma CommonHopsDiffer(a: seq<Hop>, b: seq<Hop>, c: seq<Hop>)
    requires b == [] || c == [] || b[0] != c[0]
    ensures CommonHops(a + b, a + c) == a
  {
    CommonHopsConcat(a, b, c);
  }

  /** One pair of equal-kind segments: what the two hop sequences share up to where they part. */
  lemma SegmentsPart(p: Path, q: Path)
    requires Normal(p) && Normal(q) && p != [] && q != []
    requires p[0].kind == q[0].kind && p[0].asns != q[0].asns
    ensures CommonHops(Hops(p), Hops(q)) <= Hops(Head(p[0], CommonLength(p[0].asns, q[0].asns)))
  {
    var m := CommonLength(p[0].asns, q[0].asns);
    NormalTail(p);
    NormalTail(q);
    if p[0].kind == AsSequence {
      var s := Segment(AsSequence, p[0].asns[..m]);
      var x, y := Rest(p, m), Rest(q, m);
      SequenceSplit(p, m);
      SequenceSplit(q, m);
      assert s == Segment(AsSequence, q[0].asns[..m]);
      PartsDiffer(p, q, m);
      CommonHopsDiffer(SegmentHops(s), x, y);
      if m > 0 {
        HopsCons(s, []);
        assert [s] + [] == [s];
      } else {
        assert SegmentHops(s) == [];
      }
    } else {
      FirstHop(p);
      FirstHop(q);
      if IsSet(p[0].kind) && Elems(p[0].asns) == Elems(q[0].asns) {
        StrictlyIncreasingUnique(p[0].asns, q[0].asns);
      }
    }
  }

  ghost function Rest(p: Path, m: nat): seq<Hop>
    requires p != [] && m <= |p[0].asns|
  {
    SegmentHops(Segment(AsSequence, p[0].asns[m..])) + Hops(p[1..])
  }

  lemma SequenceSplit(p: Path, m: nat)
    requires p != [] && p[0].kind == AsSequence && m <= |p[0].asns|
    ensures Hops(p) == SegmentHops(Segment(AsSequence, p[0].asns[..m])) + Rest(p, m)
  {
    SequenceHopsConcat(p[0].asns[..m], p[0].asns[m..]);
    assert p[0] == Segment(AsSequence, p[0].asns[..m] + p[0].asns[m..]);
  }

  /** After the common numbers, one side has another number and the other does not, or a different one. */
  lemma PartsDiffer(p: Path, q: Path, m: nat)
    requires Normal(p) && Normal(q) && p != [] && q != []
    requires p[0].kind == q[0].kind == AsSequence && p[0].asns != q[0].asns
    requires m == CommonLength(p[0].asns, q[0].asns)
    ensures var x, y := Rest(p, m), Rest(q, m); x == [] || y == [] || x[0] != y[0]
  {
    RestHead(p, m);
    RestHead(q, m);
    var a, b := p[0].asns, q[0].asns;
    assert a[..|a|] == a && b[..|b|] == b;
  }

  lemma RestHead(p: Path, m: nat)
    requires Normal(p) && p != [] && p[0].kind == AsSequence && m <= |p[0].asns|
    ensures m < |p[0].asns| ==> Rest(p, m) != [] && Rest(p, m)[0] == One(p[0].asns[m])
    ensures m == |p[0].asns| && Rest(p, m) != [] ==> !Rest(p, m)[0].One?
  {
    if m == |p[0].asns| {
      assert Rest(p, m) == Hops(p[1..]);
      if |p| > 1 {
        assert !Packable(p[0], p[1]);
        FirstHop(p[1..]);
      }
    }
  }

  /** Everything the two paths share at the front stays at the front of the aggregate. */
  lemma {:induction false} CommonKeepsHops(p: Path, q: Path)
    requires Normal(p) && Normal(q)
    ensures CommonHops(Hops(p), Hops(q)) <= Hops(Common(p, q))
  {
    if p != [] && q != [] {
      hide CommonLength, Head, Normal;
      FirstIs(p);
      FirstIs(q);
      if p[0].kind == q[0].kind {
        CommonUnfold(p, q);
        if p[0].asns == q[0].asns {
          assert p[0] == q[0];
          NormalTail(p);
          NormalTail(q);
          CommonKeepsHops(p[1..], q[1..]);
          CommonHopsConcat(SegmentHops(p[0]), Hops(p[1..]), Hops(q[1..]));
          CommonLengthSelf(p[0].asns);
          WholeHead(p[0]);
          HopsCons(p[0], Common(p[1..], q[1..]));
          PrefixUnder(SegmentHops(p[0]), CommonHops(Hops(p[1..]), Hops(q[1..])), Hops(Common(p[1..], q[1..])));
        } else {
          SegmentsPart(p, q);
          var h := Head(p[0], CommonLength(p[0].asns, q[0].asns));
          assert h + [] == h;
        }
      }
    }
  }

  lemma FirstIs(p: Path)
    requires Normal(p) && p != []
    ensures p[0].asns != [] && Hops(p) != [] && Hops(p)[0] == SegmentHops(p[0])[0]
  {
  }

  lemma WholeHead(s: Segment)
    requires s.asns != []
    ensures Head(s, |s.asns|) == [s]
  {
    assert s.asns[..|s.asns|] == s.asns;
  }

  lemma PrefixUnder<T>(a: seq<T>, b: seq<T>, c: seq<T>)
    requires b <= c
    ensures a + b <= a + c
  {
  }

  lemma AggregateKeepsCommonHead(p: Path, q: Path)
    requires Normal(p) && Normal(q)
    ensures CommonHops(Hops(p), Hops(q)) <= Hops(Aggregate(p, q))
  {
    hide Common, LeftOver, SetTail, Normal;
    var c, t := Common(p, q), SetTail(LeftOver(p, q) + LeftOver(q, p));
    CommonKeepsHops(p, q);
    NormKeepsHops(c + t);
    HopsConcat(c, t);
  }

  // ---------------------------------------------------------------------
  // Which numbers go where

  lemma {:induction false} LeftOverCut(p: Path, q: Path)
    requires p != [] && q != [] && p[0].kind == q[0].kind && p[0].asns != q[0].asns
    ensures LeftOver(p, q) == p[0].asns[CommonLength(p[0].asns, q[0].asns)..] + Flat(p[1..])
  {
    hide CommonLength, Flat;
  }

  lemma {:induction false} LeftOverOther(p: Path, q: Path)
    requires p == [] || q == [] || p[0].kind != q[0].kind
    ensures LeftOver(p, q) == Flat(p) && Common(p, q) == []
  {
    hide CommonLength, Head;
    if q == [] {
      LeftOverAll(p);
    }
  }

  lemma {:induction false} FlatFirst(p: Path)
    requires p != []
    ensures Flat(p) == p[0].asns + Flat(p[1..])
  {
  }

  lemma {:induction false} FlatNone()
    ensures Flat([]) == []
  {
  }

  lemma {:induction false} LeftOverIs(p: Path, q: Path)
    ensures Flat(p) == Flat(Common(p, q)) + LeftOver(p, q)
    ensures Flat(Common(p, q)) == Flat(Common(q, p))
  {
    hide CommonLength, Head, Common, LeftOver, Flat;
    if p == [] || q == [] || p[0].kind != q[0].kind {
      LeftOverOther(p, q);
      LeftOverOther(q, p);
      FlatNone();
      assert [] + Flat(p) == Flat(p);
    } else {
      CommonUnfold(p, q);
      CommonUnfold(q, p);
      CommonLengthSymmetric(p[0].asns, q[0].asns);
      var m := CommonLength(p[0].asns, q[0].asns);
      HeadFlat(p[0], m);
      HeadFlat(q[0], m);
      FlatFirst(p);
      if p[0].asns == q[0].asns {
        LeftOverIs(p[1..], q[1..]);
        CommonLengthSelf(p[0].asns);
        FlatConcat(Head(p[0], m), Common(p[1..], q[1..]));
        FlatConcat(Head(q[0], m), Common(q[1..], p[1..]));
        assert p[0].asns[..m] == p[0].asns;
      } else {
        LeftOverCut(p, q);
        assert Head(p[0], m) + [] == Head(p[0], m) && Head(q[0], m) + [] == Head(q[0], m);
        assert p[0].asns[..m] + (p[0].asns[m..] + Flat(p[1..])) == p[0].asns + Flat(p[1..]);
      }
    }
  }

  lemma {:induction false} LeftOverAll(p: Path)
    ensures LeftOver(p, []) == Flat(p)
  {
  }

  lemma {:induction false} HeadFlat(s: Segment, m: nat)
    requires m <= |s.asns|
    ensures Flat(Head(s, m)) == s.asns[..m]
  {
    if m > 0 {
      assert Head(s, m)[1..] == [];
      assert s.asns[..m] + [] == s.asns[..m];
    }
  }

  /**
    An aggregate is a head that both paths start with, number by number, and behind
    it the set of exactly the numbers that follow the head in either of them.
   */
  lemma {:induction false} AggregateParts(p: Path, q: Path) returns (head: Path, x: seq<Asn>, y: seq<Asn>)
    requires Normal(p) && Normal(q)
    ensures Flat(p) == Flat(head) + x && Flat(q) == Flat(head) + y
    ensures CommonHops(Hops(p), Hops(q)) <= Hops(head)
    ensures Hops(Aggregate(p, q)) == Hops(head) + if x + y == [] then [] else [AnyOf(false, Elems(x) + Elems(y))]
  {
    hide Common, LeftOver, SetTail, Normal, Norm, CommonHops;
    head, x, y := Common(p, q), LeftOver(p, q), LeftOver(q, p);
    LeftOverIs(p, q);
    LeftOverIs(q, p);
    CommonKeepsHops(p, q);
    ElemsConcat(x, y);
    SetTailHops(x + y);
    NormKeepsHops(head + SetTail(x + y));
    HopsConcat(head, SetTail(x + y));
  }

  lemma {:induction false} SetTailHops(left: seq<Asn>)
    ensures Hops(SetTail(left)) == if left == [] then [] else [AnyOf(false, Elems(left))]
  {
    if left != [] {
      assert SetTail(left)[1..] == [];
    }
  }
}
