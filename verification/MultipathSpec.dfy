/**
  Multipath selection: the order of candidate paths, the greedy filter that says
  which of them are taken, and the parallel walk that bgpd performs instead.
 */
module MultipathSpec {
  import opened Options
  import opened Sequences

  // ---------------------------------------------------------------------
  // Next hops and their order

  /** The next-hop part of `struct attr_extra`; addresses are numbers in network order. */
  datatype Extra = Extra(len: nat, globalIn: nat, global6: nat, local6: nat)

  datatype Attr = Attr(nexthop: nat, extra: Option<Extra>)

  const NHLEN_IPV4 := 4
  const NHLEN_VPNV4 := 12
  const NHLEN_IPV6_GLOBAL := 16
  const NHLEN_IPV6_GLOBAL_AND_LL := 32

  function Cmp(a: nat, b: nat): int {
    if a < b then -1 else if a > b then 1 else 0
  }

  predicate IsIpv6(e: Extra) {
    e.len == NHLEN_IPV6_GLOBAL || e.len == NHLEN_IPV6_GLOBAL_AND_LL
  }

  /** `bgp_info_nexthop_cmp`. */
  function NexthopCmp(a: Attr, b: Attr): int {
    if a.nexthop != b.nexthop || a.extra.None? || b.extra.None? then
      Cmp(a.nexthop, b.nexthop)
    else
      var e, f := a.extra.value, b.extra.value;
      if e.len == f.len then
        if e.len == NHLEN_IPV4 || e.len == NHLEN_VPNV4 then Cmp(e.globalIn, f.globalIn)
        else if e.len == NHLEN_IPV6_GLOBAL then Cmp(e.global6, f.global6)
        else if e.len == NHLEN_IPV6_GLOBAL_AND_LL then
          if e.global6 != f.global6 then Cmp(e.global6, f.global6) else Cmp(e.local6, f.local6)
        else 0
      else if IsIpv6(e) then
        if e.global6 != f.global6 then Cmp(e.global6, f.global6)
        else if e.len < f.len then -1 else 1
      else 0
  }

  /** The comparison is antisymmetric except between an IPv6 next hop and one of another family. */
  lemma NexthopAntisymmetric(a: Attr, b: Attr)
    ensures NexthopCmp(b, a) == -NexthopCmp(a, b)
      <==> !(a.nexthop == b.nexthop && a.extra.Some? && b.extra.Some?
             && IsIpv6(a.extra.value) != IsIpv6(b.extra.value))
  {
  }

  /** Same address family, as far as the comparison can tell. */
  predicate SameFamily(a: Attr, b: Attr) {
    && a.extra.Some? == b.extra.Some?
    && (a.extra.Some? ==>
          a.extra.value.len == b.extra.value.len || (IsIpv6(a.extra.value) && IsIpv6(b.extra.value)))
  }

  lemma NexthopTransitive(a: Attr, b: Attr, c: Attr)
    requires SameFamily(a, b) && SameFamily(b, c)
    requires NexthopCmp(a, b) <= 0 && NexthopCmp(b, c) <= 0
    ensures NexthopCmp(a, c) <= 0
    ensures NexthopCmp(a, b) < 0 || NexthopCmp(b, c) < 0 ==> NexthopCmp(a, c) < 0
  {
  }

  // ---------------------------------------------------------------------
  // Paths

  /**
    A path of a route (`struct bgp_info`): its identity and what the selection
    reads of it.  What the selection changes is kept in Multipath.Paths.
   */
  datatype BgpInfo = BgpInfo(id: nat, attr: Attr, remote: Option<nat>, ibgp: bool)

  /** `bgp_info_mpath_cmp`: next hop first, then peer address. */
  function MpathCmp(x: BgpInfo, y: BgpInfo): int {
    var c := NexthopCmp(x.attr, y.attr);
    if c != 0 then c
    else if x.remote.None? && y.remote.None? then 0
    else if x.remote.None? then 1
    else if y.remote.None? then -1
    else Cmp(x.remote.value, y.remote.value)
  }

  // ---------------------------------------------------------------------
  // Which candidates are taken

  /** There is room, the candidate is not the best path, and its next hop differs from the last one taken. */
  predicate Takes(best: Option<BgpInfo>, prev: Option<BgpInfo>, count: nat, max: nat, c: BgpInfo) {
    count < max && Some(c) != best && prev.Some? && NexthopCmp(prev.value.attr, c.attr) != 0
  }

  /** The simple greedy filter: candidates in order, nothing about the old list. */
  function Greedy(best: Option<BgpInfo>, cands: seq<BgpInfo>, prev: Option<BgpInfo>, count: nat, max: nat): seq<BgpInfo>
    decreases |cands|
  {
    if cands == [] then []
    else if Takes(best, prev, count, max, cands[0]) then
      [cands[0]] + Greedy(best, cands[1..], Some(cands[0]), count + 1, max)
    else Greedy(best, cands[1..], prev, count, max)
  }

  datatype Outcome = Outcome(list: seq<BgpInfo>, changed: bool)

  /** The parallel walk over the candidates and what is left of the old list. */
  function Walk(best: Option<BgpInfo>, cands: seq<BgpInfo>, chain: seq<BgpInfo>, prev: Option<BgpInfo>, count: nat, max: nat): Outcome
    decreases |cands| + |chain|
  {
    if chain == [] && (cands == [] || count >= max) then Outcome([], false)
    else if cands != [] && chain != [] && cands[0] == chain[0] then
      var c := cands[0];
      if count < max && prev.Some? && NexthopCmp(prev.value.attr, c.attr) != 0 then
        var r := Walk(best, cands[1..], chain[1..], Some(c), count + 1, max);
        Outcome([c] + r.list, r.changed)
      else
        Outcome(Walk(best, cands[1..], chain[1..], prev, count, max).list, true)
    else if chain != [] && (cands == [] || MpathCmp(chain[0], cands[0]) < 0) then
      Outcome(Walk(best, cands, chain[1..], prev, count, max).list, true)
    else
      var c := cands[0];
      if Takes(best, prev, count, max, c) then
        RemoveSize(chain, c);
        Outcome([c] + Walk(best, cands[1..], Remove(chain, c), Some(c), count + 1, max).list, true)
      else Walk(best, cands[1..], chain, prev, count, max)
  }

  lemma {:induction false} GreedyFull(best: Option<BgpInfo>, cands: seq<BgpInfo>, prev: Option<BgpInfo>, count: nat, max: nat)
    requires count >= max
    ensures Greedy(best, cands, prev, count, max) == []
  {
    if cands != [] {
      GreedyFull(best, cands[1..], prev, count, max);
    }
  }

  /** Whatever the old list was, the walk takes exactly what the greedy filter takes. */
  lemma {:induction false} WalkIsGreedy(best: Option<BgpInfo>, cands: seq<BgpInfo>, chain: seq<BgpInfo>, prev: Option<BgpInfo>, count: nat, max: nat)
    requires Distinct(chain)
    requires best.Some? ==> best.value !in chain
    ensures Walk(best, cands, chain, prev, count, max).list == Greedy(best, cands, prev, count, max)
    decreases |cands| + |chain|
  {
    if chain == [] && (cands == [] || count >= max) {
      if count >= max { GreedyFull(best, cands, prev, count, max); }
    } else if cands != [] && chain != [] && cands[0] == chain[0] {
      WalkIsGreedy(best, cands[1..], chain[1..], Some(cands[0]), count + 1, max);
      WalkIsGreedy(best, cands[1..], chain[1..], prev, count, max);
      assert chain[0] in chain;
    } else if chain != [] && (cands == [] || MpathCmp(chain[0], cands[0]) < 0) {
      WalkIsGreedy(best, cands, chain[1..], prev, count, max);
    } else if Takes(best, prev, count, max, cands[0]) {
      RemoveMembers(chain, cands[0]);
      RemoveSize(chain, cands[0]);
      WalkIsGreedy(best, cands[1..], Remove(chain, cands[0]), Some(cands[0]), count + 1, max);
    } else {
      WalkIsGreedy(best, cands[1..], chain, prev, count, max);
    }
  }

  // ---------------------------------------------------------------------
  // Change detection

  /** If the walk reports no change, the new list is the remaining old list. */
  lemma {:induction false} WalkUnchanged(best: Option<BgpInfo>, cands: seq<BgpInfo>, chain: seq<BgpInfo>, prev: Option<BgpInfo>, count: nat, max: nat)
    ensures !Walk(best, cands, chain, prev, count, max).changed ==>
      Walk(best, cands, chain, prev, count, max).list == chain
    decreases |cands| + |chain|
  {
    if chain == [] && (cands == [] || count >= max) {
    } else if cands != [] && chain != [] && cands[0] == chain[0] {
      WalkUnchanged(best, cands[1..], chain[1..], Some(cands[0]), count + 1, max);
    } else if chain != [] && (cands == [] || MpathCmp(chain[0], cands[0]) < 0) {
    } else if !Takes(best, prev, count, max, cands[0]) {
      WalkUnchanged(best, cands[1..], chain, prev, count, max);
    }
  }

  /** Later candidates never compare below earlier ones. */
  ghost predicate InOrder(cands: seq<BgpInfo>) {
    forall i, j :: 0 <= i < j < |cands| ==> MpathCmp(cands[j], cands[i]) >= 0
  }

  lemma {:induction false} GreedyWithin(best: Option<BgpInfo>, cands: seq<BgpInfo>, prev: Option<BgpInfo>, count: nat, max: nat)
    ensures forall x :: x in Greedy(best, cands, prev, count, max) ==> x in cands && Some(x) != best
    decreases |cands|
  {
    if cands != [] {
      GreedyWithin(best, cands[1..], Some(cands[0]), count + 1, max);
      GreedyWithin(best, cands[1..], prev, count, max);
      assert forall x :: x in cands[1..] ==> x in cands;
      assert cands[0] in cands;
    }
  }

  /** For candidates in order, the walk reports a change only if the list changed. */
  lemma {:induction false} WalkSameList(best: Option<BgpInfo>, cands: seq<BgpInfo>, chain: seq<BgpInfo>, prev: Option<BgpInfo>, count: nat, max: nat)
    requires Distinct(cands) && InOrder(cands)
    requires Greedy(best, cands, prev, count, max) == chain
    ensures !Walk(best, cands, chain, prev, count, max).changed
    decreases |cands| + |chain|
  {
    if chain == [] && (cands == [] || count >= max) {
    } else if cands == [] {
    } else {
      var c, g := cands[0], Greedy(best, cands, prev, count, max);
      GreedyWithin(best, cands[1..], prev, count, max);
      GreedyWithin(best, cands, prev, count, max);
      assert c !in cands[1..];
      if Takes(best, prev, count, max, c) {
        assert chain[0] == c;
        assert chain[1..] == Greedy(best, cands[1..], Some(c), count + 1, max);
        WalkSameList(best, cands[1..], chain[1..], Some(c), count + 1, max);
      } else {
        assert c !in chain;
        WalkSameList(best, cands[1..], chain, prev, count, max);
        if chain != [] {
          assert chain[0] in cands;
          var j :| 0 <= j < |cands| && cands[j] == chain[0];
          assert MpathCmp(cands[j], cands[0]) >= 0;
        }
      }
    }
  }

  // ---------------------------------------------------------------------
  // Distinct next hops

  ghost predicate OneFamily(cands: seq<BgpInfo>) {
    forall i, j :: 0 <= i < |cands| && 0 <= j < |cands| ==> SameFamily(cands[i].attr, cands[j].attr)
  }

  ghost predicate NexthopsIncrease(s: seq<BgpInfo>) {
    forall i, j :: 0 <= i < j < |s| ==> NexthopCmp(s[i].attr, s[j].attr) < 0
  }

  ghost predicate SortedCandidates(cands: seq<BgpInfo>) {
    forall i, j :: 0 <= i < j < |cands| ==> MpathCmp(cands[i], cands[j]) <= 0
  }

  lemma SortedInOrder(cands: seq<BgpInfo>)
    requires OneFamily(cands) && SortedCandidates(cands)
    ensures InOrder(cands)
  {
    forall i, j | 0 <= i < j < |cands|
      ensures MpathCmp(cands[j], cands[i]) >= 0
    {
      assert SameFamily(cands[i].attr, cands[j].attr);
      assert MpathCmp(cands[i], cands[j]) <= 0;
      NexthopAntisymmetric(cands[i].attr, cands[j].attr);
    }
  }

  /** From a taken path on, the greedy filter takes strictly increasing next hops. */
  lemma {:induction false} GreedyIncreases(best: Option<BgpInfo>, cands: seq<BgpInfo>, prev: BgpInfo, count: nat, max: nat)
    requires OneFamily([prev] + cands) && SortedCandidates([prev] + cands)
    ensures NexthopsIncrease([prev] + Greedy(best, cands, Some(prev), count, max))
    decreases |cands|
  {
    if cands != [] {
      hide NexthopsIncrease, NexthopCmp, MpathCmp, OneFamily, SortedCandidates;
      var c, all := cands[0], [prev] + cands;
      SortedParts(prev, cands);
      GreedyIncreases(best, cands[1..], prev, count, max);
      if Takes(best, Some(prev), count, max, c) {
        assert [c] + cands[1..] == cands;
        GreedyIncreases(best, cands[1..], c, count + 1, max);
        var g := Greedy(best, cands[1..], Some(c), count + 1, max);
        GreedyWithin(best, cands[1..], Some(c), count + 1, max);
        assert all[0] == prev && all[1] == c;
        StepUp(prev, c, g, all);
        assert [prev] + Greedy(best, cands, Some(prev), count, max) == [prev] + ([c] + g);
      }
    }
  }

  lemma SortedParts(prev: BgpInfo, cands: seq<BgpInfo>)
    requires OneFamily([prev] + cands) && SortedCandidates([prev] + cands) && cands != []
    ensures OneFamily([prev] + cands[1..]) && SortedCandidates([prev] + cands[1..])
    ensures OneFamily(cands) && SortedCandidates(cands)
    ensures NexthopCmp(prev.attr, cands[0].attr) <= 0
  {
    hide NexthopCmp, OneFamily, SortedCandidates;
    var all, skip := [prev] + cands, [prev] + cands[1..];
    MpathBelow(all);
    SortedPick(all, cands, 1);
    forall i | 0 <= i < |skip| ensures skip[i] == all[if i == 0 then 0 else i + 1] {
    }
    SortedSkip(all, skip);
  }

  lemma MpathBelow(all: seq<BgpInfo>)
    requires SortedCandidates(all) && |all| > 1
    ensures NexthopCmp(all[0].attr, all[1].attr) <= 0
  {
    hide NexthopCmp;
    assert MpathCmp(all[0], all[1]) <= 0;
  }

  lemma SortedPick(all: seq<BgpInfo>, s: seq<BgpInfo>, k: nat)
    requires OneFamily(all) && SortedCandidates(all)
    requires |s| + k == |all| && forall i :: 0 <= i < |s| ==> s[i] == all[i + k]
    ensures OneFamily(s) && SortedCandidates(s)
  {
    hide MpathCmp, SameFamily;
  }

  lemma SortedSkip(all: seq<BgpInfo>, s: seq<BgpInfo>)
    requires OneFamily(all) && SortedCandidates(all) && |s| + 1 == |all|
    requires forall i :: 0 <= i < |s| ==> s[i] == all[if i == 0 then 0 else i + 1]
    ensures OneFamily(s) && SortedCandidates(s)
  {
    hide MpathCmp, SameFamily;
  }

  lemma StepUp(prev: BgpInfo, c: BgpInfo, g: seq<BgpInfo>, all: seq<BgpInfo>)
    requires OneFamily(all) && prev in all && c in all
    requires forall x :: x in g ==> x in all
    requires NexthopCmp(prev.attr, c.attr) < 0
    requires NexthopsIncrease([c] + g)
    ensures NexthopsIncrease([prev] + ([c] + g))
  {
    var t := [c] + g;
    var s := [prev] + t;
    forall j | 0 < j < |s|
      ensures NexthopCmp(prev.attr, s[j].attr) < 0
    {
      if j > 1 {
        assert s[j] == t[j - 1] && t[j - 1] == g[j - 2];
        assert g[j - 2] in all;
        assert NexthopCmp(t[0].attr, t[j - 1].attr) < 0;
        NexthopTransitive(prev.attr, c.attr, s[j].attr);
      }
    }
    assert forall i, j :: 0 < i < j < |s| ==> s[i] == t[i - 1] && s[j] == t[j - 1];
  }

  /**
    With sorted candidates of one family, the selected paths have pairwise
    distinct next hops, in increasing order.
   */
  lemma {:induction false} GreedyDistinctNexthops(best: Option<BgpInfo>, cands: seq<BgpInfo>, prev: Option<BgpInfo>, count: nat, max: nat)
    requires OneFamily(cands) && SortedCandidates(cands)
    ensures NexthopsIncrease(Greedy(best, cands, prev, count, max))
    decreases |cands|
  {
    if cands != [] {
      var rest := cands[1..];
      assert OneFamily(rest) && SortedCandidates(rest);
      if Takes(best, prev, count, max, cands[0]) {
        assert cands == [cands[0]] + rest;
        GreedyIncreases(best, rest, cands[0], count + 1, max);
      } else {
        GreedyDistinctNexthops(best, rest, prev, count, max);
      }
    }
  }

  lemma {:induction false} FirstTaken(best: Option<BgpInfo>, cands: seq<BgpInfo>, prev: BgpInfo, count: nat, max: nat)
    ensures var g := Greedy(best, cands, Some(prev), count, max); g != [] ==> NexthopCmp(prev.attr, g[0].attr) != 0
    decreases |cands|
  {
    if cands != [] && !Takes(best, Some(prev), count, max, cands[0]) {
      FirstTaken(best, cands[1..], prev, count, max);
    }
  }

  /** If no candidate sorts below the best path's next hop, no selected path shares it. */
  lemma GreedyAvoidsBest(best: BgpInfo, cands: seq<BgpInfo>, max: nat)
    requires OneFamily([best] + cands) && SortedCandidates(cands)
    requires forall x :: x in cands ==> NexthopCmp(best.attr, x.attr) <= 0
    ensures forall x :: x in Greedy(Some(best), cands, Some(best), 1, max) ==> NexthopCmp(best.attr, x.attr) < 0
  {
    hide NexthopCmp, SameFamily;
    var g, all := Greedy(Some(best), cands, Some(best), 1, max), [best] + cands;
    assert all[0] == best && all[1..] == cands;
    assert OneFamily(cands) by {
      assert forall i :: 0 <= i < |cands| ==> cands[i] == all[i + 1];
    }
    GreedyDistinctNexthops(Some(best), cands, Some(best), 1, max);
    GreedyWithin(Some(best), cands, Some(best), 1, max);
    FirstTaken(Some(best), cands, best, 1, max);
    forall j | 0 <= j < |g|
      ensures NexthopCmp(best.attr, g[j].attr) < 0
    {
      assert g[0] in cands && g[j] in cands;
      if j > 0 {
        assert all[0] in all && g[0] in all && g[j] in all;
        FamilyOf(all, best, g[0]);
        FamilyOf(all, g[0], g[j]);
        NexthopTransitive(best.attr, g[0].attr, g[j].attr);
      }
    }
  }

  lemma FamilyOf(all: seq<BgpInfo>, x: BgpInfo, y: BgpInfo)
    requires OneFamily(all) && x in all && y in all
    ensures SameFamily(x.attr, y.attr)
  {
  }

  /** Otherwise one may: a lower next hop taken in between hides the best path's own. */
  lemma BestNexthopRepeated(best: BgpInfo, low: BgpInfo, twin: BgpInfo)
    requires best != low && low != twin && twin != best
    requires best.attr == twin.attr == Attr(5, None) && low.attr == Attr(3, None)
    ensures Greedy(Some(best), [low, twin], Some(best), 1, 8) == [low, twin]
  {
    assert [low, twin][1..] == [twin] && [twin][1..] == [];
    assert Greedy(Some(best), [], Some(twin), 3, 8) == [];
    assert Greedy(Some(best), [twin], Some(low), 2, 8) == [twin];
  }
}
