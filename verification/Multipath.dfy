/**
  The multipath list of a route: a doubly linked list threaded through the paths
  themselves, rebuilt in place while the old list is taken apart.
 */
module Multipath {
  import opened Options
  import opened Sequences
  import opened MultipathSpec
  import MultipathBounds

  // ---------------------------------------------------------------------
  // Links

  /** `struct bgp_info_mpath`; a path without one is not a key of the table below. */
  datatype Mpath = Mpath(next: Option<BgpInfo>, prev: Option<BgpInfo>, count: nat)

  type Links = map<BgpInfo, Mpath>

  /** `bgp_info_mpath_next`. */
  function NextOf(m: Links, x: BgpInfo): Option<BgpInfo> {
    if x in m then m[x].next else None
  }

  function PrevOf(m: Links, x: BgpInfo): Option<BgpInfo> {
    if x in m then m[x].prev else None
  }

  /** `bgp_info_mpath_count`. */
  function CountOf(m: Links, x: BgpInfo): nat {
    if x in m then m[x].count else 0
  }

  ghost function After(s: seq<BgpInfo>, i: int): Option<BgpInfo> {
    if 0 <= i + 1 < |s| then Some(s[i + 1]) else None
  }

  ghost function Before(s: seq<BgpInfo>, i: int): Option<BgpInfo> {
    if 0 < i <= |s| then Some(s[i - 1]) else None
  }

  /** The paths are linked to each other in this order, and to nothing else. */
  ghost predicate Linked(m: Links, s: seq<BgpInfo>) {
    && Distinct(s)
    && (forall i :: 0 <= i < |s| ==> NextOf(m, s[i]) == After(s, i) && PrevOf(m, s[i]) == Before(s, i))
    && (|s| > 1 ==> forall i :: 0 <= i < |s| ==> s[i] in m)
  }

  ghost predicate Unlinked(m: Links, x: BgpInfo) {
    NextOf(m, x) == None && PrevOf(m, x) == None
  }

  ghost function Elems(s: seq<BgpInfo>): set<BgpInfo> {
    set x | x in s
  }

  ghost function Headed(best: Option<BgpInfo>, list: seq<BgpInfo>): seq<BgpInfo> {
    if best.None? then list else [best.value] + list
  }

  // ---------------------------------------------------------------------
  // Chain lemmas

  lemma DistinctAt(s: seq<BgpInfo>, k: int)
    requires Distinct(s)
    ensures 0 <= k < |s| ==> forall i :: 0 <= i < |s| && i != k ==> s[i] != s[k]
  {
  }

  /** Bypassing one path leaves the others linked. */
  lemma LinkedCut(m: Links, m': Links, s: seq<BgpInfo>, k: nat)
    requires Linked(m, s) && k < |s|
    requires forall i :: 0 <= i < |s| && i != k ==>
      && NextOf(m', s[i]) == (if i == k - 1 then After(s, k) else NextOf(m, s[i]))
      && PrevOf(m', s[i]) == (if i == k + 1 then Before(s, k) else PrevOf(m, s[i]))
    requires m'.Keys == m.Keys
    ensures Linked(m', Remove(s, s[k]))
  {
    RemoveIs(s, k);
    RemoveMembers(s, s[k]);
    hide Distinct, Remove, NextOf, PrevOf;
    var r := s[..k] + s[k + 1..];
    forall i | 0 <= i < |r|
      ensures NextOf(m', r[i]) == After(r, i) && PrevOf(m', r[i]) == Before(r, i)
      ensures |r| > 1 ==> r[i] in m'
    {
      CutNeighbours(s, k, i);
    }
  }

  lemma CutNeighbours(s: seq<BgpInfo>, k: nat, i: nat)
    requires k < |s| && i < |s| - 1
    ensures var r := s[..k] + s[k + 1..];
            if i < k then
              && r[i] == s[i]
              && After(r, i) == After(s, if i == k - 1 then k else i) && Before(r, i) == Before(s, i)
            else
              && r[i] == s[i + 1]
              && After(r, i) == After(s, i + 1) && Before(r, i) == Before(s, if i == k then k else i + 1)
  {
  }

  lemma DistinctInsert(s: seq<BgpInfo>, k: nat, x: BgpInfo)
    requires Distinct(s) && k <= |s| && x !in s
    ensures Distinct(s[..k] + [x] + s[k..])
  {
    var r := s[..k] + [x] + s[k..];
    assert forall i :: 0 <= i < |r| ==> r[i] == if i < k then s[i] else if i == k then x else s[i - 1];
  }

  /** Putting a path behind the `k`-th one. */
  lemma LinkedInsert(m: Links, m': Links, s: seq<BgpInfo>, k: nat, x: BgpInfo)
    requires Linked(m, s) && k < |s| && x !in s
    requires NextOf(m', x) == After(s, k) && PrevOf(m', x) == Some(s[k]) && x in m'
    requires forall i :: 0 <= i < |s| ==>
      && s[i] in m'
      && NextOf(m', s[i]) == (if i == k then Some(x) else NextOf(m, s[i]))
      && PrevOf(m', s[i]) == (if i == k + 1 then Some(x) else PrevOf(m, s[i]))
    ensures Linked(m', s[..k + 1] + [x] + s[k + 1..])
  {
    DistinctInsert(s, k + 1, x);
    hide Distinct, NextOf, PrevOf;
    var t := s[..k + 1] + [x] + s[k + 1..];
    forall i | 0 <= i < |t|
      ensures NextOf(m', t[i]) == After(t, i) && PrevOf(m', t[i]) == Before(t, i) && t[i] in m'
    {
      if i <= k {
        assert t[i] == s[i];
      } else if i > k + 1 {
        assert t[i] == s[i - 1];
      }
    }
  }

  /** A chain whose links did not change. */
  lemma LinkedKept(m: Links, m': Links, s: seq<BgpInfo>)
    requires Linked(m, s)
    requires forall x :: x in s ==> NextOf(m', x) == NextOf(m, x) && PrevOf(m', x) == PrevOf(m, x) && (x in m ==> x in m')
    ensures Linked(m', s)
  {
  }

  /** The pointer updates of a removal. */
  function BypassPrev(m: Links, e: Mpath): Links
    requires e.prev.Some? ==> e.prev.value in m
  {
    if e.prev.None? then m else m[e.prev.value := m[e.prev.value].(next := e.next)]
  }

  function BypassNext(m: Links, e: Mpath): Links
    requires e.next.Some? ==> e.next.value in m
  {
    if e.next.None? then m else m[e.next.value := m[e.next.value].(prev := e.prev)]
  }

  lemma BypassCuts(m: Links, s: seq<BgpInfo>, k: nat)
    requires Linked(m, s) && k < |s| && s[k] in m
    ensures m[s[k]].prev.Some? ==> m[s[k]].prev.value in m
    ensures m[s[k]].next.Some? ==> m[s[k]].next.value in m
    ensures var m' := BypassNext(BypassPrev(m, m[s[k]]), m[s[k]]);
            Linked(m'[s[k] := m[s[k]].(next := None, prev := None)], Remove(s, s[k]))
  {
    DistinctAt(s, k - 1);
    DistinctAt(s, k);
    DistinctAt(s, k + 1);
    hide Distinct;
    var x, e := s[k], m[s[k]];
    assert NextOf(m, x) == After(s, k) && PrevOf(m, x) == Before(s, k);
    LinkedCut(m, BypassNext(BypassPrev(m, e), e)[x := e.(next := None, prev := None)], s, k);
  }

  lemma NeighboursOn(m: Links, s: seq<BgpInfo>, k: nat)
    requires Linked(m, s) && k < |s|
    ensures NextOf(m, s[k]).Some? ==> NextOf(m, s[k]).value in s
    ensures PrevOf(m, s[k]).Some? ==> PrevOf(m, s[k]).value in s
  {
  }

  lemma RemoveUnallocated(m: Links, s: seq<BgpInfo>, x: BgpInfo)
    requires Linked(m, s) && x !in m
    ensures Linked(m, Remove(s, x))
  {
    if x in s {
      assert s == [x];
      assert Remove(s, x) == [];
    } else {
      RemoveSize(s, x);
    }
  }

  ghost function IndexOf(s: seq<BgpInfo>, x: BgpInfo): (k: nat)
    ensures x in s ==> k < |s| && s[k] == x
  {
    if s == [] || s[0] == x then 0 else 1 + IndexOf(s[1..], x)
  }

  // ---------------------------------------------------------------------
  // The paths of a route

  class Paths {
    var mpath: Links
    /** BGP_INFO_MULTIPATH and BGP_INFO_MULTIPATH_CHG. */
    var multipath: set<BgpInfo>
    var changed: set<BgpInfo>

    constructor ()
      ensures Consistent(None, [])
      ensures changed == {}
    {
      mpath, multipath, changed := map[], {}, {};
    }

    /** `best` heads the list `list` and carries the count `n`. */
    ghost predicate Heads(best: Option<BgpInfo>, list: seq<BgpInfo>, n: nat)
      reads this
    {
      && (best.None? ==> list == [])
      && Linked(mpath, Headed(best, list))
      && (forall x :: x !in Headed(best, list) ==> Unlinked(mpath, x))
      && multipath == Elems(list)
      && (forall x :: CountOf(mpath, x) == if best == Some(x) then n else 0)
      && (forall x :: x in multipath ==> x in mpath)
    }

    /** What holds between updates. */
    ghost predicate Consistent(best: Option<BgpInfo>, list: seq<BgpInfo>)
      reads this
    {
      Heads(best, list, |list|)
    }

    /**
      `bgp_info_mpath_dequeue`; `s` is the chain the path is on, if it is on
      one.  A path with no element allocated is left as it is.
     */
    method Dequeue(x: BgpInfo, ghost s: seq<BgpInfo>)
      requires Linked(mpath, s)
      requires x !in s ==> Unlinked(mpath, x)
      modifies this`mpath, this`multipath
      ensures Linked(mpath, Remove(s, x)) && Unlinked(mpath, x)
      ensures multipath == if x in old(mpath) then old(multipath) - {x} else old(multipath)
      ensures mpath.Keys == old(mpath).Keys
      ensures forall y :: CountOf(mpath, y) == CountOf(old(mpath), y)
      ensures forall y :: y !in s && y != x ==>
        NextOf(mpath, y) == NextOf(old(mpath), y) && PrevOf(mpath, y) == PrevOf(old(mpath), y)
    {
      hide Distinct, Remove, Linked;
      ghost var k := IndexOf(s, x);
      if x !in mpath {
        RemoveUnallocated(mpath, s, x);
        return;
      }
      if x in s {
        BypassCuts(mpath, s, k);
      } else {
        RemoveSize(s, x);
      }
      var e := mpath[x];
      var m := mpath;
      if e.prev.Some? {
        m := m[e.prev.value := m[e.prev.value].(next := e.next)];
      }
      if e.next.Some? {
        m := m[e.next.value := m[e.next.value].(prev := e.prev)];
      }
      m := m[x := e.(next := None, prev := None)];
      if x in s {
        NeighboursOn(mpath, s, k);
      } else {
        LinkedKept(mpath, m, s);
      }
      mpath := m;
      multipath := multipath - {x};
    }

    /** `bgp_info_mpath_enqueue` behind the path at index `k` of the chain `s`. */
    method Enqueue(prev: BgpInfo, x: BgpInfo, ghost s: seq<BgpInfo>, ghost k: nat)
      requires Linked(mpath, s) && k < |s| && prev == s[k]
      requires x !in s && Unlinked(mpath, x)
      modifies this`mpath, this`multipath
      ensures Linked(mpath, s[..k + 1] + [x] + s[k + 1..])
      ensures multipath == old(multipath) + {x}
      ensures mpath.Keys == old(mpath).Keys + {prev, x}
      ensures forall y :: CountOf(mpath, y) == CountOf(old(mpath), y)
      ensures forall y :: y !in s && y != x ==>
        NextOf(mpath, y) == NextOf(old(mpath), y) && PrevOf(mpath, y) == PrevOf(old(mpath), y)
    {
      DistinctAt(s, k);
      DistinctAt(s, k + 1);
      hide Distinct;
      var m := mpath;
      if prev !in m {
        m := m[prev := Mpath(None, None, 0)];
      }
      if x !in m {
        m := m[x := Mpath(None, None, 0)];
      }
      m := m[x := m[x].(next := m[prev].next, prev := Some(prev))];
      if m[prev].next.Some? {
        var n := m[prev].next.value;
        m := m[n := m[n].(prev := Some(x))];
      }
      m := m[prev := m[prev].(next := Some(x))];
      LinkedInsert(mpath, m, s, k, x);
      mpath := m;
      multipath := multipath + {x};
    }

    /** `bgp_info_mpath_count_set`. */
    method CountSet(x: BgpInfo, count: nat)
      modifies this`mpath
      ensures forall y :: CountOf(mpath, y) == if y == x then count else CountOf(old(mpath), y)
      ensures forall y :: NextOf(mpath, y) == NextOf(old(mpath), y) && PrevOf(mpath, y) == PrevOf(old(mpath), y)
      ensures old(mpath).Keys <= mpath.Keys
    {
      if count == 0 && x !in mpath {
        return;
      }
      if x !in mpath {
        mpath := mpath[x := Mpath(None, None, 0)];
      }
      mpath := mpath[x := mpath[x].(count := count)];
    }

    /** During the walk: the new list so far behind `best`, and what is left of the old list on its own. */
    ghost predicate Walking(best: Option<BgpInfo>, list: seq<BgpInfo>, chain: seq<BgpInfo>)
      reads this
    {
      && Elems(Headed(best, list)) !! Elems(chain)
      && Linked(mpath, Headed(best, list))
      && Linked(mpath, chain)
      && (forall x :: x !in Headed(best, list) && x !in chain ==> Unlinked(mpath, x))
      && multipath == Elems(list) + Elems(chain)
      && (forall x :: CountOf(mpath, x) == 0)
      && (forall x :: x in multipath ==> x in mpath)
      && (best.None? ==> list == [])
    }

    /** Takes a path off the old list, if it is on it. */
    method DropFromOld(x: BgpInfo, ghost best: Option<BgpInfo>, ghost list: seq<BgpInfo>, ghost chain: seq<BgpInfo>)
      requires Walking(best, list, chain)
      requires x !in Headed(best, list)
      modifies this`mpath, this`multipath
      ensures Walking(best, list, Remove(chain, x))
      ensures x !in Remove(chain, x)
    {
      ghost var m0, h := mpath, Headed(best, list);
      RemoveMembers(chain, x);
      FlagsAfterDrop(best, list, chain, x);
      ElemsApart(h, chain);
      ElemsApart(h, Remove(chain, x));
      assert x !in multipath ==> x !in chain;
      hide Remove, Headed, Linked, Distinct, Elems;
      Dequeue(x, chain);
      LinkedKept(m0, mpath, h);
    }

    /** Appends a path that is on neither list to the new list. */
    method AppendToNew(prev: BgpInfo, x: BgpInfo, ghost best: Option<BgpInfo>, ghost list: seq<BgpInfo>, ghost chain: seq<BgpInfo>)
      requires Walking(best, list, chain)
      requires best.Some? && x !in Headed(best, list) && x !in chain
      requires prev == Headed(best, list)[|list|]
      modifies this`mpath, this`multipath
      ensures Walking(best, list + [x], chain)
    {
      ghost var m0, h := mpath, Headed(best, list);
      HeadedElems(best, list);
      assert h[..|list| + 1] + [x] + h[|list| + 1..] == Headed(best, list + [x]) == h + [x];
      ElemsSnoc(list, x);
      ElemsSnoc(h, x);
      hide Headed, Linked, Distinct;
      Enqueue(prev, x, h, |list|);
      ElemsApart(h, chain);
      LinkedKept(m0, mpath, chain);
    }

    /** The new best path leaves the old list. */
    method LeaveOldList(x: BgpInfo, ghost oldBest: Option<BgpInfo>, ghost was: seq<BgpInfo>, ghost n: nat)
      requires Heads(oldBest, was, n)
      requires oldBest != Some(x)
      modifies this`mpath, this`multipath
      ensures Heads(oldBest, Remove(was, x), n)
    {
      ghost var s := Headed(oldBest, was);
      RemoveHeaded(oldBest, was, x);
      RemoveMembers(s, x);
      TailDistinct(oldBest, was);
      RemoveMembers(was, x);
      if oldBest.None? { RemoveSize(was, x); }
      hide Remove, Headed, Linked, Distinct;
      Dequeue(x, s);
    }

    /** The old list is cut loose from the old best path. */
    method CutLoose(oldBest: BgpInfo, ghost chain: seq<BgpInfo>, ghost n: nat) returns (cur: Option<BgpInfo>, oldCount: nat)
      requires Heads(Some(oldBest), chain, n)
      modifies this`mpath, this`multipath
      ensures Walking(None, [], chain) && oldBest !in chain
      ensures cur == After(chain, -1) && oldCount == n
    {
      ghost var s := [oldBest] + chain;
      assert oldBest !in chain by { DistinctAt(s, 0); assert forall i :: 0 <= i < |chain| ==> chain[i] == s[i + 1]; }
      assert NextOf(mpath, s[0]) == After(s, 0);
      assert s[1..] == chain;
      cur := NextOf(mpath, oldBest);
      oldCount := CountOf(mpath, oldBest);
      ghost var m0 := mpath;
      CountSet(oldBest, 0);
      LinkedKept(m0, mpath, s);
      hide Linked, Distinct;
      Dequeue(oldBest, s);
    }

    /** The opening of `bgp_info_mpath_update`. */
    method Detach(newBest: Option<BgpInfo>, oldBest: Option<BgpInfo>, ghost was: seq<BgpInfo>)
      returns (cur: Option<BgpInfo>, oldCount: nat)
      requires Consistent(oldBest, was)
      modifies this`mpath, this`multipath
      ensures Walking(newBest, [], Without(was, newBest))
      ensures cur == After(Without(was, newBest), -1)
      ensures oldCount == |was|
    {
      TailDistinct(oldBest, was);
      hide Linked, Unlinked;
      cur, oldCount := None, 0;
      if newBest.Some? {
        RemoveMembers(was, newBest.value);
        if newBest != oldBest {
          LeaveOldList(newBest.value, oldBest, was, |was|);
        } else {
          RemoveSize(was, newBest.value);
        }
      }
      if oldBest.Some? {
        cur, oldCount := CutLoose(oldBest.value, Without(was, newBest), |was|);
      }
      StartsEmpty(mpath, newBest, Without(was, newBest));
    }

    /** A candidate that was and, if there is room, stays a multipath; `chain[0]` is that path. */
    method KeepOrDrop(x: BgpInfo, keep: bool, prev: Option<BgpInfo>, ghost best: Option<BgpInfo>, ghost list: seq<BgpInfo>, ghost chain: seq<BgpInfo>)
      requires Walking(best, list, chain)
      requires x !in Headed(best, list)
      requires keep ==> best.Some? && prev == Last(best, list)
      modifies this`mpath, this`multipath
      ensures Walking(best, if keep then list + [x] else list, Remove(chain, x))
    {
      hide Walking, Headed, Remove, Last;
      DropFromOld(x, best, list, chain);
      if keep {
        LastOf(best, list);
        AppendToNew(prev.value, x, best, list, Remove(chain, x));
      }
    }

    /** Where the loop of `bgp_info_mpath_update` is, and that the whole walk is what is done plus the rest. */
    ghost predicate AtStep(whole: Outcome, best: Option<BgpInfo>, mpList: seq<BgpInfo>, max: nat, w: Cursor, list: seq<BgpInfo>, chain: seq<BgpInfo>)
      reads this
    {
      && w.node <= |mpList|
      && Walking(best, list, chain)
      && w.cur == After(chain, -1)
      && w.prev == Last(best, list)
      && w.count == StartCount(best) + |list|
      && Elems(list) !! Elems(mpList[w.node..])
      && Continues(whole, list, w.changed, Walk(best, mpList[w.node..], chain, w.prev, w.count, max))
      && Distinct(mpList)
      && (best.None? ==> mpList == [])
    }

    /** The candidate is the next path of the old list. */
    method StepEqual(best: Option<BgpInfo>, mpList: seq<BgpInfo>, max: nat, w: Cursor,
                     ghost whole: Outcome, ghost list: seq<BgpInfo>, ghost chain: seq<BgpInfo>)
      returns (w': Cursor, ghost list': seq<BgpInfo>, ghost chain': seq<BgpInfo>)
      requires AtStep(whole, best, mpList, max, w, list, chain)
      requires w.node < |mpList| && w.cur == Some(mpList[w.node])
      modifies this`mpath, this`multipath
      ensures AtStep(whole, best, mpList, max, w', list', chain')
      ensures w'.node == w.node + 1 && |chain'| < |chain|
    {
      hide Walking, Walk, Distinct, Remove, Continues, Headed, Elems;
      var x := mpList[w.node];
      ghost var rest := mpList[w.node..];
      assert rest[0] == x && rest[1..] == mpList[w.node + 1..];
      ChainFacts(this, best, list, chain);
      WalkEqual(whole, list, w.changed, best, rest, chain, w.prev, w.count, max);
      var next := NextOf(mpath, x);
      var keep := w.count < max && NexthopCmp(w.prev.value.attr, x.attr) != 0;
      KeepOrDrop(x, keep, w.prev, best, list, chain);
      chain' := chain[1..];
      if keep {
        list' := list + [x];
        w' := Cursor(w.node + 1, next, Some(x), w.count + 1, w.changed);
      } else {
        list' := list;
        w' := Cursor(w.node + 1, next, w.prev, w.count, true);
      }
      ListApart(list, list', mpList, w.node);
    }

    /** The next path of the old list is not a candidate any more, or comes earlier in the order. */
    method StepPurge(best: Option<BgpInfo>, mpList: seq<BgpInfo>, max: nat, w: Cursor,
                     ghost whole: Outcome, ghost list: seq<BgpInfo>, ghost chain: seq<BgpInfo>)
      returns (w': Cursor, ghost chain': seq<BgpInfo>)
      requires AtStep(whole, best, mpList, max, w, list, chain)
      requires w.cur.Some?
      requires w.node == |mpList| || (w.cur.value != mpList[w.node] && MpathCmp(w.cur.value, mpList[w.node]) < 0)
      modifies this`mpath, this`multipath
      ensures AtStep(whole, best, mpList, max, w', list, chain')
      ensures w'.node == w.node && |chain'| < |chain|
    {
      hide Walking, Walk, Distinct, Remove, Continues, Headed, Elems;
      ChainFacts(this, best, list, chain);
      WalkPurge(whole, list, w.changed, best, mpList[w.node..], chain, w.prev, w.count, max);
      var next := NextOf(mpath, w.cur.value);
      KeepOrDrop(w.cur.value, false, w.prev, best, list, chain);
      chain' := chain[1..];
      w' := w.(cur := next, changed := true);
    }

    /** A candidate that is not next on the old list; it may still be further down. */
    method StepNew(best: Option<BgpInfo>, mpList: seq<BgpInfo>, max: nat, w: Cursor,
                   ghost whole: Outcome, ghost list: seq<BgpInfo>, ghost chain: seq<BgpInfo>)
      returns (w': Cursor, ghost list': seq<BgpInfo>, ghost chain': seq<BgpInfo>)
      requires AtStep(whole, best, mpList, max, w, list, chain)
      requires w.node < |mpList| && (w.cur.None? ==> w.count < max)
      requires w.cur.Some? ==> w.cur.value != mpList[w.node] && MpathCmp(w.cur.value, mpList[w.node]) >= 0
      modifies this`mpath, this`multipath
      ensures AtStep(whole, best, mpList, max, w', list', chain')
      ensures w'.node == w.node + 1 && |chain'| <= |chain|
    {
      hide Walking, Walk, Distinct, Remove, Continues, Headed, Elems;
      var x := mpList[w.node];
      ghost var rest := mpList[w.node..];
      assert rest[0] == x && rest[1..] == mpList[w.node + 1..];
      ChainFacts(this, best, list, chain);
      WalkNew(whole, list, w.changed, best, rest, chain, w.prev, w.count, max);
      if Takes(best, w.prev, w.count, max, x) {
        FreshCandidate(best, list, mpList, w.node);
        KeepOrDrop(x, true, w.prev, best, list, chain);
        RemoveLater(chain, x);
        list', chain' := list + [x], Remove(chain, x);
        w' := Cursor(w.node + 1, w.cur, Some(x), w.count + 1, true);
      } else {
        list', chain' := list, chain;
        w' := w.(node := w.node + 1);
      }
      ListApart(list, list', mpList, w.node);
    }

    /** The loop of `bgp_info_mpath_update`. */
    method Resync(newBest: Option<BgpInfo>, mpList: seq<BgpInfo>, first: Option<BgpInfo>, max: nat, ghost was: seq<BgpInfo>)
      returns (ghost list: seq<BgpInfo>, mpathCount: nat, mpathChanged: bool)
      requires Walking(newBest, [], was)
      requires first == After(was, -1)
      requires newBest.None? ==> mpList == []
      requires Distinct(mpList)
      modifies this`mpath, this`multipath
      ensures Walking(newBest, list, [])
      ensures Outcome(list, mpathChanged) == Walk(newBest, mpList, was, newBest, StartCount(newBest), max)
      ensures mpathCount == StartCount(newBest) + |list|
    {
      ghost var whole := Walk(newBest, mpList, was, newBest, StartCount(newBest), max);
      ghost var chain := was;
      list := [];
      var w := Cursor(0, first, newBest, if newBest.Some? then 1 else 0, false);
      assert mpList[0..] == mpList;
      hide Walking, Walk, Distinct;
      while w.node < |mpList| || w.cur.Some?
        invariant AtStep(whole, newBest, mpList, max, w, list, chain)
        decreases |mpList| - w.node + |chain|
      {
        if w.cur.None? && w.count >= max {
          break;
        }
        if w.node < |mpList| && Some(mpList[w.node]) == w.cur {
          w, list, chain := StepEqual(newBest, mpList, max, w, whole, list, chain);
        } else if w.cur.Some? && (w.node == |mpList| || MpathCmp(w.cur.value, mpList[w.node]) < 0) {
          w, chain := StepPurge(newBest, mpList, max, w, whole, list, chain);
        } else {
          w, list, chain := StepNew(newBest, mpList, max, w, whole, list, chain);
        }
      }
      WalkDone(whole, list, w.changed, newBest, mpList[w.node..], chain, w.prev, w.count, max);
      return list, w.count, w.changed;
    }

    /** `bgp_info_mpath_update`; `was` is the old list. */
    method Update(newBest: Option<BgpInfo>, oldBest: Option<BgpInfo>, mpList: seq<BgpInfo>, cfg: MaxPaths, ghost was: seq<BgpInfo>)
      returns (ghost list: seq<BgpInfo>)
      requires Consistent(oldBest, was)
      requires newBest.None? ==> mpList == []
      requires Distinct(mpList)
      modifies this
      ensures list == Greedy(newBest, mpList, newBest, StartCount(newBest), MaxFor(newBest, cfg))
      ensures Consistent(newBest, list)
      // the maximum is that of internal or of external paths, the best path itself counted
      ensures newBest.None? ==> list == []
      ensures newBest.Some? && newBest.value.ibgp ==> list == [] || |list| < cfg.ibgp
      ensures newBest.Some? && !newBest.value.ibgp ==> list == [] || |list| < cfg.ebgp
      // for sorted candidates of one family it is reached if there are as many next hops
      ensures newBest.Some? && OneFamily([newBest.value] + mpList) && SortedCandidates(mpList) ==>
        var max := if newBest.value.ibgp then cfg.ibgp else cfg.ebgp;
        |list| == MultipathBounds.Least(if max > 1 then max - 1 else 0, MultipathBounds.Choices(newBest.value, mpList))
      ensures changed == old(changed) || (newBest.Some? && changed == old(changed) + {newBest.value})
      // an unmarked best path has the same list as before
      ensures newBest.Some? && newBest.value !in changed ==> list == was
      // for sorted candidates of one family, the mark is set only when the list changed
      ensures OneFamily(mpList) && SortedCandidates(mpList) && list == was ==> changed == old(changed)
    {
      hide Greedy, OneFamily, SortedCandidates;
      list := Relist(newBest, oldBest, mpList, cfg, was);
      CountedSelection(newBest, mpList, MaxFor(newBest, cfg));
    }

    /** The work of `bgp_info_mpath_update` on list, count and mark. */
    method Relist(newBest: Option<BgpInfo>, oldBest: Option<BgpInfo>, mpList: seq<BgpInfo>, cfg: MaxPaths, ghost was: seq<BgpInfo>)
      returns (ghost list: seq<BgpInfo>)
      requires Consistent(oldBest, was)
      requires newBest.None? ==> mpList == []
      requires Distinct(mpList)
      modifies this
      ensures list == Greedy(newBest, mpList, newBest, StartCount(newBest), MaxFor(newBest, cfg))
      ensures Consistent(newBest, list)
      ensures changed == old(changed) || (newBest.Some? && changed == old(changed) + {newBest.value})
      // an unmarked best path has the same list as before
      ensures newBest.Some? && newBest.value !in changed ==> list == was
      // for sorted candidates of one family, the mark is set only when the list changed
      ensures OneFamily(mpList) && SortedCandidates(mpList) && list == was ==> changed == old(changed)
    {
      var max := MaxFor(newBest, cfg);
      ghost var chain := Without(was, newBest);
      var first, oldCount := Detach(newBest, oldBest, was);
      WithoutFacts(this, newBest, was, chain);
      var count, marked;
      list, count, marked := Resync(newBest, mpList, first, max, chain);
      WalkIsGreedy(newBest, mpList, chain, newBest, StartCount(newBest), max);
      WalkUnchanged(newBest, mpList, chain, newBest, StartCount(newBest), max);
      SameListUnmarked(newBest, mpList, was, chain, list, max);
      WalkedHeads(this, newBest, list);
      if newBest.Some? {
        ghost var m0 := mpath;
        CountSet(newBest.value, count - 1);
        LinkedKept(m0, mpath, Headed(newBest, list));
        if marked || CountOf(mpath, newBest.value) != oldCount {
          changed := changed + {newBest.value};
        }
      }
    }

    /** `bgp_mp_dmed_deselect`: dismantles the list of a path that was not selected after all. */
    method DmedDeselect(dmedBest: Option<BgpInfo>, ghost list: seq<BgpInfo>)
      requires Consistent(dmedBest, list)
      modifies this
      ensures Consistent(dmedBest, [])
      ensures dmedBest.Some? ==> changed == old(changed) - {dmedBest.value}
    {
      if dmedBest.None? {
        return;
      }
      var best := dmedBest.value;
      ghost var rest, n := list, |list|;
      FirstIs(this, best, list, n);
      var mpinfo := NextOf(mpath, best);
      while mpinfo.Some?
        invariant Heads(dmedBest, rest, n)
        invariant mpinfo == After(rest, -1)
        invariant changed == old(changed)
        decreases |rest|
      {
        SecondIs(this, best, rest, n);
        var next := NextOf(mpath, mpinfo.value);
        LeaveOldList(mpinfo.value, dmedBest, rest, n);
        rest := rest[1..];
        mpinfo := next;
      }
      ghost var m0 := mpath;
      CountSet(best, 0);
      LinkedKept(m0, mpath, Headed(dmedBest, []));
      changed := changed - {best};
    }
  }

  /** `struct bgp_maxpaths_cfg` and the compiled-in default. */
  datatype MaxPaths = MaxPaths(ibgp: nat, ebgp: nat, multipathNum: nat)

  function MaxFor(best: Option<BgpInfo>, cfg: MaxPaths): nat {
    if best.None? then cfg.multipathNum else if best.value.ibgp then cfg.ibgp else cfg.ebgp
  }

  lemma {:induction false} CountedSelection(best: Option<BgpInfo>, mpList: seq<BgpInfo>, max: nat)
    requires best.None? ==> mpList == []
    ensures
      var list := Greedy(best, mpList, best, StartCount(best), max);
      && (best.None? ==> list == [])
      && (best.Some? ==> list == [] || |list| < max)
      && (best.Some? && OneFamily([best.value] + mpList) && SortedCandidates(mpList) ==>
            |list| == MultipathBounds.Least(if max > 1 then max - 1 else 0, MultipathBounds.Choices(best.value, mpList)))
  {
    if best.Some? {
      MultipathBounds.SelectedBound(best.value, mpList, max);
      if OneFamily([best.value] + mpList) && SortedCandidates(mpList) {
        MultipathBounds.SelectedCount(best.value, mpList, max);
      }
    }
  }

  lemma WithoutFacts(p: Paths, best: Option<BgpInfo>, was: seq<BgpInfo>, chain: seq<BgpInfo>)
    requires p.Walking(best, [], chain)
    ensures Distinct(chain)
    ensures best.Some? ==> best.value !in chain
  {
    if best.Some? {
      assert Headed(best, [])[0] in Elems(Headed(best, []));
      assert forall x :: x in chain ==> x in Elems(chain);
    }
  }

  /** A list that stayed the same is reported as unchanged when the candidates are in order. */
  lemma SameListUnmarked(best: Option<BgpInfo>, mpList: seq<BgpInfo>, was: seq<BgpInfo>, chain: seq<BgpInfo>, list: seq<BgpInfo>, max: nat)
    requires chain == Without(was, best) && Distinct(mpList)
    requires list == Greedy(best, mpList, best, StartCount(best), max)
    ensures OneFamily(mpList) && SortedCandidates(mpList) && list == was ==>
      !Walk(best, mpList, chain, best, StartCount(best), max).changed
    ensures best.Some? && |list| == |was| && list == chain ==> list == was
  {
    if best.Some? {
      RemoveSize(was, best.value);
    }
    if OneFamily(mpList) && SortedCandidates(mpList) && list == was {
      GreedyWithin(best, mpList, best, StartCount(best), max);
      if best.Some? {
        RemoveSize(was, best.value);
      }
      SortedInOrder(mpList);
      WalkSameList(best, mpList, chain, best, StartCount(best), max);
    }
  }

  lemma WalkedHeads(p: Paths, best: Option<BgpInfo>, list: seq<BgpInfo>)
    requires p.Walking(best, list, [])
    ensures p.Heads(best, list, 0)
  {
    assert Elems([]) == {};
  }

  lemma FirstIs(p: Paths, best: BgpInfo, list: seq<BgpInfo>, n: nat)
    requires p.Heads(Some(best), list, n)
    ensures NextOf(p.mpath, best) == After(list, -1)
  {
    var h := Headed(Some(best), list);
    assert h[0] == best && NextOf(p.mpath, h[0]) == After(h, 0);
  }

  lemma SecondIs(p: Paths, best: BgpInfo, list: seq<BgpInfo>, n: nat)
    requires p.Heads(Some(best), list, n) && list != []
    ensures NextOf(p.mpath, list[0]) == After(list[1..], -1)
    ensures list[0] != best && Remove(list, list[0]) == list[1..]
  {
    var h := Headed(Some(best), list);
    assert h[1] == list[0] && NextOf(p.mpath, h[1]) == After(h, 1);
    assert h[0] != h[1];
  }

  /** Loop variables of `bgp_info_mpath_update`. */
  datatype Cursor = Cursor(node: nat, cur: Option<BgpInfo>, prev: Option<BgpInfo>, count: nat, changed: bool)

  /** The best path itself counts. */
  function StartCount(best: Option<BgpInfo>): nat {
    if best.Some? then 1 else 0
  }

  ghost function Last(best: Option<BgpInfo>, list: seq<BgpInfo>): Option<BgpInfo> {
    if list == [] then best else Some(list[|list| - 1])
  }

  lemma LastOf(best: Option<BgpInfo>, list: seq<BgpInfo>)
    requires best.Some?
    ensures |Headed(best, list)| == |list| + 1
    ensures Last(best, list) == Some(Headed(best, list)[|list|])
  {
  }

  /** The walk as a whole is what is done so far, then the rest. */
  ghost predicate Continues(whole: Outcome, list: seq<BgpInfo>, changed: bool, rest: Outcome) {
    whole == Outcome(list + rest.list, changed || rest.changed)
  }

  lemma WalkEqual(whole: Outcome, list: seq<BgpInfo>, changed: bool, best: Option<BgpInfo>, cands: seq<BgpInfo>,
                  chain: seq<BgpInfo>, prev: Option<BgpInfo>, count: nat, max: nat)
    requires Continues(whole, list, changed, Walk(best, cands, chain, prev, count, max))
    requires cands != [] && chain != [] && cands[0] == chain[0] && prev.Some?
    ensures if count < max && NexthopCmp(prev.value.attr, cands[0].attr) != 0 then
              Continues(whole, list + [cands[0]], changed, Walk(best, cands[1..], chain[1..], Some(cands[0]), count + 1, max))
            else
              Continues(whole, list, true, Walk(best, cands[1..], chain[1..], prev, count, max))
  {
    var r := Walk(best, cands[1..], chain[1..], Some(cands[0]), count + 1, max);
    assert list + ([cands[0]] + r.list) == (list + [cands[0]]) + r.list;
  }

  lemma WalkPurge(whole: Outcome, list: seq<BgpInfo>, changed: bool, best: Option<BgpInfo>, cands: seq<BgpInfo>,
                  chain: seq<BgpInfo>, prev: Option<BgpInfo>, count: nat, max: nat)
    requires Continues(whole, list, changed, Walk(best, cands, chain, prev, count, max))
    requires chain != [] && (cands == [] || (cands[0] != chain[0] && MpathCmp(chain[0], cands[0]) < 0))
    ensures Continues(whole, list, true, Walk(best, cands, chain[1..], prev, count, max))
  {
  }

  lemma WalkNew(whole: Outcome, list: seq<BgpInfo>, changed: bool, best: Option<BgpInfo>, cands: seq<BgpInfo>,
                chain: seq<BgpInfo>, prev: Option<BgpInfo>, count: nat, max: nat)
    requires Continues(whole, list, changed, Walk(best, cands, chain, prev, count, max))
    requires cands != [] && (chain == [] ==> count < max)
    requires chain != [] ==> cands[0] != chain[0] && MpathCmp(chain[0], cands[0]) >= 0
    ensures if Takes(best, prev, count, max, cands[0]) then
              Continues(whole, list + [cands[0]], true, Walk(best, cands[1..], Remove(chain, cands[0]), Some(cands[0]), count + 1, max))
            else
              Continues(whole, list, changed, Walk(best, cands[1..], chain, prev, count, max))
  {
    hide Remove;
    if Takes(best, prev, count, max, cands[0]) {
      var r := Walk(best, cands[1..], Remove(chain, cands[0]), Some(cands[0]), count + 1, max);
      assert list + ([cands[0]] + r.list) == (list + [cands[0]]) + r.list;
    }
  }

  lemma WalkDone(whole: Outcome, list: seq<BgpInfo>, changed: bool, best: Option<BgpInfo>, cands: seq<BgpInfo>,
                 chain: seq<BgpInfo>, prev: Option<BgpInfo>, count: nat, max: nat)
    requires Continues(whole, list, changed, Walk(best, cands, chain, prev, count, max))
    requires After(chain, -1) == None && (cands == [] || count >= max)
    ensures chain == []
    ensures whole == Outcome(list, changed)
  {
    assert list + [] == list;
  }

  /** What the loop reads off the old list. */
  lemma ChainFacts(p: Paths, best: Option<BgpInfo>, list: seq<BgpInfo>, chain: seq<BgpInfo>)
    requires p.Walking(best, list, chain)
    ensures chain == [] <==> After(chain, -1) == None
    ensures chain != [] ==>
      && After(chain, -1) == Some(chain[0])
      && chain[0] !in Headed(best, list)
      && NextOf(p.mpath, chain[0]) == After(chain[1..], -1)
      && Remove(chain, chain[0]) == chain[1..]
  {
    if chain != [] {
      assert chain[0] in Elems(chain);
      assert NextOf(p.mpath, chain[0]) == After(chain, 0);
    }
  }

  lemma ListApart(before: seq<BgpInfo>, list: seq<BgpInfo>, mpList: seq<BgpInfo>, node: nat)
    requires Distinct(mpList) && node < |mpList|
    requires Elems(before) !! Elems(mpList[node..])
    requires list == before || list == before + [mpList[node]]
    ensures Elems(list) !! Elems(mpList[node + 1..])
  {
    var rest, x := mpList[node + 1..], mpList[node];
    assert mpList[node..] == [x] + rest;
    assert Elems(rest) <= Elems(mpList[node..]);
    assert x !in rest;
    ElemsSnoc(before, x);
  }

  lemma FreshCandidate(best: Option<BgpInfo>, list: seq<BgpInfo>, mpList: seq<BgpInfo>, node: nat)
    requires node < |mpList| && best != Some(mpList[node])
    requires Elems(list) !! Elems(mpList[node..])
    ensures mpList[node] !in Headed(best, list)
  {
    assert mpList[node..][0] in Elems(mpList[node..]);
    assert forall y :: y in list ==> y in Elems(list);
  }

  /** Removing a path that is not the first one keeps the first one. */
  lemma RemoveLater(s: seq<BgpInfo>, x: BgpInfo)
    requires s == [] || s[0] != x
    ensures After(Remove(s, x), -1) == After(s, -1)
    ensures |Remove(s, x)| <= |s|
  {
  }

  lemma StartsEmpty(m: Links, best: Option<BgpInfo>, chain: seq<BgpInfo>)
    requires forall x :: x !in chain ==> Unlinked(m, x)
    requires best.Some? ==> best.value !in chain
    ensures Linked(m, Headed(best, []))
    ensures Elems(Headed(best, [])) !! Elems(chain)
    ensures Elems([]) == {}
  {
    var h := Headed(best, []);
    assert best.Some? ==> h == [best.value];
  }

  lemma TailDistinct(head: Option<BgpInfo>, s: seq<BgpInfo>)
    requires Distinct(Headed(head, s))
    ensures Distinct(s) && (head.Some? ==> head.value !in s)
  {
    var h := Headed(head, s);
    if head.Some? {
      assert forall i :: 0 <= i < |s| ==> s[i] == h[i + 1];
      DistinctAt(h, 0);
    }
  }

  /** The old list without the new best path. */
  ghost function Without(was: seq<BgpInfo>, best: Option<BgpInfo>): seq<BgpInfo> {
    if best.None? then was else Remove(was, best.value)
  }

  lemma RemoveHeaded(head: Option<BgpInfo>, s: seq<BgpInfo>, x: BgpInfo)
    requires Distinct(Headed(head, s)) && head != Some(x)
    ensures Remove(Headed(head, s), x) == Headed(head, Remove(s, x))
  {
    if head.Some? {
      assert ([head.value] + s)[1..] == s;
    }
  }

  lemma FlagsAfterDrop(best: Option<BgpInfo>, list: seq<BgpInfo>, chain: seq<BgpInfo>, x: BgpInfo)
    requires x !in Headed(best, list) && Distinct(chain)
    ensures Elems(list) + Elems(chain) - {x} == Elems(list) + Elems(Remove(chain, x))
    ensures x !in Elems(list) + Elems(chain) ==> Remove(chain, x) == chain
  {
    RemoveMembers(chain, x);
    if x !in Elems(chain) {
      RemoveSize(chain, x);
    }
    assert x !in list by {
      assert forall y :: y in list ==> y in Headed(best, list);
    }
  }

  lemma HeadedElems(best: Option<BgpInfo>, list: seq<BgpInfo>)
    ensures Elems(list) <= Elems(Headed(best, list))
    ensures |Headed(best, list)| == if best.Some? then |list| + 1 else |list|
  {
  }

  lemma ElemsApart(s: seq<BgpInfo>, t: seq<BgpInfo>)
    ensures Elems(s) !! Elems(t) <==> forall x :: x in s ==> x !in t
  {
    assert forall x :: x in s <==> x in Elems(s);
  }

  lemma ElemsSnoc(s: seq<BgpInfo>, x: BgpInfo)
    ensures Elems(s + [x]) == Elems(s) + {x}
  {
  }
}
