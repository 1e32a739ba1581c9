/** How many multipaths are selected, and what the order of the candidates is. */
module MultipathBounds {
  import opened Options
  import opened MultipathSpec
  import opened MultipathShares

  // ---------------------------------------------------------------------
  // The order

  /** Two next hops compare equal exactly when they agree in all that their lengths say is in use. */
  lemma {:induction false} SameNexthopIff(a: Attr, b: Attr)
    ensures NexthopCmp(a, b) == 0 <==>
      && a.nexthop == b.nexthop
      && (a.extra.None? || b.extra.None? ||
          var e, f := a.extra.value, b.extra.value;
          if e.len == f.len then
            && (e.len == 4 || e.len == 12 ==> e.globalIn == f.globalIn)
            && (e.len == 16 || e.len == 32 ==> e.global6 == f.global6)
            && (e.len == 32 ==> e.local6 == f.local6)
          else e.len != 16 && e.len != 32)
  {
  }

  /** Lower addresses come first: the IPv4 next hop, then the global address, then the link-local one. */
  lemma {:induction false} LowerNexthopIff(a: Attr, b: Attr)
    ensures NexthopCmp(a, b) < 0 <==>
      a.nexthop < b.nexthop ||
      (a.nexthop == b.nexthop && a.extra.Some? && b.extra.Some? &&
       var e, f := a.extra.value, b.extra.value;
       if e.len == f.len then
         || ((e.len == 4 || e.len == 12) && e.globalIn < f.globalIn)
         || ((e.len == 16 || e.len == 32) && e.global6 < f.global6)
         || (e.len == 32 && e.global6 == f.global6 && e.local6 < f.local6)
       else
         (e.len == 16 || e.len == 32) && (e.global6 < f.global6 || (e.global6 == f.global6 && e.len < f.len)))
  {
  }

  /** Paths with one next hop are ordered by peer address, those without an address last. */
  lemma {:induction false} PeerOrder(x: BgpInfo, y: BgpInfo)
    requires NexthopCmp(x.attr, y.attr) == 0
    ensures MpathCmp(x, y) == 0 <==> x.remote == y.remote
    ensures MpathCmp(x, y) < 0 <==> x.remote.Some? && (y.remote.None? || x.remote.value < y.remote.value)
  {
    hide NexthopCmp;
  }

  lemma {:induction false} NexthopFirst(x: BgpInfo, y: BgpInfo)
    requires NexthopCmp(x.attr, y.attr) != 0
    ensures MpathCmp(x, y) < 0 <==> NexthopCmp(x.attr, y.attr) < 0
    ensures MpathCmp(x, y) != 0
  {
    hide NexthopCmp;
  }

  // ---------------------------------------------------------------------
  // The number of multipaths

  function Least(a: nat, b: nat): nat {
    if a < b then a else b
  }

  ghost function Others(b: BgpInfo, s: seq<BgpInfo>): seq<BgpInfo> {
    if s == [] then [] else (if s[0] == b then [] else [s[0]]) + Others(b, s[1..])
  }

  ghost function Above(b: BgpInfo, s: seq<BgpInfo>): seq<BgpInfo> {
    if s == [] then [] else (if Order(b, s[0]) < 0 then [s[0]] else []) + Above(b, s[1..])
  }

  /**
    The different next hops to choose from: those above the best path's, or, when
    some candidate is below it, those of all candidates but the best path itself.
   */
  ghost function Choices(b: BgpInfo, s: seq<BgpInfo>): nat {
    Nexthops(if exists x :: x in s && Order(x, b) < 0 then Others(b, s) else Above(b, s))
  }

  lemma {:induction false} GreedySkips(b: BgpInfo, s: seq<BgpInfo>, prev: Option<BgpInfo>, count: nat, max: nat)
    ensures Greedy(Some(b), s, prev, count, max) == Greedy(None, Others(b, s), prev, count, max)
    decreases |s|
  {
    hide NexthopCmp;
    if s != [] {
      var t := s[1..];
      GreedySkips(b, t, prev, count, max);
      GreedySkips(b, t, Some(s[0]), count + 1, max);
      if s[0] != b {
        assert Others(b, s)[0] == s[0] && Others(b, s)[1..] == Others(b, t);
      } else {
        assert Others(b, s) == Others(b, t);
      }
    }
  }

  /** The filter takes every change of next hop while there is room. */
  lemma {:induction false} GreedyTakes(s: seq<BgpInfo>, prev: BgpInfo, count: nat, max: nat)
    ensures |Greedy(None, s, Some(prev), count, max)| == Least(if count < max then max - count else 0, Changes(prev, s))
    decreases |s|
  {
    hide NexthopCmp;
    if s != [] {
      GreedyTakes(s[1..], prev, count, max);
      GreedyTakes(s[1..], s[0], count + 1, max);
      if count >= max {
        GreedyFull(None, s, Some(prev), count, max);
      }
    }
  }

  lemma {:induction false} OthersMembers(b: BgpInfo, s: seq<BgpInfo>)
    ensures forall x :: x in Others(b, s) <==> x in s && x != b
  {
    if s != [] {
      OthersMembers(b, s[1..]);
      assert s == [s[0]] + s[1..];
    }
  }

  lemma {:induction false} OthersRise(b: BgpInfo, s: seq<BgpInfo>)
    requires Kin(b, s) && Rising(s)
    ensures Kin(b, Others(b, s)) && Rising(Others(b, s))
  {
    hide SameFamily, Order;
    if s != [] {
      RisingTail(s);
      OthersRise(b, s[1..]);
      OthersMembers(b, s[1..]);
      RisingCons(s[0], Others(b, s[1..]));
    }
  }

  lemma {:induction false} AboveOthers(b: BgpInfo, s: seq<BgpInfo>)
    ensures Above(b, Others(b, s)) == Above(b, s)
  {
    SelfKin(b);
    hide Order;
    if s != [] {
      AboveOthers(b, s[1..]);
      if s[0] != b {
        assert Others(b, s)[0] == s[0] && Others(b, s)[1..] == Others(b, s[1..]);
      } else {
        assert Others(b, s) == Others(b, s[1..]) && Above(b, s) == Above(b, s[1..]);
      }
    }
  }

  lemma {:induction false} AllAbove(b: BgpInfo, s: seq<BgpInfo>)
    requires forall x :: x in s ==> Order(b, x) < 0
    ensures Above(b, s) == s
  {
    hide Order;
    if s != [] {
      assert s[0] in s;
      AllAbove(b, s[1..]);
      assert s == [s[0]] + s[1..];
    }
  }

  /** Along a rising list that starts with `c`, next hops change once for each different one. */
  lemma {:induction false} ChangesFrom(b: BgpInfo, s: seq<BgpInfo>)
    requires Kin(b, s) && Rising(s) && s != [] && Order(b, s[0]) != 0
    ensures Changes(b, s) == Nexthops(s)
  {
    hide SameFamily, Order, Nexthops;
    assert s[0] in s;
    assert s == [s[0]] + s[1..];
    RisingTail(s);
    ChangesCount(b, s[0], s[1..]);
  }

  lemma {:induction false} ChangesAbove(b: BgpInfo, s: seq<BgpInfo>)
    requires Kin(b, s) && Rising(s) && forall x :: x in s ==> Order(b, x) <= 0
    ensures Changes(b, s) == Nexthops(Above(b, s))
    decreases |s|
  {
    hide SameFamily, Order, Nexthops, Rising;
    if s != [] {
      RisingTail(s);
      assert s[0] in s;
      if Order(b, s[0]) == 0 {
        ChangesAbove(b, s[1..]);
        assert Above(b, s) == Above(b, s[1..]);
      } else {
        ChangesFrom(b, s);
        forall x | x in s ensures Order(b, x) < 0 {
          SelfKin(b);
          if x != s[0] {
            OrderChain(b, b, s[0], x);
          }
        }
        AllAbove(b, s);
      }
    } else {
      NexthopsNone(s);
    }
  }

  lemma {:induction false} ChangesChoices(b: BgpInfo, s: seq<BgpInfo>)
    requires Kin(b, s) && Rising(s)
    ensures Changes(b, Others(b, s)) == Choices(b, s)
  {
    hide SameFamily, Order, Nexthops, Rising, Changes;
    var w := Others(b, s);
    OthersMembers(b, s);
    OthersRise(b, s);
    SelfKin(b);
    forall x | x in s ensures Order(b, x) == -Order(x, b) {
      OrderLaws(b, x, b);
    }
    if x :| x in s && Order(x, b) < 0 {
      assert x in w;
      RisingTail(w);
      if x != w[0] {
        OrderChain(b, w[0], x, b);
      }
      ChangesFrom(b, w);
    } else {
      ChangesAbove(b, w);
      AboveOthers(b, s);
    }
  }

  /**
    For sorted candidates of one family the list is as long as the maximum
    allows, the best path itself counted, and as there are different next hops.
   */
  lemma {:induction false} SelectedCount(best: BgpInfo, cands: seq<BgpInfo>, max: nat)
    requires OneFamily([best] + cands) && SortedCandidates(cands)
    ensures |Greedy(Some(best), cands, Some(best), 1, max)| == Least(if max > 1 then max - 1 else 0, Choices(best, cands))
  {
    hide Greedy, Choices, Changes, Rising, Kin, OneFamily, SortedCandidates;
    SortedRises(best, cands);
    GreedySkips(best, cands, Some(best), 1, max);
    GreedyTakes(Others(best, cands), best, 1, max);
    ChangesChoices(best, cands);
  }

  /** Whatever the candidates, the maximum is kept to. */
  lemma {:induction false} SelectedBound(best: BgpInfo, cands: seq<BgpInfo>, max: nat)
    ensures
      var n := |Greedy(Some(best), cands, Some(best), 1, max)|;
      n == 0 || n < max
  {
    hide Changes;
    GreedySkips(best, cands, Some(best), 1, max);
    GreedyTakes(Others(best, cands), best, 1, max);
  }

  /** With every candidate above the best path, the choices are all their different next hops. */
  lemma {:induction false} ChoicesAbove(b: BgpInfo, s: seq<BgpInfo>)
    requires Kin(b, s) && forall x :: x in s ==> Order(b, x) < 0
    ensures Choices(b, s) == Nexthops(s)
  {
    hide SameFamily, Order, Nexthops;
    SelfKin(b);
    forall x | x in s ensures Order(x, b) > 0 {
      OrderLaws(b, x, b);
    }
    AllAbove(b, s);
  }

  // ---------------------------------------------------------------------
  // Which candidates are selected

  /** `x` is the first in `s` with its next hop. */
  ghost predicate FirstWith(s: seq<BgpInfo>, x: BgpInfo) {
    exists i :: 0 <= i < |s| && s[i] == x && forall j :: 0 <= j < i ==> Order(s[j], x) != 0
  }

  lemma {:induction false} FirstBehind(c: BgpInfo, t: seq<BgpInfo>, x: BgpInfo)
    requires FirstWith(t, x) && Order(c, x) != 0
    ensures FirstWith([c] + t, x)
  {
    hide Order;
    var i :| 0 <= i < |t| && t[i] == x && forall j :: 0 <= j < i ==> Order(t[j], x) != 0;
    var s := [c] + t;
    assert s[i + 1] == x;
    assert forall j :: 0 < j < i + 1 ==> s[j] == t[j - 1];
  }

  /** The filter takes from each next hop its first candidate. */
  lemma {:induction false} TakesFirst(b: BgpInfo, s: seq<BgpInfo>, prev: BgpInfo, count: nat, max: nat)
    requires Kin(b, s) && SameFamily(b.attr, prev.attr) && Rising(s) && forall y :: y in s ==> Order(prev, y) <= 0
    ensures forall x :: x in Greedy(None, s, Some(prev), count, max) ==> FirstWith(s, x) && Order(prev, x) < 0
    decreases |s|
  {
    hide SameFamily, Order, Rising, FirstWith;
    if s != [] {
      var c, t := s[0], s[1..];
      RisingTail(s);
      assert s == [c] + t && c in s;
      if count < max && Order(prev, c) != 0 {
        TakesFirst(b, t, c, count + 1, max);
        TakenHead(c, t);
        GreedyStarts(s, prev, count, max);
        forall x | x in Greedy(None, t, Some(c), count + 1, max) ensures FirstWith(s, x) && Order(prev, x) < 0 {
          GreedyWithin(None, t, Some(c), count + 1, max);
          OrderChain(b, prev, c, x);
          FirstBehind(c, t, x);
        }
      } else {
        TakesFirst(b, t, prev, count, max);
        GreedyStarts(s, prev, count, max);
        forall x | x in Greedy(None, t, Some(prev), count, max) ensures FirstWith(s, x) && Order(prev, x) < 0 {
          if count < max {
            GreedyWithin(None, t, Some(prev), count, max);
            SameBelow(b, prev, c, x);
            FirstBehind(c, t, x);
          } else {
            GreedyFull(None, t, Some(prev), count, max);
          }
        }
      }
    }
  }

  lemma {:induction false} SameBelow(b: BgpInfo, prev: BgpInfo, c: BgpInfo, x: BgpInfo)
    requires SameFamily(b.attr, prev.attr) && SameFamily(b.attr, c.attr) && SameFamily(b.attr, x.attr)
    requires Order(prev, c) == 0 && Order(prev, x) < 0
    ensures Order(c, x) != 0
  {
    hide SameFamily, Order;
    if Order(c, x) == 0 {
      OrderChain(b, prev, c, x);
    }
  }

  lemma {:induction false} TakenHead(c: BgpInfo, t: seq<BgpInfo>)
    ensures FirstWith([c] + t, c)
  {
    hide Order;
    var s := [c] + t;
    assert s[0] == c;
  }

  lemma {:induction false} GreedyStarts(s: seq<BgpInfo>, prev: BgpInfo, count: nat, max: nat)
    requires s != []
    ensures Greedy(None, s, Some(prev), count, max) ==
      if count < max && Order(prev, s[0]) != 0 then [s[0]] + Greedy(None, s[1..], Some(s[0]), count + 1, max)
      else Greedy(None, s[1..], Some(prev), count, max)
  {
    hide NexthopCmp;
  }

  /** A candidate whose next hop is not selected has that of the path before, or lies above a full list. */
  ghost predicate Passed(g: seq<BgpInfo>, prev: BgpInfo, room: nat, y: BgpInfo) {
    || (exists x :: x in g && Order(x, y) == 0)
    || Order(prev, y) == 0
    || (|g| == room && forall x :: x in g ==> Order(x, y) < 0)
  }

  lemma {:induction false} TakesLowest(b: BgpInfo, s: seq<BgpInfo>, prev: BgpInfo, count: nat, max: nat)
    requires Kin(b, s) && SameFamily(b.attr, prev.attr) && Rising(s) && forall y :: y in s ==> Order(prev, y) <= 0
    ensures
      var g := Greedy(None, s, Some(prev), count, max);
      forall y :: y in s ==> Passed(g, prev, if count < max then max - count else 0, y)
    decreases |s|
  {
    hide SameFamily, Order, Rising;
    if s != [] {
      var c, t := s[0], s[1..];
      RisingTail(s);
      assert s == [c] + t && c in s;
      GreedyStarts(s, prev, count, max);
      if count >= max {
        GreedyFull(None, s, Some(prev), count, max);
      } else if Order(prev, c) != 0 {
        TakesLowest(b, t, c, count + 1, max);
        var h := Greedy(None, t, Some(c), count + 1, max);
        SelfKin(c);
        forall y | y in s ensures Passed([c] + h, prev, max - count, y) {
          PassedBehind(b, c, h, prev, max - count, y);
        }
      } else {
        TakesLowest(b, t, prev, count, max);
      }
    }
  }

  lemma {:induction false} PassedBehind(b: BgpInfo, c: BgpInfo, h: seq<BgpInfo>, prev: BgpInfo, room: nat, y: BgpInfo)
    requires room > 0 && Order(c, c) == 0
    requires y == c || (Order(c, y) <= 0 && Passed(h, c, room - 1, y))
    ensures Passed([c] + h, prev, room, y)
  {
    hide Order;
    var g := [c] + h;
    assert c in g && forall x :: x in g <==> x == c || x in h;
  }

  /**
    The list of a sorted one-family selection: from each next hop its first
    candidate, and the lowest next hops when there is not room for all.
   */
  lemma {:induction false} SelectedWhich(best: BgpInfo, cands: seq<BgpInfo>, max: nat)
    requires OneFamily([best] + cands) && SortedCandidates(cands)
    requires forall c :: c in cands ==> Order(best, c) <= 0
    ensures
      var g := Greedy(Some(best), cands, Some(best), 1, max);
      && (forall x :: x in g ==> FirstWith(Others(best, cands), x))
      && forall y :: y in cands && y != best ==> Passed(g, best, if max > 1 then max - 1 else 0, y)
  {
    hide Greedy, Rising, Kin, OneFamily, SortedCandidates, Order, FirstWith, Passed;
    SortedRises(best, cands);
    GreedySkips(best, cands, Some(best), 1, max);
    OthersMembers(best, cands);
    OthersRise(best, cands);
    SelfKin(best);
    TakesFirst(best, Others(best, cands), best, 1, max);
    TakesLowest(best, Others(best, cands), best, 1, max);
  }
}
