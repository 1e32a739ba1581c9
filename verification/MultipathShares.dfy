/** When a selected multipath has the next hop of the best path itself. */
module MultipathShares {
  import opened Options
  import opened MultipathSpec

  // ---------------------------------------------------------------------
  // The order of next hops within one family

  ghost function Order(x: BgpInfo, y: BgpInfo): int {
    NexthopCmp(x.attr, y.attr)
  }

  ghost predicate Kin(b: BgpInfo, s: seq<BgpInfo>) {
    forall x :: x in s ==> SameFamily(b.attr, x.attr)
  }

  lemma {:induction false} OrderLaws(b: BgpInfo, x: BgpInfo, y: BgpInfo)
    requires SameFamily(b.attr, x.attr) && SameFamily(b.attr, y.attr)
    ensures SameFamily(x.attr, y.attr)
    ensures Order(y, x) == -Order(x, y) && Order(x, x) == 0
  {
    NexthopAntisymmetric(x.attr, y.attr);
  }

  lemma {:induction false} OrderChain(b: BgpInfo, x: BgpInfo, y: BgpInfo, z: BgpInfo)
    requires SameFamily(b.attr, x.attr) && SameFamily(b.attr, y.attr) && SameFamily(b.attr, z.attr)
    requires Order(x, y) <= 0 && Order(y, z) <= 0
    ensures Order(x, z) <= 0
    ensures Order(x, y) < 0 || Order(y, z) < 0 ==> Order(x, z) < 0
    ensures Order(x, y) == 0 && Order(y, z) == 0 ==> Order(x, z) == 0
  {
    OrderLaws(b, x, y);
    OrderLaws(b, y, z);
    OrderLaws(b, x, z);
    hide NexthopCmp, SameFamily;
    NexthopTransitive(x.attr, y.attr, z.attr);
    if Order(x, y) == 0 && Order(y, z) == 0 {
      NexthopTransitive(z.attr, y.attr, x.attr);
    }
  }

  /** Next hops never decrease. */
  ghost predicate Rising(s: seq<BgpInfo>) {
    forall i, j :: 0 <= i < j < |s| ==> Order(s[i], s[j]) <= 0
  }

  lemma {:induction false} RisingCons(x: BgpInfo, s: seq<BgpInfo>)
    ensures Rising([x] + s) <==> Rising(s) && forall y :: y in s ==> Order(x, y) <= 0
  {
    hide Order;
    var t := [x] + s;
    if Rising(t) {
      forall y | y in s ensures Order(x, y) <= 0 {
        var i :| 0 <= i < |s| && s[i] == y;
        assert t[0] == x && t[i + 1] == y;
      }
      forall i, j | 0 <= i < j < |s| ensures Order(s[i], s[j]) <= 0 {
        assert t[i + 1] == s[i] && t[j + 1] == s[j];
      }
    }
    if Rising(s) && forall y :: y in s ==> Order(x, y) <= 0 {
      forall i, j | 0 <= i < j < |t| ensures Order(t[i], t[j]) <= 0 {
        assert t[j] == s[j - 1] && t[j] in s;
        assert i > 0 ==> t[i] == s[i - 1];
      }
    }
  }

  /** A rising list from its first element on. */
  lemma {:induction false} RisingTail(s: seq<BgpInfo>)
    requires Rising(s) && s != []
    ensures Rising(s[1..]) && forall y :: y in s[1..] ==> Order(s[0], y) <= 0
    ensures forall y :: y in s <==> y == s[0] || y in s[1..]
  {
    assert s == [s[0]] + s[1..];
    RisingCons(s[0], s[1..]);
  }

  // ---------------------------------------------------------------------
  // What the condition speaks of

  /** Some selected path has the next hop of `b`. */
  ghost predicate Shares(b: BgpInfo, s: seq<BgpInfo>) {
    exists x :: x in s && Order(x, b) == 0
  }

  /** Another candidate has the next hop of `b`. */
  ghost predicate HasTwin(b: BgpInfo, s: seq<BgpInfo>) {
    exists x :: x in s && x != b && Order(x, b) == 0
  }

  /** The candidates with a next hop below that of `b`. */
  ghost function Lower(b: BgpInfo, s: seq<BgpInfo>): seq<BgpInfo> {
    if s == [] then [] else (if Order(s[0], b) < 0 then [s[0]] else []) + Lower(b, s[1..])
  }

  /** The number of different next hops: paths whose next hop does not occur again. */
  ghost function Nexthops(s: seq<BgpInfo>): nat {
    if s == [] then 0
    else (if exists y :: y in s[1..] && Order(s[0], y) == 0 then 0 else 1) + Nexthops(s[1..])
  }

  /** How often the next hop changes along a list that follows `prev`. */
  ghost function Changes(prev: BgpInfo, s: seq<BgpInfo>): nat
    decreases |s|
  {
    if s == [] then 0
    else if Order(prev, s[0]) == 0 then Changes(prev, s[1..])
    else 1 + Changes(s[0], s[1..])
  }

  lemma {:induction false} LowerNone(b: BgpInfo, s: seq<BgpInfo>)
    requires forall x :: x in s ==> Order(x, b) >= 0
    ensures Lower(b, s) == []
  {
    if s != [] {
      LowerNone(b, s[1..]);
    }
  }

  lemma {:induction false} LowerMembers(b: BgpInfo, s: seq<BgpInfo>)
    ensures forall x :: x in Lower(b, s) <==> x in s && Order(x, b) < 0
  {
    if s != [] {
      LowerMembers(b, s[1..]);
    }
  }

  // ---------------------------------------------------------------------
  // The greedy filter

  /** Nothing behind a candidate that is not below `b` is below `b`. */
  lemma {:induction false} LaterNotBelow(b: BgpInfo, s: seq<BgpInfo>)
    requires Kin(b, s) && Rising(s) && s != [] && Order(s[0], b) >= 0
    ensures forall y :: y in s ==> Order(y, b) >= 0
    ensures Order(s[0], b) > 0 ==> forall y :: y in s ==> Order(y, b) > 0
    ensures Lower(b, s) == [] && Lower(b, s[1..]) == []
  {
    hide SameFamily, Order;
    RisingTail(s);
    var c := s[0];
    SelfKin(b);
    forall y | y in s ensures Order(y, b) >= 0 && (Order(c, b) > 0 ==> Order(y, b) > 0) {
      OrderLaws(b, c, b);
      OrderLaws(b, y, b);
      if y != c {
        OrderChain(b, b, c, y);
      }
    }
    LowerNone(b, s);
    LowerNone(b, s[1..]);
  }

  lemma {:induction false} SelfKin(b: BgpInfo)
    ensures SameFamily(b.attr, b.attr) && Order(b, b) == 0
  {
  }

  lemma {:induction false} HasTwinTail(b: BgpInfo, s: seq<BgpInfo>)
    requires s != []
    ensures HasTwin(b, s) <==> (s[0] != b && Order(s[0], b) == 0) || HasTwin(b, s[1..])
  {
    hide Order;
    assert forall x :: x in s <==> x == s[0] || x in s[1..];
  }

  lemma {:induction false} SharesCons(b: BgpInfo, c: BgpInfo, g: seq<BgpInfo>)
    ensures Shares(b, [c] + g) <==> Order(c, b) == 0 || Shares(b, g)
  {
    hide Order;
    assert forall x :: x in [c] + g <==> x == c || x in g;
  }

  /** What the filter does with the first candidate. */
  lemma {:induction false} GreedyStep(b: BgpInfo, cands: seq<BgpInfo>, prev: BgpInfo, count: nat, max: nat)
    requires cands != []
    ensures
      var c, t, g := cands[0], cands[1..], Greedy(Some(b), cands, Some(prev), count, max);
      if count >= max then g == []
      else if c == b || Order(prev, c) == 0 then g == Greedy(Some(b), t, Some(prev), count, max)
      else g == [c] + Greedy(Some(b), t, Some(c), count + 1, max)
  {
    hide NexthopCmp;
    if count >= max {
      GreedyFull(Some(b), cands, Some(prev), count, max);
    }
  }

  /** A lower candidate in front. */
  lemma {:induction false} LowerCons(b: BgpInfo, cands: seq<BgpInfo>, prev: BgpInfo)
    requires cands != [] && Order(cands[0], b) < 0
    ensures
      var c, l := cands[0], Lower(b, cands[1..]);
      && Lower(b, cands) == [c] + l
      && Changes(prev, [c] + l) == if Order(prev, c) == 0 then Changes(prev, l) else 1 + Changes(c, l)
  {
    hide Order;
    var c, l := cands[0], Lower(b, cands[1..]);
    assert ([c] + l)[1..] == l;
  }

  /** Once a lower next hop was taken. */
  lemma {:induction false} SharesBelow(b: BgpInfo, cands: seq<BgpInfo>, prev: BgpInfo, count: nat, max: nat)
    requires Kin(b, cands) && SameFamily(b.attr, prev.attr) && Order(prev, b) < 0
    requires Rising(cands) && forall y :: y in cands ==> Order(prev, y) <= 0
    ensures Shares(b, Greedy(Some(b), cands, Some(prev), count, max)) <==>
      HasTwin(b, cands) && count + Changes(prev, Lower(b, cands)) < max
    decreases |cands|
  {
    if cands != [] {
      hide SameFamily, Order, Greedy, Shares, HasTwin, Changes, Rising, Lower;
      var c, t := cands[0], cands[1..];
      RisingTail(cands);
      SelfKin(b);
      GreedyStep(b, cands, prev, count, max);
      HasTwinTail(b, cands);
      SharesNone(b);
      if Order(c, b) < 0 {
        LowerCons(b, cands, prev);
        var rest := Greedy(Some(b), t, Some(c), count + 1, max);
        SharesCons(b, c, rest);
        if Order(prev, c) == 0 {
          SharesBelow(b, t, prev, count, max);
        } else {
          SharesBelow(b, t, c, count + 1, max);
        }
      } else {
        LaterNotBelow(b, cands);
        ChangesNone(prev);
        if Order(c, b) > 0 {
          NoneShares(b, cands, prev, count, max);
        } else {
          OrderLaws(b, c, b);
          if Order(prev, c) == 0 {
            OrderChain(b, prev, c, b);
          }
          SharesBelow(b, t, prev, count, max);
          SharesCons(b, c, Greedy(Some(b), t, Some(c), count + 1, max));
        }
      }
    } else {
      hide Order;
    }
  }

  lemma {:induction false} SharesNone(b: BgpInfo)
    ensures !Shares(b, [])
  {
  }

  lemma {:induction false} ChangesNone(prev: BgpInfo)
    ensures Changes(prev, []) == 0
  {
  }

  lemma {:induction false} NoneShares(b: BgpInfo, cands: seq<BgpInfo>, prev: BgpInfo, count: nat, max: nat)
    requires forall y :: y in cands ==> Order(y, b) > 0
    ensures !Shares(b, Greedy(Some(b), cands, Some(prev), count, max)) && !HasTwin(b, cands)
  {
    hide Order;
    GreedyWithin(Some(b), cands, Some(prev), count, max);
  }

  /** From the best path itself on. */
  lemma {:induction false} SharesFromBest(b: BgpInfo, cands: seq<BgpInfo>, count: nat, max: nat)
    requires Kin(b, cands) && Rising(cands)
    ensures Shares(b, Greedy(Some(b), cands, Some(b), count, max)) <==>
      HasTwin(b, cands) && Lower(b, cands) != [] && count + Changes(b, Lower(b, cands)) < max
    decreases |cands|
  {
    if cands != [] {
      hide SameFamily, Order, Greedy, Shares, HasTwin, Changes, Rising, Lower;
      var c, t := cands[0], cands[1..];
      RisingTail(cands);
      SelfKin(b);
      OrderLaws(b, c, b);
      GreedyStep(b, cands, b, count, max);
      HasTwinTail(b, cands);
      SharesNone(b);
      if Order(c, b) < 0 {
        LowerCons(b, cands, b);
        SharesCons(b, c, Greedy(Some(b), t, Some(c), count + 1, max));
        SharesBelow(b, t, c, count + 1, max);
      } else {
        LaterNotBelow(b, cands);
        if Order(c, b) > 0 {
          NoneShares(b, cands, b, count, max);
        } else {
          SharesFromBest(b, t, count, max);
        }
      }
    } else {
      hide Order;
    }
  }

  // ---------------------------------------------------------------------
  // Counting next hops

  lemma {:induction false} NexthopsCons(x: BgpInfo, s: seq<BgpInfo>)
    ensures Nexthops([x] + s) == (if exists y :: y in s && Order(x, y) == 0 then 0 else 1) + Nexthops(s)
  {
    hide Order;
    assert ([x] + s)[1..] == s;
  }

  lemma {:induction false} ChangesCount(b: BgpInfo, prev: BgpInfo, s: seq<BgpInfo>)
    requires Kin(b, s) && SameFamily(b.attr, prev.attr)
    requires Rising(s) && forall y :: y in s ==> Order(prev, y) <= 0
    ensures Nexthops([prev] + s) == 1 + Changes(prev, s)
    decreases |s|
  {
    hide SameFamily, Order, Nexthops, Rising;
    NexthopsCons(prev, s);
    if s == [] {
      NexthopsNone(s);
    } else {
      var c, t := s[0], s[1..];
      RisingTail(s);
      assert s == [c] + t;
      if Order(prev, c) == 0 {
        ChangesCount(b, prev, t);
        SameClass(b, prev, c, t);
      } else {
        ChangesCount(b, c, t);
        forall y | y in s ensures Order(prev, y) != 0 {
          if y != c {
            OrderChain(b, prev, c, y);
          }
        }
      }
    }
  }

  lemma {:induction false} NexthopsNone(s: seq<BgpInfo>)
    requires s == []
    ensures Nexthops(s) == 0
  {
  }

  lemma {:induction false} SameClass(b: BgpInfo, x: BgpInfo, c: BgpInfo, t: seq<BgpInfo>)
    requires Kin(b, t) && SameFamily(b.attr, x.attr) && SameFamily(b.attr, c.attr) && Order(x, c) == 0
    ensures Nexthops([x] + t) == Nexthops([c] + t)
  {
    hide SameFamily, Order, Nexthops;
    OrderLaws(b, x, c);
    forall y | y in t ensures Order(x, y) == 0 <==> Order(c, y) == 0 {
      if Order(x, y) == 0 {
        OrderChain(b, c, x, y);
      }
      if Order(c, y) == 0 {
        OrderChain(b, x, c, y);
      }
    }
    NexthopsCons(x, t);
    NexthopsCons(c, t);
  }

  lemma {:induction false} LowerRises(b: BgpInfo, s: seq<BgpInfo>)
    requires Kin(b, s) && Rising(s)
    ensures Kin(b, Lower(b, s)) && Rising(Lower(b, s))
  {
    hide SameFamily, Order;
    if s != [] {
      RisingTail(s);
      LowerRises(b, s[1..]);
      LowerMembers(b, s[1..]);
      RisingCons(s[0], Lower(b, s[1..]));
    }
  }

  lemma {:induction false} ChangesAreNexthops(b: BgpInfo, s: seq<BgpInfo>)
    requires Kin(b, s) && Rising(s) && forall x :: x in s ==> Order(x, b) < 0
    ensures Changes(b, s) == Nexthops(s)
  {
    hide SameFamily, Order;
    if s != [] {
      assert s[0] in s;
      SelfKin(b);
      OrderLaws(b, s[0], b);
      assert s == [s[0]] + s[1..];
      RisingTail(s);
      ChangesCount(b, s[0], s[1..]);
    }
  }

  lemma {:induction false} SortedRises(best: BgpInfo, cands: seq<BgpInfo>)
    requires OneFamily([best] + cands) && SortedCandidates(cands)
    ensures Kin(best, cands) && Rising(cands)
  {
    hide NexthopCmp, SameFamily;
    var all := [best] + cands;
    forall x | x in cands ensures SameFamily(best.attr, x.attr) {
      var i :| 0 <= i < |cands| && cands[i] == x;
      assert all[0] == best && all[i + 1] == x;
    }
    forall i, j | 0 <= i < j < |cands| ensures Order(cands[i], cands[j]) <= 0 {
      assert MpathCmp(cands[i], cands[j]) <= 0;
    }
  }

  /**
    For sorted candidates of one family, a selected path has the next hop of the
    best path exactly when another candidate has it, some candidate sorts below
    it, and the next hops below it leave room.
   */
  lemma {:induction false} SharesBestIff(best: BgpInfo, cands: seq<BgpInfo>, max: nat)
    requires OneFamily([best] + cands) && SortedCandidates(cands)
    ensures Shares(best, Greedy(Some(best), cands, Some(best), 1, max)) <==>
      && HasTwin(best, cands)
      && Lower(best, cands) != []
      && 1 + Nexthops(Lower(best, cands)) < max
  {
    hide Greedy, Shares, HasTwin, Nexthops, Changes, Rising, Kin, OneFamily, SortedCandidates, Order;
    SortedRises(best, cands);
    SharesFromBest(best, cands, 1, max);
    LowerRises(best, cands);
    LowerMembers(best, cands);
    ChangesAreNexthops(best, Lower(best, cands));
  }
}
