/** The reuse timer: the records of the current slot are re-filed by their decayed penalties. */
module DampTimer {
  import opened Options
  import opened Sequences
  import opened DampLists
  import opened DampSpec
  import opened DampWheel
  import opened DampWheelExact

  // ---------------------------------------------------------------------
  // The timer

  function Decayed(cfg: Config, e: Rec, now: int): nat {
    cfg.decay(now - e.updated, e.penalty)
  }

  /** The list a record of the slot goes to, by its decayed penalty; none when it is forgotten. */
  function Destination(cfg: Config, d: Damp, e: Rec, now: int): (to: Option<nat>)
    requires cfg.size > 0
    ensures to.Some? ==> to.value <= cfg.size
  {
    var p := Decayed(cfg, e, now);
    if p >= cfg.reuse then Some(Slot(cfg, d, p))
    else if 2 * p <= cfg.reuse then None
    else Some(cfg.size)
  }

  /** One record of the slot. */
  function Refile(cfg: Config, d: Damp, r: Route, now: int): (d': Damp)
    requires Shape(cfg, d) && r in d.info
  {
    var e := d.info[r].(penalty := Decayed(cfg, d.info[r], now), updated := now);
    var n := d.(info := d.info[r := e]);
    if e.penalty < cfg.reuse then
      var m := n.(info := n.info[r := e.(suppressed := 0)], damped := d.damped - {r},
                  history := if e.last == LastUpdate then d.history - {r} else d.history);
      if 2 * e.penalty <= cfg.reuse then Free(cfg, m, r, true) else AddOff(m, r)
    else
      AddReuse(cfg, n, r)
  }

  lemma RefileShape(cfg: Config, d: Damp, r: Route, now: int)
    requires Shape(cfg, d) && r in d.info
    ensures Shape(cfg, Refile(cfg, d, r, now))
    ensures forall x :: x in d.info && x != r ==> x in Refile(cfg, d, r, now).info && Refile(cfg, d, r, now).info[x] == d.info[x]
    ensures forall x :: x != r ==> (x in Refile(cfg, d, r, now).damped <==> x in d.damped)
    ensures Refile(cfg, d, r, now).offset == d.offset
  {
    var e := d.info[r].(penalty := Decayed(cfg, d.info[r], now), updated := now);
    var n := d.(info := d.info[r := e]);
    if e.penalty < cfg.reuse {
      var m := n.(info := n.info[r := e.(suppressed := 0)], damped := d.damped - {r},
                  history := if e.last == LastUpdate then d.history - {r} else d.history);
      if 2 * e.penalty <= cfg.reuse {
        FreeShape(cfg, m, r, true);
      } else {
        PushKeys(m.links, m.heads, cfg.size, r);
      }
    } else {
      PushKeys(n.links, n.heads, Slot(cfg, n, e.penalty), r);
    }
  }

  ghost predicate Listed(d: Damp, chain: seq<Route>) {
    Distinct(chain) && forall r :: r in chain ==> r in d.info && r in d.damped
  }

  lemma ListedTail(cfg: Config, d: Damp, chain: seq<Route>, now: int)
    requires Shape(cfg, d) && Listed(d, chain) && chain != []
    ensures Shape(cfg, Refile(cfg, d, chain[0], now)) && Listed(Refile(cfg, d, chain[0], now), chain[1..])
  {
    RefileShape(cfg, d, chain[0], now);
    hide Refile, Shape;
  }

  ghost function RefileAll(cfg: Config, d: Damp, chain: seq<Route>, now: int): Damp
    requires Shape(cfg, d) && Listed(d, chain)
    decreases |chain|
  {
    if chain == [] then d
    else
      ListedTail(cfg, d, chain, now);
      RefileAll(cfg, Refile(cfg, d, chain[0], now), chain[1..], now)
  }

  /** The slot's list is detached and the wheel turns. */
  function Turn(cfg: Config, d: Damp): Damp
    requires cfg.size > 0 && d.offset < |d.heads|
  {
    d.(heads := d.heads[d.offset := None], offset := (d.offset + 1) % cfg.size)
  }

  // ---------------------------------------------------------------------
  // The walk as pointer updates

  ghost function Fates(cfg: Config, d: Damp, chain: seq<Route>, now: int): seq<Fate>
    requires cfg.size > 0 && forall r :: r in chain ==> r in d.info
  {
    if chain == [] then [] else [Fate(chain[0], Destination(cfg, d, d.info[chain[0]], now))] + Fates(cfg, d, chain[1..], now)
  }

  lemma {:induction false} FatesKept(cfg: Config, d: Damp, d': Damp, chain: seq<Route>, now: int)
    requires cfg.size > 0 && forall r :: r in chain ==> r in d.info && r in d'.info && d'.info[r] == d.info[r]
    requires d'.offset == d.offset
    ensures Fates(cfg, d, chain, now) == Fates(cfg, d', chain, now)
  {
    if chain != [] {
      FatesKept(cfg, d, d', chain[1..], now);
    }
  }

  ghost function PtrsOf(d: Damp): Ptrs {
    Ptrs(d.links, d.heads)
  }

  /** Where everything but the records still to be visited is. */
  ghost function AtBut(d: Damp, chain: seq<Route>): map<Route, nat>
    requires |d.heads| > 0
  {
    map r | r in d.info && r !in chain :: Spot(d, r)
  }

  lemma RefileStep(cfg: Config, d: Damp, chain: seq<Route>, now: int)
    requires Shape(cfg, d) && Listed(d, chain) && chain != []
    ensures
      var d' := Refile(cfg, d, chain[0], now);
      var f := Fate(chain[0], Destination(cfg, d, d.info[chain[0]], now));
      && PtrsOf(d') == Step(PtrsOf(d), f)
      && |d'.heads| == |d.heads|
      && AtBut(d', chain[1..]) == if f.to.Some? then AtBut(d, chain)[f.r := f.to.value] else AtBut(d, chain)
  {
    var r := chain[0];
    RefileShape(cfg, d, r, now);
    RefilePtrs(cfg, d, r, now);
    RefileSpot(cfg, d, r, now);
    assert forall x :: x in chain <==> x == r || x in chain[1..];
    assert r !in chain[1..];
    hide Refile;
    assert Shape(cfg, d);
  }

  lemma RefilePtrs(cfg: Config, d: Damp, r: Route, now: int)
    requires Shape(cfg, d) && r in d.info
    ensures PtrsOf(Refile(cfg, d, r, now)) == Step(PtrsOf(d), Fate(r, Destination(cfg, d, d.info[r], now)))
  {
    hide Push, Cut;
  }

  lemma RefileSpot(cfg: Config, d: Damp, r: Route, now: int)
    requires Shape(cfg, d) && r in d.info && r in d.damped
    ensures
      var d' := Refile(cfg, d, r, now);
      var to := Destination(cfg, d, d.info[r], now);
      && |d'.heads| == |d.heads|
      && (r in d'.info <==> to.Some?)
      && (to.Some? ==> Spot(d', r) == to.value)
      && (forall x :: x in d'.info && x != r ==> x in d.info && Spot(d', x) == Spot(d, x))
  {
    RefileShape(cfg, d, r, now);
    hide Push, Cut;
  }

  /** The walk is the pointer walk, and what the flags and indexes say afterwards is where the fates put the records. */
  lemma {:induction false} RefileAllFold(cfg: Config, d: Damp, chain: seq<Route>, now: int)
    requires Shape(cfg, d) && Listed(d, chain)
    ensures
      var d' := RefileAll(cfg, d, chain, now);
      && Shape(cfg, d')
      && PtrsOf(d') == Fold(PtrsOf(d), Fates(cfg, d, chain, now))
      && At(d') == AtAfter(AtBut(d, chain), Fates(cfg, d, chain, now))
    decreases |chain|
  {
    hide Refile, Step, Destination;
    if chain == [] {
      assert At(d) == AtBut(d, []);
    } else {
      ListedTail(cfg, d, chain, now);
      RefileShape(cfg, d, chain[0], now);
      RefileStep(cfg, d, chain, now);
      var d1 := Refile(cfg, d, chain[0], now);
      RefileAllFold(cfg, d1, chain[1..], now);
      RestKept(d, chain);
      FatesKept(cfg, d, d1, chain[1..], now);
      var fs := Fates(cfg, d, chain, now);
      assert fs[0] == Fate(chain[0], Destination(cfg, d, d.info[chain[0]], now));
      assert fs[1..] == Fates(cfg, d, chain[1..], now);
      hide Shape, Listed, AtBut;
    }
  }

  lemma RestKept(d: Damp, chain: seq<Route>)
    requires Listed(d, chain) && chain != []
    ensures forall r :: r in chain[1..] ==> r in chain && r != chain[0]
  {
  }

  // ---------------------------------------------------------------------
  // The detached slot

  lemma {:induction false} FatesMembers(cfg: Config, d: Damp, chain: seq<Route>, now: int)
    requires cfg.size > 0 && forall r :: r in chain ==> r in d.info
    ensures forall r :: InQ(r, Fates(cfg, d, chain, now)) <==> r in chain
  {
    hide Destination;
    if chain != [] {
      FatesMembers(cfg, d, chain[1..], now);
      var fs := Fates(cfg, d, chain, now);
      assert fs[1..] == Fates(cfg, d, chain[1..], now);
      assert forall r :: r in chain <==> r == chain[0] || r in chain[1..];
    }
  }

  lemma {:induction false} ChainQueue(cfg: Config, d: Damp, s: seq<Route>, i: nat, now: int, p: Ptrs)
    requires cfg.size > 0 && |p.heads| == cfg.size + 1
    requires i <= |s| && (forall r :: r in s ==> r in d.info) && Distinct(s)
    requires forall j :: 0 <= j < |s| ==> s[j] in p.links && p.links[s[j]] == Link(After(s, j), Before(s, j))
    ensures Queue(p, Fates(cfg, d, s[i..], now), Before(s, i))
    decreases |s| - i
  {
    hide Destination, InQ, Distinct;
    FatesMembers(cfg, d, s[i..], now);
    if i > 0 {
      NotLater(s, i);
    }
    if i < |s| {
      ChainQueue(cfg, d, s, i + 1, now, p);
      assert s[i..][0] == s[i] && s[i..][1..] == s[i + 1..];
      var fs := Fates(cfg, d, s[i..], now);
      FatesFirst(cfg, d, s[i + 1..], now);
      assert fs == [Fate(s[i], Destination(cfg, d, d.info[s[i]], now))] + Fates(cfg, d, s[i + 1..], now);
      assert fs[1..] == Fates(cfg, d, s[i + 1..], now);
      hide Fates;
    }
  }

  lemma FatesFirst(cfg: Config, d: Damp, chain: seq<Route>, now: int)
    requires cfg.size > 0 && forall r :: r in chain ==> r in d.info
    ensures First(Fates(cfg, d, chain, now)) == if chain == [] then None else Some(chain[0])
  {
  }

  /** Detaching the slot leaves the other lists as they are. */
  lemma TurnMidway(cfg: Config, d: Damp, lists: seq<seq<Route>>, now: int)
    requires Good(cfg, d, lists)
    ensures |lists| == cfg.size + 1 && Shape(cfg, Turn(cfg, d)) && Listed(Turn(cfg, d), lists[d.offset])
    ensures
      var t := Turn(cfg, d);
      var s := lists[d.offset];
      Midway(PtrsOf(t), lists[d.offset := []], AtBut(t, s), Fates(cfg, t, s, now), None)
  {
    FiledSize(d.links, d.heads, lists, At(d));
    var t := Turn(cfg, d);
    var s := lists[d.offset];
    SlotListed(cfg, d, lists);
    assert s[0..] == s;
    ChainQueue(cfg, t, s, 0, now, PtrsOf(t));
    FatesMembers(cfg, t, s, now);
    DetachFiled(cfg, d, lists);
    hide Good, Filed, Queue, InQ, Fates;
  }

  lemma SlotListed(cfg: Config, d: Damp, lists: seq<seq<Route>>)
    requires Good(cfg, d, lists) && |lists| == |d.heads|
    ensures
      var s := lists[d.offset];
      && Shape(cfg, Turn(cfg, d)) && Listed(d, s)
      && Chain(d.links, d.heads[d.offset], s)
      && (forall r :: r in s <==> r in d.info && Spot(d, r) == d.offset)
  {
    var s := lists[d.offset];
    assert Chain(d.links, d.heads[d.offset], s);
    hide Chain;
    forall r | r in s ensures r in d.info && r in d.damped && Spot(d, r) == d.offset {
      assert r in At(d) && At(d)[r] == d.offset;
    }
    forall r | r in d.info && Spot(d, r) == d.offset ensures r in s {
      assert r in At(d) && At(d)[r] == d.offset;
    }
    assert Distinct(s);
  }

  lemma DetachFiled(cfg: Config, d: Damp, lists: seq<seq<Route>>)
    requires Good(cfg, d, lists) && |lists| == |d.heads|
    ensures
      var t := Turn(cfg, d);
      Filed(t.links, t.heads, lists[d.offset := []], AtBut(t, lists[d.offset]))
  {
    hide Chains, Placed, Chain, Listed, Elsewhere, AtBut;
    SlotListed(cfg, d, lists);
    var t, k := Turn(cfg, d), d.offset;
    DetachChains(d.links, d.heads, lists, k);
    DetachPlaced(lists, At(d), k);
    DetachAt(cfg, d, lists[k]);
  }

  lemma DetachAt(cfg: Config, d: Damp, s: seq<Route>)
    requires Shape(cfg, d)
    requires forall r :: r in s <==> r in d.info && Spot(d, r) == d.offset
    ensures AtBut(Turn(cfg, d), s) == Elsewhere(At(d), d.offset)
  {
  }

  ghost function Elsewhere(at: map<Route, nat>, k: nat): map<Route, nat> {
    map r | r in at && at[r] != k :: at[r]
  }

  lemma DetachChains(links: Links, heads: Heads, lists: seq<seq<Route>>, k: nat)
    requires Chains(links, heads, lists) && k < |lists|
    ensures Chains(links, heads[k := None], lists[k := []])
  {
    assert Chain(links, None, []);
    hide Chain;
  }

  lemma DetachPlaced(lists: seq<seq<Route>>, at: map<Route, nat>, k: nat)
    requires Placed(lists, at) && k < |lists|
    ensures Placed(lists[k := []], Elsewhere(at, k))
  {
  }

  // ---------------------------------------------------------------------
  // The partition after the timer

  ghost predicate Partition(cfg: Config, d: Damp) {
    exists lists :: Good(cfg, d, lists)
  }

  /** The state after the timer, whose slot holds `s`. */
  ghost function Timer(cfg: Config, d: Damp, s: seq<Route>, now: int): Damp
    requires Shape(cfg, d) && Shape(cfg, Turn(cfg, d)) && Listed(Turn(cfg, d), s)
  {
    RefileAll(cfg, Turn(cfg, d), s, now)
  }

  /**
    The timer keeps the partition exactly when no record of the slot has decayed
    to half the reuse limit, or those that have are the last of the slot, behind
    a record re-filed alone on its list or, when they are the whole slot, with no
    record outside the wheel.
   */
  lemma TimerPartitionIff(cfg: Config, d: Damp, lists: seq<seq<Route>>, now: int)
    requires Good(cfg, d, lists)
    ensures |lists| == cfg.size + 1 && Shape(cfg, Turn(cfg, d)) && Listed(Turn(cfg, d), lists[d.offset])
    ensures
      var s := lists[d.offset];
      Partition(cfg, Timer(cfg, d, s, now)) <==> Harmless(lists[d.offset := []], Fates(cfg, Turn(cfg, d), s, now))
  {
    hide Filed, Midway, Fates, Fold, AtAfter, Harmless;
    TurnMidway(cfg, d, lists, now);
    var t, s := Turn(cfg, d), lists[d.offset];
    var fs := Fates(cfg, t, s, now);
    RefileAllFold(cfg, t, s, now);
    WalkWholeIff(PtrsOf(t), lists[d.offset := []], AtBut(t, s), fs);
    var d' := Timer(cfg, d, s, now);
    hide Turn, Timer;
    PartitionWhole(cfg, d');
  }

  lemma PartitionWhole(cfg: Config, d: Damp)
    requires Shape(cfg, d)
    ensures Partition(cfg, d) <==> Whole(PtrsOf(d), At(d))
  {
    hide Filed;
    if Partition(cfg, d) {
      var lists :| Good(cfg, d, lists);
      assert Filed(PtrsOf(d).links, PtrsOf(d).heads, lists, At(d));
    }
    if Whole(PtrsOf(d), At(d)) {
      var lists :| Filed(PtrsOf(d).links, PtrsOf(d).heads, lists, At(d));
      assert Good(cfg, d, lists);
    }
  }

  // ---------------------------------------------------------------------
  // Following the detached chain

  /** The next pointers of the records still to be visited are those of the detached list. */
  ghost predicate Walkable(p: Ptrs, fs: seq<Fate>, pv: Option<Route>) {
    Queue(p, fs, pv) && (fs != [] ==> HeadsClear(p.heads, fs[1..]))
  }

  /** They stay so whatever happens to the first record, whether the lists stay whole or not. */
  lemma WalkableStep(p: Ptrs, fs: seq<Fate>, pv: Option<Route>) returns (pv': Option<Route>)
    requires Walkable(p, fs, pv) && fs != []
    ensures Walkable(Step(p, fs[0]), fs[1..], pv')
  {
    hide Step;
    var rest := fs[1..];
    pv' := NextPv(fs[0], pv);
    if fs[0].to.Some? {
      PushQueue(p, fs, pv);
      if rest != [] {
        ClearTail(Step(p, fs[0]).heads, rest);
      }
    } else {
      FreeQueue(p, fs, pv);
      if rest != [] {
        ClearTail(p.heads, rest);
        assert Queue(p, rest, Some(fs[0].r)) && Queue(p, rest[1..], Some(rest[0].r));
        hide Queue, InQ;
      }
    }
  }

  lemma WalkableNext(p: Ptrs, fs: seq<Fate>, pv: Option<Route>)
    requires Walkable(p, fs, pv) && fs != []
    ensures fs[0].r in p.links && p.links[fs[0].r].next == First(fs[1..])
  {
  }
}
