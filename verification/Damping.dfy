/** The dampening state as it is updated in place. */
module Damping {
  import opened Options
  import opened Sequences
  import opened DampLists
  import opened DampSpec
  import opened DampWheel
  import opened DampTimer
  import opened DampRuns

  class DampTable {
    const cfg: Config
    /** The records: their plain fields and their links. */
    var info: map<Route, Rec>
    var links: Links
    /** The heads of the wheel's lists, and of the list of records that are not suppressed. */
    const reuseList: array<Option<Route>>
    var noReuse: Option<Route>
    var offset: nat
    var damped: set<Route>
    var history: set<Route>
    var deleted: set<Route>

    ghost function View(): Damp
      reads this, reuseList
    {
      Damp(info, links, reuseList[..] + [noReuse], offset, damped, history, deleted)
    }

    ghost predicate Valid()
      reads this, reuseList
    {
      reuseList.Length == cfg.size && Shape(cfg, View())
    }

    constructor (cfg: Config)
      requires cfg.size > 0
      ensures Valid() && this.cfg == cfg && fresh(reuseList) && View() == Empty(cfg)
    {
      this.cfg := cfg;
      info, links, noReuse, offset, damped, history, deleted := map[], map[], None, 0, {}, {}, {};
      reuseList := new Option<Route>[cfg.size](i => None);
      new;
      assert reuseList[..] + [noReuse] == seq(cfg.size + 1, i => None);
    }

    /** `bgp_reuse_list_add`. */
    method ReuseAdd(r: Route)
      requires reuseList.Length == cfg.size > 0 && r in info
      modifies this, reuseList
      ensures reuseList.Length == cfg.size
      ensures View() == AddReuse(cfg, old(View()), r)
    {
      var index := (offset + cfg.steps(info[r].penalty)) % cfg.size;
      info := info[r := info[r].(index := index)];
      links := links[r := Link(reuseList[index], None)];
      if reuseList[index].Some? {
        links := SetPrev(links, reuseList[index].value, Some(r));
      }
      reuseList[index] := Some(r);
      assert View().heads == old(View()).heads[index := Some(r)];
    }

    /** `bgp_reuse_list_delete`. */
    method ReuseDelete(r: Route)
      requires reuseList.Length == cfg.size && r in info && r in links && 0 <= info[r].index < cfg.size
      modifies this, reuseList
      ensures reuseList.Length == cfg.size
      ensures View() == CutFrom(old(View()), old(info)[r].index, r)
    {
      var e := links[r];
      if e.next.Some? {
        links := SetPrev(links, e.next.value, e.prev);
      }
      if e.prev.Some? {
        links := SetNext(links, e.prev.value, e.next);
      } else {
        reuseList[info[r].index] := e.next;
      }
      assert e.prev.None? ==> View().heads == old(View()).heads[info[r].index := e.next];
    }

    /** `BGP_DAMP_LIST_ADD`. */
    method OffAdd(r: Route)
      requires reuseList.Length == cfg.size
      modifies this
      ensures View() == AddOff(old(View()), r)
    {
      links := links[r := Link(noReuse, None)];
      if noReuse.Some? {
        links := SetPrev(links, noReuse.value, Some(r));
      }
      noReuse := Some(r);
      assert View().heads == old(View()).heads[cfg.size := Some(r)];
    }

    /** `BGP_DAMP_LIST_DEL`. */
    method OffDelete(r: Route)
      requires reuseList.Length == cfg.size && r in links
      modifies this
      ensures View() == CutFrom(old(View()), cfg.size, r)
    {
      var e := links[r];
      if e.next.Some? {
        links := SetPrev(links, e.next.value, e.prev);
      }
      if e.prev.Some? {
        links := SetNext(links, e.prev.value, e.next);
      } else {
        noReuse := e.next;
      }
      assert e.prev.None? ==> View().heads == old(View()).heads[cfg.size := e.next];
    }

    /** `bgp_damp_info_free`. */
    method FreeRecord(r: Route, withdraw: bool)
      requires Valid() && r in info
      modifies this, reuseList
      ensures Valid()
      ensures View() == Free(cfg, old(View()), r, withdraw)
    {
      FreeShape(cfg, View(), r, withdraw);
      hide Cut;
      var last := info[r].last;
      if r in damped {
        ReuseDelete(r);
      } else {
        OffDelete(r);
      }
      history := history - {r};
      damped := damped - {r};
      if last == LastWithdraw && withdraw {
        deleted := deleted + {r};
      }
      info := info - {r};
      links := links - {r};
    }

    /** `bgp_damp_withdraw`. */
    method Withdrawal(r: Route, now: int, attrChange: bool) returns (status: Status)
      requires Valid()
      modifies this, reuseList
      ensures Valid()
      ensures (View(), status) == Withdraw(cfg, old(View()), r, now, attrChange)
    {
      hide Withdrawn, Charged;
      var lastPenalty := Charge(r, now, attrChange);
      status := Settle(r, now, lastPenalty);
    }

    /** The start of `bgp_damp_withdraw`: the record is allocated or its penalty raised. */
    method Charge(r: Route, now: int, attrChange: bool) returns (lastPenalty: nat)
      requires Valid()
      modifies this, reuseList
      ensures Valid() && r in info
      ensures (View(), lastPenalty) == Charged(cfg, old(View()), r, now, attrChange)
    {
      hide Push;
      lastPenalty := 0;
      if r !in info {
        info := info[r := Rec(Penalty(attrChange), 1, now, 0, 0, -1, LastUpdate)];
        OffAdd(r);
      } else {
        lastPenalty := info[r].penalty;
        var p := cfg.decay(now - info[r].updated, info[r].penalty) + Penalty(attrChange);
        if p > cfg.ceiling {
          p := cfg.ceiling;
        }
        info := info[r := info[r].(penalty := p, flap := info[r].flap + 1)];
      }
      info := info[r := info[r].(last := LastWithdraw, updated := now)];
      history := history + {r};
      assert info == Charged(cfg, old(View()), r, now, attrChange).0.info;
    }

    /** The end of `bgp_damp_withdraw`: the record's list follows its penalty. */
    method Settle(r: Route, now: int, lastPenalty: nat) returns (status: Status)
      requires Valid() && r in info
      modifies this, reuseList
      ensures Valid()
      ensures (View(), status) == Withdrawn(cfg, old(View()), r, now, lastPenalty)
    {
      hide CutFrom, AddReuse;
      status := Used;
      if r in damped {
        if info[r].penalty != lastPenalty {
          Reslot(r);
        }
        status := Suppressed;
      } else if info[r].penalty >= cfg.suppress {
        PutOn(r, now);
      }
    }

    method Reslot(r: Route)
      requires Valid() && r in damped
      modifies this, reuseList
      ensures Valid()
      ensures View() == AddReuse(cfg, CutFrom(old(View()), old(info)[r].index, r), r)
    {
      hide Cut, Push;
      CutKeys(links, View().heads, info[r].index, r);
      ReuseDelete(r);
      PushKeys(links, View().heads, Slot(cfg, View(), info[r].penalty), r);
      ReuseAdd(r);
    }

    /** On the wheel: `BGP_DAMP_LIST_DEL` and `bgp_reuse_list_add`. */
    method PutOn(r: Route, now: int)
      requires Valid() && r in info && r !in damped
      modifies this, reuseList
      ensures Valid()
      ensures
        var d := old(View());
        View() == AddReuse(cfg, CutFrom(d.(info := d.info[r := d.info[r].(suppressed := now)]), cfg.size, r), r).(damped := d.damped + {r})
    {
      hide Cut, Push;
      damped := damped + {r};
      info := info[r := info[r].(suppressed := now)];
      CutKeys(links, View().heads, cfg.size, r);
      OffDelete(r);
      PushKeys(links, View().heads, Slot(cfg, View(), info[r].penalty), r);
      ReuseAdd(r);
    }

    /** Off the wheel: `bgp_reuse_list_delete` and `BGP_DAMP_LIST_ADD`. */
    method TakeOff(r: Route)
      requires Valid() && r in damped
      modifies this, reuseList
      ensures Valid()
      ensures View() == Unsuppress(old(View()), r)
    {
      hide Cut, Push;
      CutKeys(links, View().heads, info[r].index, r);
      damped := damped - {r};
      ReuseDelete(r);
      PushKeys(links, View().heads, cfg.size, r);
      OffAdd(r);
      info := info[r := info[r].(suppressed := 0)];
    }

    /** `bgp_damp_update`. */
    method Announcement(r: Route, now: int) returns (status: Status)
      requires Valid()
      modifies this, reuseList
      ensures Valid()
      ensures (View(), status) == Update(cfg, old(View()), r, now)
    {
      hide Unsuppress, Free;
      status := Used;
      if r !in info {
        return;
      }
      history := history - {r};
      info := info[r := info[r].(last := LastUpdate, penalty := cfg.decay(now - info[r].updated, info[r].penalty))];
      var p := info[r].penalty;
      if r !in damped && p < cfg.suppress {
        status := Used;
      } else if r in damped && p < cfg.reuse {
        UnsuppressHas(View(), r);
        UnsuppressPenalty(View(), r);
        TakeOff(r);
        status := Used;
      } else {
        status := Suppressed;
      }
      if 2 * p > cfg.reuse {
        info := info[r := info[r].(updated := now)];
      } else {
        FreeRecord(r, false);
      }
    }

    /** `bgp_damp_scan`; `announce` when the route has to be announced again. */
    method ScanRoute(r: Route, now: int) returns (announce: bool)
      requires Valid() && r in info
      modifies this, reuseList
      ensures Valid()
      ensures (View(), announce) == Scan(cfg, old(View()), r, now)
    {
      hide Unsuppress, Free;
      announce := false;
      if r in damped {
        if now - info[r].suppressed >= cfg.maxSuppress {
          announce := info[r].last == LastUpdate;
          UnsuppressHas(View(), r);
          TakeOff(r);
          info := info[r := info[r].(penalty := cfg.reuse, updated := now)];
        }
      } else {
        info := info[r := info[r].(penalty := cfg.decay(now - info[r].updated, info[r].penalty))];
        if 2 * info[r].penalty <= cfg.reuse {
          FreeRecord(r, true);
        } else {
          info := info[r := info[r].(updated := now)];
        }
      }
    }

    /** One record of the slot in `bgp_reuse_timer`. */
    method RefileRecord(r: Route, now: int)
      requires Valid() && r in info
      modifies this, reuseList
      ensures Valid()
      ensures View() == Refile(cfg, old(View()), r, now)
    {
      hide Push, Cut, Free, AddOff, AddReuse;
      ghost var d := View();
      RefileShape(cfg, d, r, now);
      var p := cfg.decay(now - info[r].updated, info[r].penalty);
      info := info[r := info[r].(penalty := p, updated := now)];
      if p < cfg.reuse {
        damped := damped - {r};
        info := info[r := info[r].(suppressed := 0)];
        assert info == d.info[r := info[r]];
        if info[r].last == LastUpdate {
          history := history - {r};
        }
        if 2 * p <= cfg.reuse {
          FreeRecord(r, true);
        } else {
          OffAdd(r);
        }
      } else {
        ReuseAdd(r);
      }
    }

    /** `bgp_reuse_timer`. */
    method ReuseTimer(now: int, ghost lists: seq<seq<Route>>)
      requires Valid() && Good(cfg, View(), lists) && |lists| == cfg.size + 1
      modifies this, reuseList
      ensures Valid()
      ensures Shape(cfg, Turn(cfg, old(View()))) && Listed(Turn(cfg, old(View())), lists[old(offset)])
      ensures View() == Timer(cfg, old(View()), lists[old(offset)], now)
    {
      hide Good, Refile, Queue, HeadsClear, Fates, Walkable, RefileAll, PtrsOf;
      ghost var d, s := View(), lists[offset];
      ghost var t := Turn(cfg, d);
      SlotStart(cfg, d, lists, now);
      hide Shape;
      var cur := reuseList[offset];
      reuseList[offset] := None;
      offset := (offset + 1) % cfg.size;
      assert View().heads == t.heads;
      ghost var i, pv: Option<Route> := 0, None;
      assert s[0..] == s;
      while cur.Some?
        invariant Valid() && 0 <= i <= |s| && Listed(View(), s[i..])
        invariant RefileAll(cfg, View(), s[i..], now) == RefileAll(cfg, t, s, now)
        invariant Walkable(PtrsOf(View()), Fates(cfg, View(), s[i..], now), pv)
        invariant cur == if i < |s| then Some(s[i]) else None
        decreases |s| - i
      {
        var r := cur.value;
        ghost var d1 := View();
        assert s[i..][0] == r && s[i..][1..] == s[i + 1..];
        pv := WalkOn(cfg, d1, s[i..], now, pv);
        var next := links[r].next;
        RefileRecord(r, now);
        i := i + 1;
        cur := next;
      }
      assert s[i..] == [];
      RefileAllNone(cfg, View(), now);
    }

    /** `bgp_damp_info_clean`. */
    method Clean(ghost lists: seq<seq<Route>>)
      requires Valid() && Good(cfg, View(), lists) && |lists| == cfg.size + 1
      modifies this, reuseList
      ensures Valid()
      ensures View() == Cleaned(cfg, old(View()))
    {
      ghost var d := View();
      offset := 0;
      ghost var ls := lists;
      GoodOffset(cfg, d, ls);
      hide Good;
      for i := 0 to cfg.size
        invariant Valid() && Good(cfg, View(), ls) && |ls| == cfg.size + 1
        invariant Emptied(ls, i) && Freeing(d, View())
      {
        ls := FreeList(reuseList[i], i, ls, d);
        ListEmpty(cfg, View(), ls, i);
        ghost var heads := View().heads;
        reuseList[i] := None;
        assert View().heads == heads;
      }
      ls := FreeList(noReuse, cfg.size, ls, d);
      ListEmpty(cfg, View(), ls, cfg.size);
      noReuse := None;
      AllEmpty(cfg, d, View(), ls);
    }

    /** The inner loop of `bgp_damp_info_clean`: every record of list `k` is freed. */
    method FreeList(head: Option<Route>, ghost k: nat, ghost lists: seq<seq<Route>>, ghost d: Damp)
      returns (ghost ls: seq<seq<Route>>)
      requires Valid() && Good(cfg, View(), lists) && k < |lists| == cfg.size + 1
      requires head == View().heads[k] && Emptied(lists, k) && Freeing(d, View())
      modifies this, reuseList
      ensures Valid() && Good(cfg, View(), ls) && |ls| == cfg.size + 1
      ensures Emptied(ls, k + 1) && Freeing(d, View())
    {
      hide Good, Freeing;
      ls := lists;
      var cur := head;
      while cur.Some?
        invariant Valid() && Good(cfg, View(), ls) && |ls| == cfg.size + 1
        invariant Emptied(ls, k) && Freeing(d, View())
        invariant cur == View().heads[k]
        decreases |ls[k]|
      {
        var r := cur.value;
        ListHead(cfg, View(), ls, k);
        FreeGood(cfg, View(), ls, r, true);
        FreeingStep(cfg, d, View(), r);
        ghost var n := |ls[k]|;
        ls := ls[k := ls[k][1..]];
        var next := links[r].next;
        FreeRecord(r, true);
        ListFirst(cfg, View(), ls, k);
        cur := next;
      }
      ListNone(cfg, View(), ls, k);
    }
  }

  lemma UnsuppressPenalty(d: Damp, r: Route)
    requires r in d.info && r in d.links && 0 <= d.info[r].index < |d.heads|
    ensures r in Unsuppress(d, r).info && Unsuppress(d, r).info[r].penalty == d.info[r].penalty
  {
  }

  lemma {:induction false} RefileAllNone(cfg: Config, d: Damp, now: int)
    requires Shape(cfg, d)
    ensures Listed(d, []) && RefileAll(cfg, d, [], now) == d
  {
  }

  lemma SlotStart(cfg: Config, d: Damp, lists: seq<seq<Route>>, now: int)
    requires Good(cfg, d, lists) && |lists| == cfg.size + 1
    ensures Shape(cfg, Turn(cfg, d)) && Listed(Turn(cfg, d), lists[d.offset])
    ensures
      var t, s := Turn(cfg, d), lists[d.offset];
      && Walkable(PtrsOf(t), Fates(cfg, t, s, now), None)
      && d.heads[d.offset] == if s == [] then None else Some(s[0])
  {
    hide Filed, Fates, Queue;
    TurnMidway(cfg, d, lists, now);
    var t, s := Turn(cfg, d), lists[d.offset];
    var fs := Fates(cfg, t, s, now);
    var off := lists[d.offset := []];
    MidwayParts(PtrsOf(t), off, AtBut(t, s), fs, None);
    AwayHeadsClear(PtrsOf(t), off, AtBut(t, s), fs);
    if fs != [] {
      ClearTail(PtrsOf(t).heads, fs);
    }
    SlotListed(cfg, d, lists);
  }

  /** One step along the chain. */
  lemma WalkOn(cfg: Config, d: Damp, chain: seq<Route>, now: int, pv: Option<Route>) returns (pv': Option<Route>)
    requires Shape(cfg, d) && Listed(d, chain) && chain != []
    requires Walkable(PtrsOf(d), Fates(cfg, d, chain, now), pv)
    ensures chain[0] in d.links && d.links[chain[0]].next == if |chain| > 1 then Some(chain[1]) else None
    ensures
      var d' := Refile(cfg, d, chain[0], now);
      && Shape(cfg, d') && Listed(d', chain[1..])
      && RefileAll(cfg, d', chain[1..], now) == RefileAll(cfg, d, chain, now)
      && Walkable(PtrsOf(d'), Fates(cfg, d', chain[1..], now), pv')
  {
    hide Refile, Step, Destination, Walkable;
    ListedTail(cfg, d, chain, now);
    RefileShape(cfg, d, chain[0], now);
    RefileStep(cfg, d, chain, now);
    var d1 := Refile(cfg, d, chain[0], now);
    RestKept(d, chain);
    FatesKept(cfg, d, d1, chain[1..], now);
    var fs := Fates(cfg, d, chain, now);
    assert fs[0] == Fate(chain[0], Destination(cfg, d, d.info[chain[0]], now));
    assert fs[1..] == Fates(cfg, d, chain[1..], now);
    FatesFirst(cfg, d, chain[1..], now);
    hide Shape, Listed, AtBut;
    WalkableNext(PtrsOf(d), fs, pv);
    pv' := WalkableStep(PtrsOf(d), fs, pv);
  }

  // ---------------------------------------------------------------------
  // Cleaning

  ghost predicate Emptied(lists: seq<seq<Route>>, k: nat) {
    forall j :: 0 <= j < k && j < |lists| ==> lists[j] == []
  }

  /** Some of the records of `d` are freed, each once; nothing else happened. */
  ghost predicate Freeing(d: Damp, c: Damp) {
    && c.offset == 0
    && (forall r :: r in c.info ==> r in d.info && c.info[r] == d.info[r])
    && c.history == d.history - (d.info.Keys - c.info.Keys)
    && c.deleted == d.deleted + set r | r in d.info && r !in c.info && d.info[r].last == LastWithdraw
  }

  lemma GoodOffset(cfg: Config, d: Damp, lists: seq<seq<Route>>)
    requires Good(cfg, d, lists)
    ensures Good(cfg, d.(offset := 0), lists) && Freeing(d, d.(offset := 0))
  {
    hide Filed;
    assert At(d) == At(d.(offset := 0));
  }

  lemma FreeingStep(cfg: Config, d: Damp, c: Damp, r: Route)
    requires Freeing(d, c) && Shape(cfg, c) && r in c.info
    ensures Freeing(d, Free(cfg, c, r, true))
  {
    hide Cut;
    var c' := Free(cfg, c, r, true);
    assert c'.info.Keys == c.info.Keys - {r};
    assert d.info.Keys - c'.info.Keys == (d.info.Keys - c.info.Keys) + {r};
  }

  /** The record a list starts with, the one behind it, and where the first one is said to be. */
  lemma ListHead(cfg: Config, c: Damp, lists: seq<seq<Route>>, k: nat)
    requires Good(cfg, c, lists) && k < |lists| == cfg.size + 1 && c.heads[k].Some?
    ensures
      var r := c.heads[k].value;
      && lists[k] != [] && lists[k][0] == r && Remove(lists[k], r) == lists[k][1..]
      && r in c.info && r in c.links && Spot(c, r) == k
      && c.links[r].next == if |lists[k]| > 1 then Some(lists[k][1]) else None
  {
    var s := lists[k];
    assert Chain(c.links, c.heads[k], s);
    assert s[0] in s;
    assert s[0] in At(c) && At(c)[s[0]] == k;
  }

  lemma ListFirst(cfg: Config, c: Damp, lists: seq<seq<Route>>, k: nat)
    requires Good(cfg, c, lists) && k < |lists| == cfg.size + 1
    ensures |c.heads| == |lists| && c.heads[k] == if lists[k] == [] then None else Some(lists[k][0])
  {
    assert Chain(c.links, c.heads[k], lists[k]);
  }

  lemma ListNone(cfg: Config, c: Damp, lists: seq<seq<Route>>, k: nat)
    requires Good(cfg, c, lists) && k < |lists| == cfg.size + 1 && Emptied(lists, k)
    requires |c.heads| == |lists| && c.heads[k].None?
    ensures Emptied(lists, k + 1)
  {
    ListFirst(cfg, c, lists, k);
  }

  lemma ListEmpty(cfg: Config, c: Damp, lists: seq<seq<Route>>, k: nat)
    requires Good(cfg, c, lists) && k < |lists| == cfg.size + 1 && Emptied(lists, k + 1)
    ensures |c.heads| == |lists| && c.heads[k].None?
  {
    ListFirst(cfg, c, lists, k);
  }

  /** When every list is empty every record is freed. */
  lemma AllEmpty(cfg: Config, d: Damp, c: Damp, lists: seq<seq<Route>>)
    requires Good(cfg, c, lists) && |lists| == cfg.size + 1 && Emptied(lists, cfg.size + 1) && Freeing(d, c)
    ensures c == Cleaned(cfg, d)
  {
    forall r ensures r !in c.info {
      assert r in At(c) <==> r in c.info;
    }
    assert c.info == map[];
    assert c.links.Keys == {};
    assert c.links == map[];
    forall k | 0 <= k < |lists| ensures c.heads[k] == None && |c.heads| == |lists| {
      ListFirst(cfg, c, lists, k);
    }
    assert c.heads == seq(cfg.size + 1, i => None);
    hide Good;
    assert d.info.Keys - c.info.Keys == d.info.Keys;
  }
}
