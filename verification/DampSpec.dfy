/** Route flap dampening: what withdrawals, updates, scans and the reuse timer do to a route's record. */
module DampSpec {
  import opened Sequences
  import opened DampLists

  const DefaultPenalty: nat := 1000

  datatype Last = LastUpdate | LastWithdraw

  /** The plain fields of a dampening record. */
  datatype Rec = Rec(penalty: nat, flap: nat, start: int, updated: int, suppressed: int, index: int, last: Last)

  /**
    Configured limits.  The decay of a penalty over a time and the distance of
    its slot from the current one are tables computed once; here they are any
    functions.
   */
  datatype Config = Config(
    suppress: nat,
    reuse: nat,
    ceiling: nat,
    maxSuppress: int,
    size: nat,
    decay: (int, nat) -> nat,
    steps: nat -> nat)

  /** The last head is that of the records that are not suppressed, the others are the wheel's. */
  datatype Damp = Damp(
    info: map<Route, Rec>,
    links: Links,
    heads: Heads,
    offset: nat,
    damped: set<Route>,
    history: set<Route>,
    deleted: set<Route>)

  datatype Status = Used | Suppressed

  ghost predicate Shape(cfg: Config, d: Damp) {
    && cfg.size > 0
    && |d.heads| == cfg.size + 1
    && d.offset < cfg.size
    && d.info.Keys == d.links.Keys
    && forall r :: r in d.damped ==> r in d.info && 0 <= d.info[r].index < cfg.size
  }

  // ---------------------------------------------------------------------
  // Steps

  /** `bgp_reuse_index`. */
  function Slot(cfg: Config, d: Damp, penalty: nat): (k: nat)
    requires cfg.size > 0
    ensures k < cfg.size
  {
    (d.offset + cfg.steps(penalty)) % cfg.size
  }

  function AddReuse(cfg: Config, d: Damp, r: Route): Damp
    requires cfg.size > 0 && |d.heads| == cfg.size + 1 && r in d.info
  {
    var k := Slot(cfg, d, d.info[r].penalty);
    var (links, heads) := Push(d.links, d.heads, k, r);
    d.(info := d.info[r := d.info[r].(index := k)], links := links, heads := heads)
  }

  function CutFrom(d: Damp, k: nat, r: Route): Damp
    requires k < |d.heads| && r in d.links
  {
    var (links, heads) := Cut(d.links, d.heads, k, r);
    d.(links := links, heads := heads)
  }

  function AddOff(d: Damp, r: Route): Damp
    requires |d.heads| > 0
  {
    var (links, heads) := Push(d.links, d.heads, |d.heads| - 1, r);
    d.(links := links, heads := heads)
  }

  /** The list that the flags and the index say a record is on. */
  function Spot(d: Damp, r: Route): nat
    requires r in d.info && |d.heads| > 0
  {
    if r in d.damped && d.info[r].index >= 0 then d.info[r].index else |d.heads| - 1
  }

  /** `bgp_damp_info_free`. */
  function Free(cfg: Config, d: Damp, r: Route, withdraw: bool): Damp
    requires Shape(cfg, d) && r in d.info
  {
    var c := CutFrom(d, Spot(d, r), r);
    Damp(d.info - {r}, c.links - {r}, c.heads, d.offset, d.damped - {r}, d.history - {r},
         if d.info[r].last == LastWithdraw && withdraw then d.deleted + {r} else d.deleted)
  }

  function Penalty(attrChange: bool): nat {
    if attrChange then DefaultPenalty / 2 else DefaultPenalty
  }

  function Min(a: nat, b: nat): nat {
    if a > b then b else a
  }

  /** The record of a route without one, put with those that are not suppressed. */
  function NewRecord(d: Damp, r: Route, now: int, attrChange: bool): Damp
    requires |d.heads| > 0
  {
    AddOff(d.(info := d.info[r := Rec(Penalty(attrChange), 1, now, 0, 0, -1, LastUpdate)]), r)
  }

  /** The first half of a withdrawal: the record with the penalty added, and the penalty before. */
  function Charged(cfg: Config, d: Damp, r: Route, now: int, attrChange: bool): (res: (Damp, nat))
    requires Shape(cfg, d)
    ensures Shape(cfg, res.0) && r in res.0.info
  {
    if r !in d.info then
      var n := NewRecord(d, r, now, attrChange);
      (n.(info := n.info[r := n.info[r].(last := LastWithdraw, updated := now)], history := n.history + {r}), 0)
    else
      var e := d.info[r];
      var p := Min(cfg.decay(now - e.updated, e.penalty) + Penalty(attrChange), cfg.ceiling);
      (d.(info := d.info[r := e.(penalty := p, flap := e.flap + 1, last := LastWithdraw, updated := now)], history := d.history + {r}), e.penalty)
  }

  /** `bgp_damp_withdraw`. */
  function Withdraw(cfg: Config, d: Damp, r: Route, now: int, attrChange: bool): (Damp, Status)
    requires Shape(cfg, d)
  {
    var (n, last) := Charged(cfg, d, r, now, attrChange);
    Withdrawn(cfg, n, r, now, last)
  }

  /** The second half of a withdrawal: where the record belongs now. */
  function Withdrawn(cfg: Config, d: Damp, r: Route, now: int, lastPenalty: nat): (Damp, Status)
    requires Shape(cfg, d) && r in d.info
  {
    if r in d.damped then
      (if d.info[r].penalty != lastPenalty then AddReuse(cfg, CutFrom(d, d.info[r].index, r), r) else d, Suppressed)
    else if d.info[r].penalty >= cfg.suppress then
      var c := CutFrom(d.(info := d.info[r := d.info[r].(suppressed := now)]), cfg.size, r);
      (AddReuse(cfg, c, r).(damped := d.damped + {r}), Used)
    else
      (d, Used)
  }

  /** Taking a record off the wheel. */
  function Unsuppress(d: Damp, r: Route): Damp
    requires r in d.info && r in d.links && 0 <= d.info[r].index < |d.heads|
  {
    var c := AddOff(CutFrom(d, d.info[r].index, r), r);
    c.(info := c.info[r := c.info[r].(suppressed := 0)], damped := d.damped - {r})
  }

  /** `bgp_damp_update`. */
  function Update(cfg: Config, d: Damp, r: Route, now: int): (Damp, Status)
    requires Shape(cfg, d)
  {
    if r !in d.info then
      (d, Used)
    else
      var e := d.info[r];
      var p := cfg.decay(now - e.updated, e.penalty);
      var n := d.(info := d.info[r := e.(last := LastUpdate, penalty := p)], history := d.history - {r});
      var reused := r in d.damped && p < cfg.reuse;
      var m := if reused then Unsuppress(n, r) else n;
      var status := if reused || (r !in d.damped && p < cfg.suppress) then Used else Suppressed;
      (if 2 * p > cfg.reuse then m.(info := m.info[r := m.info[r].(updated := now)]) else Free(cfg, m, r, false), status)
  }

  /** `bgp_damp_scan`; the second result is whether the route has to be announced. */
  function Scan(cfg: Config, d: Damp, r: Route, now: int): (Damp, bool)
    requires Shape(cfg, d) && r in d.info
  {
    var e := d.info[r];
    if r in d.damped then
      if now - e.suppressed >= cfg.maxSuppress then
        var m := Unsuppress(d, r);
        (m.(info := m.info[r := m.info[r].(penalty := cfg.reuse, updated := now)]), e.last == LastUpdate)
      else
        (d, false)
    else
      var p := cfg.decay(now - e.updated, e.penalty);
      var m := d.(info := d.info[r := e.(penalty := p)]);
      (if 2 * p <= cfg.reuse then Free(cfg, m, r, true) else m.(info := m.info[r := m.info[r].(updated := now)]), false)
  }

  // ---------------------------------------------------------------------
  // Partition

  ghost function At(d: Damp): map<Route, nat>
    requires |d.heads| > 0
  {
    map r | r in d.info :: Spot(d, r)
  }

  /** Each record is on exactly one well-formed list: the wheel's at its index when its route is suppressed, else the other. */
  ghost predicate Good(cfg: Config, d: Damp, lists: seq<seq<Route>>) {
    Shape(cfg, d) && Filed(d.links, d.heads, lists, At(d))
  }

  /** Changing plain fields other than the index of a suppressed record. */
  lemma InfoGood(cfg: Config, d: Damp, d': Damp, lists: seq<seq<Route>>, r: Route, e: Rec)
    requires Good(cfg, d, lists) && r in d.info && e.index == d.info[r].index
    requires d'.info == d.info[r := e]
    requires d'.links == d.links && d'.heads == d.heads && d'.offset == d.offset && d'.damped == d.damped
    ensures Good(cfg, d', lists)
  {
    hide Filed;
    assert At(d') == At(d);
  }

  lemma NewRecordGood(cfg: Config, d: Damp, lists: seq<seq<Route>>, r: Route, now: int, attrChange: bool)
    requires Good(cfg, d, lists) && r !in d.info
    ensures |lists| == cfg.size + 1
    ensures Good(cfg, NewRecord(d, r, now, attrChange), lists[cfg.size := [r] + lists[cfg.size]])
  {
    hide Filed, Push, NewRecord;
    FiledSize(d.links, d.heads, lists, At(d));
    PushFiled(d.links, d.heads, lists, At(d), cfg.size, r);
    NewRecordAt(cfg, d, r, now, attrChange);
  }

  lemma NewRecordAt(cfg: Config, d: Damp, r: Route, now: int, attrChange: bool)
    requires Shape(cfg, d) && r !in d.info
    ensures
      var d' := NewRecord(d, r, now, attrChange);
      && Shape(cfg, d') && At(d') == At(d)[r := cfg.size]
      && (d'.links, d'.heads) == Push(d.links, d.heads, cfg.size, r)
  {
    PushKeys(d.links, d.heads, cfg.size, r);
    hide Push;
    assert At(NewRecord(d, r, now, attrChange)) == At(d)[r := cfg.size];
  }

  /** Moving a record from the list it is on to another one, with its flag and index following. */
  lemma MoveGood(cfg: Config, d: Damp, d': Damp, lists: seq<seq<Route>>, r: Route, k: nat)
    returns (lists': seq<seq<Route>>)
    requires Good(cfg, d, lists) && r in d.info && k <= cfg.size
    requires d'.info.Keys == d.info.Keys
    requires forall x :: x in d.info && x != r ==> d'.info[x] == d.info[x] && (x in d'.damped <==> x in d.damped)
    requires d'.damped <= d'.info.Keys && d'.offset == d.offset
    requires (d'.links, d'.heads) == Move(d.links, d.heads, Spot(d, r), k, r)
    requires if k == cfg.size then r !in d'.damped else r in d'.damped && d'.info[r].index == k
    ensures Good(cfg, d', lists') && OthersKept(lists, lists', r)
  {
    hide Filed, Move, OthersKept;
    lists' := MoveFiled(d.links, d.heads, lists, At(d), r, k);
    assert At(d') == At(d)[r := k];
  }

  /** Freeing a record takes it off its list and leaves every other record where it is. */
  lemma FreeGood(cfg: Config, d: Damp, lists: seq<seq<Route>>, r: Route, withdraw: bool)
    requires Good(cfg, d, lists) && r in d.info
    ensures |lists| == |d.heads| && Spot(d, r) < |lists|
    ensures
      var lists' := lists[Spot(d, r) := Remove(lists[Spot(d, r)], r)];
      Good(cfg, Free(cfg, d, r, withdraw), lists') && OthersKept(lists, lists', r)
  {
    hide Filed, Cut, Remove, OthersKept;
    FreeFiled(d.links, d.heads, lists, At(d), r);
    FreeShape(cfg, d, r, withdraw);
    FreeAt(cfg, d, r, withdraw);
  }

  lemma FreeAt(cfg: Config, d: Damp, r: Route, withdraw: bool)
    requires Shape(cfg, d) && r in d.info
    ensures |Free(cfg, d, r, withdraw).heads| == |d.heads|
    ensures At(Free(cfg, d, r, withdraw)) == At(d) - {r}
  {
    CutKeys(d.links, d.heads, Spot(d, r), r);
    hide Cut;
  }

  lemma FreeShape(cfg: Config, d: Damp, r: Route, withdraw: bool)
    requires Shape(cfg, d) && r in d.info
    ensures Shape(cfg, Free(cfg, d, r, withdraw))
  {
    CutKeys(d.links, d.heads, Spot(d, r), r);
  }

  /** A suppressed record goes to the slot of its new penalty. */
  lemma ReslotGood(cfg: Config, d: Damp, lists: seq<seq<Route>>, r: Route) returns (lists': seq<seq<Route>>)
    requires Good(cfg, d, lists) && r in d.damped
    ensures Good(cfg, AddReuse(cfg, CutFrom(d, d.info[r].index, r), r), lists') && OthersKept(lists, lists', r)
  {
    hide Filed, Cut, Push, OthersKept;
    CutKeys(d.links, d.heads, d.info[r].index, r);
    lists' := MoveGood(cfg, d, AddReuse(cfg, CutFrom(d, d.info[r].index, r), r), lists, r, Slot(cfg, d, d.info[r].penalty));
  }

  /** A record is put on the wheel. */
  lemma SuppressGood(cfg: Config, d: Damp, lists: seq<seq<Route>>, r: Route) returns (lists': seq<seq<Route>>)
    requires Good(cfg, d, lists) && r in d.info && r !in d.damped
    ensures Good(cfg, AddReuse(cfg, CutFrom(d, cfg.size, r), r).(damped := d.damped + {r}), lists') && OthersKept(lists, lists', r)
  {
    hide Filed, Cut, Push, OthersKept;
    var c := CutFrom(d, cfg.size, r);
    CutKeys(d.links, d.heads, cfg.size, r);
    lists' := MoveGood(cfg, d, AddReuse(cfg, c, r).(damped := d.damped + {r}), lists, r, Slot(cfg, d, d.info[r].penalty));
  }

  /** A record is taken off the wheel. */
  lemma UnsuppressGood(cfg: Config, d: Damp, lists: seq<seq<Route>>, r: Route) returns (lists': seq<seq<Route>>)
    requires Good(cfg, d, lists) && r in d.damped
    ensures Good(cfg, Unsuppress(d, r), lists') && OthersKept(lists, lists', r)
  {
    hide Filed, Cut, Push, OthersKept;
    CutKeys(d.links, d.heads, d.info[r].index, r);
    lists' := MoveGood(cfg, d, Unsuppress(d, r), lists, r, cfg.size);
  }

  lemma OthersKeptRefl(lists: seq<seq<Route>>, r: Route)
    ensures OthersKept(lists, lists, r)
  {
  }

  lemma WithdrawnGood(cfg: Config, d: Damp, lists: seq<seq<Route>>, r: Route, now: int, lastPenalty: nat)
    returns (lists': seq<seq<Route>>)
    requires Good(cfg, d, lists) && r in d.info
    ensures
      var d' := Withdrawn(cfg, d, r, now, lastPenalty).0;
      Good(cfg, d', lists') && OthersKept(lists, lists', r)
  {
    hide Filed, OthersKept, AddReuse, CutFrom, Spot;
    lists' := lists;
    OthersKeptRefl(lists, r);
    if r in d.damped && d.info[r].penalty != lastPenalty {
      lists' := ReslotGood(cfg, d, lists, r);
    } else if r !in d.damped && d.info[r].penalty >= cfg.suppress {
      var e := d.info[r].(suppressed := now);
      InfoGood(cfg, d, d.(info := d.info[r := e]), lists, r, e);
      lists' := SuppressGood(cfg, d.(info := d.info[r := e]), lists, r);
    }
  }

  /** A withdrawal keeps the partition and the place of every other record. */
  lemma WithdrawGood(cfg: Config, d: Damp, lists: seq<seq<Route>>, r: Route, now: int, attrChange: bool)
    returns (lists': seq<seq<Route>>)
    requires Good(cfg, d, lists)
    ensures Good(cfg, Withdraw(cfg, d, r, now, attrChange).0, lists') && OthersKept(lists, lists', r)
  {
    hide Filed, OthersKept, Withdrawn, NewRecord, Spot;
    if r !in d.info {
      NewRecordGood(cfg, d, lists, r, now, attrChange);
      NewRecordInfo(cfg, d, lists, r, now, attrChange);
      var n := NewRecord(d, r, now, attrChange);
      var mid := lists[cfg.size := [r] + lists[cfg.size]];
      var e := n.info[r].(last := LastWithdraw, updated := now);
      var n' := n.(info := n.info[r := e], history := n.history + {r});
      InfoGood(cfg, n, n', mid, r, e);
      lists' := WithdrawnGood(cfg, n', mid, r, now, 0);
      OthersKeptTwice(lists, mid, lists', r);
    } else {
      var p := Min(cfg.decay(now - d.info[r].updated, d.info[r].penalty) + Penalty(attrChange), cfg.ceiling);
      var e := d.info[r].(penalty := p, flap := d.info[r].flap + 1, last := LastWithdraw, updated := now);
      var n := d.(info := d.info[r := e], history := d.history + {r});
      InfoGood(cfg, d, n, lists, r, e);
      lists' := WithdrawnGood(cfg, n, lists, r, now, d.info[r].penalty);
    }
  }

  lemma NewRecordInfo(cfg: Config, d: Damp, lists: seq<seq<Route>>, r: Route, now: int, attrChange: bool)
    requires Good(cfg, d, lists) && r !in d.info
    ensures r in NewRecord(d, r, now, attrChange).info && |lists| == cfg.size + 1
    ensures OthersKept(lists, lists[cfg.size := [r] + lists[cfg.size]], r)
  {
    hide Chains, Placed, OthersKept;
    FiledSize(d.links, d.heads, lists, At(d));
    NotOn(d.links, d.heads, lists, At(d), r, cfg.size);
    PushOthers(lists, cfg.size, r);
  }

  /** So does an update, whether the record is kept, taken off the wheel or freed. */
  lemma UpdateGood(cfg: Config, d: Damp, lists: seq<seq<Route>>, r: Route, now: int)
    returns (lists': seq<seq<Route>>)
    requires Good(cfg, d, lists)
    ensures Good(cfg, Update(cfg, d, r, now).0, lists') && OthersKept(lists, lists', r)
  {
    hide Filed, OthersKept, Unsuppress, Free, Spot;
    lists' := lists;
    OthersKeptRefl(lists, r);
    if r in d.info {
      var p := cfg.decay(now - d.info[r].updated, d.info[r].penalty);
      var e := d.info[r].(last := LastUpdate, penalty := p);
      var n := d.(info := d.info[r := e], history := d.history - {r});
      InfoGood(cfg, d, n, lists, r, e);
      var m := n;
      if r in d.damped && p < cfg.reuse {
        lists' := UnsuppressGood(cfg, n, lists, r);
        UnsuppressHas(n, r);
        m := Unsuppress(n, r);
      }
      if 2 * p > cfg.reuse {
        var e' := m.info[r].(updated := now);
        InfoGood(cfg, m, m.(info := m.info[r := e']), lists', r, e');
      } else {
        var mid := lists';
        FreeGood(cfg, m, mid, r, false);
        lists' := mid[Spot(m, r) := Remove(mid[Spot(m, r)], r)];
        OthersKeptTwice(lists, mid, lists', r);
      }
    }
  }

  lemma UnsuppressHas(d: Damp, r: Route)
    requires r in d.info && r in d.links && 0 <= d.info[r].index < |d.heads|
    ensures r in Unsuppress(d, r).info
    ensures forall x :: x in d.info ==> x in Unsuppress(d, r).info
  {
  }

  /** So does a scan. */
  lemma ScanGood(cfg: Config, d: Damp, lists: seq<seq<Route>>, r: Route, now: int)
    returns (lists': seq<seq<Route>>)
    requires Good(cfg, d, lists) && r in d.info
    ensures Good(cfg, Scan(cfg, d, r, now).0, lists') && OthersKept(lists, lists', r)
  {
    hide Filed, OthersKept, Unsuppress, Free, Spot;
    lists' := lists;
    OthersKeptRefl(lists, r);
    if r in d.damped {
      if now - d.info[r].suppressed >= cfg.maxSuppress {
        lists' := UnsuppressGood(cfg, d, lists, r);
        UnsuppressHas(d, r);
        var m := Unsuppress(d, r);
        var e := m.info[r].(penalty := cfg.reuse, updated := now);
        InfoGood(cfg, m, m.(info := m.info[r := e]), lists', r, e);
      }
    } else {
      var p := cfg.decay(now - d.info[r].updated, d.info[r].penalty);
      var e := d.info[r].(penalty := p);
      var m := d.(info := d.info[r := e]);
      InfoGood(cfg, d, m, lists, r, e);
      if 2 * p <= cfg.reuse {
        FreeGood(cfg, m, lists, r, true);
        lists' := lists[Spot(m, r) := Remove(lists[Spot(m, r)], r)];
      } else {
        var e' := m.info[r].(updated := now);
        InfoGood(cfg, m, m.(info := m.info[r := e']), lists, r, e');
      }
    }
  }
}
