/** Runs of the dampening operations, and what one timer step does to every record. */
module DampRuns {
  import opened Options
  import opened Sequences
  import opened DampLists
  import opened DampSpec
  import opened DampWheel
  import opened DampTimer

  // ---------------------------------------------------------------------
  // One timer step, record by record

  /** A record of the slot after the timer. */
  ghost function Refiled(cfg: Config, d: Damp, e: Rec, now: int): Rec
    requires cfg.size > 0
  {
    var p := Decayed(cfg, e, now);
    if p < cfg.reuse then e.(penalty := p, updated := now, suppressed := 0)
    else e.(penalty := p, updated := now, index := Slot(cfg, d, p))
  }

  /** Each record of the chain is re-filed once, by its own penalty; the others are as they were. */
  ghost predicate RefiledOnce(cfg: Config, d: Damp, chain: seq<Route>, now: int, d': Damp)
    requires cfg.size > 0
  {
    && (forall r :: r !in chain ==> (r in d'.info <==> r in d.info) && (r in d'.damped <==> r in d.damped))
    && (forall r :: r !in chain && r in d.info && r in d'.info ==> d'.info[r] == d.info[r])
    && (forall r :: r in chain && r in d.info ==>
          var p := Decayed(cfg, d.info[r], now);
          && (r in d'.info <==> p >= cfg.reuse || 2 * p > cfg.reuse)
          && (r in d'.info ==> d'.info[r] == Refiled(cfg, d, d.info[r], now))
          && (r in d'.damped <==> p >= cfg.reuse))
    && d'.offset == d.offset
  }

  lemma {:induction false} RefileAllOnce(cfg: Config, d: Damp, chain: seq<Route>, now: int)
    requires Shape(cfg, d) && Listed(d, chain)
    ensures RefiledOnce(cfg, d, chain, now, RefileAll(cfg, d, chain, now))
    decreases |chain|
  {
    hide Refile, Refiled;
    if chain != [] {
      var r := chain[0];
      ListedTail(cfg, d, chain, now);
      RefileOne(cfg, d, r, now);
      var d1 := Refile(cfg, d, r, now);
      RefileAllOnce(cfg, d1, chain[1..], now);
      OnceTwice(cfg, d, d1, chain, now, RefileAll(cfg, d1, chain[1..], now));
    }
  }

  lemma RefileOne(cfg: Config, d: Damp, r: Route, now: int)
    requires Shape(cfg, d) && r in d.info && r in d.damped
    ensures RefiledOnce(cfg, d, [r], now, Refile(cfg, d, r, now))
  {
    hide Push, Cut;
  }

  lemma RefiledOffset(cfg: Config, d: Damp, d1: Damp, e: Rec, now: int)
    requires cfg.size > 0 && d1.offset == d.offset
    ensures Refiled(cfg, d1, e, now) == Refiled(cfg, d, e, now)
  {
  }

  lemma OnceTwice(cfg: Config, d: Damp, d1: Damp, chain: seq<Route>, now: int, d': Damp)
    requires cfg.size > 0 && chain != [] && Listed(d, chain)
    requires RefiledOnce(cfg, d, [chain[0]], now, d1) && RefiledOnce(cfg, d1, chain[1..], now, d')
    ensures RefiledOnce(cfg, d, chain, now, d')
  {
    var r := chain[0];
    assert forall x :: x in chain <==> x == r || x in chain[1..];
    assert r !in chain[1..];
    assert r in [r];
    forall e ensures Refiled(cfg, d1, e, now) == Refiled(cfg, d, e, now) {
      RefiledOffset(cfg, d, d1, e, now);
    }
    hide Refiled, Listed, Distinct;
    forall x | x in chain[1..] && x in d.info ensures x in d1.info && d1.info[x] == d.info[x] {
      assert x !in [r];
    }
  }

  lemma {:induction false} PushAllSuffix(lists: seq<seq<Route>>, fs: seq<Fate>, k: nat)
    requires k < |lists|
    ensures |PushAll(lists, fs)| == |lists|
    ensures |lists[k]| <= |PushAll(lists, fs)[k]|
    ensures PushAll(lists, fs)[k][|PushAll(lists, fs)[k]| - |lists[k]|..] == lists[k]
    decreases |fs|
  {
    if fs != [] {
      var f := fs[0];
      var lists1 := if f.to.Some? && f.to.value < |lists| then lists[f.to.value := [f.r] + lists[f.to.value]] else lists;
      PushAllSuffix(lists1, fs[1..], k);
      var s := PushAll(lists1, fs[1..])[k];
      var n := |s| - |lists1[k]|;
      if lists1[k] != lists[k] {
        assert s[n..][1..] == s[n + 1..];
        assert lists1[k][1..] == lists[k];
      }
    }
  }

  lemma {:induction false} FatesAllKept(cfg: Config, d: Damp, chain: seq<Route>, now: int)
    requires cfg.size > 0 && forall r :: r in chain ==> r in d.info && 2 * Decayed(cfg, d.info[r], now) > cfg.reuse
    ensures AllKept(Fates(cfg, d, chain, now))
  {
    if chain != [] {
      FatesAllKept(cfg, d, chain[1..], now);
    }
  }

  /**
    While every record of the slot stays above half the reuse limit, the timer
    re-files each of them once, in front of what its new list held, and touches
    no other record and no order of the others.
   */
  lemma TimerRefiles(cfg: Config, d: Damp, lists: seq<seq<Route>>, now: int) returns (lists': seq<seq<Route>>)
    requires Good(cfg, d, lists)
    requires d.offset < |lists| && forall r :: r in lists[d.offset] && r in d.info ==> 2 * Decayed(cfg, d.info[r], now) > cfg.reuse
    ensures Shape(cfg, Turn(cfg, d)) && Listed(Turn(cfg, d), lists[d.offset]) && |lists'| == |lists|
    ensures
      var s := lists[d.offset];
      var d' := Timer(cfg, d, s, now);
      && Good(cfg, d', lists')
      && RefiledOnce(cfg, Turn(cfg, d), s, now, d')
    ensures forall k :: 0 <= k < |lists| && k != d.offset ==>
      |lists[k]| <= |lists'[k]| && lists'[k][|lists'[k]| - |lists[k]|..] == lists[k]
  {
    hide Filed, Midway, Fates, Fold, PushAll, Queue, RefiledOnce;
    TurnMidway(cfg, d, lists, now);
    var t, s, off := Turn(cfg, d), lists[d.offset], lists[d.offset := []];
    var fs := Fates(cfg, t, s, now);
    FatesAllKept(cfg, t, s, now);
    RefileAllFold(cfg, t, s, now);
    RefileAllOnce(cfg, t, s, now);
    assert fs[..|fs|] == fs && fs[|fs|..] == [];
    KeptRun(PtrsOf(t), off, AtBut(t, s), fs, None, |fs|);
    lists' := PushAll(off, fs);
    MidwayParts(Fold(PtrsOf(t), fs), lists', AtAfter(AtBut(t, s), fs), [], if fs == [] then None else Some(fs[|fs| - 1].r));
    forall k | 0 <= k < |lists|
      ensures |lists'| == |lists|
      ensures k != d.offset ==> |lists[k]| <= |lists'[k]| && lists'[k][|lists'[k]| - |lists[k]|..] == lists[k]
    {
      PushAllSuffix(off, fs, k);
    }
  }

  // ---------------------------------------------------------------------
  // Records that the timer loses

  /**
    When the whole slot has decayed to half the reuse limit while some record is
    outside the wheel, that record's list is lost.
   */
  lemma TimerLosesList(cfg: Config, d: Damp, lists: seq<seq<Route>>, now: int)
    requires Good(cfg, d, lists) && |lists| == cfg.size + 1 && lists[d.offset] != [] && lists[cfg.size] != []
    requires forall r :: r in lists[d.offset] && r in d.info ==>
      2 * Decayed(cfg, d.info[r], now) <= cfg.reuse && Decayed(cfg, d.info[r], now) < cfg.reuse
    ensures Shape(cfg, Turn(cfg, d)) && Listed(Turn(cfg, d), lists[d.offset])
    ensures !Partition(cfg, Timer(cfg, d, lists[d.offset], now))
  {
    hide Filed, Partition, Timer;
    TimerPartitionIff(cfg, d, lists, now);
    var t, s := Turn(cfg, d), lists[d.offset];
    FatesAllFreed(cfg, t, s, now);
    var fs := Fates(cfg, t, s, now);
    assert fs[0].to.None?;
    assert FirstFreed(fs) == 0;
    assert lists[d.offset := []][cfg.size] == lists[cfg.size];
  }

  lemma {:induction false} FatesAllFreed(cfg: Config, d: Damp, chain: seq<Route>, now: int)
    requires cfg.size > 0
    requires forall r :: r in chain ==>
      r in d.info && 2 * Decayed(cfg, d.info[r], now) <= cfg.reuse && Decayed(cfg, d.info[r], now) < cfg.reuse
    ensures AllFreed(Fates(cfg, d, chain, now)) && |Fates(cfg, d, chain, now)| == |chain|
  {
    if chain != [] {
      FatesAllFreed(cfg, d, chain[1..], now);
    }
  }

  // ---------------------------------------------------------------------
  // Runs

  /** `bgp_damp_info_clean`: every record is freed. */
  ghost function Cleaned(cfg: Config, d: Damp): Damp {
    Damp(map[], map[], seq(cfg.size + 1, i => None), 0, {}, d.history - d.info.Keys,
         d.deleted + set r | r in d.info && d.info[r].last == LastWithdraw)
  }

  ghost function Empty(cfg: Config): Damp {
    Damp(map[], map[], seq(cfg.size + 1, i => None), 0, {}, {}, {})
  }

  lemma NothingGood(cfg: Config, d: Damp)
    requires cfg.size > 0 && d.info == map[] && d.links == map[] && d.damped == {} && d.offset == 0
    requires d.heads == seq(cfg.size + 1, i => None)
    ensures Good(cfg, d, seq(cfg.size + 1, i => []))
  {
    var lists: seq<seq<Route>> := seq(cfg.size + 1, i => []);
    forall k | 0 <= k < |lists| ensures Chain(d.links, d.heads[k], lists[k]) {
    }
  }

  datatype DampOp =
    | OpWithdraw(route: Route, now: int, attrChange: bool)
    | OpUpdate(route: Route, now: int)
    | OpScan(route: Route, now: int)
    | OpTimer(now: int)
    | OpClean

  /** One operation; a timer step is one that does not break the lists. */
  ghost predicate Moves(cfg: Config, d: Damp, op: DampOp, d': Damp) {
    && Shape(cfg, d)
    && match op
       case OpWithdraw(r, now, attrChange) => d' == Withdraw(cfg, d, r, now, attrChange).0
       case OpUpdate(r, now) => d' == Update(cfg, d, r, now).0
       case OpScan(r, now) => r in d.info && d' == Scan(cfg, d, r, now).0
       case OpTimer(now) => exists lists :: Good(cfg, d, lists) && Turns(cfg, d, lists, now, d')
       case OpClean => d' == Cleaned(cfg, d)
  }

  ghost predicate Turns(cfg: Config, d: Damp, lists: seq<seq<Route>>, now: int, d': Damp)
    requires Good(cfg, d, lists)
  {
    && |lists| == cfg.size + 1
    && Shape(cfg, Turn(cfg, d)) && Listed(Turn(cfg, d), lists[d.offset])
    && Harmless(lists[d.offset := []], Fates(cfg, Turn(cfg, d), lists[d.offset], now))
    && d' == Timer(cfg, d, lists[d.offset], now)
  }

  lemma MovesPartition(cfg: Config, d: Damp, op: DampOp, d': Damp)
    requires Partition(cfg, d) && Moves(cfg, d, op, d')
    ensures Partition(cfg, d')
  {
    hide Filed, Withdraw, Update, Scan, OthersKept, Harmless, Timer;
    var lists :| Good(cfg, d, lists);
    match op
    case OpWithdraw(r, now, attrChange) =>
      var lists' := WithdrawGood(cfg, d, lists, r, now, attrChange);
    case OpUpdate(r, now) =>
      var lists' := UpdateGood(cfg, d, lists, r, now);
    case OpScan(r, now) =>
      var lists' := ScanGood(cfg, d, lists, r, now);
    case OpTimer(now) =>
      var ls :| Good(cfg, d, ls) && Turns(cfg, d, ls, now, d');
      TimerPartitionIff(cfg, d, ls, now);
    case OpClean =>
      NothingGood(cfg, d');
  }

  ghost predicate IsRun(cfg: Config, ops: seq<DampOp>, ds: seq<Damp>) {
    && cfg.size > 0 && |ds| == |ops| + 1 && ds[0] == Empty(cfg)
    && forall i :: 0 <= i < |ops| ==> Moves(cfg, ds[i], ops[i], ds[i + 1])
  }

  /** In every state of every run each record is on exactly the list its flag and index name. */
  lemma {:induction false} RunPartition(cfg: Config, ops: seq<DampOp>, ds: seq<Damp>, n: nat)
    requires IsRun(cfg, ops, ds) && n < |ds|
    ensures Partition(cfg, ds[n])
  {
    if n == 0 {
      NothingGood(cfg, ds[0]);
    } else {
      RunPartition(cfg, ops, ds, n - 1);
      hide Partition;
      MovesPartition(cfg, ds[n - 1], ops[n - 1], ds[n]);
    }
  }

  /** A record is suppressed if and only if it is on the wheel, in every state of every run. */
  lemma DampedOnWheel(cfg: Config, ops: seq<DampOp>, ds: seq<Damp>, n: nat, r: Route) returns (lists: seq<seq<Route>>)
    requires IsRun(cfg, ops, ds) && n < |ds| && r in ds[n].info
    ensures Good(cfg, ds[n], lists) && |lists| == cfg.size + 1
    ensures forall k :: 0 <= k < |lists| ==> (r in lists[k] <==>
      if r in ds[n].damped then k == ds[n].info[r].index else k == cfg.size)
  {
    RunPartition(cfg, ops, ds, n);
    lists :| Good(cfg, ds[n], lists);
    FiledSize(ds[n].links, ds[n].heads, lists, At(ds[n]));
    hide Chains, IsRun;
    assert r in At(ds[n]);
    assert lists[At(ds[n])[r]] == lists[Spot(ds[n], r)];
  }

  /** Limits under which one withdrawal suppresses a route, and any time forgets a penalty. */
  const Hasty := Config(1000, 750, 12000, 3600, 1, (t: int, p: nat) => if t <= 0 then p else 0, (p: nat) => 0)

  /** A route withdrawn and suppressed. */
  const OneFlap := Rec(1000, 1, 0, 0, 0, 0, LastWithdraw)

  const FlappedOnce :=
    Damp(map[1 := OneFlap], map[1 := Link(None, None)], [Some(1), None], 0, {1}, {1}, {})

  /** The same, and another route charged half as much, which is not suppressed. */
  const FlappedTwice :=
    Damp(map[1 := OneFlap, 2 := OneFlap.(penalty := 500, index := -1)],
         map[1 := Link(None, None), 2 := Link(None, None)], [Some(1), Some(2)], 0, {1}, {1, 2}, {})

  lemma {:induction false} FirstFlap()
    ensures Shape(Hasty, Empty(Hasty)) && Withdraw(Hasty, Empty(Hasty), 1, 0, false).0 == FlappedOnce
  {
    var d := Empty(Hasty);
    var n := NewRecord(d, 1, 0, false);
    assert n.heads == [None, Some(1)] && n.links == map[1 := Link(None, None)];
    var (m, last) := Charged(Hasty, d, 1, 0, false);
    assert m.info[1].penalty == 1000 && m.heads == n.heads && m.links == n.links;
    var c := CutFrom(m, 1, 1);
    assert c.heads == [None, None];
  }

  lemma {:induction false} SecondFlap()
    ensures Shape(Hasty, FlappedOnce) && Withdraw(Hasty, FlappedOnce, 2, 0, true).0 == FlappedTwice
  {
    var n := NewRecord(FlappedOnce, 2, 0, true);
    assert n.heads == [Some(1), Some(2)];
  }

  /**
    Such a loss ends a run: one route withdrawn and suppressed, another
    withdrawn for a change of attributes and not suppressed, and the timer
    that forgets the first loses the list of the second.
   */
  lemma {:induction false} TimerLosesListExample() returns (ops: seq<DampOp>, ds: seq<Damp>, lists: seq<seq<Route>>)
    ensures ops == [OpWithdraw(1, 0, false), OpWithdraw(2, 0, true)] && IsRun(Hasty, ops, ds)
    ensures Good(Hasty, ds[2], lists) && lists == [[1], [2]] && ds[2].offset == 0
    ensures Shape(Hasty, Turn(Hasty, ds[2])) && Listed(Turn(Hasty, ds[2]), [1])
    ensures !Partition(Hasty, Timer(Hasty, ds[2], [1], 100))
  {
    FirstFlap();
    SecondFlap();
    FlappedGood();
    hide Withdraw, Good, Shape;
    ops := [OpWithdraw(1, 0, false), OpWithdraw(2, 0, true)];
    ds := [Empty(Hasty), FlappedOnce, FlappedTwice];
    lists := [[1], [2]];
    TimerLosesList(Hasty, FlappedTwice, lists, 100);
  }

  lemma {:induction false} FlappedGood()
    ensures Good(Hasty, FlappedTwice, [[1], [2]])
  {
    var d := FlappedTwice;
    var lists := [[1], [2]];
    assert lists[0] == [1] && lists[1] == [2];
    assert At(d) == map[1 := 0, 2 := 1];
    assert Chain(d.links, d.heads[0], lists[0]) && Chain(d.links, d.heads[1], lists[1]);
  }

  // ---------------------------------------------------------------------
  // When routes are suppressed

  /** Why a route stops being suppressed. */
  ghost predicate Released(cfg: Config, d: Damp, op: DampOp, r: Route)
    requires r in d.info
  {
    match op
    case OpWithdraw(q, now, attrChange) => false
    case OpUpdate(q, now) => q == r && (Decayed(cfg, d.info[r], now) < cfg.reuse || 2 * Decayed(cfg, d.info[r], now) <= cfg.reuse)
    case OpScan(q, now) => q == r && now - d.info[r].suppressed >= cfg.maxSuppress
    case OpTimer(now) => d.info[r].index == d.offset && Decayed(cfg, d.info[r], now) < cfg.reuse
    case OpClean => true
  }

  /** Why a route starts being suppressed: its own withdrawal, at a penalty of the suppress value or more. */
  ghost predicate Suppressing(cfg: Config, op: DampOp, d': Damp, r: Route) {
    op.OpWithdraw? && op.route == r && r in d'.info && d'.info[r].penalty >= cfg.suppress
  }

  /**
    A route is suppressed only by a withdrawal that takes its penalty to the
    suppress value, and released only by a penalty that has decayed below the
    reuse limit, by its maximum suppress time, or by cleaning.
   */
  lemma SuppressionChanges(cfg: Config, d: Damp, op: DampOp, d': Damp, r: Route)
    requires Partition(cfg, d) && Moves(cfg, d, op, d')
    ensures r !in d.damped && r in d'.damped ==> Suppressing(cfg, op, d', r)
    ensures r in d.damped && r !in d'.damped ==> Released(cfg, d, op, r)
  {
    hide Push, Cut, Slot;
    match op
    case OpWithdraw(q, now, attrChange) =>
      WithdrawDamped(cfg, d, q, now, attrChange);
    case OpUpdate(q, now) =>
      UpdateDamped(cfg, d, q, now);
    case OpScan(q, now) =>
    case OpTimer(now) =>
      TimerDamped(cfg, d, now, d', r);
    case OpClean =>
  }

  lemma WithdrawDamped(cfg: Config, d: Damp, q: Route, now: int, attrChange: bool)
    requires Shape(cfg, d)
    ensures
      var d' := Withdraw(cfg, d, q, now, attrChange).0;
      && q in d'.info
      && d'.damped == (if q in d.damped || d'.info[q].penalty >= cfg.suppress then d.damped + {q} else d.damped)
      && (q in d.info ==> d'.info[q].penalty <= cfg.ceiling && d'.info[q].flap == d.info[q].flap + 1)
  {
    hide Push, Cut, Slot;
    var n := Charged(cfg, d, q, now, attrChange).0;
    assert n.damped == d.damped;
  }

  lemma UpdateDamped(cfg: Config, d: Damp, q: Route, now: int)
    requires Shape(cfg, d)
    ensures
      var d' := Update(cfg, d, q, now).0;
      && d'.damped <= d.damped <= d'.damped + {q}
      && (q in d.damped && q !in d'.damped ==>
            Decayed(cfg, d.info[q], now) < cfg.reuse || 2 * Decayed(cfg, d.info[q], now) <= cfg.reuse)
  {
    hide Push, Cut, Slot;
  }

  lemma TimerDamped(cfg: Config, d: Damp, now: int, d': Damp, r: Route)
    requires Moves(cfg, d, OpTimer(now), d')
    ensures r !in d.damped ==> r !in d'.damped
    ensures r in d.damped && r !in d'.damped ==> d.info[r].index == d.offset && Decayed(cfg, d.info[r], now) < cfg.reuse
  {
    var lists :| Good(cfg, d, lists) && Turns(cfg, d, lists, now, d');
    SlotListed(cfg, d, lists);
    var t, s := Turn(cfg, d), lists[d.offset];
    hide Good, Harmless, Fates;
    RefileAllOnce(cfg, t, s, now);
    hide RefileAll, Refiled;
    assert r in s ==> r in d.damped;
  }
}
