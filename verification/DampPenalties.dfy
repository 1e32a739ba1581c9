/**
  Penalties in the figures of sections 4.8.2 and 4.8.7 of RFC 2439: what every
  operation makes of a route's record, and how many withdrawals suppress a route.
 */
module DampPenalties {
  import opened Options
  import opened Sequences
  import opened DampLists
  import opened DampSpec
  import opened DampTimer
  import opened DampRuns

  /** Other routes keep their records, flags and places in time. */
  ghost predicate OthersSame(d: Damp, d': Damp, r: Route) {
    && d'.offset == d.offset
    && (forall x :: x != r ==> (x in d'.info <==> x in d.info) && (x in d.info ==> d'.info[x] == d.info[x]))
    && (forall x :: x != r ==> (x in d'.damped <==> x in d.damped) && (x in d'.history <==> x in d.history) && (x in d'.deleted <==> x in d.deleted))
  }

  /** The slot of a penalty, counted from the current one around the wheel. */
  ghost function SlotOf(cfg: Config, d: Damp, penalty: nat): nat
    requires cfg.size > 0
  {
    (d.offset + cfg.steps(penalty)) % cfg.size
  }

  // ---------------------------------------------------------------------
  // Withdrawal

  /**
    The penalty after a withdrawal: 1000, or 500 for a change of attributes, on
    top of what is left of the old penalty and no more than the ceiling; for a
    route without a record the charge alone.
   */
  ghost function PenaltyAfter(cfg: Config, d: Damp, r: Route, now: int, attrChange: bool): nat {
    var charge := if attrChange then 500 else 1000;
    if r !in d.info then charge
    else
      var p := cfg.decay(now - d.info[r].updated, d.info[r].penalty) + charge;
      if p < cfg.ceiling then p else cfg.ceiling
  }

  lemma {:induction false} WithdrawRecord(cfg: Config, d: Damp, r: Route, now: int, attrChange: bool)
    requires Shape(cfg, d)
    ensures
      var (d', status) := Withdraw(cfg, d, r, now, attrChange);
      var p := PenaltyAfter(cfg, d, r, now, attrChange);
      var starts := r !in d.damped && p >= cfg.suppress;
      && OthersSame(d, d', r) && d'.deleted == d.deleted
      && r in d'.info && r in d'.history
      && (r in d'.damped <==> r in d.damped || starts)
      && status == (if r in d.damped then Suppressed else Used)
      && var e := d'.info[r];
         && e.penalty == p && e.updated == now && e.last == LastWithdraw
         && e.flap == (if r in d.info then d.info[r].flap + 1 else 1)
         && e.start == (if r in d.info then d.info[r].start else now)
         && e.suppressed == (if starts then now else if r in d.info then d.info[r].suppressed else 0)
         && (r in d.info && (if r in d.damped then p == d.info[r].penalty else !starts) ==> e.index == d.info[r].index)
         && (starts || (r in d.damped && p != d.info[r].penalty) ==> e.index == SlotOf(cfg, d, p))
  {
    hide Withdrawn, Charged;
    var (n, last) := Charged(cfg, d, r, now, attrChange);
    ChargedRecord(cfg, d, r, now, attrChange);
    WithdrawnRecord(cfg, n, r, now, last);
  }

  /** First the record is charged. */
  lemma {:induction false} ChargedRecord(cfg: Config, d: Damp, r: Route, now: int, attrChange: bool)
    requires Shape(cfg, d)
    ensures
      var (n, last) := Charged(cfg, d, r, now, attrChange);
      && OthersSame(d, n, r) && n.deleted == d.deleted && n.damped == d.damped
      && r in n.info && r in n.history
      && last == (if r in d.info then d.info[r].penalty else 0)
      && n.info[r] ==
           (if r in d.info then
              d.info[r].(penalty := PenaltyAfter(cfg, d, r, now, attrChange), flap := d.info[r].flap + 1, last := LastWithdraw, updated := now)
            else Rec(PenaltyAfter(cfg, d, r, now, attrChange), 1, now, now, 0, -1, LastWithdraw))
  {
    hide Push;
  }

  /** Then its place is found. */
  lemma {:induction false} WithdrawnRecord(cfg: Config, d: Damp, r: Route, now: int, last: nat)
    requires Shape(cfg, d) && r in d.info
    ensures
      var (d', status) := Withdrawn(cfg, d, r, now, last);
      var p := d.info[r].penalty;
      var starts := r !in d.damped && p >= cfg.suppress;
      && OthersSame(d, d', r) && d'.deleted == d.deleted && d'.history == d.history && r in d'.info
      && (r in d'.damped <==> r in d.damped || starts)
      && status == (if r in d.damped then Suppressed else Used)
      && d'.info[r] ==
           (if starts then d.info[r].(suppressed := now, index := SlotOf(cfg, d, p))
            else if r in d.damped && p != last then d.info[r].(index := SlotOf(cfg, d, p))
            else d.info[r])
  {
    hide Push, Cut;
  }

  // ---------------------------------------------------------------------
  // Announcement, scan and timer

  /**
    An announcement: the penalty has decayed; a suppressed route is used again
    below the reuse limit; a record at half that limit or less is forgotten.
   */
  lemma {:induction false} UpdateRecord(cfg: Config, d: Damp, r: Route, now: int)
    requires Shape(cfg, d)
    ensures
      var (d', status) := Update(cfg, d, r, now);
      OthersSame(d, d', r) && (r !in d.info ==> d' == d && status == Used)
    ensures r in d.info ==>
      var (d', status) := Update(cfg, d, r, now);
      var p := cfg.decay(now - d.info[r].updated, d.info[r].penalty);
      && d'.deleted == d.deleted && r !in d'.history
      && (status == Used <==> if r in d.damped then p < cfg.reuse else p < cfg.suppress)
      && (r in d'.info <==> 2 * p > cfg.reuse)
      && (r in d'.damped <==> r in d.damped && p >= cfg.reuse && 2 * p > cfg.reuse)
      && (r in d'.info ==>
            d'.info[r] == d.info[r].(penalty := p, last := LastUpdate, updated := now,
                                     suppressed := if r in d.damped && p < cfg.reuse then 0 else d.info[r].suppressed))
  {
    hide Push, Cut;
  }

  /**
    A scan: a suppressed route is released after the maximum time with the reuse
    limit as its penalty; another one's penalty decays, and at half the reuse limit
    or less its record is forgotten, a withdrawn route with it.
   */
  lemma {:induction false} ScanRecord(cfg: Config, d: Damp, r: Route, now: int)
    requires Shape(cfg, d) && r in d.info
    ensures
      var (d', announce) := Scan(cfg, d, r, now);
      var e := d.info[r];
      var p := cfg.decay(now - e.updated, e.penalty);
      var over := now - e.suppressed >= cfg.maxSuppress;
      && OthersSame(d, d', r)
      && (announce <==> r in d.damped && over && e.last == LastUpdate)
      && (r in d.damped ==>
            && r in d'.info && (r in d'.damped <==> !over)
            && d'.info[r] == if over then e.(penalty := cfg.reuse, suppressed := 0, updated := now) else e)
      && (r !in d.damped ==>
            && r !in d'.damped && (r in d'.info <==> 2 * p > cfg.reuse)
            && (r in d'.info ==> d'.info[r] == e.(penalty := p, updated := now)))
      && (r in d'.deleted <==> r in d.deleted || (r !in d'.info && e.last == LastWithdraw))
  {
    hide Push, Cut;
  }

  /**
    The timer on one record of its slot: below the reuse limit the route is used
    again, and forgotten at half of it or less; else it waits in the slot of its
    decayed penalty.
   */
  lemma {:induction false} TimerRecord(cfg: Config, d: Damp, r: Route, now: int)
    requires Shape(cfg, d) && r in d.damped
    ensures
      var d' := Refile(cfg, d, r, now);
      var e := d.info[r];
      var p := cfg.decay(now - e.updated, e.penalty);
      && OthersSame(d, d', r)
      && (r in d'.damped <==> p >= cfg.reuse)
      && (r in d'.info <==> p >= cfg.reuse || 2 * p > cfg.reuse)
      && (r in d'.info ==>
            d'.info[r] == if p >= cfg.reuse then e.(penalty := p, updated := now, index := SlotOf(cfg, d, p))
                          else e.(penalty := p, updated := now, suppressed := 0))
      && (r in d'.deleted <==> r in d.deleted || (r !in d'.info && e.last == LastWithdraw))
      && (r in d'.history <==> r in d.history && r in d'.info && !(p < cfg.reuse && e.last == LastUpdate))
  {
    hide Push, Cut;
  }

  /** What the timer has made of a record `e` of its slot, with the wheel at `offset`. */
  ghost predicate TimedOut(cfg: Config, e: Rec, offset: nat, d': Damp, r: Route, now: int)
    requires cfg.size > 0
  {
    var p := cfg.decay(now - e.updated, e.penalty);
    && (r in d'.damped <==> p >= cfg.reuse)
    && (r in d'.info <==> p >= cfg.reuse || 2 * p > cfg.reuse)
    && (r in d'.info ==> d'.info[r].penalty == p && d'.info[r].updated == now)
    && (r in d'.info && p >= cfg.reuse ==> d'.info[r].index == (offset + cfg.steps(p)) % cfg.size)
  }

  /** Records that are not in the slot stay as they are. */
  ghost predicate Untouched(d: Damp, d': Damp, s: seq<Route>) {
    && (forall x :: x !in s ==> (x in d'.info <==> x in d.info) && (x in d.info ==> d'.info[x] == d.info[x]))
    && (forall x :: x !in s ==> (x in d'.damped <==> x in d.damped))
  }

  /**
    The timer turns the wheel by one slot and re-files, releases or forgets every
    record of the slot it was at; all other records stay as they are.
   */
  lemma {:induction false} TimerMeans(cfg: Config, d: Damp, s: seq<Route>, now: int)
    requires Shape(cfg, d) && Shape(cfg, Turn(cfg, d)) && Listed(Turn(cfg, d), s)
    ensures
      var d' := Timer(cfg, d, s, now);
      && d'.offset == (d.offset + 1) % cfg.size && Untouched(d, d', s)
      && forall r :: r in s ==> r in d.info && TimedOut(cfg, d.info[r], d'.offset, d', r, now)
  {
    hide RefileAll, Listed, TimedOut;
    WalkMeans(cfg, Turn(cfg, d), s, now);
    assert Turn(cfg, d).info == d.info;
  }

  lemma {:induction false} OneTimedOut(cfg: Config, d: Damp, r: Route, now: int)
    requires Shape(cfg, d) && r in d.damped
    ensures
      var d' := Refile(cfg, d, r, now);
      && TimedOut(cfg, d.info[r], d.offset, d', r, now) && Untouched(d, d', [r]) && d'.offset == d.offset
  {
    hide Refile;
    TimerRecord(cfg, d, r, now);
  }

  lemma {:induction false} WalkMeans(cfg: Config, d: Damp, s: seq<Route>, now: int)
    requires Shape(cfg, d) && Listed(d, s)
    ensures
      var d' := RefileAll(cfg, d, s, now);
      && d'.offset == d.offset && Untouched(d, d', s)
      && forall r :: r in s ==> r in d.info && TimedOut(cfg, d.info[r], d.offset, d', r, now)
    decreases |s|
  {
    if s != [] {
      var r, t := s[0], s[1..];
      ListedTail(cfg, d, s, now);
      assert s == [r] + t && r !in t;
      OneTimedOut(cfg, d, r, now);
      WalkMeans(cfg, Refile(cfg, d, r, now), t, now);
      WalkOne(cfg, d, Refile(cfg, d, r, now), RefileAll(cfg, d, s, now), r, t, now);
    }
  }

  lemma {:induction false} WalkOne(cfg: Config, d: Damp, m: Damp, d': Damp, r: Route, t: seq<Route>, now: int)
    requires cfg.size > 0 && r !in t && r in d.info && Untouched(d, m, [r]) && Untouched(m, d', t)
    requires m.offset == d.offset && TimedOut(cfg, d.info[r], d.offset, m, r, now)
    requires forall x :: x in t ==> x in m.info && TimedOut(cfg, m.info[x], d.offset, d', x, now)
    ensures Untouched(d, d', [r] + t)
    ensures forall x :: x in [r] + t ==> x in d.info && TimedOut(cfg, d.info[x], d.offset, d', x, now)
  {
    forall x | x in [r] + t ensures x in d.info && TimedOut(cfg, d.info[x], d.offset, d', x, now) {
      if x == r {
        assert x !in t;
      } else {
        assert x in t && x !in [r];
      }
    }
  }

  // ---------------------------------------------------------------------
  // Enough withdrawals

  /** No time passes that would make a penalty smaller. */
  ghost predicate KeepsPenalties(cfg: Config) {
    forall t, p :: cfg.decay(t, p) == p
  }

  ghost predicate Flaps(ops: seq<DampOp>, r: Route, i: nat, n: nat) {
    i + n <= |ops| && forall k :: i <= k < i + n ==> ops[k].OpWithdraw? && ops[k].route == r
  }

  lemma {:induction false} RunStep(cfg: Config, ops: seq<DampOp>, ds: seq<Damp>, i: nat, r: Route)
    requires IsRun(cfg, ops, ds) && Flaps(ops, r, i, 1)
    ensures Shape(cfg, ds[i]) && ds[i + 1] == Withdraw(cfg, ds[i], r, ops[i].now, ops[i].attrChange).0
  {
    hide Withdraw;
    assert ops[i].OpWithdraw? && ops[i].route == r;
    assert Moves(cfg, ds[i], ops[i], ds[i + 1]);
  }

  /** Every withdrawal in a row adds 500 at least, until the ceiling is reached. */
  lemma {:induction false} FlapsGrow(cfg: Config, ops: seq<DampOp>, ds: seq<Damp>, i: nat, n: nat, r: Route)
    requires IsRun(cfg, ops, ds) && Flaps(ops, r, i, n) && n > 0 && KeepsPenalties(cfg)
    ensures r in ds[i + n].info
    ensures ds[i + n].info[r].penalty >= 500 * n || ds[i + n].info[r].penalty >= cfg.ceiling
    ensures ds[i + n].info[r].penalty >= cfg.suppress ==> r in ds[i + n].damped
  {
    hide Withdraw, Moves;
    if n > 1 {
      FlapsGrow(cfg, ops, ds, i, n - 1, r);
    }
    assert Flaps(ops, r, i + n - 1, 1);
    RunStep(cfg, ops, ds, i + n - 1, r);
    WithdrawRecord(cfg, ds[i + n - 1], r, ops[i + n - 1].now, ops[i + n - 1].attrChange);
  }

  /** Enough withdrawals in a row suppress the route, for a suppress value within the ceiling. */
  lemma {:induction false} EnoughWithdrawals(cfg: Config, ops: seq<DampOp>, ds: seq<Damp>, i: nat, n: nat, r: Route)
    requires IsRun(cfg, ops, ds) && Flaps(ops, r, i, n) && n > 0 && KeepsPenalties(cfg)
    requires cfg.suppress <= cfg.ceiling && cfg.suppress <= 500 * n
    ensures r in ds[i + n].damped
  {
    hide IsRun;
    FlapsGrow(cfg, ops, ds, i, n, r);
  }

  /** The penalty of a route that was withdrawn, not changed, so many times. */
  ghost function FullPenalty(cfg: Config, n: nat): nat {
    if n == 1 then 1000 else if 1000 * n < cfg.ceiling then 1000 * n else cfg.ceiling
  }

  ghost predicate FullFlaps(ops: seq<DampOp>, r: Route, n: nat) {
    Flaps(ops, r, 0, n) && forall k :: 0 <= k < n ==> !ops[k].attrChange
  }

  lemma {:induction false} FlapsCount(cfg: Config, ops: seq<DampOp>, ds: seq<Damp>, n: nat, r: Route)
    requires IsRun(cfg, ops, ds) && FullFlaps(ops, r, n) && KeepsPenalties(cfg) && cfg.suppress <= cfg.ceiling
    ensures r in ds[n].info <==> n > 0
    ensures n > 0 ==> ds[n].info[r].penalty == FullPenalty(cfg, n) && ds[n].info[r].flap == n
    ensures r in ds[n].damped <==> n > 0 && cfg.suppress <= 1000 * n
  {
    hide Withdraw;
    if n > 0 {
      assert ops[n - 1].OpWithdraw? && !ops[n - 1].attrChange;
      FlapsCount(cfg, ops, ds, n - 1, r);
      assert Flaps(ops, r, n - 1, 1);
      RunStep(cfg, ops, ds, n - 1, r);
      WithdrawRecord(cfg, ds[n - 1], r, ops[n - 1].now, false);
    }
  }
}
