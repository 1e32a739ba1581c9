/** What holds in every run of the session state machine. */
module FsmRuns {
  import opened FsmSpec

  // ---------------------------------------------------------------------
  // The completion token

  ghost function Completions(events: seq<Event>): nat {
    if events == [] then 0 else (if events[0] == ClearingCompleted then 1 else 0) + Completions(events[1..])
  }

  lemma {:induction false} CompletionsSnoc(events: seq<Event>, e: Event)
    ensures Completions(events + [e]) == Completions(events) + if e == ClearingCompleted then 1 else 0
  {
    if events == [] {
      assert events + [e] == [e];
    } else {
      assert (events + [e])[0] == events[0] && (events + [e])[1..] == events[1..] + [e];
      CompletionsSnoc(events[1..], e);
    }
  }

  lemma {:induction false} CompletionsIn(events: seq<Event>)
    ensures Completions(events) > 0 <==> ClearingCompleted in events
  {
    if events != [] {
      CompletionsIn(events[1..]);
    }
  }

  /** A completion to come: posted already, or owed by the scheduled clear queue. */
  ghost function Tokens(p: Peer): nat {
    Completions(p.pending) + if p.clearing then 1 else 0
  }

  /** One completion is under way exactly while the peer is in Clearing. */
  ghost predicate Inv(p: Peer) {
    && p.status != Deleted
    && Tokens(p) == (if p.status == Clearing then 1 else 0)
    && 1 <= p.vStart <= START_TIMER_MAX
  }

  /** Steps other than clearing the routes of a single address family. */
  ghost predicate Quiet(s: Step) {
    !(s.ClearFamily? && s.queued)
  }

  /** The state when `e` is handled: its own token, if it is the completion, is already taken off the queue. */
  ghost predicate Handling(p: Peer, e: Event) {
    && p.status != Deleted
    && Tokens(p) + (if e == ClearingCompleted then 1 else 0) == (if p.status == Clearing then 1 else 0)
    && 1 <= p.vStart <= START_TIMER_MAX
  }

  lemma StopTokens(c: Config, p: Peer)
    ensures Tokens(StopPeer(c, p)) == if p.status == Clearing then Tokens(p) else if p.clearing then 1 else 0
  {
  }

  lemma EventAddTokens(p: Peer, e: Event)
    requires p.status != Deleted
    ensures Tokens(EventAdd(p, e)) == Tokens(p) + if e == ClearingCompleted then 1 else 0
  {
    CompletionsSnoc(p.pending, e);
  }

  /** What the table says about events other than the completion, outside Clearing. */
  lemma TableFacts(s: Status, e: Event)
    requires s != Deleted && s != Clearing && e != ClearingCompleted
    ensures var (h, next) := Table(s, e);
            && h != ClearingDone && next != Deleted
            && (h == Establish ==> next == Established)
            && (next == Clearing ==> s == Established)
            && (s == Established ==> next in {Established, Clearing} && h in EstablishedHandlers)
  {
  }

  /** Handlers that appear in the Established row for events other than the completion. */
  const EstablishedHandlers: set<Handler> :=
    {Ignore, Stop, HoldtimeExpire, KeepaliveExpire, Keepalive, Update, StopWithError}

  lemma {:induction false} StartTokens(c: Config, p: Peer, env: Env)
    requires p.status != Deleted
    ensures
      var q := StartPeer(c, p, env).peer;
      Tokens(q) == Tokens(p) && q.vStart == p.vStart && q.status == p.status
  {
    hide Tokens;
    EventAddTokens(p, TcpOpenFailed);
    EventAddTokens(p, TcpOpen);
  }

  /** What a handler leaves behind, outside Clearing: no completion under way. */
  lemma HandleTokens(h: Handler, c: Config, p: Peer, env: Env)
    requires p.status != Deleted && p.status != Clearing && h != ClearingDone
    requires Tokens(p) == 0 && 1 <= p.vStart <= START_TIMER_MAX
    ensures var r := Handle(h, c, p, env);
            && Tokens(r.peer) == 0
            && 1 <= r.peer.vStart <= START_TIMER_MAX
            && r.peer.status == (if h == Establish then Established else p.status)
  {
    hide Tokens, StartPeer;
    StopTokens(c, p);
    NoTokens(p);
    var v := p.(vStart := Backoff(p.vStart));
    assert Tokens(v) == Tokens(p) by { SameTokens(p, v); }
    match h
    case Start =>
      StartTokens(c, p, env);
    case Reconnect =>
      StartTokens(c, StopPeer(c, p), env);
    case ConnectSuccess =>
      EventAddTokens(v, BgpStop);
      EventAddTokens(p, TcpFatalError);
    case HoldtimeExpire | EventError =>
      var n := NotifySend(p, env.notifyWritten);
      StopTokens(c, n.(vStart := BGP_INIT_START_TIMER));
      assert !n.clearing;
    case StopWithError => StopTokens(c, v);
    case Establish => SameTokens(p, Handle(h, c, p, env).peer);
    case Open | Keepalive | Update => SameTokens(p, p.(tHoldtime := false));
    case _ =>
  }

  /** No handler brings the hold time down to zero. */
  lemma HandleHold(h: Handler, c: Config, p: Peer, env: Env)
    requires p.vHoldtime > 0 && c.holdtime > 0
    ensures Handle(h, c, p, env).peer.vHoldtime > 0
  {
    hide Backoff;
  }

  lemma SameTokens(p: Peer, q: Peer)
    requires p.pending == q.pending && p.clearing == q.clearing
    ensures Tokens(p) == Tokens(q)
  {
  }

  lemma NoTokens(p: Peer)
    requires Tokens(p) == 0
    ensures !p.clearing
  {
  }

  /** In Clearing, events leave the token alone, and the completion uses it up. */
  lemma ClearingInv(c: Config, p: Peer, e: Event, env: Env)
    requires Handling(p, e) && p.status == Clearing
    ensures Inv(EventUpdate(c, p, e, env))
  {
    hide Tokens;
    var q := EventUpdate(c, p, e, env);
    if e == BgpStart {
      SameTokens(p, q);
    } else if e == ClearingCompleted {
      NoTokens(p);
      assert q.pending == [] && !q.clearing;
      EmptyTokens(q);
    } else {
      SameTokens(p, q);
    }
  }

  lemma EmptyTokens(p: Peer)
    requires p.pending == [] && !p.clearing
    ensures Tokens(p) == 0
  {
  }

  lemma EventUpdateInv(c: Config, p: Peer, e: Event, env: Env)
    requires Handling(p, e)
    ensures Inv(EventUpdate(c, p, e, env))
  {
    if p.status == Clearing {
      ClearingInv(c, p, e, env);
    } else {
      TableFacts(p.status, e);
      var (h, next) := Table(p.status, e);
      HandleTokens(h, c, p, env);
      hide Table, Handle, Tokens, TimerSet, ChangeStatus;
      var r := Handle(h, c, p, env);
      NoTokens(r.peer);
      if !r.ok {
        StopTokens(c, r.peer);
        Settled(c, StopPeer(c, r.peer), Idle, env.hasRoutes);
      } else if next != r.peer.status {
        Settled(c, r.peer, next, env.hasRoutes);
      } else {
        TimerSetTokens(c, r.peer);
      }
    }
  }

  lemma TimerSetTokens(c: Config, p: Peer)
    ensures Tokens(TimerSet(c, p)) == Tokens(p)
    ensures TimerSet(c, p).status == p.status && TimerSet(c, p).vStart == p.vStart
  {
    SameTokens(p, TimerSet(c, p));
  }

  /** Changing status with no completion under way: one starts exactly on entering Clearing. */
  lemma Settled(c: Config, p: Peer, next: Status, hasRoutes: bool)
    requires Tokens(p) == 0 && 1 <= p.vStart <= START_TIMER_MAX
    requires next != Deleted && p.status != Deleted
    ensures Inv(TimerSet(c, ChangeStatus(p, next, hasRoutes)))
  {
    NoTokens(p);
    TimerSetTokens(c, ChangeStatus(p, next, hasRoutes));
    hide TimerSet;
    var q := p.(clears := p.clears + 1, clearing := hasRoutes);
    if next == Clearing && !hasRoutes {
      EventAddTokens(q, ClearingCompleted);
    }
  }

  // ---------------------------------------------------------------------
  // Steps that handle an event

  ghost predicate Handles(s: Step) {
    s.Run? || s.Direct? || s.StartTimer? || s.ConnectTimer? || s.HoldTimer? || s.KeepaliveTimer?
  }

  /** The event that a step handles. */
  ghost function EventOf(p: Peer, s: Step): Event
    requires Handles(s) && Enabled(p, s)
  {
    match s
    case Run(_) => p.pending[0]
    case Direct(e, _) => e
    case StartTimer(_) => BgpStart
    case ConnectTimer(_) => ConnectRetryExpired
    case HoldTimer(_) => HoldExpired
    case KeepaliveTimer(_) => KeepaliveExpired
  }

  /** The peer it finds: the event is off the queue, the timer has run out. */
  ghost function Found(p: Peer, s: Step): (q: Peer)
    requires Handles(s) && Enabled(p, s)
    ensures q.status == p.status && q.clearing == p.clearing && q.clears == p.clears
    ensures q.vStart == p.vStart && q.vHoldtime == p.vHoldtime
    ensures q.pending == if s.Run? then p.pending[1..] else p.pending
  {
    match s
    case Run(_) => p.(pending := p.pending[1..])
    case Direct(_, _) => p
    case StartTimer(_) => p.(tStart := false)
    case ConnectTimer(_) => p.(tConnect := false)
    case HoldTimer(_) => p.(tHoldtime := false)
    case KeepaliveTimer(_) => p.(tKeepalive := false)
  }

  lemma {:induction false} TakeHandles(c: Config, p: Peer, s: Step)
    requires Handles(s) && Enabled(p, s)
    ensures Take(c, p, s) == EventUpdate(c, Found(p, s), EventOf(p, s), s.env)
  {
    hide EventUpdate;
  }

  lemma {:induction false} FoundHandling(p: Peer, s: Step)
    requires Inv(p) && Handles(s) && Enabled(p, s)
    ensures Handling(Found(p, s), EventOf(p, s))
  {
    hide Found;
  }

  lemma {:induction false} PostsInv(c: Config, p: Peer, s: Step)
    requires Inv(p) && Enabled(p, s) && Quiet(s) && !Handles(s)
    ensures Inv(Take(c, p, s))
  {
    hide Tokens, EventUpdate, TimerSet;
    match s
    case Post(e) => EventAddTokens(p, e);
    case ClearQueueDone =>
      QueueDone(p);
      EventAddTokens(p.(clearing := false), ClearingCompleted);
    case Nht(_, _) =>
      SameTokens(p, p.(tConnect := false));
      EventAddTokens(p, BgpStart);
      EventAddTokens(p, TcpFatalError);
      EventAddTokens(p.(tConnect := false), TcpFatalError);
      EventAddTokens(p.(tConnect := false), ConnectRetryExpired);
    case UpdateReceived =>
      SameTokens(p, p.(tHoldtime := false));
      TimerSetTokens(c, p.(tHoldtime := false));
    case Negotiate(hold) => SameTokens(p, p.(vHoldtime := hold));
    case ClearFamily(_) => SameTokens(p, Take(c, p, s));
  }

  lemma {:induction false} QueueDone(p: Peer)
    requires p.clearing
    ensures Tokens(p.(clearing := false)) + 1 == Tokens(p)
  {
  }

  /** Every quiet step keeps the invariant. */
  lemma {:induction false} StepInv(c: Config, p: Peer, s: Step)
    requires Inv(p) && Enabled(p, s) && Quiet(s)
    ensures Inv(Take(c, p, s))
  {
    hide EventUpdate, Take, Inv, Handling, Found, EventOf;
    if Handles(s) {
      TakeHandles(c, p, s);
      FoundHandling(p, s);
      EventUpdateInv(c, Found(p, s), EventOf(p, s), s.env);
    } else {
      PostsInv(c, p, s);
    }
  }

  // ---------------------------------------------------------------------
  // Leaving Established

  /** Handling one event leaves Established for a state other than Clearing exactly when it is the completion event. */
  lemma LeavingEstablished(c: Config, p: Peer, e: Event, env: Env)
    requires p.status == Established
    ensures EventUpdate(c, p, e, env).status in {Established, Clearing} <==> e != ClearingCompleted
    ensures e == ClearingCompleted ==> EventUpdate(c, p, e, env).status == Idle
    ensures EventUpdate(c, p, e, env).clears == p.clears + if EventUpdate(c, p, e, env).status == Clearing then 1 else 0
  {
    if e != ClearingCompleted {
      TableFacts(p.status, e);
      var (h, next) := Table(p.status, e);
      EstablishedHandled(h, c, p, env);
      hide Table, Handle;
      TimerSetKeeps(c, Handle(h, c, p, env).peer);
      TimerSetKeeps(c, ChangeStatus(Handle(h, c, p, env).peer, next, env.hasRoutes));
    }
  }

  lemma EstablishedHandled(h: Handler, c: Config, p: Peer, env: Env)
    requires h in EstablishedHandlers && p.status == Established
    ensures var r := Handle(h, c, p, env);
            r.ok && r.peer.status == Established && r.peer.clears == p.clears
  {
  }

  lemma TimerSetKeeps(c: Config, p: Peer)
    ensures TimerSet(c, p).status == p.status && TimerSet(c, p).clears == p.clears
    ensures TimerSet(c, p).vHoldtime == p.vHoldtime && TimerSet(c, p).pending == p.pending
  {
  }

  /** The event loop is about to run a completion event. */
  ghost predicate RunsCompletion(p: Peer, s: Step) {
    s.Run? && p.pending != [] && p.pending[0] == ClearingCompleted
  }

  lemma {:induction false} PostsKeepStatus(c: Config, p: Peer, s: Step)
    requires !Handles(s)
    ensures Take(c, p, s).status == p.status && Take(c, p, s).clears == p.clears
  {
    hide EventUpdate, TimerSet, NhtUpdate;
    match s
    case Nht(valid, singleHop) => NhtKeeps(p, valid, singleHop);
    case UpdateReceived => TimerSetKeeps(c, p.(tHoldtime := false));
    case _ =>
  }

  lemma {:induction false} NhtKeeps(p: Peer, valid: bool, singleHop: bool)
    ensures NhtUpdate(p, valid, singleHop).status == p.status && NhtUpdate(p, valid, singleHop).clears == p.clears
  {
  }

  lemma {:induction false} StepFromEstablished(c: Config, p: Peer, s: Step)
    requires Enabled(p, s) && p.status == Established
    ensures
      var q := Take(c, p, s);
      && (q.status in {Established, Clearing} <==> !RunsCompletion(p, s))
      && (RunsCompletion(p, s) ==> q.status == Idle)
      && q.clears == p.clears + if q.status == Clearing then 1 else 0
  {
    hide EventUpdate, Take, Found;
    if Handles(s) {
      TakeHandles(c, p, s);
      LeavingEstablished(c, Found(p, s), EventOf(p, s), s.env);
    } else {
      PostsKeepStatus(c, p, s);
    }
  }

  lemma {:induction false} RunInv(c: Config, states: seq<Peer>, steps: seq<Step>, i: nat)
    requires IsRun(c, states, steps) && i < |states|
    requires forall k :: 0 <= k < |steps| ==> Quiet(steps[k])
    ensures Inv(states[i])
  {
    if i > 0 {
      RunInv(c, states, steps, i - 1);
      StepInv(c, states[i - 1], steps[i - 1]);
    }
  }

  /** Until a single address family is cleared on its own, no completion is under way outside Clearing. */
  lemma {:induction false} StrayCompletion(c: Config, states: seq<Peer>, steps: seq<Step>, i: nat)
    requires IsRun(c, states, steps) && i < |states| && states[i].status != Clearing
    requires states[i].clearing || ClearingCompleted in states[i].pending
    ensures exists k :: 0 <= k < i && steps[k] == ClearFamily(true)
  {
    CompletionsIn(states[i].pending);
    if forall k :: 0 <= k < i ==> steps[k] != ClearFamily(true) {
      NotInv(states[i]);
      hide Enabled, Take, Inv;
      RunInv(c, states[..i + 1], steps[..i], i);
    }
  }

  lemma {:induction false} NotInv(p: Peer)
    requires p.status != Clearing && Tokens(p) > 0
    ensures !Inv(p)
  {
  }

  /**
    In every run: a step out of Established leads somewhere other than
    Clearing exactly when it runs a completion event.  It then leads to Idle,
    no routes are cleared, and a single family was cleared earlier.
   */
  lemma {:induction false} EstablishedExits(c: Config, states: seq<Peer>, steps: seq<Step>, i: nat)
    requires IsRun(c, states, steps) && i < |steps| && states[i].status == Established
    ensures states[i + 1].status !in {Established, Clearing} <==> RunsCompletion(states[i], steps[i])
    ensures states[i + 1].clears == states[i].clears + if states[i + 1].status == Clearing then 1 else 0
    ensures RunsCompletion(states[i], steps[i]) ==>
      states[i + 1].status == Idle && exists k :: 0 <= k < i && steps[k] == ClearFamily(true)
  {
    StepFromEstablished(c, states[i], steps[i]);
    if RunsCompletion(states[i], steps[i]) {
      assert ClearingCompleted in states[i].pending;
      StrayCompletion(c, states, steps, i);
    }
  }

  /**
    In every run in which no single address family is cleared on its own,
    Established is left only into Clearing, and entering Clearing clears all routes.
   */
  lemma EstablishedLeftIntoClearing(c: Config, states: seq<Peer>, steps: seq<Step>, i: nat)
    requires IsRun(c, states, steps) && i < |steps|
    requires forall k :: 0 <= k < |steps| ==> Quiet(steps[k])
    requires states[i].status == Established
    ensures states[i + 1].status in {Established, Clearing}
    ensures states[i + 1].clears == states[i].clears + if states[i + 1].status == Clearing then 1 else 0
  {
    EstablishedExits(c, states, steps, i);
  }

  /** A pending completion means the peer is in Clearing, in every such run. */
  lemma CompletionOnlyInClearing(c: Config, states: seq<Peer>, steps: seq<Step>, i: nat)
    requires IsRun(c, states, steps) && i < |states|
    requires forall k :: 0 <= k < |steps| ==> Quiet(steps[k])
    ensures ClearingCompleted in states[i].pending ==> states[i].status == Clearing && !states[i].clearing
    ensures states[i].clearing ==> states[i].status == Clearing
  {
    RunInv(c, states, steps, i);
    CompletionsIn(states[i].pending);
  }

  /**
    The restriction is needed: from any established session with nothing
    pending, clearing one family's routes sends the session to Idle when that
    clear completes, without clearing the other families.
   */
  lemma {:induction false} FamilyClearDropsSession(c: Config, p: Peer, env: Env)
    requires p.status == Established && p.pending == []
    ensures var q := Take(c, p, ClearFamily(true));
            var r := Take(c, q, ClearQueueDone);
            && Enabled(q, ClearQueueDone) && Enabled(r, Run(env))
            && Take(c, r, Run(env)).status == Idle && Take(c, r, Run(env)).clears == p.clears
  {
    hide EventUpdate;
    var r := Take(c, Take(c, p, ClearFamily(true)), ClearQueueDone);
    assert r.pending == [ClearingCompleted];
    LeavingEstablished(c, r.(pending := r.pending[1..]), ClearingCompleted, env);
  }

  /** A connection that comes up at once. */
  const Smooth := Env(true, ConnectNow, true, true, true, true)

  /** From the start of a session to the loss of one family's routes. */
  const FamilyLoss := [StartTimer(Smooth), Run(Smooth), Direct(ReceiveOpen, Smooth), Direct(ReceiveKeepalive, Smooth),
                       ClearFamily(true), ClearQueueDone, Run(Smooth)]

  /** One step of a session coming up: the status and the events pending afterwards. */
  ghost predicate At(p: Peer, s: Status, pending: seq<Event>) {
    p.status == s && p.pending == pending && p.clears == 0
  }

  lemma {:induction false} UpFromIdle(c: Config, p: Peer)
    requires !c.passive && !c.suppressed && At(p, Idle, []) && p.tStart
    ensures At(Take(c, p, StartTimer(Smooth)), Connect, [TcpOpen])
  {
  }

  lemma {:induction false} UpFromConnect(c: Config, p: Peer)
    requires At(p, Connect, [TcpOpen])
    ensures At(Take(c, p, Run(Smooth)), OpenSent, [])
  {
    assert p.pending[1..] == [];
  }

  lemma {:induction false} UpFromOpenSent(c: Config, p: Peer)
    requires At(p, OpenSent, [])
    ensures At(Take(c, p, Direct(ReceiveOpen, Smooth)), OpenConfirm, [])
  {
    hide TimerSet;
    assert Handle(Open, c, p, Smooth) == Result(p.(tHoldtime := false), true);
    hide Handle;
    TimerSetKeeps(c, ChangeStatus(p.(tHoldtime := false), OpenConfirm, true));
  }

  lemma {:induction false} UpFromOpenConfirm(c: Config, p: Peer)
    requires At(p, OpenConfirm, [])
    ensures At(Take(c, p, Direct(ReceiveKeepalive, Smooth)), Established, [])
  {
    hide TimerSet;
    var q := ChangeStatus(p.(vStart := BGP_INIT_START_TIMER), Established, true);
    assert Handle(Establish, c, p, Smooth) == Result(q, true);
    hide Handle;
    TimerSetKeeps(c, q);
  }

  /** A session that comes up. */
  lemma {:induction false} ComesUp(c: Config) returns (states: seq<Peer>)
    requires !c.passive && !c.suppressed && c.active
    ensures |states| == 5 && IsRun(c, states, FamilyLoss[..4])
    ensures At(states[4], Established, [])
  {
    hide Take;
    var p0 := Fresh(c);
    var p1 := Take(c, p0, StartTimer(Smooth));
    UpFromIdle(c, p0);
    var p2 := Take(c, p1, Run(Smooth));
    UpFromConnect(c, p1);
    var p3 := Take(c, p2, Direct(ReceiveOpen, Smooth));
    UpFromOpenSent(c, p2);
    var p4 := Take(c, p3, Direct(ReceiveKeepalive, Smooth));
    UpFromOpenConfirm(c, p3);
    states := [p0, p1, p2, p3, p4];
  }

  /** Such a run from the start: the session comes up, one family is cleared, and the session is gone with no routes cleared. */
  lemma {:induction false} FamilyClearRun(c: Config) returns (states: seq<Peer>)
    requires !c.passive && !c.suppressed && c.active
    ensures IsRun(c, states, FamilyLoss)
    ensures states[4].status == Established && states[7].status == Idle && states[7].clears == 0
  {
    states := ComesUp(c);
    FamilyClearDropsSession(c, states[4], Smooth);
    hide Take, Fresh;
    var p5 := Take(c, states[4], FamilyLoss[4]);
    var p6 := Take(c, p5, FamilyLoss[5]);
    ghost var early, first := states, FamilyLoss[..4];
    assert forall i :: 0 <= i < 4 ==> first[i] == FamilyLoss[i];
    states := states + [p5, p6, Take(c, p6, FamilyLoss[6])];
    assert forall i :: 0 <= i < 5 ==> states[i] == early[i];
    forall i | 0 <= i < |FamilyLoss| ensures Enabled(states[i], FamilyLoss[i]) && states[i + 1] == Take(c, states[i], FamilyLoss[i]) {
      if i < 4 {
        assert Enabled(early[i], first[i]) && early[i + 1] == Take(c, early[i], first[i]);
      }
    }
  }

  // ---------------------------------------------------------------------
  // Never wedged

  /** A peer that is meant to come up: active, not passive, not held down, with a hold time. */
  ghost predicate Willing(c: Config) {
    !c.passive && !c.suppressed && c.active && !c.nsfWait && c.holdtime > 0
  }

  /** Something is armed that will move the peer. */
  ghost predicate Armed(p: Peer) {
    match p.status
    case Idle => p.tStart
    case Connect | Active => p.tConnect || p.pending != []
    case OpenSent | OpenConfirm | Established => p.tHoldtime
    case Clearing => p.clearing || ClearingCompleted in p.pending
    case Deleted => true
  }

  /** The hold time negotiated in OPEN is not zero. */
  ghost predicate HoldKept(s: Step) {
    s.Negotiate? ==> s.hold > 0
  }

  /** Setting the timers arms every state but Clearing. */
  lemma TimerSetArms(c: Config, p: Peer)
    requires Willing(c) && p.vHoldtime > 0 && p.status != Clearing
    ensures Armed(TimerSet(c, p))
  {
  }

  /** In Clearing a completion is under way. */
  ghost predicate Stirring(p: Peer) {
    p.status == Clearing ==> p.clearing || ClearingCompleted in p.pending
  }

  /** Entering Clearing makes sure that a completion follows, whatever was under way before. */
  lemma {:induction false} ChangeStirs(p: Peer, next: Status, hasRoutes: bool)
    requires p.status != Deleted && next != Deleted
    ensures Stirring(ChangeStatus(p, next, hasRoutes)) && ChangeStatus(p, next, hasRoutes).status == next
  {
  }

  /** Outside Clearing no event asks for deletion, and no handler changes the status but that of a session coming up. */
  lemma {:induction false} HandleStatus(p: Peer, e: Event, c: Config, env: Env)
    requires p.status != Deleted && p.status != Clearing
    ensures
      var (h, next) := Table(p.status, e);
      next != Deleted && Handle(h, c, p, env).peer.status in {p.status, Established}
  {
    HandlerOf(p.status, e);
    hide Table;
    HandlerStatus(Table(p.status, e).0, c, p, env);
  }

  lemma {:induction false} HandlerOf(s: Status, e: Event)
    requires s != Deleted && s != Clearing
    ensures Table(s, e).1 != Deleted
  {
  }

  lemma {:induction false} HandlerStatus(h: Handler, c: Config, p: Peer, env: Env)
    ensures Handle(h, c, p, env).peer.status in {p.status, Established}
  {
    hide Backoff;
  }

  /** Handling an event leaves a completion under way in Clearing; the completion itself needs none before. */
  lemma {:induction false} EventUpdateStirs(c: Config, p: Peer, e: Event, env: Env)
    requires p.status != Deleted && (e == ClearingCompleted || Stirring(p))
    ensures Stirring(EventUpdate(c, p, e, env)) && EventUpdate(c, p, e, env).status != Deleted
  {
    if p.status == Clearing {
      ClearingHandles(c, p, e, env);
    } else {
      HandleStatus(p, e, c, env);
      hide Table, Handle, ChangeStatus, TimerSet;
      var (h, next) := Table(p.status, e);
      var r := Handle(h, c, p, env);
      ChangeStirs(StopPeer(c, r.peer), Idle, env.hasRoutes);
      TimerSetKeeps(c, ChangeStatus(StopPeer(c, r.peer), Idle, env.hasRoutes));
      if next != r.peer.status {
        ChangeStirs(r.peer, next, env.hasRoutes);
        TimerSetKeeps(c, ChangeStatus(r.peer, next, env.hasRoutes));
      } else {
        TimerSetKeeps(c, r.peer);
      }
    }
  }

  /** `bgp_event_update` ends by setting the timers, on a peer whose hold time is not zero. */
  lemma EventUpdateTimers(c: Config, p: Peer, e: Event, env: Env) returns (q: Peer)
    requires c.holdtime > 0 && p.vHoldtime > 0
    ensures EventUpdate(c, p, e, env) == TimerSet(c, q) && q.vHoldtime > 0
  {
    var (h, next) := Table(p.status, e);
    var r := Handle(h, c, p, env);
    HandleHold(h, c, p, env);
    hide Table, Handle;
    q := if r.ok then if next != r.peer.status then ChangeStatus(r.peer, next, env.hasRoutes) else r.peer
         else ChangeStatus(StopPeer(c, r.peer), Idle, env.hasRoutes);
  }

  /** After any event, whatever the handler did, something is armed. */
  lemma {:induction false} EventUpdateArms(c: Config, p: Peer, e: Event, env: Env)
    requires Willing(c) && p.vHoldtime > 0 && p.status != Deleted && (e == ClearingCompleted || Stirring(p))
    ensures EventUpdate(c, p, e, env).vHoldtime > 0 && EventUpdate(c, p, e, env).status != Deleted
    ensures Armed(EventUpdate(c, p, e, env))
  {
    hide EventUpdate;
    EventUpdateStirs(c, p, e, env);
    var q := EventUpdateTimers(c, p, e, env);
    TimerSetKeeps(c, q);
    if q.status != Clearing {
      TimerSetArms(c, q);
    }
  }

  /** Taking the event off the queue leaves the completion there, unless it is the completion. */
  lemma {:induction false} FoundStirs(p: Peer, s: Step)
    requires Armed(p) && Handles(s) && Enabled(p, s)
    ensures EventOf(p, s) == ClearingCompleted || Stirring(Found(p, s))
  {
  }

  lemma {:induction false} PostsArmed(c: Config, p: Peer, s: Step)
    requires Willing(c) && Armed(p) && p.vHoldtime > 0
    requires Enabled(p, s) && HoldKept(s) && !Handles(s)
    ensures Armed(Take(c, p, s)) && Take(c, p, s).vHoldtime > 0
  {
    hide EventUpdate, TimerSet;
    if s.UpdateReceived? {
      var q := p.(tHoldtime := false);
      TimerSetKeeps(c, q);
      TimerSetArms(c, q);
    }
  }

  lemma {:induction false} StepArmed(c: Config, p: Peer, s: Step)
    requires Willing(c) && Armed(p) && p.vHoldtime > 0 && p.status != Deleted
    requires Enabled(p, s) && HoldKept(s)
    ensures
      var q := Take(c, p, s);
      Armed(q) && q.vHoldtime > 0 && q.status != Deleted
  {
    hide EventUpdate, Take, Found, EventOf, Armed, Stirring;
    if Handles(s) {
      TakeHandles(c, p, s);
      FoundStirs(p, s);
      EventUpdateArms(c, Found(p, s), EventOf(p, s), s.env);
    } else {
      PostsArmed(c, p, s);
      PostsKeepStatus(c, p, s);
    }
  }

  /** Never wedged: in every run of a willing peer, every state has something armed to move it. */
  lemma {:induction false} NeverWedged(c: Config, states: seq<Peer>, steps: seq<Step>, i: nat)
    requires Willing(c) && IsRun(c, states, steps) && i < |states|
    requires forall k :: 0 <= k < |steps| ==> HoldKept(steps[k])
    ensures Armed(states[i]) && states[i].vHoldtime > 0 && states[i].status != Deleted
  {
    hide Take, Armed;
    if i == 0 {
      FreshArmed(c);
    } else {
      NeverWedged(c, states, steps, i - 1);
      StepArmed(c, states[i - 1], steps[i - 1]);
    }
  }

  lemma {:induction false} FreshArmed(c: Config)
    requires Willing(c)
    ensures Armed(Fresh(c)) && Fresh(c).vHoldtime > 0 && Fresh(c).status != Deleted
  {
  }

  /** A hold time of zero is what the hold-timer states depend on: without it nothing is armed there. */
  lemma ZeroHoldtimeUnarmed(c: Config, p: Peer)
    requires p.status in {OpenSent, OpenConfirm, Established}
    ensures Armed(TimerSet(c, p)) <==> p.vHoldtime > 0
  {
  }

  // ---------------------------------------------------------------------
  // Clearing comes to an end

  /** The state after running pending events one by one. */
  function RunAll(c: Config, p: Peer, envs: seq<Env>): Peer
    decreases |envs|
  {
    if envs == [] || p.pending == [] then p else RunAll(c, Take(c, p, Run(envs[0])), envs[1..])
  }

  /** Where the completion event is in the queue. */
  ghost function Position(events: seq<Event>): nat {
    if events == [] || events[0] == ClearingCompleted then 0 else 1 + Position(events[1..])
  }

  /** In Clearing the completion ends in Idle with the queue flushed; any other event changes neither status nor queue. */
  lemma {:induction false} ClearingHandles(c: Config, p: Peer, e: Event, env: Env)
    requires p.status == Clearing
    ensures
      var q := EventUpdate(c, p, e, env);
      if e == ClearingCompleted then q.status == Idle && q.pending == []
      else q.status == Clearing && q.pending == p.pending
  {
  }

  /** Once the queue has posted its completion, running the events up to it ends in Idle with the queue flushed. */
  lemma {:induction false} ClearingEnds(c: Config, p: Peer, envs: seq<Env>)
    requires p.status == Clearing && ClearingCompleted in p.pending
    requires |envs| == Position(p.pending) + 1
    ensures RunAll(c, p, envs).status == Idle && RunAll(c, p, envs).pending == []
    decreases |envs|
  {
    hide EventUpdate;
    var q := Take(c, p, Run(envs[0]));
    ClearingHandles(c, p.(pending := p.pending[1..]), p.pending[0], envs[0]);
    if p.pending[0] != ClearingCompleted {
      assert ClearingCompleted in q.pending;
      ClearingEnds(c, q, envs[1..]);
    } else {
      assert envs[1..] == [];
    }
  }
}
