/**
  The session state machine event by event (section 8.2.2 of RFC 4271): for every
  status, which events move it and where to, and what becomes of timers, pending
  events and counters.
 */
module FsmMeaning {
  import opened FsmSpec
  import opened FsmRuns

  /** A connection attempt gets under way: the address is known, the peer is not held down, and connecting does not fail outright. */
  ghost predicate Starts(c: Config, env: Env) {
    env.addressKnown && !c.suppressed && (c.passive || env.connect != ConnectInProgress(false))
  }

  /** An open connection is usable. */
  ghost predicate Connected(env: Env) {
    env.descriptor && env.localAddress
  }

  /** Events that leave the connection alone. */
  ghost predicate Keeps(c: Config, s: Status, e: Event, env: Env) {
    match s
    case Idle => e !in {BgpStop, TcpOpen, TcpClosed, TcpFatalError} && (e == BgpStart ==> Starts(c, env))
    case Connect => e == BgpStart || (e == TcpOpen && Connected(env))
    case Active => e in {BgpStart, TcpOpenFailed} || (e == TcpOpen && Connected(env)) || (e == ConnectRetryExpired && Starts(c, env))
    case OpenSent => e in {BgpStart, ReceiveOpen}
    case OpenConfirm => e in {BgpStart, KeepaliveExpired, ReceiveKeepalive}
    case Established => e in {BgpStart, KeepaliveExpired, ReceiveKeepalive, ReceiveUpdate}
    case Clearing => e == BgpStart
    case Deleted => true
  }

  /** What a connection attempt posts. */
  ghost function Posted(c: Config, env: Env): seq<Event> {
    if !env.addressKnown || c.suppressed then []
    else if c.passive || env.connect == ConnectError then [TcpOpenFailed]
    else if env.connect == ConnectNow then [TcpOpen]
    else []
  }

  // ---------------------------------------------------------------------
  // What the handlers do

  /** The peer after the handler and the status change, before the timers are set. */
  ghost function Reached(c: Config, p: Peer, h: Handler, next: Status, env: Env): Peer {
    var r := Handle(h, c, p, env);
    if !r.ok then ChangeStatus(StopPeer(c, r.peer), Idle, env.hasRoutes)
    else if next != r.peer.status then ChangeStatus(r.peer, next, env.hasRoutes)
    else r.peer
  }

  lemma {:induction false} TimersLast(c: Config, p: Peer, e: Event, env: Env)
    ensures
      var u := Reached(c, p, Table(p.status, e).0, Table(p.status, e).1, env);
      var q := EventUpdate(c, p, e, env);
      && q == TimerSet(c, u)
      && q.status == u.status && q.ostatus == u.ostatus && q.vStart == u.vStart && q.vHoldtime == u.vHoldtime
      && q.pending == u.pending && q.clearing == u.clearing && q.clears == u.clears
  {
    hide Table, Handle;
    TimerSetRest(c, Reached(c, p, Table(p.status, e).0, Table(p.status, e).1, env));
  }

  /** Setting the timers changes nothing else. */
  lemma {:induction false} TimerSetRest(c: Config, u: Peer)
    ensures
      var q := TimerSet(c, u);
      && q.status == u.status && q.ostatus == u.ostatus && q.vStart == u.vStart && q.vHoldtime == u.vHoldtime
      && q.pending == u.pending && q.clearing == u.clearing && q.clears == u.clears
  {
  }

  /** The handler lets the event go on to its next state. */
  ghost predicate Proceeds(c: Config, h: Handler, env: Env) {
    (h == Start ==> Starts(c, env)) && (h == ConnectSuccess ==> Connected(env))
  }

  ghost predicate Drops(c: Config, h: Handler, env: Env) {
    !Proceeds(c, h, env) || h in {Stop, ConnectFail, Exception, Reconnect, HoldtimeExpire, EventError, StopWithError, ClearingDone}
  }

  /** What the rows of the table keep to: Clearing is entered from Established, and has few handlers. */
  ghost predicate Row(s: Status, h: Handler, next: Status) {
    && (next == Clearing ==> s in {Established, Clearing}) && (next == Deleted <==> s == Deleted)
    && (s == Clearing ==> h in {Ignore, Stop, ClearingDone}) && (s == Deleted ==> h == Ignore)
    && (h == ClearingDone ==> s == Clearing) && (h == Establish ==> next == Established && s == OpenConfirm)
    && (s == Clearing && h != ClearingDone ==> next == Clearing)
  }

  lemma {:induction false} Rows(s: Status, e: Event)
    ensures Row(s, Table(s, e).0, Table(s, e).1)
  {
  }

  lemma {:induction false} SettledStatus(c: Config, p: Peer, h: Handler, next: Status, env: Env)
    requires Row(p.status, h, next)
    ensures Reached(c, p, h, next, env).status == if Proceeds(c, h, env) then next else Idle
  {
    hide Backoff;
    HandlerProceeds(c, p, h, env);
    hide Handle;
  }

  lemma {:induction false} HandlerProceeds(c: Config, p: Peer, h: Handler, env: Env)
    ensures Handle(h, c, p, env).ok <==> Proceeds(c, h, env)
    ensures Handle(h, c, p, env).peer.status == if h == Establish then Established else p.status
  {
    hide Backoff;
  }

  /** What a handler does to hold time, start timer, pending events and clearing. */
  ghost predicate HandlerLeaves(c: Config, p: Peer, h: Handler, env: Env, q: Peer) {
    && q.vHoldtime == (if Proceeds(c, h, env) && Drops(c, h, env) then c.holdtime else if Proceeds(c, h, env) then p.vHoldtime else q.vHoldtime)
    && q.vStart ==
         (if h == StopWithError || (h == ConnectSuccess && env.descriptor && !env.localAddress && env.notifyWritten)
          then if p.vStart >= 60 then 120 else 2 * p.vStart
          else if h in {HoldtimeExpire, EventError, Establish} then 1
          else p.vStart)
    && (Proceeds(c, h, env) ==>
          q.pending ==
            if h == Start then p.pending + Posted(c, env)
            else if h == Reconnect then Posted(c, env)
            else if !Drops(c, h, env) || (p.status == Clearing && h != ClearingDone) then p.pending
            else [])
    && q.clearing == p.clearing && q.clears == p.clears
    && q.ostatus == (if h == Establish then p.status else p.ostatus)
  }

  lemma {:induction false} StartLeaves(c: Config, p: Peer, env: Env)
    requires p.status != Deleted
    ensures
      var q := StartPeer(c, p, env).peer;
      && q == p.(pending := q.pending)
      && q.pending == p.pending + Posted(c, env)
  {
    assert p.pending + [] == p.pending;
  }

  lemma {:induction false} HandledStop(c: Config, p: Peer, h: Handler, env: Env)
    requires h in {Stop, ConnectFail, Exception}
    ensures HandlerLeaves(c, p, h, env, Handle(h, c, p, env).peer)
  {
    hide Posted, Starts, StartPeer;
  }

  lemma {:induction false} HandledPlain(c: Config, p: Peer, h: Handler, env: Env)
    requires h in {Ignore, KeepaliveExpire, Open, Keepalive, Update}
    ensures HandlerLeaves(c, p, h, env, Handle(h, c, p, env).peer)
  {
    hide Posted, Starts, StartPeer;
  }

  lemma {:induction false} HandledSuccess(c: Config, p: Peer, h: Handler, env: Env)
    requires h == ConnectSuccess && p.status !in {Clearing, Deleted}
    ensures HandlerLeaves(c, p, h, env, Handle(h, c, p, env).peer)
  {
    hide Posted, Starts, StartPeer;
  }

  lemma {:induction false} HandledError(c: Config, p: Peer, h: Handler, env: Env)
    requires h in {HoldtimeExpire, EventError} && p.status !in {Clearing, Deleted}
    ensures HandlerLeaves(c, p, h, env, Handle(h, c, p, env).peer)
  {
    hide Posted, Starts, StartPeer;
  }

  lemma {:induction false} HandledNotified(c: Config, p: Peer, h: Handler, env: Env)
    requires h == StopWithError && p.status !in {Clearing, Deleted}
    ensures HandlerLeaves(c, p, h, env, Handle(h, c, p, env).peer)
  {
    hide Posted, Starts, StartPeer;
  }

  lemma {:induction false} HandledEstablish(c: Config, p: Peer, h: Handler, env: Env)
    requires h == Establish && p.status !in {Clearing, Deleted}
    ensures HandlerLeaves(c, p, h, env, Handle(h, c, p, env).peer)
  {
    hide Posted, Starts, StartPeer;
  }

  lemma {:induction false} HandledDone(c: Config, p: Peer, h: Handler, env: Env)
    requires h == ClearingDone
    ensures HandlerLeaves(c, p, h, env, Handle(h, c, p, env).peer)
  {
    hide Posted, Starts, StartPeer;
  }

  lemma {:induction false} HandledStart(c: Config, p: Peer, h: Handler, env: Env)
    requires h in {Start, Reconnect} && p.status !in {Clearing, Deleted}
    ensures HandlerLeaves(c, p, h, env, Handle(h, c, p, env).peer)
  {
    hide Posted, Starts, StartPeer;
    StartLeaves(c, p, env);
    StartLeaves(c, StopPeer(c, p), env);
    assert [] + Posted(c, env) == Posted(c, env);
  }

  lemma {:induction false} Handled(c: Config, p: Peer, h: Handler, env: Env)
    requires p.status == Deleted ==> h == Ignore
    requires p.status == Clearing ==> h in {Ignore, Stop, ClearingDone}
    ensures HandlerLeaves(c, p, h, env, Handle(h, c, p, env).peer)
  {
    hide HandlerLeaves, Handle;
    match h
    case Stop | ConnectFail | Exception => HandledStop(c, p, h, env);
    case Ignore | KeepaliveExpire | Open | Keepalive | Update => HandledPlain(c, p, h, env);
    case ConnectSuccess => HandledSuccess(c, p, h, env);
    case HoldtimeExpire | EventError => HandledError(c, p, h, env);
    case StopWithError => HandledNotified(c, p, h, env);
    case Establish => HandledEstablish(c, p, h, env);
    case ClearingDone => HandledDone(c, p, h, env);
    case Start | Reconnect => HandledStart(c, p, h, env);
  }

  /** What the whole event leaves, but for timers. */
  ghost predicate EventLeaves(c: Config, p: Peer, h: Handler, next: Status, env: Env, q: Peer) {
    var left := p.status == Established && next == Clearing && Proceeds(c, h, env);
    && q.vHoldtime == (if Drops(c, h, env) then c.holdtime else p.vHoldtime)
    && q.vStart ==
         (if h == StopWithError || (h == ConnectSuccess && env.descriptor && !env.localAddress && env.notifyWritten)
          then if p.vStart >= 60 then 120 else 2 * p.vStart
          else if h in {HoldtimeExpire, EventError, Establish} then 1
          else p.vStart)
    && q.clears == p.clears + (if left then 1 else 0)
    && (q.clearing <==> p.clearing || (left && env.hasRoutes))
    && (q.status != p.status ==> q.ostatus == p.status)
    && q.pending ==
         (if !Proceeds(c, h, env) then []
          else if h == Start then p.pending + Posted(c, env)
          else if h == Reconnect then Posted(c, env)
          else if !Drops(c, h, env) || (p.status == Clearing && h != ClearingDone) then p.pending
          else if left && !p.clearing && !env.hasRoutes then [ClearingCompleted]
          else [])
  }

  /** A status change: what it adds on the way into Clearing. */
  lemma {:induction false} ChangeMeans(u: Peer, next: Status, hasRoutes: bool)
    requires u.status != Deleted && next != Deleted
    ensures
      var q := ChangeStatus(u, next, hasRoutes);
      && q.status == next && q.ostatus == u.status && q.vStart == u.vStart && q.vHoldtime == u.vHoldtime
      && q.clears == u.clears + (if next == Clearing then 1 else 0)
      && (q.clearing <==> u.clearing || (next == Clearing && hasRoutes))
      && q.pending == u.pending + (if next == Clearing && !q.clearing then [ClearingCompleted] else [])
  {
    assert u.pending + [] == u.pending;
  }

  lemma {:induction false} StopMeans(c: Config, u: Peer)
    ensures
      var q := StopPeer(c, u);
      && q.status == u.status && q.vStart == u.vStart && q.vHoldtime == c.holdtime && q.clears == u.clears && q.clearing == u.clearing
      && q.pending == if u.status == Clearing then u.pending else []
  {
  }

  lemma {:induction false} EventFails(c: Config, p: Peer, h: Handler, next: Status, env: Env)
    requires Row(p.status, h, next) && !Proceeds(c, h, env)
    ensures EventLeaves(c, p, h, next, env, Reached(c, p, h, next, env))
  {
    Handled(c, p, h, env);
    HandlerProceeds(c, p, h, env);
    hide Handle, Posted, Starts, Connected, ChangeStatus, StopPeer;
    var u := Handle(h, c, p, env).peer;
    StopMeans(c, u);
    ChangeMeans(StopPeer(c, u), Idle, env.hasRoutes);
  }

  /** The event leaves the status alone, or the handler has changed it. */
  lemma {:induction false} EventKept(c: Config, p: Peer, h: Handler, next: Status, env: Env)
    requires Row(p.status, h, next) && Proceeds(c, h, env)
    requires next == if h == Establish then Established else p.status
    ensures EventLeaves(c, p, h, next, env, Reached(c, p, h, next, env))
  {
    hide Handle, Posted, Starts, Connected, ChangeStatus, StopPeer;
    Handled(c, p, h, env);
    HandlerProceeds(c, p, h, env);
  }

  lemma {:induction false} EventMoved(c: Config, p: Peer, h: Handler, next: Status, env: Env)
    requires Row(p.status, h, next) && Proceeds(c, h, env)
    requires h != Establish && next != p.status
    requires p.status == Established && next == Clearing ==> Drops(c, h, env) && h != Reconnect
    ensures EventLeaves(c, p, h, next, env, Reached(c, p, h, next, env))
  {
    hide Handle, Posted, Starts, Connected, ChangeStatus, StopPeer;
    Handled(c, p, h, env);
    HandlerProceeds(c, p, h, env);
    var u := Handle(h, c, p, env).peer;
    ChangeMeans(u, next, env.hasRoutes);
    assert [] + [ClearingCompleted] == [ClearingCompleted];
    assert u.pending + [] == u.pending;
  }

  lemma {:induction false} EventProceeds(c: Config, p: Peer, h: Handler, next: Status, env: Env)
    requires Row(p.status, h, next) && Proceeds(c, h, env)
    requires p.status == Established && next == Clearing ==> Drops(c, h, env) && h != Reconnect
    ensures EventLeaves(c, p, h, next, env, Reached(c, p, h, next, env))
  {
    hide EventLeaves, Drops, Reached, Proceeds;
    if next == if h == Establish then Established else p.status {
      EventKept(c, p, h, next, env);
    } else {
      EventMoved(c, p, h, next, env);
    }
  }

  lemma {:induction false} EventIs(c: Config, p: Peer, h: Handler, next: Status, env: Env)
    requires Row(p.status, h, next)
    requires p.status == Established && next == Clearing ==> Drops(c, h, env) && h != Reconnect
    ensures EventLeaves(c, p, h, next, env, Reached(c, p, h, next, env))
  {
    hide EventLeaves, Proceeds, Drops, Reached;
    if Proceeds(c, h, env) {
      EventProceeds(c, p, h, next, env);
    } else {
      EventFails(c, p, h, next, env);
    }
  }

  /** All about one event: its row decides. */
  lemma {:induction false} EventMeans(c: Config, p: Peer, e: Event, env: Env) returns (h: Handler, next: Status)
    ensures (h, next) == Table(p.status, e) && Row(p.status, h, next)
    ensures EventLeaves(c, p, h, next, env, EventUpdate(c, p, e, env))
    ensures EventUpdate(c, p, e, env).status == if Proceeds(c, h, env) then next else Idle
  {
    h, next := Table(p.status, e).0, Table(p.status, e).1;
    Rows(p.status, e);
    EstablishedDrops(c, p.status, e, env);
    hide Table, Row, Reached, EventUpdate, Drops, Proceeds, Posted;
    TimersLast(c, p, e, env);
    SettledStatus(c, p, h, next, env);
    EventIs(c, p, h, next, env);
  }

  lemma {:induction false} EstablishedDrops(c: Config, s: Status, e: Event, env: Env)
    ensures
      var (h, next) := Table(s, e);
      s == Established && next == Clearing ==> Drops(c, h, env) && h != Reconnect
  {
  }

  // ---------------------------------------------------------------------
  // Where events lead

  lemma {:induction false} IdleMoves(c: Config, p: Peer, e: Event, env: Env)
    requires p.status == Idle
    ensures
      var s := EventUpdate(c, p, e, env).status;
      s in {Idle, Connect} && (s == Connect <==> e == BgpStart && Starts(c, env))
  {
    var h, next := EventMeans(c, p, e, env);
    hide EventUpdate, EventLeaves, Starts, Connected;
  }

  lemma {:induction false} ConnectMoves(c: Config, p: Peer, e: Event, env: Env)
    requires p.status == Connect
    ensures
      var s := EventUpdate(c, p, e, env).status;
      && s in {Idle, Connect, Active, OpenSent}
      && (s == Connect <==> e in {BgpStart, ConnectRetryExpired})
      && (s == Active <==> e == TcpOpenFailed)
      && (s == OpenSent <==> e == TcpOpen && Connected(env))
  {
    var h, next := EventMeans(c, p, e, env);
    hide EventUpdate, EventLeaves, Starts, Connected;
  }

  lemma {:induction false} ActiveMoves(c: Config, p: Peer, e: Event, env: Env)
    requires p.status == Active
    ensures
      var s := EventUpdate(c, p, e, env).status;
      && s in {Idle, Connect, Active, OpenSent}
      && (s == Active <==> e in {BgpStart, TcpOpenFailed})
      && (s == Connect <==> e == ConnectRetryExpired && Starts(c, env))
      && (s == OpenSent <==> e == TcpOpen && Connected(env))
  {
    var h, next := EventMeans(c, p, e, env);
    hide EventUpdate, EventLeaves, Starts, Connected;
  }

  lemma {:induction false} OpenSentMoves(c: Config, p: Peer, e: Event, env: Env)
    requires p.status == OpenSent
    ensures
      var s := EventUpdate(c, p, e, env).status;
      && s in {Idle, Active, OpenSent, OpenConfirm}
      && (s == OpenSent <==> e == BgpStart)
      && (s == Active <==> e in {TcpOpen, TcpClosed, TcpOpenFailed, TcpFatalError})
      && (s == OpenConfirm <==> e == ReceiveOpen)
  {
    var h, next := EventMeans(c, p, e, env);
    hide EventUpdate, EventLeaves, Starts, Connected;
  }

  lemma {:induction false} OpenConfirmMoves(c: Config, p: Peer, e: Event, env: Env)
    requires p.status == OpenConfirm
    ensures
      var s := EventUpdate(c, p, e, env).status;
      && s in {Idle, OpenConfirm, Established}
      && (s == OpenConfirm <==> e in {BgpStart, KeepaliveExpired})
      && (s == Established <==> e == ReceiveKeepalive)
  {
    var h, next := EventMeans(c, p, e, env);
    hide EventUpdate, EventLeaves, Starts, Connected;
  }

  lemma {:induction false} EstablishedMoves(c: Config, p: Peer, e: Event, env: Env)
    requires p.status == Established
    ensures
      var s := EventUpdate(c, p, e, env).status;
      && s in {Idle, Established, Clearing}
      && (s == Established <==> e in {BgpStart, KeepaliveExpired, ReceiveKeepalive, ReceiveUpdate})
      && (s == Idle <==> e == ClearingCompleted)
  {
    var h, next := EventMeans(c, p, e, env);
    hide EventUpdate, EventLeaves, Starts, Connected;
  }

  lemma {:induction false} ClearingMoves(c: Config, p: Peer, e: Event, env: Env)
    requires p.status in {Clearing, Deleted}
    ensures
      var s := EventUpdate(c, p, e, env).status;
      s == if p.status == Clearing && e == ClearingCompleted then Idle else p.status
  {
    var h, next := EventMeans(c, p, e, env);
    hide EventUpdate, EventLeaves, Starts, Connected;
  }

  // ---------------------------------------------------------------------
  // What comes with it

  /**
    After every event the start timer runs in Idle, the connect timer in Connect
    and Active, the hold timer from OpenSent to Established and the keepalive timer
    in OpenConfirm and Established, these two exactly when the hold time is not zero.
   */
  lemma {:induction false} TimersAfter(c: Config, p: Peer, e: Event, env: Env)
    ensures
      var q := EventUpdate(c, p, e, env);
      && (q.tStart <==> q.status == Idle && !c.suppressed && c.active)
      && (q.tConnect <==> q.status == Connect || (q.status == Active && !c.passive && !c.nsfWait))
      && (q.tHoldtime <==> q.status in {OpenSent, OpenConfirm, Established} && q.vHoldtime != 0)
      && (q.tKeepalive <==> q.status in {OpenConfirm, Established} && q.vHoldtime != 0)
  {
    hide Table, Handle, ChangeStatus, StopPeer, EventUpdate, Reached;
    TimersLast(c, p, e, env);
  }

  lemma {:induction false} DropsIff(c: Config, s: Status, e: Event, env: Env)
    ensures Drops(c, Table(s, e).0, env) <==> !Keeps(c, s, e, env)
  {
    hide Starts, Connected;
  }

  /** The hold time goes back to the configured one exactly where the connection is dropped. */
  lemma {:induction false} HoldtimeAfter(c: Config, p: Peer, e: Event, env: Env)
    ensures EventUpdate(c, p, e, env).vHoldtime == if Keeps(c, p.status, e, env) then p.vHoldtime else c.holdtime
  {
    hide EventUpdate, Table, Drops, Keeps, Proceeds, Posted;
    var h, next := EventMeans(c, p, e, env);
    DropsIff(c, p.status, e, env);
  }

  /**
    The start timer is doubled, up to 120, by a notification received or by one
    sent for want of a local address, and set back to 1 by an expired hold timer, by
    an unexpected message and by the session coming up.
   */
  lemma {:induction false} StartTimerAfter(c: Config, p: Peer, e: Event, env: Env)
    ensures EventUpdate(c, p, e, env).vStart ==
      if (e == ReceiveNotification && p.status in {OpenSent, OpenConfirm, Established})
         || (e == TcpOpen && p.status in {Connect, Active} && env.descriptor && !env.localAddress && env.notifyWritten)
      then if p.vStart >= 60 then 120 else 2 * p.vStart
      else if (e == HoldExpired && p.status in {OpenSent, OpenConfirm, Established})
              || (p.status == OpenSent && e in {ReceiveKeepalive, ReceiveUpdate})
              || (p.status == OpenConfirm && e == ReceiveKeepalive)
      then 1
      else p.vStart
  {
    hide EventUpdate, Drops, Proceeds, Posted;
    var h, next := EventMeans(c, p, e, env);
  }

  /**
    Pending events: an attempt to connect adds what it comes to, dropping the
    connection takes them all away, except in Clearing, and entering Clearing with
    nothing to clear adds the completion.
   */
  lemma {:induction false} PendingAfter(c: Config, p: Peer, e: Event, env: Env)
    ensures EventUpdate(c, p, e, env).pending ==
      if (p.status == Idle && e == BgpStart && Starts(c, env)) || (p.status == Active && e == ConnectRetryExpired && Starts(c, env)) then
        p.pending + Posted(c, env)
      else if p.status == Connect && e == ConnectRetryExpired then Posted(c, env)
      else if Keeps(c, p.status, e, env) || (p.status == Clearing && e != ClearingCompleted) then p.pending
      else if p.status == Established && e != ClearingCompleted && !p.clearing && !env.hasRoutes then [ClearingCompleted]
      else []
  {
    hide EventUpdate, Posted, Starts, Connected;
    var h, next := EventMeans(c, p, e, env);
    DropsIff(c, p.status, e, env);
    hide Keeps;
  }

  /** Routes are cleared exactly on the way from Established to Clearing. */
  lemma {:induction false} ClearsAfter(c: Config, p: Peer, e: Event, env: Env)
    ensures
      var q := EventUpdate(c, p, e, env);
      var left := p.status == Established && q.status == Clearing;
      && q.clears == p.clears + (if left then 1 else 0)
      && (q.clearing <==> p.clearing || (left && env.hasRoutes))
      && (q.status != p.status ==> q.ostatus == p.status)
  {
    hide EventUpdate, Posted, Table, Drops;
    var h, next := EventMeans(c, p, e, env);
  }

  /** An established session that stays up is as it was, with its timers set. */
  lemma {:induction false} EstablishedStays(c: Config, p: Peer, e: Event, env: Env)
    requires p.status == Established && e in {BgpStart, KeepaliveExpired, ReceiveKeepalive, ReceiveUpdate}
    ensures EventUpdate(c, p, e, env) ==
      p.(tStart := false, tConnect := false, tHoldtime := p.vHoldtime != 0, tKeepalive := p.vHoldtime != 0)
  {
  }

  // ---------------------------------------------------------------------
  // Steps and runs

  /** A new peer waits in Idle for its start timer. */
  lemma {:induction false} FreshMeans(c: Config)
    ensures
      var p := Fresh(c);
      && p.status == Idle && p.pending == [] && !p.clearing && p.clears == 0 && p.vStart == 1 && p.vHoldtime == c.holdtime
      && (p.tStart <==> !c.suppressed && c.active) && !p.tConnect && !p.tHoldtime && !p.tKeepalive
  {
  }

  /** An event posted waits behind those pending, but for a deleted peer. */
  lemma {:induction false} PostMeans(c: Config, p: Peer, e: Event)
    ensures Take(c, p, Post(e)) == p.(pending := if p.status == Deleted then p.pending else p.pending + [e])
  {
  }

  /** Steps on which an established session stays up. */
  ghost predicate StaysUp(p: Peer, s: Step) {
    match s
    case Run(_) => p.pending != [] && p.pending[0] in {BgpStart, KeepaliveExpired, ReceiveKeepalive, ReceiveUpdate}
    case Direct(e, _) => e in {BgpStart, KeepaliveExpired, ReceiveKeepalive, ReceiveUpdate}
    case ConnectTimer(_) => false
    case HoldTimer(_) => false
    case _ => true
  }

  /**
    In every run an established session stays up exactly on the ordinary messages,
    a start, the keepalive timer, and whatever handles no event.
   */
  lemma {:induction false} RunStaysUp(c: Config, states: seq<Peer>, steps: seq<Step>, i: nat)
    requires IsRun(c, states, steps) && i < |steps| && states[i].status == Established
    ensures states[i + 1].status == Established <==> StaysUp(states[i], steps[i])
  {
    hide EventUpdate, Take, Found;
    RunStep(c, states, steps, i);
    var p, s := states[i], steps[i];
    hide IsRun;
    if Handles(s) {
      TakeHandles(c, p, s);
      EstablishedMoves(c, Found(p, s), EventOf(p, s), s.env);
    } else {
      PostsKeepStatus(c, p, s);
    }
  }

  lemma {:induction false} RunStep(c: Config, states: seq<Peer>, steps: seq<Step>, i: nat)
    requires IsRun(c, states, steps) && i < |steps|
    ensures Enabled(states[i], steps[i]) && states[i + 1] == Take(c, states[i], steps[i])
  {
  }

  /** Where the timers lead when they run out. */
  lemma {:induction false} TimersMove(c: Config, p: Peer, env: Env)
    ensures p.status == Idle && p.tStart ==> (Take(c, p, StartTimer(env)).status == Connect <==> Starts(c, env))
    ensures p.status == Connect && p.tConnect ==> Take(c, p, ConnectTimer(env)).status == Connect
    ensures p.status == Active && p.tConnect ==> (Take(c, p, ConnectTimer(env)).status == Connect <==> Starts(c, env))
    ensures p.status in {OpenSent, OpenConfirm} && p.tHoldtime ==> Take(c, p, HoldTimer(env)).status == Idle
    ensures p.status == Established && p.tHoldtime ==> Take(c, p, HoldTimer(env)).status == Clearing
    ensures p.status in {OpenConfirm, Established} && p.tKeepalive ==> Take(c, p, KeepaliveTimer(env)).status == p.status
  {
    hide EventUpdate;
    if p.status == Idle {
      IdleMoves(c, p.(tStart := false), BgpStart, env);
    } else if p.status == Connect {
      ConnectMoves(c, p.(tConnect := false), ConnectRetryExpired, env);
    } else if p.status == Active {
      ActiveMoves(c, p.(tConnect := false), ConnectRetryExpired, env);
    } else if p.status == OpenSent {
      OpenSentMoves(c, p.(tHoldtime := false), HoldExpired, env);
    } else if p.status == OpenConfirm {
      OpenConfirmMoves(c, p.(tHoldtime := false), HoldExpired, env);
      OpenConfirmMoves(c, p.(tKeepalive := false), KeepaliveExpired, env);
    } else if p.status == Established {
      EstablishedMoves(c, p.(tHoldtime := false), HoldExpired, env);
      EstablishedMoves(c, p.(tKeepalive := false), KeepaliveExpired, env);
    }
  }

  /**
    Next-hop tracking: a peer that becomes reachable is started, or retried at once;
    one that becomes unreachable while connecting, or that is directly connected, is
    sent a fatal error.
   */
  lemma {:induction false} TrackingPosts(p: Peer, valid: bool, singleHop: bool)
    ensures NhtUpdate(p, valid, singleHop) ==
      if p.status == Idle && valid then p.(pending := p.pending + [BgpStart])
      else if p.status == Active && valid then p.(tConnect := false, pending := p.pending + [ConnectRetryExpired])
      else if p.status == Connect && !valid then p.(tConnect := false, pending := p.pending + [TcpFatalError])
      else if p.status in {OpenSent, OpenConfirm, Established} && !valid && singleHop then p.(pending := p.pending + [TcpFatalError])
      else p
  {
  }
}
