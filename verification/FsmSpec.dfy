/**
  The BGP session state machine (section 8.2.2 of RFC 4271): the transition
  table, and what each handler does to a configured static peer without
  connection transfer.
 */
module FsmSpec {

  datatype Status = Idle | Connect | Active | OpenSent | OpenConfirm | Established | Clearing | Deleted

  datatype Event =
    | BgpStart | BgpStop | TcpOpen | TcpClosed | TcpOpenFailed | TcpFatalError
    | ConnectRetryExpired | HoldExpired | KeepaliveExpired
    | ReceiveOpen | ReceiveKeepalive | ReceiveUpdate | ReceiveNotification
    | ClearingCompleted

  /** The handlers named in the table. */
  datatype Handler =
    | Start | Stop | Ignore | ConnectSuccess | ConnectFail | Reconnect | Exception
    | HoldtimeExpire | Open | EventError | StopWithError | Establish
    | KeepaliveExpire | Keepalive | Update | ClearingDone

  /** The FSM table: handler and next state. */
  function Table(s: Status, e: Event): (Handler, Status) {
    match s
    case Idle =>
      (match e
       case BgpStart => (Start, Connect)
       case BgpStop | TcpOpen | TcpClosed | TcpFatalError => (Stop, Idle)
       case _ => (Ignore, Idle))
    case Connect =>
      (match e
       case BgpStart => (Ignore, Connect)
       case BgpStop | TcpClosed | ReceiveNotification => (Stop, Idle)
       case TcpOpen => (ConnectSuccess, OpenSent)
       case TcpOpenFailed => (ConnectFail, Active)
       case TcpFatalError => (ConnectFail, Idle)
       case ConnectRetryExpired => (Reconnect, Connect)
       case _ => (Exception, Idle))
    case Active =>
      (match e
       case BgpStart | TcpOpenFailed => (Ignore, Active)
       case BgpStop | TcpClosed => (Stop, Idle)
       case TcpOpen => (ConnectSuccess, OpenSent)
       case ConnectRetryExpired => (Start, Connect)
       case _ => (Exception, Idle))
    case OpenSent =>
      (match e
       case BgpStart => (Ignore, OpenSent)
       case BgpStop => (Stop, Idle)
       case TcpOpen | TcpClosed | TcpOpenFailed | TcpFatalError => (Stop, Active)
       case HoldExpired => (HoldtimeExpire, Idle)
       case ReceiveOpen => (Open, OpenConfirm)
       case ReceiveKeepalive | ReceiveUpdate => (EventError, Idle)
       case ReceiveNotification => (StopWithError, Idle)
       case _ => (Exception, Idle))
    case OpenConfirm =>
      (match e
       case BgpStart => (Ignore, OpenConfirm)
       case BgpStop | TcpOpen | TcpClosed | TcpOpenFailed | TcpFatalError => (Stop, Idle)
       case HoldExpired => (HoldtimeExpire, Idle)
       case KeepaliveExpired => (Ignore, OpenConfirm)
       case ReceiveKeepalive => (Establish, Established)
       case ReceiveNotification => (StopWithError, Idle)
       case _ => (Exception, Idle))
    case Established =>
      (match e
       case BgpStart => (Ignore, Established)
       case HoldExpired => (HoldtimeExpire, Clearing)
       case KeepaliveExpired => (KeepaliveExpire, Established)
       case ReceiveKeepalive => (Keepalive, Established)
       case ReceiveUpdate => (Update, Established)
       case ReceiveNotification => (StopWithError, Clearing)
       case ClearingCompleted => (Exception, Idle)
       case _ => (Stop, Clearing))
    case Clearing =>
      (match e
       case BgpStart => (Ignore, Clearing)
       case ClearingCompleted => (ClearingDone, Idle)
       case _ => (Stop, Clearing))
    case Deleted => (Ignore, Deleted)
  }

  /** Configuration of the peer that the handlers consult. */
  datatype Config = Config(passive: bool, suppressed: bool, active: bool, nsfWait: bool, holdtime: nat)

  /** What `bgp_connect` reports. */
  datatype ConnectResult = ConnectError | ConnectNow | ConnectInProgress(fdValid: bool)

  /** Outcomes of calls into other parts of the daemon while one event is handled. */
  datatype Env = Env(
    /** the peer's address is known */
    addressKnown: bool,
    connect: ConnectResult,
    /** the connection has a descriptor */
    descriptor: bool,
    /** its local address could be read */
    localAddress: bool,
    /** the notification could be written to the socket */
    notifyWritten: bool,
    /** the peer has routes, so clearing them queues work */
    hasRoutes: bool)

  /** The part of `struct peer` the state machine owns. */
  datatype Peer = Peer(
    status: Status,
    ostatus: Status,
    tStart: bool,
    tConnect: bool,
    tHoldtime: bool,
    tKeepalive: bool,
    vStart: nat,
    vHoldtime: nat,
    /** events posted and not yet run, oldest first */
    pending: seq<Event>,
    /** the clear queue is scheduled */
    clearing: bool,
    /** how many times all routes of the peer were cleared */
    clears: nat)

  const BGP_INIT_START_TIMER := 1
  const START_TIMER_MAX := 120

  function EventAdd(p: Peer, e: Event): Peer {
    if p.status == Deleted then p else p.(pending := p.pending + [e])
  }

  /** `bgp_timer_set`. */
  function TimerSet(c: Config, p: Peer): Peer {
    match p.status
    case Idle =>
      p.(tStart := !c.suppressed && c.active, tConnect := false, tHoldtime := false, tKeepalive := false)
    case Connect =>
      p.(tStart := false, tConnect := true, tHoldtime := false, tKeepalive := false)
    case Active =>
      p.(tStart := false, tConnect := !c.passive && !c.nsfWait, tHoldtime := false, tKeepalive := false)
    case OpenSent =>
      p.(tStart := false, tConnect := false, tHoldtime := p.vHoldtime != 0, tKeepalive := false)
    case OpenConfirm | Established =>
      p.(tStart := false, tConnect := false, tHoldtime := p.vHoldtime != 0, tKeepalive := p.vHoldtime != 0)
    case Clearing | Deleted =>
      p.(tStart := false, tConnect := false, tHoldtime := false, tKeepalive := false)
  }

  /** `bgp_stop`: events survive only in Clearing. */
  function StopPeer(c: Config, p: Peer): Peer {
    p.(pending := if p.status == Clearing then p.pending else [],
       tStart := false, tConnect := false, tHoldtime := false, tKeepalive := false,
       vHoldtime := c.holdtime)
  }

  /** `bgp_fsm_change_status`: entering Clearing clears all routes and makes sure a completion follows. */
  function ChangeStatus(p: Peer, next: Status, hasRoutes: bool): Peer {
    var q :=
      if next == Clearing || next == Deleted then
        var r := p.(clears := p.clears + 1, clearing := p.clearing || hasRoutes);
        if r.clearing then r else EventAdd(r, ClearingCompleted)
      else p;
    q.(ostatus := p.status, status := next)
  }

  /** The doubling of the start timer with its cap. */
  function Backoff(v: nat): nat {
    if 2 * v >= START_TIMER_MAX then START_TIMER_MAX else 2 * v
  }

  /** `bgp_notify_send`: either the write fails, or the start timer backs off and a stop is posted. */
  function NotifySend(p: Peer, written: bool): Peer {
    if written then EventAdd(p.(vStart := Backoff(p.vStart)), BgpStop) else EventAdd(p, TcpFatalError)
  }

  /** A handler's effect; `ok` is false when it asks not to proceed. */
  datatype Result = Result(peer: Peer, ok: bool)

  /** `bgp_start`. */
  function StartPeer(c: Config, p: Peer, env: Env): Result {
    if !env.addressKnown || c.suppressed then Result(p, false)
    else if c.passive then Result(EventAdd(p, TcpOpenFailed), true)
    else match env.connect
      case ConnectError => Result(EventAdd(p, TcpOpenFailed), true)
      case ConnectNow => Result(EventAdd(p, TcpOpen), true)
      case ConnectInProgress(fdValid) => Result(p, fdValid)
  }

  /** The handlers of the table, for a configured static peer without a doppelganger. */
  function Handle(h: Handler, c: Config, p: Peer, env: Env): Result {
    match h
    case Start => StartPeer(c, p, env)
    case Stop | ConnectFail | Exception => Result(StopPeer(c, p), true)
    case Ignore | KeepaliveExpire => Result(p, true)
    case ConnectSuccess =>
      if !env.descriptor then Result(StopPeer(c, p), false)
      else if !env.localAddress then Result(NotifySend(p, env.notifyWritten), false)
      else Result(p, true)
    case Reconnect => Result(StartPeer(c, StopPeer(c, p), env).peer, true)
    case HoldtimeExpire | EventError =>
      Result(StopPeer(c, NotifySend(p, env.notifyWritten).(vStart := BGP_INIT_START_TIMER)), true)
    case Open | Keepalive | Update => Result(p.(tHoldtime := false), true)
    case StopWithError => Result(StopPeer(c, p.(vStart := Backoff(p.vStart))), true)
    case Establish => Result(ChangeStatus(p.(vStart := BGP_INIT_START_TIMER), Established, env.hasRoutes), true)
    case ClearingDone => Result(StopPeer(c, p).(pending := []), true)
  }

  /** `bgp_event_update`. */
  function EventUpdate(c: Config, p: Peer, e: Event, env: Env): Peer {
    var (h, next) := Table(p.status, e);
    var r := Handle(h, c, p, env);
    if r.ok then
      TimerSet(c, if next != r.peer.status then ChangeStatus(r.peer, next, env.hasRoutes) else r.peer)
    else
      TimerSet(c, ChangeStatus(StopPeer(c, r.peer), Idle, env.hasRoutes))
  }

  /** `bgp_fsm_nht_update`; `singleHop` is the GTSM hop count of one. */
  function NhtUpdate(p: Peer, valid: bool, singleHop: bool): Peer {
    match p.status
    case Idle => if valid then EventAdd(p, BgpStart) else p
    case Connect => if valid then p else EventAdd(p.(tConnect := false), TcpFatalError)
    case Active => if valid then EventAdd(p.(tConnect := false), ConnectRetryExpired) else p
    case OpenSent | OpenConfirm | Established =>
      if !valid && singleHop then EventAdd(p, TcpFatalError) else p
    case Clearing | Deleted => p
  }

  // ---------------------------------------------------------------------
  // Runs

  datatype Step =
    /** another part of the daemon posts an event */
    | Post(e: Event)
    /** the event loop runs the oldest pending event */
    | Run(env: Env)
    /** an event handled at once, without the queue */
    | Direct(e: Event, env: Env)
    | StartTimer(env: Env)
    | ConnectTimer(env: Env)
    | HoldTimer(env: Env)
    | KeepaliveTimer(env: Env)
    /** the clear queue has processed its last route */
    | ClearQueueDone
    | Nht(valid: bool, singleHop: bool)
    /** an UPDATE was processed */
    | UpdateReceived
    /** the hold time agreed in OPEN */
    | Negotiate(hold: nat)
    /** the routes of one address family are cleared; `queued` if there were any */
    | ClearFamily(queued: bool)

  ghost predicate Enabled(p: Peer, s: Step) {
    match s
    case Post(e) => e != ClearingCompleted
    case Run(_) => p.pending != []
    case Direct(e, _) => e != ClearingCompleted
    case StartTimer(_) => p.tStart
    case ConnectTimer(_) => p.tConnect
    case HoldTimer(_) => p.tHoldtime
    case KeepaliveTimer(_) => p.tKeepalive
    case ClearQueueDone => p.clearing
    case UpdateReceived => p.status == Established
    case _ => true
  }

  function Take(c: Config, p: Peer, s: Step): Peer
    requires s.Run? ==> p.pending != []
  {
    match s
    case Post(e) => EventAdd(p, e)
    case Run(env) => EventUpdate(c, p.(pending := p.pending[1..]), p.pending[0], env)
    case Direct(e, env) => EventUpdate(c, p, e, env)
    case StartTimer(env) => EventUpdate(c, p.(tStart := false), BgpStart, env)
    case ConnectTimer(env) => EventUpdate(c, p.(tConnect := false), ConnectRetryExpired, env)
    case HoldTimer(env) => EventUpdate(c, p.(tHoldtime := false), HoldExpired, env)
    case KeepaliveTimer(env) => EventUpdate(c, p.(tKeepalive := false), KeepaliveExpired, env)
    case ClearQueueDone => EventAdd(p.(clearing := false), ClearingCompleted)
    case Nht(valid, singleHop) => NhtUpdate(p, valid, singleHop)
    case UpdateReceived => TimerSet(c, p.(tHoldtime := false))
    case Negotiate(hold) => p.(vHoldtime := hold)
    case ClearFamily(queued) => p.(clearing := p.clearing || queued)
  }

  /** A peer just configured, with its timers set. */
  function Fresh(c: Config): Peer {
    TimerSet(c, Peer(Idle, Idle, false, false, false, false, BGP_INIT_START_TIMER, c.holdtime, [], false, 0))
  }

  /** The states a run goes through, first to last. */
  ghost predicate IsRun(c: Config, states: seq<Peer>, steps: seq<Step>) {
    && |states| == |steps| + 1
    && states[0] == Fresh(c)
    && forall i :: 0 <= i < |steps| ==> Enabled(states[i], steps[i]) && states[i + 1] == Take(c, states[i], steps[i])
  }
}
