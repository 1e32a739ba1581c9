/**
  The peer object of the session state machine, with the handlers as methods
  that update its fields; each does to the peer what FsmSpec says.
 */
module Fsm {
  import opened FsmSpec

  class PeerObject {
    const cfg: Config
    var status: Status
    var ostatus: Status
    var tStart: bool
    var tConnect: bool
    var tHoldtime: bool
    var tKeepalive: bool
    var vStart: nat
    var vHoldtime: nat
    var events: seq<Event>
    var clearQueue: bool
    var clears: nat

    ghost function View(): Peer
      reads this
    {
      Peer(status, ostatus, tStart, tConnect, tHoldtime, tKeepalive, vStart, vHoldtime, events, clearQueue, clears)
    }

    constructor (cfg: Config)
      ensures this.cfg == cfg && View() == Fresh(cfg)
    {
      this.cfg := cfg;
      status, ostatus := Idle, Idle;
      tStart, tConnect, tHoldtime, tKeepalive := false, false, false, false;
      vStart, vHoldtime := BGP_INIT_START_TIMER, cfg.holdtime;
      events, clearQueue, clears := [], false, 0;
      new;
      SetTimers();
    }

    /** BGP_EVENT_ADD. */
    method AddEvent(e: Event)
      modifies this
      ensures View() == EventAdd(old(View()), e)
    {
      if status != Deleted {
        events := events + [e];
      }
    }

    /** `bgp_timer_set`. */
    method SetTimers()
      modifies this
      ensures View() == TimerSet(cfg, old(View()))
    {
      match status {
        case Idle =>
          if cfg.suppressed || !cfg.active {
            tStart := false;
          } else {
            tStart := true;
          }
          tConnect, tHoldtime, tKeepalive := false, false, false;
        case Connect =>
          tStart, tConnect, tHoldtime, tKeepalive := false, true, false, false;
        case Active =>
          tStart := false;
          if cfg.passive || cfg.nsfWait {
            tConnect := false;
          } else {
            tConnect := true;
          }
          tHoldtime, tKeepalive := false, false;
        case OpenSent =>
          tStart, tConnect := false, false;
          tHoldtime := vHoldtime != 0;
          tKeepalive := false;
        case OpenConfirm | Established =>
          tStart, tConnect := false, false;
          if vHoldtime == 0 {
            tHoldtime, tKeepalive := false, false;
          } else {
            tHoldtime, tKeepalive := true, true;
          }
        case Clearing | Deleted =>
          tStart, tConnect, tHoldtime, tKeepalive := false, false, false, false;
      }
    }

    /** `bgp_stop`. */
    method StopSession()
      modifies this
      ensures View() == StopPeer(cfg, old(View()))
    {
      if status != Clearing {
        events := [];
      }
      tStart, tConnect, tHoldtime, tKeepalive := false, false, false, false;
      vHoldtime := cfg.holdtime;
    }

    /** `bgp_fsm_change_status`. */
    method SetStatus(next: Status, hasRoutes: bool)
      modifies this
      ensures View() == ChangeStatus(old(View()), next, hasRoutes)
    {
      if next == Clearing || next == Deleted {
        clears := clears + 1;
        if hasRoutes {
          clearQueue := true;
        }
        if !clearQueue {
          AddEvent(ClearingCompleted);
        }
      }
      ostatus := status;
      status := next;
    }

    method BackOff()
      modifies this
      ensures View() == old(View()).(vStart := Backoff(old(vStart)))
    {
      vStart := vStart * 2;
      if vStart >= START_TIMER_MAX {
        vStart := START_TIMER_MAX;
      }
    }

    /** `bgp_write_notify`, reached through `bgp_notify_send`. */
    method SendNotify(written: bool)
      modifies this
      ensures View() == NotifySend(old(View()), written)
    {
      if !written {
        AddEvent(TcpFatalError);
        return;
      }
      BackOff();
      AddEvent(BgpStop);
    }

    /** `bgp_start`. */
    method StartSession(env: Env) returns (ok: bool)
      modifies this
      ensures Result(View(), ok) == StartPeer(cfg, old(View()), env)
    {
      if !env.addressKnown {
        return false;
      }
      if cfg.suppressed {
        return false;
      }
      if cfg.passive {
        AddEvent(TcpOpenFailed);
        return true;
      }
      match env.connect {
        case ConnectError => AddEvent(TcpOpenFailed);
        case ConnectNow => AddEvent(TcpOpen);
        case ConnectInProgress(fdValid) =>
          if !fdValid {
            return false;
          }
      }
      return true;
    }

    /** The handler functions named in the table. */
    method CallHandler(h: Handler, env: Env) returns (ok: bool)
      modifies this
      ensures Result(View(), ok) == Handle(h, cfg, old(View()), env)
    {
      ok := true;
      match h {
        case Start => ok := StartSession(env);
        case Stop | ConnectFail | Exception => StopSession();
        case Ignore | KeepaliveExpire =>
        case ConnectSuccess =>
          if !env.descriptor {
            StopSession();
            return false;
          }
          if !env.localAddress {
            SendNotify(env.notifyWritten);
            return false;
          }
        case Reconnect =>
          StopSession();
          var _ := StartSession(env);
        case HoldtimeExpire | EventError =>
          SendNotify(env.notifyWritten);
          vStart := BGP_INIT_START_TIMER;
          StopSession();
        case Open | Keepalive | Update => tHoldtime := false;
        case StopWithError =>
          BackOff();
          StopSession();
        case Establish =>
          vStart := BGP_INIT_START_TIMER;
          SetStatus(Established, env.hasRoutes);
        case ClearingDone =>
          StopSession();
          events := [];
      }
    }

    /** `bgp_event_update`. */
    method DispatchEvent(e: Event, env: Env)
      modifies this
      ensures View() == EventUpdate(cfg, old(View()), e, env)
    {
      var (h, next) := Table(status, e);
      hide Table, Handle;
      var ok := CallHandler(h, env);
      if ok {
        if next != status {
          SetStatus(next, env.hasRoutes);
        }
        SetTimers();
      } else {
        StopSession();
        SetStatus(Idle, env.hasRoutes);
        SetTimers();
      }
    }

    /** `bgp_fsm_nht_update`. */
    method NexthopChanged(valid: bool, singleHop: bool)
      modifies this
      ensures View() == NhtUpdate(old(View()), valid, singleHop)
    {
      match status {
        case Idle =>
          if valid {
            AddEvent(BgpStart);
          }
        case Connect =>
          if !valid {
            tConnect := false;
            AddEvent(TcpFatalError);
          }
        case Active =>
          if valid {
            tConnect := false;
            AddEvent(ConnectRetryExpired);
          }
        case OpenSent | OpenConfirm | Established =>
          if !valid && singleHop {
            AddEvent(TcpFatalError);
          }
        case Clearing | Deleted =>
      }
    }
  }
}
