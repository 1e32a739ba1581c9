/**
  The update-delay bookkeeping of a BGP instance: while the initial delay is not
  over, `established` counts the peers that are up, across any interleaving of
  session changes of any number of peers.
 */
module UpdateDelay {
  import opened FsmSpec

  /** The peers of an instance, and its update-delay fields; the delay is configured from the start. */
  datatype Instance = Instance(status: map<nat, Status>, established: int, over: bool, tDelay: bool)

  /** `bgp_update_delay_end`. */
  function DelayEnd(b: Instance): Instance {
    b.(tDelay := false, over := true, established := 0)
  }

  /**
    The update-delay part of `bgp_fsm_change_status`.  `complete` says that the
    peer had restarted and was the last one waited for, which ends the delay.
   */
  function PeerChanges(b: Instance, peer: nat, next: Status, complete: bool): Instance
    requires peer in b.status
  {
    var was := b.status[peer];
    var c := b.(status := b.status[peer := next]);
    if c.over then c
    else
      var d := if next == Established then
                 var up := c.(established := c.established + 1, tDelay := c.tDelay || c.established == 0);
                 if complete && up.tDelay then DelayEnd(up) else up
               else c;
      if was == Established && d.tDelay then d.(established := d.established - 1) else d
  }

  datatype Step =
    | AddPeer(peer: nat)
    | RemovePeer(peer: nat)
    | Change(peer: nat, next: Status, complete: bool)
    /** the delay timer or the establish-wait timer ends the delay */
    | End

  ghost predicate Enabled(b: Instance, s: Step) {
    match s
    case AddPeer(p) => p !in b.status
    case RemovePeer(p) => p in b.status && b.status[p] != Established
    case Change(p, _, _) => p in b.status
    case End => b.tDelay
  }

  function Take(b: Instance, s: Step): Instance
    requires s.Change? ==> s.peer in b.status
  {
    match s
    case AddPeer(p) => b.(status := b.status[p := Idle])
    case RemovePeer(p) => b.(status := b.status - {p})
    case Change(p, next, complete) => PeerChanges(b, p, next, complete)
    case End => DelayEnd(b)
  }

  ghost function Up(status: map<nat, Status>): set<nat> {
    set p | p in status && status[p] == Established
  }

  /** Until the delay is over the count is exact, and the delay timer runs whenever a peer is up. */
  ghost predicate Counted(b: Instance) {
    !b.over ==> b.established == |Up(b.status)| && (b.established > 0 ==> b.tDelay)
  }

  lemma UpAfter(status: map<nat, Status>, peer: nat, next: Status)
    ensures |Up(status[peer := next])| ==
      |Up(status)| - (if peer in Up(status) then 1 else 0) + (if next == Established then 1 else 0)
  {
    var a, b := Up(status), Up(status[peer := next]);
    assert b == (a - {peer}) + (if next == Established then {peer} else {});
  }

  lemma UpWithout(status: map<nat, Status>, peer: nat)
    requires peer !in Up(status)
    ensures Up(status - {peer}) == Up(status)
  {
  }

  lemma StepCounted(b: Instance, s: Step)
    requires Counted(b) && Enabled(b, s)
    ensures Counted(Take(b, s))
  {
    match s
    case AddPeer(p) => UpAfter(b.status, p, Idle);
    case RemovePeer(p) => UpWithout(b.status, p);
    case Change(p, next, _) =>
      UpAfter(b.status, p, next);
      if b.status[p] == Established {
        assert p in Up(b.status);
        assert |Up(b.status)| > 0;
      }
    case End =>
  }

  ghost predicate IsRun(states: seq<Instance>, steps: seq<Step>) {
    && |states| == |steps| + 1
    && states[0] == Instance(map[], 0, false, false)
    && forall i :: 0 <= i < |steps| ==> Enabled(states[i], steps[i]) && states[i + 1] == Take(states[i], steps[i])
  }

  /** For any interleaving of flaps over any number of peers, `established` counts the peers that are up. */
  lemma {:induction false} EstablishedCounts(states: seq<Instance>, steps: seq<Step>, i: nat)
    requires IsRun(states, steps) && i < |states|
    ensures Counted(states[i])
  {
    if i == 0 {
      assert Up(map[]) == {};
    } else {
      EstablishedCounts(states, steps, i - 1);
      StepCounted(states[i - 1], steps[i - 1]);
    }
  }

  /**
    One status change: the delay ends exactly when the last peer waited for comes
    up, and until then its timer runs from the first session on.
   */
  lemma {:induction false} ChangeMeans(b: Instance, peer: nat, next: Status, complete: bool)
    requires Counted(b) && peer in b.status
    ensures
      var c := PeerChanges(b, peer, next, complete);
      && c.status == b.status[peer := next]
      && (c.over <==> b.over || (next == Established && complete))
      && (!b.over && c.over ==> c.established == 0 && !c.tDelay)
      && (!c.over ==> (c.tDelay <==> b.tDelay || next == Established))
      && (b.over ==> c.established == b.established && c.tDelay == b.tDelay)
  {
    if b.status[peer] == Established {
      assert peer in Up(b.status);
      assert |Up(b.status)| > 0;
    }
  }

  /** What ends the delay: its timers, or the last peer waited for coming up. */
  ghost predicate Ends(s: Step) {
    s.End? || (s.Change? && s.next == Established && s.complete)
  }

  /** In every run the delay is over exactly from the first such step on. */
  lemma {:induction false} OverIff(states: seq<Instance>, steps: seq<Step>, i: nat)
    requires IsRun(states, steps) && i < |states|
    ensures states[i].over <==> exists k :: 0 <= k < i && Ends(steps[k])
  {
    if i > 0 {
      OverIff(states, steps, i - 1);
      EstablishedCounts(states, steps, i - 1);
      var s := steps[i - 1];
      if s.Change? {
        ChangeMeans(states[i - 1], s.peer, s.next, s.complete);
      }
      assert states[i].over <==> states[i - 1].over || Ends(s);
      assert (exists k :: 0 <= k < i && Ends(steps[k])) <==> (exists k :: 0 <= k < i - 1 && Ends(steps[k])) || Ends(s);
    }
  }

  class BgpInstance {
    var status: map<nat, Status>
    var established: int
    var updateDelayOver: bool
    var tUpdateDelay: bool

    ghost function View(): Instance
      reads this
    {
      Instance(status, established, updateDelayOver, tUpdateDelay)
    }

    constructor ()
      ensures View() == Instance(map[], 0, false, false)
    {
      status, established, updateDelayOver, tUpdateDelay := map[], 0, false, false;
    }

    /** `bgp_update_delay_end`. */
    method EndDelay()
      modifies this
      ensures View() == DelayEnd(old(View()))
    {
      tUpdateDelay := false;
      updateDelayOver := true;
      established := 0;
    }

    /** `bgp_update_delay_process_status_change`, after the status fields were set. */
    method ProcessStatusChange(peer: nat, ostatus: Status, complete: bool)
      requires peer in status
      modifies this`established, this`updateDelayOver, this`tUpdateDelay
      ensures old(!updateDelayOver) ==> View() == PeerChanges(old(View()).(status := status[peer := ostatus]), peer, status[peer], complete)
    {
      assert status[peer := ostatus][peer := status[peer]] == status;
      if status[peer] == Established {
        if established == 0 {
          tUpdateDelay := true;
        }
        established := established + 1;
        if complete && tUpdateDelay {
          tUpdateDelay := false;
          updateDelayOver := true;
          established := 0;
        }
      }
      if ostatus == Established && tUpdateDelay {
        established := established - 1;
      }
    }

    /** The status and update-delay part of `bgp_fsm_change_status`. */
    method ChangePeer(peer: nat, next: Status, complete: bool)
      requires peer in status && Counted(View())
      modifies this
      ensures View() == PeerChanges(old(View()), peer, next, complete)
      ensures Counted(View())
    {
      StepCounted(View(), Change(peer, next, complete));
      var ostatus := status[peer];
      ghost var before := status;
      status := status[peer := next];
      assert status[peer := ostatus] == before;
      if !updateDelayOver {
        ProcessStatusChange(peer, ostatus, complete);
      }
    }
  }
}
