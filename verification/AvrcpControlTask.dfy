/** The control command handlers of apps/sink/sink_avrcp.c as they run, updating one connection's
    entries in place. Each is proved to act as the function of `AvrcpControl` for it; the
    library's open requests and the histories of controls are ghost. */
module AvrcpControlTask {
  import opened Wrappers
  import opened AvrcpControl

  class Connection {
    var connected: bool
    var playStatus: PlayStatus
    var pending: bool
    var queueSize: nat
    var vendor: Option<Vendor>
    var queue: seq<Control>
    var vendorQueue: seq<Vendor>
    ghost var unconfirmed: nat
    ghost var queued: seq<Control>
    ghost var sent: seq<Control>

    ghost function View(): State
      reads this
    {
      State(connected, playStatus, pending, queueSize, vendor, queue, vendorQueue, unconfirmed, queued, sent)
    }

    constructor ()
      ensures View() == INITIAL
    {
      connected, playStatus, pending, queueSize := false, STOPPED, false, 0;
      vendor, queue, vendorQueue := None, [], [];
      unconfirmed, queued, sent := 0, [], [];
    }

    method SendControlMessage(control: Control, statusSupported: bool)
      modifies this
      ensures View() == Send(old(View()), control, statusSupported)
    {
      hide Seeking, Enqueue;
      if control != Nop {
        if control == FastForwardRelease || control == RewindRelease {
          if !Seeking(playStatus) {
            if !statusSupported {
              playStatus := ERROR;
              return;
            }
          }
        }
        SendConditionally(control);
      }
    }

    method SendConditionally(control: Control)
      modifies this
      ensures View() == Enqueue(old(View()), control)
    {
      queue := queue + [control];
      queued := queued + [control];
      if queueSize < MAX_PENDING_COMMANDS {
        queueSize := queueSize + 1;
      }
    }

    function QueueSpace(): (space: int)
      reads this
      ensures queueSize <= MAX_PENDING_COMMANDS ==> 0 <= space <= MAX_PENDING_COMMANDS
    {
      MAX_PENDING_COMMANDS - queueSize
    }

    /** A user action: its press and release, or its one control, behind the check for room. */
    method Act(action: Action, statusSupported: bool, groups: bool)
      modifies this
      ensures View() == User(old(View()), action, statusSupported, groups)
      ensures if IsTaken(old(View()), action, groups) then Queues(old(View()), action, statusSupported, View())
              else View() == old(View())
    {
      ActionQueues(View(), action, statusSupported, groups);
      hide Send, StatusAfter, Controls, SendAll, IsTaken, Queues;
      var controls := Controls(action);
      OneOrTwo(action);
      if (action == Play || action == Pause || connected) && QueueSpace() >= |controls|
          && (action == Pause ==> playStatus == PLAYING)
          && (action == SkipGroup || action == SkipGroupBack ==> groups) {
        SendBoth(View(), controls, statusSupported);
        SendControlMessage(controls[0], statusSupported);
        if |controls| == 2 {
          SendControlMessage(controls[1], statusSupported);
        }
        if !statusSupported {
          playStatus := StatusAfter(action, playStatus);
        }
      }
    }

    /** A passthrough or group command goes out, and nothing else until it is confirmed. */
    method SendRequest(control: Control)
      modifies this
      ensures View() == Request(old(View()), control)
    {
      pending := true;
      if queueSize > 0 {
        queueSize := queueSize - 1;
      }
      unconfirmed := unconfirmed + 1;
      sent := sent + [control];
    }

    method HandleControlSend()
      requires queue != []
      modifies this
      ensures View() == Deliver(old(View()))
    {
      var control := queue[0];
      queue := queue[1..];
      if !connected {
        return;
      }
      SendRequest(control);
    }

    method VendorUniquePassthroughRequest(command: Vendor, accepted: bool, memory: bool) returns (taken: bool)
      modifies this
      ensures View() == RequestVendor(old(View()), command, accepted, memory)
      ensures taken == (accepted && (old(pending) || old(vendor) != None || memory))
    {
      if !accepted {
        return false;
      }
      if !pending && vendor == None {
        if !memory {
          return false;
        }
        vendor := Some(command);
        pending := true;
        unconfirmed := unconfirmed + 1;
      } else {
        vendorQueue := vendorQueue + [command];
      }
      taken := true;
    }

    method HandleVendorMessage(accepted: bool, memory: bool)
      requires vendorQueue != []
      modifies this
      ensures View() == DeliverVendor(old(View()), accepted, memory)
    {
      var command := vendorQueue[0];
      vendorQueue := vendorQueue[1..];
      var _ := VendorUniquePassthroughRequest(command, accepted, memory);
    }

    method HandlePassthroughCfm()
      requires unconfirmed > 0
      modifies this
      ensures View() == Confirm(old(View()).(unconfirmed := old(unconfirmed) - 1))
    {
      unconfirmed := unconfirmed - 1;
      if connected {
        pending := false;
        if vendor != None {
          vendor := None;
        }
      }
    }

    method HandleConnect()
      requires !connected
      modifies this
      ensures View() == Connect(old(View()))
    {
      connected := true;
      playStatus := STOPPED;
    }

    method ResetConnection()
      modifies this
      ensures View() == Reset(old(View()).(unconfirmed := 0))
    {
      unconfirmed := 0;
      queue := [];
      connected := false;
      pending := false;
      queueSize := 0;
      if vendor != None {
        vendor := None;
      }
    }

    /** The connection was left for another: its queue is flushed. */
    method FlushControls()
      modifies this
      ensures View() == Flush(old(View()))
    {
      queue := [];
    }

    method Dispatch(e: Event)
      requires Enabled(View(), e)
      modifies this
      ensures View() == Step(old(View()), e)
    {
      hide User, Send, RequestVendor, Deliver, DeliverVendor, Confirm, Connect, Reset, Flush;
      match e {
        case UserActs(action, statusSupported, groups) => Act(action, statusSupported, groups);
        case Relayed(control, statusSupported) => SendControlMessage(control, statusSupported);
        case Delivered => HandleControlSend();
        case VendorAsked(command, accepted, memory) => var _ := VendorUniquePassthroughRequest(command, accepted, memory);
        case VendorDelivered(accepted, memory) => HandleVendorMessage(accepted, memory);
        case Confirmed => HandlePassthroughCfm();
        case ControlUp => HandleConnect();
        case ControlDown => ResetConnection();
        case Switched => FlushControls();
        case StatusTold(status) => playStatus := status;
      }
    }

    /** Serving any run of events ends where the run ends: with one request open at a time, with a
        queue that is counted if every control was queued behind the check for room, and counted
        exactly if every event came while the count could follow it. */
    method Serve(events: seq<Event>)
      requires IsRun(View(), events)
      modifies this
      ensures View() == RunFrom(old(View()), events)
      ensures OneAtATime(old(View())) ==> OneAtATime(View())
      ensures Guarded(events) && Counted(old(View())) ==> Counted(View())
      ensures CountedExactly(old(View())) && CountAlwaysFollows(old(View()), events) ==> CountedExactly(View())
      ensures PendingIsReal(old(View())) && VendorTakenWhileUp(old(View()), events) ==> PendingIsReal(View())
    {
      ghost var st := View();
      RunProperties(st, events);
      hide Enabled, Step, OneAtATime, Guarded, Counted, CountedExactly, CountAlwaysFollows, AlwaysExact,
        PendingIsReal, VendorTakenWhileUp, AlwaysReal;
      var i := 0;
      while i < |events|
        invariant i <= |events|
        invariant IsRun(View(), events[i..])
        invariant RunFrom(View(), events[i..]) == RunFrom(st, events)
      {
        assert events[i..][1..] == events[i + 1..];
        Dispatch(events[i]);
        i := i + 1;
      }
    }
  }

  lemma {:induction false} OneOrTwo(action: Action)
    ensures 1 <= |Controls(action)| <= 2
  {
  }

  lemma {:induction false} RunProperties(st: State, events: seq<Event>)
    requires IsRun(st, events)
    ensures OneAtATime(st) ==> OneAtATime(RunFrom(st, events))
    ensures Guarded(events) && Counted(st) ==> Counted(RunFrom(st, events))
    ensures CountedExactly(st) && CountAlwaysFollows(st, events) ==> CountedExactly(RunFrom(st, events))
    ensures PendingIsReal(st) && VendorTakenWhileUp(st, events) ==> PendingIsReal(RunFrom(st, events))
  {
    hide OneAtATime, Guarded, Counted, CountedExactly, CountAlwaysFollows, PendingIsReal, VendorTakenWhileUp,
      AlwaysExact, AlwaysReal, RunFrom, IsRun;
    if OneAtATime(st) { RunKeepsOne(st, events); }
    if Guarded(events) && Counted(st) { RunCounts(st, events); }
    if CountedExactly(st) && CountAlwaysFollows(st, events) {
      CountExactIff(st, events);
      EndIsExact(st, events);
    }
    if PendingIsReal(st) && VendorTakenWhileUp(st, events) {
      PendingRealIff(st, events);
      EndIsReal(st, events);
    }
  }

  lemma {:induction false} SendBoth(st: State, controls: seq<Control>, statusSupported: bool)
    requires 1 <= |controls| <= 2
    ensures var first := Send(st, controls[0], statusSupported);
            SendAll(st, controls, statusSupported)
              == if |controls| == 2 then Send(first, controls[1], statusSupported) else first
  {
    hide Send;
    var first := Send(st, controls[0], statusSupported);
    assert SendAll(st, controls, statusSupported) == SendAll(first, controls[1..], statusSupported);
    if |controls| == 2 {
      assert controls[1..][1..] == [];
    } else {
      assert controls[1..] == [];
    }
  }
}
