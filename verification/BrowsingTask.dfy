/** The browsing channel handlers of apps/sink/sink_avrcp_browsing.c as they run, updating one
    connection's entries in place. Each is proved to act as the function of `BrowsingChannel`
    it is named after; the library and the calls made into it are ghost. */
module BrowsingTask {
  import opened BrowsingChannel

  class Connection {
    var connected: bool
    var active: bool
    var avrcp: nat
    var channel: Channel
    var scope: nat
    var held: seq<Held>
    var idle: seq<nat>
    ghost var libs: map<nat, Library>
    ghost var log: seq<Entry>

    ghost function View(): State
      reads this
    {
      State(connected, active, avrcp, channel, scope, held, idle, libs, log)
    }

    constructor ()
      ensures View() == INITIAL
    {
      connected, active, avrcp := false, false, 0;
      channel, scope, held, idle := Disconnected, 0, [], [];
      libs, log := map[], [];
    }

    /** A call into the library. */
    ghost method Call(call: Call)
      modifies this`libs, this`log
      ensures View() == Tell(old(View()), call)
    {
      var lib := LibOf(View(), avrcp);
      log := log + [Entry(call, lib)];
      libs := libs[avrcp := Accept(lib, call)];
    }

    method InitConnection()
      modifies this
      ensures View() == Init(old(View()))
    {
      channel := Disconnected;
      scope := 0;
      held, idle := [], [];
    }

    method RequestConnect()
      modifies this
      ensures View() == ConnectRequest(old(View()))
    {
      if connected && avrcp != 0 {
        if channel == Disconnected {
          channel := Pending;
          Call(ConnectCall);
        } else if channel == Disconnecting {
          channel := Pending;
        }
      }
    }

    method RequestDisconnect(instance: nat)
      modifies this
      ensures View() == DisconnectRequest(old(View()), instance)
    {
      if instance != 0 && avrcp == instance {
        if channel == Connected {
          channel := Disconnecting;
          Call(DisconnectCall);
        }
      }
    }

    method HoldRequest(request: Request, guard: Guard)
      modifies this
      ensures View() == Hold(old(View()), request, guard)
    {
      held := held + [Held(request, guard)];
    }

    method Retrieve(listing: Scope, supported: bool) returns (taken: bool)
      modifies this
      ensures View() == Ask(old(View()), GetFolderItems(listing), supported)
      ensures taken == old(active && connected && supported)
    {
      if !active || !connected || !supported {
        return false;
      }
      if channel == Connected {
        idle := [];
        if scope != 0 {
          HoldRequest(GetFolderItems(listing), OnScope);
        } else {
          scope := ScopeNumber(listing);
          Call(RequestCall(GetFolderItems(listing)));
        }
      } else {
        RequestConnect();
        HoldRequest(GetFolderItems(listing), OnChannel);
      }
      taken := true;
    }

    method SendCommand(command: nat, supported: bool) returns (taken: bool)
      modifies this
      ensures View() == Ask(old(View()), Command(command), supported)
      ensures taken == old(active && connected && supported)
    {
      if !active || !connected || !supported {
        return false;
      }
      SendOrHold(Command(command));
      taken := true;
    }

    method SendOrHold(request: Request)
      requires !request.GetFolderItems?
      modifies this
      ensures View() == if old(channel) == Connected then SendNow(old(View()), request)
                        else Hold(ConnectRequest(old(View())), request, OnChannel)
    {
      if channel == Connected {
        idle := [];
        Call(RequestCall(request));
      } else {
        RequestConnect();
        HoldRequest(request, OnChannel);
      }
    }

    method RetrieveTrack(track: nat)
      modifies this
      ensures View() == Ask(old(View()), Track(track), true)
    {
      SendOrHold(Track(track));
    }

    /** avrcpBrowsingHandler, on a held message */
    method Handle(k: nat, supported: bool)
      requires k < |held|
      modifies this
      ensures View() == Deliver(old(View()), k, supported)
    {
      var request := held[k].request;
      held := held[..k] + held[k + 1..];
      AskFor(request, supported);
    }

    method HandleIdle(k: nat)
      requires k < |idle|
      modifies this
      ensures View() == IdleFired(old(View()), k)
    {
      var instance := idle[k];
      idle := idle[..k] + idle[k + 1..];
      RequestDisconnect(instance);
    }

    method HandleAttributes(instance: nat)
      modifies this
      ensures View() == AttributesConfirmed(old(View()), instance)
    {
      if instance != 0 && avrcp == instance && channel == Connected {
        idle := idle + [instance];
      }
    }

    method HandleConnectInd()
      requires connected
      modifies this
      ensures View() == ConnectInd(old(View()))
    {
      channel := Pending;
      Call(ConnectResponse);
    }

    method HandleConnectCfm(instance: nat, success: bool)
      modifies this
      ensures View() == ConnectCfm(old(View()), instance, success)
    {
      if instance != 0 && avrcp == instance {
        if success {
          channel := Connected;
          if !connected || !active {
            RequestDisconnect(avrcp);
          }
        } else {
          if channel == Pending {
            channel := Disconnected;
            held, idle := [], [];
          }
          if !connected {
            avrcp := 0;
          }
        }
      }
    }

    method HandleDisconnectInd(instance: nat)
      modifies this
      ensures View() == DisconnectInd(old(View()), instance)
    {
      if instance != 0 && avrcp == instance {
        var was := channel;
        InitConnection();
        idle := [];
        if was == Pending {
          RequestConnect();
        } else if !connected {
          avrcp := 0;
        }
      }
    }

    method HandleFolderItemsCfm(instance: nat)
      modifies this
      ensures View() == FolderItemsConfirmed(old(View()), instance)
    {
      if connected && instance != 0 && avrcp == instance {
        scope := 0;
      }
    }

    method HandleControlConnect(instance: nat)
      requires !connected && instance != 0
      modifies this
      ensures View() == ControlConnected(old(View()), instance)
    {
      connected := true;
      avrcp := instance;
    }

    method HandleControlDisconnect()
      requires connected
      modifies this
      ensures View() == ControlDisconnected(old(View()))
    {
      var was := channel;
      RequestDisconnect(avrcp);
      if was == Disconnected {
        avrcp := 0;
      }
      connected := false;
    }

    method HandleAclClosed()
      modifies this
      ensures View() == AclClosed(old(View()))
    {
      connected := false;
      InitConnection();
    }

    method Leave()
      modifies this
      ensures View() == Deactivate(old(View()))
    {
      held, idle := [], [];
      RequestDisconnect(avrcp);
      active := false;
    }

    method AskFor(request: Request, supported: bool)
      modifies this
      ensures View() == Ask(old(View()), request, supported)
    {
      match request {
        case GetFolderItems(listing) =>
          var _ := Retrieve(listing, supported);
        case Command(command) =>
          var _ := SendCommand(command, supported);
        case Track(track) =>
          RetrieveTrack(track);
      }
    }

    /** What the library has for an instance changes before it says so. */
    ghost method LibraryTurns(instance: nat, lib: Library)
      modifies this`libs
      ensures View() == WithLib(old(View()), instance, lib)
    {
      libs := libs[instance := lib];
    }

    method Dispatch(e: Event)
      requires Enabled(View(), e)
      modifies this
      ensures View() == Step(old(View()), e)
    {
      hide Ask, Deliver, IdleFired, ConnectInd, ConnectCfm, DisconnectInd, FolderItemsConfirmed, AttributesConfirmed;
      hide ControlDisconnected, AclClosed, Deactivate, LibOf, WithLib;
      match e {
        case Asked(request, supported) => AskFor(request, supported);
        case Delivered(k, supported) => Handle(k, supported);
        case IdleTimer(k) => HandleIdle(k);
        case ConnectIndicated => HandleConnectInd();
        case ConnectConfirmed(instance, success) =>
          LibraryTurns(instance, if success then LibOf(View(), instance).(channel := LibraryChannel.Up) else NO_CHANNEL);
          HandleConnectCfm(instance, success);
        case DisconnectIndicated(instance) =>
          LibraryTurns(instance, NO_CHANNEL);
          HandleDisconnectInd(instance);
        case ListingConfirmed(instance) =>
          LibraryTurns(instance, LibOf(View(), instance).(listings := LibOf(View(), instance).listings[1..]));
          HandleFolderItemsCfm(instance);
        case AttributesCame(instance) => HandleAttributes(instance);
        case ControlUp(instance) => HandleControlConnect(instance);
        case ControlDown => HandleControlDisconnect();
        case LinkLost(gone) =>
          LibraryTurns(gone, NO_CHANNEL);
          HandleAclClosed();
        case LeftForAnother => Leave();
        case ActiveIs(now) => active := now;
      }
    }

    /** Serving any run of events ends where the run ends: connection and library still agree if
        they did and the slot was kept, and then every call into the library was a proper one. */
    method Serve(events: seq<Event>)
      requires IsRun(View(), events)
      modifies this
      ensures View() == RunFrom(old(View()), events)
      ensures Invariant(old(View())) && SlotAlwaysKept(old(View()), events) ==> Invariant(View()) && AllProper(log)
    {
      ghost var st := View();
      if Invariant(st) && SlotAlwaysKept(st, events) {
        RunKeeps(st, events);
      }
      hide Enabled, Step, Invariant, SlotAlwaysKept;
      var i := 0;
      while i < |events|
        invariant i <= |events|
        invariant IsRun(View(), events[i..])
        invariant RunFrom(View(), events[i..]) == RunFrom(st, events)
      {
        assert events[i..][1..] == events[i + 1..];
        Dispatch(events[i]);
        i := i + 1;
      }
    }
  }
}
