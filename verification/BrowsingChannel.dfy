/** The browsing channel of one AVRCP connection (apps/sink/sink_avrcp_browsing.c, with the
    connection handlers of apps/sink/sink_avrcp.c that touch it): how the channel is brought up
    and down around requests, and the scope lock that keeps folder listings apart. The AVRCP
    library is the environment; it answers only what it was asked, by instance. */
module BrowsingChannel {

  /** browsing_channel_state; `Connected` is zero, so a message held for the channel is
      delivered once it is connected. */
  datatype Channel = Connected | Disconnected | Pending | Disconnecting

  datatype Scope = MediaPlayer | VirtualFilesystem | Search | NowPlaying

  /** SCOPE_NON_ZERO; zero is a free lock. */
  function ScopeNumber(scope: Scope): nat {
    match scope
    case MediaPlayer => 1
    case VirtualFilesystem => 2
    case Search => 3
    case NowPlaying => 4
  }

  /** A browsing command: a folder listing, or one of the commands that need no lock. */
  datatype Request = GetFolderItems(scope: Scope) | Command(command: nat) | Track(track: nat)

  /** A message to the connection's handler, held until a guard word is zero. */
  datatype Guard = OnChannel | OnScope
  datatype Held = Held(request: Request, guard: Guard)

  // ---------- The library ----------

  datatype LibraryChannel = Idle | Connecting | Up | Closing
  datatype Library = Library(channel: LibraryChannel, listings: seq<Scope>)

  datatype Call = ConnectCall | DisconnectCall | ConnectResponse | RequestCall(request: Request)

  /** A call into the library and the state it found the instance's channel in. */
  datatype Entry = Entry(call: Call, found: Library)

  function Accept(lib: Library, call: Call): Library {
    match call
    case ConnectCall => lib.(channel := Connecting)
    case ConnectResponse => lib.(channel := Connecting)
    case DisconnectCall => lib.(channel := Closing)
    case RequestCall(request) =>
      if request.GetFolderItems? then lib.(listings := lib.listings + [request.scope]) else lib
  }

  /** What the library may be asked, and when. */
  predicate Proper(e: Entry) {
    match e.call
    case ConnectCall => e.found.channel == Idle
    case ConnectResponse => e.found.channel == Idle
    case DisconnectCall => e.found.channel == Up
    case RequestCall(request) => e.found.channel == Up && (request.GetFolderItems? ==> e.found.listings == [])
  }

  // ---------- The connection ----------

  /** `avrcp` is the library's instance, zero for NULL; `idle` holds the pending requests to
      close an idle channel, each with the instance it names; `libs` holds what the library has
      for each instance this connection has had. */
  datatype State = State(
    connected: bool, active: bool, avrcp: nat, channel: Channel, scope: nat,
    held: seq<Held>, idle: seq<nat>, libs: map<nat, Library>, log: seq<Entry>)

  const NO_CHANNEL := Library(Idle, [])

  function LibOf(st: State, instance: nat): Library {
    if instance in st.libs then st.libs[instance] else NO_CHANNEL
  }

  function WithLib(st: State, instance: nat, lib: Library): State {
    st.(libs := st.libs[instance := lib])
  }

  function Tell(st: State, call: Call): State {
    WithLib(st, st.avrcp, Accept(LibOf(st, st.avrcp), call)).(log := st.log + [Entry(call, LibOf(st, st.avrcp))])
  }

  function Hold(st: State, request: Request, guard: Guard): State {
    st.(held := st.held + [Held(request, guard)])
  }

  /** sinkAvrcpBrowsingInit for this connection */
  function Init(st: State): State {
    st.(channel := Disconnected, scope := 0, held := [], idle := [])
  }

  /** sinkAvrcpBrowsingConnectRequest: only a connected instance is found. */
  function ConnectRequest(st: State): State {
    if !st.connected || st.avrcp == 0 then st
    else if st.channel == Disconnected then Tell(st.(channel := Pending), ConnectCall)
    else if st.channel == Disconnecting then st.(channel := Pending)
    else st
  }

  /** sinkAvrcpBrowsingDisconnectRequest */
  function DisconnectRequest(st: State, avrcp: nat): State {
    if avrcp != 0 && st.avrcp == avrcp && st.channel == Connected
    then Tell(st.(channel := Disconnecting), DisconnectCall)
    else st
  }

  /** Sends a request on a connected channel, with its scope locked for a listing. */
  function SendNow(st: State, request: Request): State {
    var s := st.(idle := []);
    match request
    case GetFolderItems(scope) =>
      if s.scope != 0 then Hold(s, request, OnScope)
      else Tell(s.(scope := ScopeNumber(scope)), RequestCall(request))
    case _ => Tell(s, RequestCall(request))
  }

  /** The request functions: all but the track request act on the active connection and only
      if it is connected and supports browsing. */
  function Ask(st: State, request: Request, supported: bool): State {
    if !request.Track? && !(st.active && st.connected && supported) then st
    else if st.channel == Connected then SendNow(st, request)
    else Hold(ConnectRequest(st), request, OnChannel)
  }

  function Deliver(st: State, k: nat, supported: bool): State
    requires k < |st.held|
  {
    Ask(st.(held := st.held[..k] + st.held[k + 1..]), st.held[k].request, supported)
  }

  /** AVRCP_BROWSING_DISCONNECT_IDLE */
  function IdleFired(st: State, k: nat): State
    requires k < |st.idle|
  {
    DisconnectRequest(st.(idle := st.idle[..k] + st.idle[k + 1..]), st.idle[k])
  }

  /** sinkAvrcpBrowsingGetIndexFromInstance, for this connection */
  predicate IsInstance(st: State, instance: nat) {
    instance != 0 && st.avrcp == instance
  }

  /** sinkAvrcpBrowsingDisconnectOnIdleRequest, after item attributes arrived */
  function AttributesConfirmed(st: State, instance: nat): State {
    if IsInstance(st, instance) && st.channel == Connected then st.(idle := st.idle + [instance]) else st
  }

  /** sinkAvrcpBrowsingConnectInd on a connected instance */
  function ConnectInd(st: State): State {
    Tell(st.(channel := Pending), ConnectResponse)
  }

  /** sinkAvrcpBrowsingConnectCfm */
  function ConnectCfm(st: State, instance: nat, success: bool): State {
    if !IsInstance(st, instance) then st
    else if success then
      var s := st.(channel := Connected);
      if !s.connected || !s.active then DisconnectRequest(s, s.avrcp) else s
    else
      var s := if st.channel == Pending then st.(channel := Disconnected, held := [], idle := []) else st;
      if !s.connected then s.(avrcp := 0) else s
  }

  /** sinkAvrcpBrowsingDisconnectInd */
  function DisconnectInd(st: State, instance: nat): State {
    if !IsInstance(st, instance) then st
    else
      var s := Init(st);
      if st.channel == Pending then ConnectRequest(s)
      else if !s.connected then s.(avrcp := 0)
      else s
  }

  /** The end of sinkAvrcpBrowsingGetFolderItemsCfm: the lock is freed if the instance is still connected. */
  function FolderItemsConfirmed(st: State, instance: nat): State {
    if st.connected && IsInstance(st, instance) then st.(scope := 0) else st
  }

  /** handleAvrcpConnectCfm on success: the slot takes the instance, whatever it held before. */
  function ControlConnected(st: State, avrcp: nat): State {
    st.(connected := true, avrcp := avrcp)
  }

  /** handleAvrcpDisconnectInd */
  function ControlDisconnected(st: State): State {
    var s := DisconnectRequest(st, st.avrcp);
    var s := if st.channel == Disconnected then s.(avrcp := 0) else s;
    s.(connected := false)
  }

  /** sinkAvrcpAclClosed */
  function AclClosed(st: State): State {
    Init(st.(connected := false))
  }

  /** sinkAvrcpSetActiveConnection and sinkAvrcpToggleActiveConnection, for the connection left */
  function Deactivate(st: State): State {
    DisconnectRequest(st.(held := [], idle := []), st.avrcp).(active := false)
  }

  // ---------- Runs ----------

  /** What the library says names an instance. `LinkLost` is for the device whose address the slot
      holds, `gone` being its instance if it has one. */
  datatype Event =
    | Asked(request: Request, supported: bool)
    | Delivered(k: nat, supported: bool)
    | IdleTimer(k: nat)
    | ConnectIndicated
    | ConnectConfirmed(instance: nat, success: bool)
    | DisconnectIndicated(instance: nat)
    | ListingConfirmed(instance: nat)
    | AttributesCame(instance: nat)
    | ControlUp(avrcp: nat)
    | ControlDown
    | LinkLost(gone: nat)
    | LeftForAnother
    | ActiveIs(active: bool)

  predicate GuardIsZero(st: State, guard: Guard) {
    if guard == OnChannel then st.channel == Connected else st.scope == 0
  }

  /** What can happen: a held message only when its guard is zero, and from the library only
      answers to what it was asked, for an instance whose channel is in the right state. A free
      slot can be taken by any instance. */
  predicate Enabled(st: State, e: Event) {
    match e
    case Asked(request, _) => request.Track? ==> st.avrcp != 0
    case Delivered(k, _) => k < |st.held| && GuardIsZero(st, st.held[k].guard)
    case IdleTimer(k) => k < |st.idle|
    case ConnectIndicated => st.connected && LibOf(st, st.avrcp).channel == Idle
    case ConnectConfirmed(instance, _) => LibOf(st, instance).channel == Connecting
    case DisconnectIndicated(instance) => LibOf(st, instance).channel == Up || LibOf(st, instance).channel == Closing
    case ListingConfirmed(instance) => LibOf(st, instance).listings != []
    case AttributesCame(_) => true
    case ControlUp(avrcp) => !st.connected && avrcp != 0
    case ControlDown => st.connected
    case LinkLost(gone) => st.connected ==> gone == st.avrcp
    case LeftForAnother => st.active
    case ActiveIs(_) => true
  }

  /** The library's side of an event, before the handler runs. */
  function Confirmed(st: State, instance: nat, success: bool): State {
    WithLib(st, instance, if success then LibOf(st, instance).(channel := Up) else NO_CHANNEL)
  }

  function Answered(st: State, instance: nat): State
    requires LibOf(st, instance).listings != []
  {
    WithLib(st, instance, LibOf(st, instance).(listings := LibOf(st, instance).listings[1..]))
  }

  function Step(st: State, e: Event): State
    requires Enabled(st, e)
  {
    match e
    case Asked(request, supported) => Ask(st, request, supported)
    case Delivered(k, supported) => Deliver(st, k, supported)
    case IdleTimer(k) => IdleFired(st, k)
    case ConnectIndicated => ConnectInd(st)
    case ConnectConfirmed(instance, success) => ConnectCfm(Confirmed(st, instance, success), instance, success)
    case DisconnectIndicated(instance) => DisconnectInd(WithLib(st, instance, NO_CHANNEL), instance)
    case ListingConfirmed(instance) => FolderItemsConfirmed(Answered(st, instance), instance)
    case AttributesCame(instance) => AttributesConfirmed(st, instance)
    case ControlUp(avrcp) => ControlConnected(st, avrcp)
    case ControlDown => ControlDisconnected(st)
    case LinkLost(gone) => AclClosed(WithLib(st, gone, NO_CHANNEL))
    case LeftForAnother => Deactivate(st)
    case ActiveIs(active) => st.(active := active)
  }

  predicate IsRun(st: State, events: seq<Event>)
    decreases events
  {
    events == [] || (Enabled(st, events[0]) && IsRun(Step(st, events[0]), events[1..]))
  }

  function RunFrom(st: State, events: seq<Event>): State
    requires IsRun(st, events)
    decreases events
  {
    if events == [] then st else RunFrom(Step(st, events[0]), events[1..])
  }

  const INITIAL := State(false, false, 0, Disconnected, 0, [], [], map[], [])

  // ---------- What every run keeps ----------

  /** The connection and the library agree about the channel. */
  predicate ChannelsAgree(channel: Channel, lib: LibraryChannel) {
    match lib
    case Idle => channel == Disconnected
    case Connecting => channel == Pending
    case Up => channel == Connected
    case Closing => channel == Disconnecting || channel == Pending
  }

  /** The lock is held for the one listing asked for; once the channel is closing it may
      outlive the answer, until the channel is down. */
  predicate LockHeld(scope: nat, lib: Library) {
    && |lib.listings| <= 1
    && (lib.listings != [] ==> scope == ScopeNumber(lib.listings[0]))
    && (scope != 0 ==> lib.channel == Closing || (lib.channel == Up && lib.listings != []))
  }

  predicate AllProper(log: seq<Entry>) {
    forall i :: 0 <= i < |log| ==> Proper(log[i])
  }

  /** Every pending request to close an idle channel names this instance. */
  predicate IdleNames(idle: seq<nat>, avrcp: nat) {
    forall k :: 0 <= k < |idle| ==> idle[k] == avrcp
  }

  /** No other instance has a channel that this connection would not hear of. */
  predicate OthersDown(libs: map<nat, Library>, avrcp: nat) {
    forall instance :: instance in libs && instance != avrcp ==> libs[instance] == NO_CHANNEL
  }

  predicate Invariant(st: State) {
    && ChannelsAgree(st.channel, LibOf(st, st.avrcp).channel)
    && LockHeld(st.scope, LibOf(st, st.avrcp))
    && OthersDown(st.libs, st.avrcp)
    && (st.channel == Connected ==> st.connected)
    && (st.connected ==> st.avrcp != 0)
    && (st.avrcp == 0 ==> st.channel == Disconnected)
    && IdleNames(st.idle, st.avrcp)
    && (st.channel == Disconnected ==> st.idle == [])
    && AllProper(st.log)
  }

  lemma {:induction false} ProperAppend(log: seq<Entry>, e: Entry)
    requires AllProper(log) && Proper(e)
    ensures AllProper(log + [e])
  {
  }

  lemma {:induction false} ConnectKeeps(st: State)
    requires Invariant(st)
    ensures Invariant(ConnectRequest(st))
    ensures var s := ConnectRequest(st); s == st.(channel := s.channel, libs := s.libs, log := s.log)
  {
    hide AllProper;
    if st.connected && st.avrcp != 0 && st.channel == Disconnected {
      ProperAppend(st.log, Entry(ConnectCall, LibOf(st, st.avrcp)));
    }
  }

  lemma {:induction false} DisconnectKeeps(st: State, avrcp: nat)
    requires ChannelsAgree(st.channel, LibOf(st, st.avrcp).channel) && LockHeld(st.scope, LibOf(st, st.avrcp))
    requires OthersDown(st.libs, st.avrcp) && AllProper(st.log)
    requires (st.connected || st.channel == Connected ==> st.avrcp != 0) && (st.avrcp == 0 ==> st.channel == Disconnected)
    requires st.channel == Connected && avrcp != st.avrcp ==> st.connected
    requires IdleNames(st.idle, st.avrcp) && (st.channel == Disconnected ==> st.idle == [])
    ensures Invariant(DisconnectRequest(st, avrcp))
    ensures var s := DisconnectRequest(st, avrcp); s == st.(channel := s.channel, libs := s.libs, log := s.log)
    ensures avrcp == st.avrcp ==> DisconnectRequest(st, avrcp).channel != Connected
  {
    hide AllProper;
    if avrcp != 0 && st.avrcp == avrcp && st.channel == Connected {
      ProperAppend(st.log, Entry(DisconnectCall, LibOf(st, st.avrcp)));
    }
  }

  lemma {:induction false} SendKeeps(st: State, request: Request)
    requires Invariant(st) && st.channel == Connected
    ensures Invariant(SendNow(st, request))
  {
    hide AllProper;
    if !(request.GetFolderItems? && st.scope != 0) {
      ProperAppend(st.log, Entry(RequestCall(request), LibOf(st, st.avrcp)));
    }
  }

  lemma {:induction false} AskKeeps(st: State, request: Request, supported: bool)
    requires Invariant(st)
    ensures Invariant(Ask(st, request, supported))
  {
    hide AllProper, ConnectRequest, SendNow, ChannelsAgree, LockHeld;
    ConnectKeeps(st);
    if st.channel == Connected {
      SendKeeps(st, request);
    }
  }

  lemma {:induction false} ConfirmKeeps(st: State, instance: nat, success: bool)
    requires Invariant(st) && LibOf(st, instance).channel == Connecting
    ensures Invariant(ConnectCfm(Confirmed(st, instance, success), instance, success))
  {
    assert instance == st.avrcp;
    hide AllProper;
    if success {
      var s := Confirmed(st, instance, success).(channel := Connected);
      DisconnectKeeps(s, s.avrcp);
    }
  }

  lemma {:induction false} DownKeeps(st: State, instance: nat)
    requires Invariant(st) && (LibOf(st, instance).channel == Up || LibOf(st, instance).channel == Closing)
    ensures Invariant(DisconnectInd(WithLib(st, instance, NO_CHANNEL), instance))
  {
    assert instance == st.avrcp;
    hide AllProper;
    ConnectKeeps(Init(WithLib(st, instance, NO_CHANNEL)));
  }

  lemma {:induction false} AnswerKeeps(st: State, instance: nat)
    requires Invariant(st) && LibOf(st, instance).listings != []
    ensures Invariant(FolderItemsConfirmed(Answered(st, instance), instance))
  {
    assert instance == st.avrcp;
    hide AllProper;
  }

  lemma {:induction false} ControlDownKeeps(st: State)
    requires Invariant(st) && st.connected
    ensures Invariant(ControlDisconnected(st))
  {
    hide AllProper;
    DisconnectKeeps(st, st.avrcp);
  }

  /** The slot is not taken over, by another instance or by its device's link closing, while the
      browsing channel is not down. */
  predicate SlotKept(st: State, e: Event) {
    && (e.ControlUp? ==> e.avrcp == st.avrcp || st.channel == Disconnected)
    && (e.LinkLost? ==> e.gone == st.avrcp || st.channel == Disconnected)
  }

  lemma {:induction false} TakeOver(st: State, e: Event)
    requires Invariant(st) && Enabled(st, e) && (e.ControlUp? || e.LinkLost?)
    ensures Invariant(Step(st, e)) <==> SlotKept(st, e)
  {
    hide AllProper;
  }

  lemma {:induction false} StepKeeps(st: State, e: Event)
    requires Invariant(st) && Enabled(st, e) && SlotKept(st, e)
    ensures Invariant(Step(st, e))
  {
    hide ConnectCfm, DisconnectInd, FolderItemsConfirmed, Ask, DisconnectRequest;
    match e
    case Asked(request, supported) =>
      AskKeeps(st, request, supported);
    case Delivered(k, supported) =>
      AskKeeps(st.(held := st.held[..k] + st.held[k + 1..]), st.held[k].request, supported);
    case IdleTimer(k) =>
      DisconnectKeeps(st.(idle := st.idle[..k] + st.idle[k + 1..]), st.idle[k]);
    case ConnectIndicated =>
      ProperAppend(st.log, Entry(ConnectResponse, LibOf(st, st.avrcp)));
    case ConnectConfirmed(instance, success) =>
      ConfirmKeeps(st, instance, success);
    case DisconnectIndicated(instance) =>
      DownKeeps(st, instance);
    case ListingConfirmed(instance) =>
      AnswerKeeps(st, instance);
    case ControlUp(_) =>
      TakeOver(st, e);
    case LinkLost(_) =>
      TakeOver(st, e);
    case ControlDown =>
      ControlDownKeeps(st);
    case LeftForAnother =>
      DisconnectKeeps(st.(held := [], idle := []), st.avrcp);
    case _ =>
  }

  predicate SlotAlwaysKept(st: State, events: seq<Event>)
    requires IsRun(st, events)
    decreases events
  {
    events == [] || (SlotKept(st, events[0]) && SlotAlwaysKept(Step(st, events[0]), events[1..]))
  }

  predicate AlwaysAgree(st: State, events: seq<Event>)
    requires IsRun(st, events)
    decreases events
  {
    Invariant(st) && (events == [] || AlwaysAgree(Step(st, events[0]), events[1..]))
  }

  /** Over every run: the connection and the library agree at every state, about every instance,
      if and only if the slot is never taken over while the browsing channel is not down. */
  lemma {:induction false} AgreementIff(st: State, events: seq<Event>)
    requires Invariant(st) && IsRun(st, events)
    ensures AlwaysAgree(st, events) <==> SlotAlwaysKept(st, events)
    decreases events
  {
    hide Invariant, Step, SlotKept, Enabled;
    if events != [] {
      var e := events[0];
      assert Enabled(st, e);
      if SlotKept(st, e) {
        StepKeeps(st, e);
        AgreementIff(Step(st, e), events[1..]);
      } else {
        OnlyTakeOver(st, e);
        TakeOver(st, e);
        if AlwaysAgree(Step(st, e), events[1..]) {
          AgreesFirst(Step(st, e), events[1..]);
        }
      }
    }
  }

  lemma {:induction false} OnlyTakeOver(st: State, e: Event)
    requires !SlotKept(st, e)
    ensures e.ControlUp? || e.LinkLost?
  {
  }

  lemma {:induction false} AgreesFirst(st: State, events: seq<Event>)
    requires IsRun(st, events) && AlwaysAgree(st, events)
    ensures Invariant(st)
  {
  }

  lemma {:induction false} RunKeeps(st: State, events: seq<Event>)
    requires Invariant(st) && IsRun(st, events) && SlotAlwaysKept(st, events)
    ensures Invariant(RunFrom(st, events))
    decreases events
  {
    hide Invariant, Step, SlotKept;
    if events != [] {
      StepKeeps(st, events[0]);
      RunKeeps(Step(st, events[0]), events[1..]);
    }
  }

  lemma {:induction false} StartsWell()
    ensures Invariant(INITIAL)
  {
  }

  /** Over every run in which the slot is kept: the library is only asked to connect when idle, to
      disconnect when up, and for requests on a channel that is up; and it is asked for a listing
      only when no other is outstanding. */
  lemma {:induction false} EveryCallProper(events: seq<Event>)
    requires IsRun(INITIAL, events) && SlotAlwaysKept(INITIAL, events)
    ensures forall e <- RunFrom(INITIAL, events).log :: Proper(e)
  {
    StartsWell();
    hide Step, IsRun, RunFrom, Proper, SlotAlwaysKept;
    RunKeeps(INITIAL, events);
  }

  /** Over every run in which the slot is kept: at most one listing is outstanding, and while it is
      the lock says its scope, so it is confirmed under its own; and on a connected channel the
      lock is held only while a listing is outstanding, so no held listing waits for nothing. */
  lemma {:induction false} OneListingUnderItsScope(events: seq<Event>)
    requires IsRun(INITIAL, events) && SlotAlwaysKept(INITIAL, events)
    ensures var st := RunFrom(INITIAL, events);
            var listings := LibOf(st, st.avrcp).listings;
            && |listings| <= 1
            && (listings != [] ==> st.scope == ScopeNumber(listings[0]))
            && (st.channel == Connected ==> (st.scope == 0 <==> listings == []))
  {
    StartsWell();
    hide Step, IsRun, RunFrom, Proper, AllProper, ScopeNumber, SlotAlwaysKept, OthersDown;
    RunKeeps(INITIAL, events);
    var st := RunFrom(INITIAL, events);
    ScopeIsNonZero(LibOf(st, st.avrcp).listings);
  }

  lemma {:induction false} ScopeIsNonZero(listings: seq<Scope>)
    ensures listings != [] ==> ScopeNumber(listings[0]) > 0
  {
  }

  /** The event makes the connection forget an instance whose channel the library still has. */
  predicate Forgets(st: State, e: Event)
    requires Enabled(st, e)
  {
    var next := Step(st, e);
    st.avrcp != 0 && next.avrcp != st.avrcp && LibOf(next, st.avrcp).channel != Idle
  }

  /** While connection and library agree, the only event that forgets an instance whose browsing
      channel is not down is another instance taking the slot. */
  lemma {:induction false} ForgetsIff(st: State, e: Event)
    requires Invariant(st) && Enabled(st, e)
    ensures Forgets(st, e) <==> e.ControlUp? && e.avrcp != st.avrcp && st.channel != Disconnected
  {
    if SlotKept(st, e) {
      StepKeeps(st, e);
      hide Step, AllProper, IdleNames, LockHeld, Enabled;
    } else {
      hide AllProper, IdleNames, LockHeld;
    }
  }

  // ---------- A slot that is taken over ----------

  lemma {:induction false} FirstStep(st: State, e: Event, rest: seq<Event>)
    requires Enabled(st, e) && IsRun(Step(st, e), rest)
    ensures IsRun(st, [e] + rest) && RunFrom(st, [e] + rest) == RunFrom(Step(st, e), rest)
  {
    hide Enabled, Step;
    assert ([e] + rest)[1..] == rest;
  }

  /** The channel is being closed or awaited here, but the library has none to report on. */
  predicate Forsaken(st: State) {
    (st.channel == Disconnecting || st.channel == Pending) && LibOf(st, st.avrcp) == NO_CHANNEL
  }

  /** From any connected, active state with the browsing channel up: the control connection goes
      down, the channel starts to close, and another device's control connection takes the slot. */
  lemma {:induction false} SlotTaken(st: State, other: nat)
    requires Invariant(st) && st.active && st.channel == Connected && other != 0 && other != st.avrcp
    ensures IsRun(st, [ControlDown, ControlUp(other)])
    ensures var s := RunFrom(st, [ControlDown, ControlUp(other)]);
            s.connected && s.active && s.avrcp == other && Forsaken(s) && LibOf(s, st.avrcp).channel == Closing
  {
    hide AllProper, IdleNames, LockHeld;
    var down := Step(st, ControlDown);
    assert down.channel == Disconnecting && !down.connected && LibOf(down, other) == NO_CHANNEL;
    var taken := Step(down, ControlUp(other));
    hide Step, OthersDown;
    FirstStep(down, ControlUp(other), []);
    FirstStep(st, ControlDown, [ControlUp(other)] + []);
    assert [ControlDown] + ([ControlUp(other)] + []) == [ControlDown, ControlUp(other)];
  }

  /** Such a state is reached: the remote device opens a browsing channel on the active connection. */
  lemma {:induction false} ChannelComesUp() returns (events: seq<Event>)
    ensures IsRun(INITIAL, events) && SlotAlwaysKept(INITIAL, events)
    ensures var st := RunFrom(INITIAL, events); st.active && st.channel == Connected
  {
    var s1 := Step(INITIAL, ActiveIs(true));
    var s2 := Step(s1, ControlUp(1));
    var s3 := Step(s2, ConnectIndicated);
    var s4 := Step(s3, ConnectConfirmed(1, true));
    assert s4.active && s4.channel == Connected;
    hide Step;
    KeptFirst(s3, ConnectConfirmed(1, true), []);
    events := [ConnectConfirmed(1, true)] + [];
    KeptFirst(s2, ConnectIndicated, events);
    events := [ConnectIndicated] + events;
    KeptFirst(s1, ControlUp(1), events);
    events := [ControlUp(1)] + events;
    KeptFirst(INITIAL, ActiveIs(true), events);
    events := [ActiveIs(true)] + events;
  }

  lemma {:induction false} KeptFirst(st: State, e: Event, rest: seq<Event>)
    requires Enabled(st, e) && SlotKept(st, e) && IsRun(Step(st, e), rest) && SlotAlwaysKept(Step(st, e), rest)
    ensures IsRun(st, [e] + rest) && SlotAlwaysKept(st, [e] + rest)
    ensures RunFrom(st, [e] + rest) == RunFrom(Step(st, e), rest)
  {
    hide Enabled, Step, SlotKept;
    assert ([e] + rest)[1..] == rest;
  }

  /** From there no event makes a call into the library, whatever is asked, until the remote device
      asks for a channel, the link closes, or the slot is taken again. */
  lemma {:induction false} ForsakenStays(st: State, e: Event)
    requires Forsaken(st) && Enabled(st, e) && !e.ConnectIndicated? && !e.LinkLost? && !e.ControlUp?
    ensures Forsaken(Step(st, e)) && Step(st, e).log == st.log
  {
  }

  /** A channel that comes up is kept if and only if the control connection is up and active;
      otherwise its disconnection is asked for at once. */
  lemma {:induction false} ConfirmedKeptIff(st: State)
    requires Invariant(st) && LibOf(st, st.avrcp).channel == Connecting
    ensures var s := Step(st, ConnectConfirmed(st.avrcp, true));
            && (s.channel == Connected <==> st.connected && st.active)
            && (s.channel != Connected ==> s.log == st.log + [Entry(DisconnectCall, LibOf(st, st.avrcp).(channel := Up))])
  {
    hide AllProper, IdleNames, LockHeld;
  }

  /** Over every run in which the slot is kept, a request to close the channel when idle can only close the channel it was
      made for, and none is pending when the channel is down. */
  lemma {:induction false} IdleIsForThisChannel(events: seq<Event>)
    requires IsRun(INITIAL, events) && SlotAlwaysKept(INITIAL, events)
    ensures var st := RunFrom(INITIAL, events);
            && (st.channel == Disconnected ==> st.idle == [])
            && forall k :: 0 <= k < |st.idle| ==> st.idle[k] == st.avrcp != 0
  {
    StartsWell();
    hide Step, IsRun, RunFrom, Proper, AllProper, LockHeld, SlotAlwaysKept, OthersDown;
    RunKeeps(INITIAL, events);
  }

  // ---------- No request is lost ----------

  function HeldCount(held: seq<Held>, request: Request): nat {
    if held == [] then 0 else (if held[0].request == request then 1 else 0) + HeldCount(held[1..], request)
  }

  function SentCount(log: seq<Entry>, request: Request): nat {
    if log == [] then 0
    else SentCount(log[..|log| - 1], request) + if log[|log| - 1].call == RequestCall(request) then 1 else 0
  }

  /** How often a request has been sent or still waits. */
  function Standing(st: State, request: Request): nat {
    HeldCount(st.held, request) + SentCount(st.log, request)
  }

  predicate Taken(st: State, request: Request, supported: bool) {
    request.Track? || (st.active && st.connected && supported)
  }

  lemma {:induction false} HeldAppend(a: seq<Held>, b: seq<Held>, request: Request)
    ensures HeldCount(a + b, request) == HeldCount(a, request) + HeldCount(b, request)
  {
    if a == [] {
      assert a + b == b;
    } else {
      HeldAppend(a[1..], b, request);
      assert (a + b)[1..] == a[1..] + b;
    }
  }

  lemma {:induction false} HeldOne(held: Held, request: Request)
    ensures HeldCount([held], request) == if held.request == request then 1 else 0
  {
    assert [held][1..] == [];
  }

  lemma {:induction false} SentAppend(log: seq<Entry>, e: Entry, request: Request)
    ensures SentCount(log + [e], request) == SentCount(log, request) + if e.call == RequestCall(request) then 1 else 0
  {
    assert (log + [e])[..|log|] == log;
  }

  /** A request that is taken is sent or held, once, and no other request is touched. */
  lemma {:induction false} AskConserves(st: State, request: Request, supported: bool, other: Request)
    ensures Standing(Ask(st, request, supported), other)
         == Standing(st, other) + if Taken(st, request, supported) && other == request then 1 else 0
  {
    hide HeldCount, SentCount;
    SentAppend(st.log, Entry(RequestCall(request), LibOf(st, st.avrcp)), other);
    SentAppend(st.log, Entry(ConnectCall, LibOf(st, st.avrcp)), other);
    HeldAppend(st.held, [Held(request, OnScope)], other);
    HeldAppend(st.held, [Held(request, OnChannel)], other);
    HeldOne(Held(request, OnScope), other);
    HeldOne(Held(request, OnChannel), other);
  }

  /** A held request that is delivered is sent or held again, unless it is no longer for this
      connection; the others still stand. */
  lemma {:induction false} DeliveryConserves(st: State, k: nat, supported: bool, other: Request)
    requires k < |st.held|
    ensures Standing(Deliver(st, k, supported), other)
         == Standing(st, other) - if !Taken(st, st.held[k].request, supported) && other == st.held[k].request then 1 else 0
  {
    hide HeldCount, SentCount, Ask, Taken;
    var a, h, b := st.held[..k], st.held[k], st.held[k + 1..];
    assert st.held == a + [h] + b;
    HeldAppend(a + [h], b, other);
    HeldAppend(a, [h], other);
    HeldAppend(a, b, other);
    HeldOne(h, other);
    AskConserves(st.(held := a + b), h.request, supported, other);
    assert Taken(st.(held := a + b), h.request, supported) == Taken(st, h.request, supported) by { TakenFrame(st, a + b, h.request, supported); }
  }

  lemma {:induction false} TakenFrame(st: State, held: seq<Held>, request: Request, supported: bool)
    ensures Taken(st.(held := held), request, supported) == Taken(st, request, supported)
  {
  }
}
