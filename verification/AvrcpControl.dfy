/** The control commands of one AVRCP connection (apps/sink/sink_avrcp.c): user actions queue
    controls, one is sent at a time, and the next waits for its confirmation. The library and
    the remote side are the environment. */
module AvrcpControl {
  import opened Wrappers

  const MAX_PENDING_COMMANDS := 4

  datatype Control =
    | Nop | PausePress | PauseRelease | PlayPress | PlayRelease | ForwardPress | ForwardRelease
    | BackwardPress | BackwardRelease | StopPress | StopRelease | FastForwardPress | FastForwardRelease
    | RewindPress | RewindRelease | NextGroup | PreviousGroup | VolumeUpPress | VolumeUpRelease
    | VolumeDownPress | VolumeDownRelease | PowerOff

  /** What reaches this connection. `PlayUnasked` and `PauseUnasked` are the requests of
      sinkAvrcpPlayPauseRequest, which pauses whatever is playing. */
  datatype Action =
    | Play | Pause | Stop | Forward | Backward | StartFastForward | EndFastForward | StartRewind
    | EndRewind | PlayUnasked | PauseUnasked | SkipGroup | SkipGroupBack | LouderPeer | SofterPeer | PowerOffPeer

  /** play_status: a status, or seek bits over the one before the seek. */
  type PlayStatus = bv8

  const STOPPED: PlayStatus := 0
  const PLAYING: PlayStatus := 1
  const PAUSED: PlayStatus := 2
  const FORWARD_SEEK: PlayStatus := 8
  const REVERSE_SEEK: PlayStatus := 16
  const ERROR: PlayStatus := 0xFF

  /** A vendor command's bytes: its id, big-endian, and its data. */
  type Vendor = seq<int>

  /** `unconfirmed` counts the library's open requests; `queued` and `sent` are the controls
      queued and sent so far. */
  datatype State = State(
    connected: bool, playStatus: PlayStatus, pending: bool, queueSize: nat, vendor: Option<Vendor>,
    queue: seq<Control>, vendorQueue: seq<Vendor>,
    unconfirmed: nat, queued: seq<Control>, sent: seq<Control>)

  const INITIAL := State(false, STOPPED, false, 0, None, [], [], 0, [], [])

  // ---------- Queueing ----------

  predicate Seeking(status: PlayStatus) {
    status & FORWARD_SEEK != 0 || status & REVERSE_SEEK != 0
  }

  predicate EndsSeek(control: Control) {
    control == FastForwardRelease || control == RewindRelease
  }

  /** The end of a seek that was never begun, on a device that cannot say what it plays. */
  predicate Refused(st: State, control: Control, statusSupported: bool) {
    EndsSeek(control) && !Seeking(st.playStatus) && !statusSupported
  }

  function Enqueue(st: State, control: Control): State {
    st.(queue := st.queue + [control], queued := st.queued + [control],
        queueSize := if st.queueSize < MAX_PENDING_COMMANDS then st.queueSize + 1 else st.queueSize)
  }

  /** avrcpSendControlMessage */
  function Send(st: State, control: Control, statusSupported: bool): State {
    if control == Nop then st
    else if Refused(st, control, statusSupported) then st.(playStatus := ERROR)
    else Enqueue(st, control)
  }

  function Controls(action: Action): seq<Control> {
    match action
    case Play => [PlayPress, PlayRelease]
    case Pause => [PausePress, PauseRelease]
    case Stop => [StopPress, StopRelease]
    case Forward => [ForwardPress, ForwardRelease]
    case Backward => [BackwardPress, BackwardRelease]
    case StartFastForward => [FastForwardPress]
    case EndFastForward => [FastForwardRelease]
    case StartRewind => [RewindPress]
    case EndRewind => [RewindRelease]
    case PlayUnasked => [PlayPress, PlayRelease]
    case PauseUnasked => [PausePress, PauseRelease]
    case SkipGroup => [NextGroup]
    case SkipGroupBack => [PreviousGroup]
    case LouderPeer => [VolumeUpPress, VolumeUpRelease]
    case SofterPeer => [VolumeDownPress, VolumeDownRelease]
    case PowerOffPeer => [PowerOff]
  }

  /** What an action assumes the remote device is doing, if it will not say. */
  function StatusAfter(action: Action, status: PlayStatus): PlayStatus {
    match action
    case Play => PLAYING
    case Pause => PAUSED
    case PlayUnasked => PLAYING
    case PauseUnasked => PAUSED
    case Stop => STOPPED
    case StartFastForward => (status | FORWARD_SEEK) & !REVERSE_SEEK
    case EndFastForward => status & !FORWARD_SEEK
    case StartRewind => (status | REVERSE_SEEK) & !FORWARD_SEEK
    case EndRewind => status & !REVERSE_SEEK
    case _ => status
  }

  /** In the peer build getValidAvrcpIndex stands where sinkAvrcpPlay and sinkAvrcpPause would test
      the connection, and it does not look whether the device is connected. */
  predicate NeedsConnection(action: Action) {
    action != Play && action != Pause
  }

  /** getAvrcpQueueSpace and the other conditions of each user action */
  predicate Allowed(st: State, action: Action, groups: bool) {
    && (NeedsConnection(action) ==> st.connected)
    && MAX_PENDING_COMMANDS - st.queueSize >= |Controls(action)|
    && (action == Pause ==> st.playStatus == PLAYING)
    && (action == SkipGroup || action == SkipGroupBack ==> groups)
  }

  function SendAll(st: State, controls: seq<Control>, statusSupported: bool): State
    decreases controls
  {
    if controls == [] then st
    else SendAll(Send(st, controls[0], statusSupported), controls[1..], statusSupported)
  }

  /** The state after an action that is allowed. */
  function Acted(st: State, action: Action, statusSupported: bool): State {
    var s := SendAll(st, Controls(action), statusSupported);
    if statusSupported then s else s.(playStatus := StatusAfter(action, s.playStatus))
  }

  function User(st: State, action: Action, statusSupported: bool, groups: bool): State {
    if Allowed(st, action, groups) then Acted(st, action, statusSupported) else st
  }

  /** What a user action comes to, action by action: the controls it queues and the status it then
      assumes of a device that will not say. */
  predicate Queues(st: State, action: Action, statusSupported: bool, s: State) {
    var status, seeking := st.playStatus, st.playStatus & 8 != 0 || st.playStatus & 16 != 0;
    match action
    case Play => Adds(st, s, [PlayPress, PlayRelease], if statusSupported then status else 1)
    case PlayUnasked => Adds(st, s, [PlayPress, PlayRelease], if statusSupported then status else 1)
    case Pause => Adds(st, s, [PausePress, PauseRelease], if statusSupported then status else 2)
    case PauseUnasked => Adds(st, s, [PausePress, PauseRelease], if statusSupported then status else 2)
    case Stop => Adds(st, s, [StopPress, StopRelease], if statusSupported then status else 0)
    case Forward => Adds(st, s, [ForwardPress, ForwardRelease], status)
    case Backward => Adds(st, s, [BackwardPress, BackwardRelease], status)
    case StartFastForward => Adds(st, s, [FastForwardPress], if statusSupported then status else (status | 8) & !16)
    case StartRewind => Adds(st, s, [RewindPress], if statusSupported then status else (status | 16) & !8)
    case EndFastForward =>
      if statusSupported then Adds(st, s, [FastForwardRelease], status)
      else if seeking then Adds(st, s, [FastForwardRelease], status & !8)
      else Adds(st, s, [], 0xFF & !8)
    case EndRewind =>
      if statusSupported then Adds(st, s, [RewindRelease], status)
      else if seeking then Adds(st, s, [RewindRelease], status & !16)
      else Adds(st, s, [], 0xFF & !16)
    case SkipGroup => Adds(st, s, [NextGroup], status)
    case SkipGroupBack => Adds(st, s, [PreviousGroup], status)
    case LouderPeer => Adds(st, s, [VolumeUpPress, VolumeUpRelease], status)
    case SofterPeer => Adds(st, s, [VolumeDownPress, VolumeDownRelease], status)
    case PowerOffPeer => Adds(st, s, [PowerOff], status)
  }

  predicate Adds(st: State, s: State, controls: seq<Control>, status: PlayStatus) {
    s == st.(queue := st.queue + controls, queued := st.queued + controls, queueSize := st.queueSize + |controls|,
             playStatus := status)
  }

  /** How many controls an action needs room for. */
  function Room(action: Action): nat {
    if action in {StartFastForward, EndFastForward, StartRewind, EndRewind, SkipGroup, SkipGroupBack, PowerOffPeer} then 1
    else 2
  }

  /** The action is taken: there is room for its controls, the connection is up but for a play or
      pause, it plays for a pause, and groups are supported for a skip of one. */
  predicate IsTaken(st: State, action: Action, groups: bool) {
    && st.queueSize + Room(action) <= 4 && (st.connected || action == Play || action == Pause)
    && (action == Pause ==> st.playStatus == 1) && (action in {SkipGroup, SkipGroupBack} ==> groups)
  }

  /** Every user action comes to exactly the controls and the status named for it if it is taken,
      and otherwise to nothing. */
  lemma {:induction false} ActionQueues(st: State, action: Action, statusSupported: bool, groups: bool)
    ensures var s := User(st, action, statusSupported, groups);
            if IsTaken(st, action, groups) then Queues(st, action, statusSupported, s) else s == st
  {
    hide SendAll, StatusAfter, Queues;
    if Allowed(st, action, groups) {
      if |Controls(action)| == 2 {
        PairQueues(st, action, statusSupported);
      } else if action == EndFastForward || action == EndRewind {
        EndQueues(st, action, statusSupported);
      } else {
        OneQueues(st, action, statusSupported);
      }
    }
  }

  lemma {:induction false} PairQueues(st: State, action: Action, statusSupported: bool)
    requires |Controls(action)| == 2 && st.queueSize + 2 <= MAX_PENDING_COMMANDS
    ensures Queues(st, action, statusSupported, Acted(st, action, statusSupported))
  {
    PairSent(st, Controls(action)[0], Controls(action)[1], statusSupported);
    hide SendAll;
  }

  lemma {:induction false} OneQueues(st: State, action: Action, statusSupported: bool)
    requires |Controls(action)| == 1 && action != EndFastForward && action != EndRewind
    requires st.queueSize < MAX_PENDING_COMMANDS
    ensures Queues(st, action, statusSupported, Acted(st, action, statusSupported))
  {
    var control := Controls(action)[0];
    OneSent(st, control, statusSupported);
    assert !Refused(st, control, statusSupported);
    hide SendAll, Refused, Seeking;
  }

  lemma {:induction false} EndQueues(st: State, action: Action, statusSupported: bool)
    requires action == EndFastForward || action == EndRewind
    requires st.queueSize < MAX_PENDING_COMMANDS
    ensures Queues(st, action, statusSupported, Acted(st, action, statusSupported))
  {
    OneSent(st, Controls(action)[0], statusSupported);
    hide SendAll;
  }

  lemma {:induction false} PairSent(st: State, first: Control, second: Control, statusSupported: bool)
    requires first != Nop && second != Nop && !EndsSeek(first) && !EndsSeek(second)
    requires st.queueSize + 2 <= MAX_PENDING_COMMANDS
    ensures Adds(st, SendAll(st, [first, second], statusSupported), [first, second], st.playStatus)
  {
    hide Seeking;
    assert [first, second][1..] == [second];
    SendOne(Send(st, first, statusSupported), second, statusSupported);
    assert st.queue + [first] + [second] == st.queue + [first, second];
    assert st.queued + [first] + [second] == st.queued + [first, second];
  }

  lemma {:induction false} OneSent(st: State, control: Control, statusSupported: bool)
    requires control != Nop && st.queueSize < MAX_PENDING_COMMANDS
    ensures var s := SendAll(st, [control], statusSupported);
            if Refused(st, control, statusSupported) then Adds(st, s, [], ERROR) else Adds(st, s, [control], st.playStatus)
  {
    hide Refused;
    SendOne(st, control, statusSupported);
    assert st.queue + [] == st.queue && st.queued + [] == st.queued;
  }

  // ---------- Sending ----------

  /** sendAvrcpPassthroughCmd and sendAvrcpGroupCmd */
  function Request(st: State, control: Control): State {
    st.(pending := true, queueSize := if st.queueSize > 0 then st.queueSize - 1 else 0,
        unconfirmed := st.unconfirmed + 1, sent := st.sent + [control])
  }

  /** avrcpControlHandler on the oldest queued control */
  function Deliver(st: State): State
    requires st.queue != []
  {
    var s := st.(queue := st.queue[1..]);
    if !st.connected then s else Request(s, st.queue[0])
  }

  /** sinkAvrcpVendorUniquePassthroughRequest; `accepted` says the peer takes vendor commands
      and `memory` that there was room to keep this one. */
  function RequestVendor(st: State, vendor: Vendor, accepted: bool, memory: bool): State {
    if !accepted then st
    else if !st.pending && st.vendor == None then
      if !memory then st
      else st.(vendor := Some(vendor), pending := true, unconfirmed := st.unconfirmed + 1)
    else st.(vendorQueue := st.vendorQueue + [vendor])
  }

  function DeliverVendor(st: State, accepted: bool, memory: bool): State
    requires st.vendorQueue != []
  {
    RequestVendor(st.(vendorQueue := st.vendorQueue[1..]), st.vendorQueue[0], accepted, memory)
  }

  /** handleAvrcpPassthroughCfm: only a connected instance is found. */
  function Confirm(st: State): State {
    if st.connected then st.(pending := false, vendor := None) else st
  }

  /** The connection comes up: its status is assumed stopped. */
  function Connect(st: State): State {
    st.(connected := true, playStatus := STOPPED)
  }

  /** resetAvrcpConnection */
  function Reset(st: State): State {
    st.(connected := false, pending := false, queueSize := 0, vendor := None, queue := [])
  }

  /** The connection is no longer the active one: what waits is dropped. */
  function Flush(st: State): State {
    st.(queue := [])
  }

  // ---------- Runs ----------

  datatype Event =
    | UserActs(action: Action, statusSupported: bool, groups: bool)
    | Relayed(control: Control, statusSupported: bool)
    | Delivered
    | VendorAsked(vendor: Vendor, accepted: bool, memory: bool)
    | VendorDelivered(accepted: bool, memory: bool)
    | Confirmed
    | ControlUp
    | ControlDown
    | Switched
    | StatusTold(status: PlayStatus)

  /** A queued message is delivered while nothing is pending, and the library confirms only
      what it was asked. */
  predicate Enabled(st: State, e: Event) {
    match e
    case Delivered => !st.pending && st.queue != []
    case VendorDelivered(_, _) => !st.pending && st.vendorQueue != []
    case Confirmed => st.unconfirmed > 0
    case ControlUp => !st.connected
    case _ => true
  }

  function Step(st: State, e: Event): State
    requires Enabled(st, e)
  {
    match e
    case UserActs(action, statusSupported, groups) => User(st, action, statusSupported, groups)
    case Relayed(control, statusSupported) => Send(st, control, statusSupported)
    case Delivered => Deliver(st)
    case VendorAsked(vendor, accepted, memory) => RequestVendor(st, vendor, accepted, memory)
    case VendorDelivered(accepted, memory) => DeliverVendor(st, accepted, memory)
    case Confirmed => Confirm(st.(unconfirmed := st.unconfirmed - 1))
    case ControlUp => Connect(st)
    case ControlDown => Reset(st.(unconfirmed := 0))
    case Switched => Flush(st)
    case StatusTold(status) => st.(playStatus := status)
  }

  predicate IsRun(st: State, events: seq<Event>)
    decreases events
  {
    events == [] || (Enabled(st, events[0]) && IsRun(Step(st, events[0]), events[1..]))
  }

  function RunFrom(st: State, events: seq<Event>): State
    requires IsRun(st, events)
    decreases events
  {
    if events == [] then st else RunFrom(Step(st, events[0]), events[1..])
  }

  // ---------- Every run: one request at a time ----------

  predicate OneAtATime(st: State) {
    && st.unconfirmed <= 1
    && (st.unconfirmed == 1 ==> st.pending)
    && (st.vendor != None ==> st.pending)
    && st.queueSize <= MAX_PENDING_COMMANDS
  }

  predicate OnlyQueued(st: State, s: State) {
    && s == st.(playStatus := s.playStatus, queueSize := s.queueSize, queue := s.queue, queued := s.queued)
    && (st.queueSize <= MAX_PENDING_COMMANDS ==> s.queueSize <= MAX_PENDING_COMMANDS)
  }

  lemma {:induction false} SendFrame(st: State, control: Control, statusSupported: bool)
    ensures OnlyQueued(st, Send(st, control, statusSupported))
  {
    hide Refused;
  }

  lemma {:induction false} SendAllFrame(st: State, controls: seq<Control>, statusSupported: bool)
    ensures OnlyQueued(st, SendAll(st, controls, statusSupported))
    decreases controls
  {
    hide Send;
    if controls != [] {
      SendFrame(st, controls[0], statusSupported);
      SendAllFrame(Send(st, controls[0], statusSupported), controls[1..], statusSupported);
    }
  }

  lemma {:induction false} StepKeepsOne(st: State, e: Event)
    requires OneAtATime(st) && Enabled(st, e)
    ensures OneAtATime(Step(st, e))
  {
    hide SendAll, Refused, StatusAfter;
    if e.UserActs? {
      SendAllFrame(st, Controls(e.action), e.statusSupported);
    }
  }

  lemma {:induction false} RunKeepsOne(st: State, events: seq<Event>)
    requires OneAtATime(st) && IsRun(st, events)
    ensures OneAtATime(RunFrom(st, events))
    decreases events
  {
    hide Step, Enabled;
    if events != [] {
      assert Enabled(st, events[0]);
      StepKeepsOne(st, events[0]);
      RunKeepsOne(Step(st, events[0]), events[1..]);
    }
  }

  /** Over every run: at most one request is unconfirmed, only while the connection says one
      is pending; vendor data is kept only then; and the counted queue never exceeds its limit. */
  lemma {:induction false} OneUnconfirmed(events: seq<Event>)
    requires IsRun(INITIAL, events)
    ensures var st := RunFrom(INITIAL, events);
            && st.unconfirmed <= 1 && (st.unconfirmed == 1 ==> st.pending)
            && (st.vendor != None ==> st.pending)
            && st.queueSize <= MAX_PENDING_COMMANDS
  {
    RunKeepsOne(INITIAL, events);
  }

  // ---------- Guarded runs: the count of queued controls ----------

  /** Every control was queued by a user action, which checks for room. */
  predicate Guarded(events: seq<Event>) {
    forall i :: 0 <= i < |events| ==> !events[i].Relayed?
  }

  /** Room for all the controls means each one queued is counted. */
  lemma {:induction false} SendAllCounts(st: State, controls: seq<Control>, statusSupported: bool)
    requires st.queueSize + |controls| <= MAX_PENDING_COMMANDS
    ensures var s := SendAll(st, controls, statusSupported);
            s.queueSize - |s.queue| == st.queueSize - |st.queue| && |s.queue| >= |st.queue|
    decreases controls
  {
    hide Refused;
    if controls != [] {
      SendAllCounts(Send(st, controls[0], statusSupported), controls[1..], statusSupported);
    }
  }

  predicate Counted(st: State) {
    |st.queue| <= st.queueSize
  }

  lemma {:induction false} UserCounts(st: State, action: Action, statusSupported: bool, groups: bool)
    ensures var s := User(st, action, statusSupported, groups);
            s.queueSize - |s.queue| == st.queueSize - |st.queue|
  {
    hide SendAll, Refused, StatusAfter, Controls, NeedsConnection;
    if Allowed(st, action, groups) {
      SendAllCounts(st, Controls(action), statusSupported);
    }
  }

  lemma {:induction false} StepCounts(st: State, e: Event)
    requires Counted(st) && Enabled(st, e) && !e.Relayed?
    ensures Counted(Step(st, e))
  {
    hide User;
    if e.UserActs? {
      UserCounts(st, e.action, e.statusSupported, e.groups);
    }
  }

  lemma {:induction false} RunCounts(st: State, events: seq<Event>)
    requires Counted(st) && IsRun(st, events) && Guarded(events)
    ensures Counted(RunFrom(st, events))
    decreases events
  {
    hide Step, Enabled, Counted;
    if events != [] {
      StepCounts(st, events[0]);
      assert !events[0].Relayed?;
      RunCounts(Step(st, events[0]), events[1..]);
    }
  }

  /** When every control is queued behind a check for room, the queue never holds more than is
      counted, and so never more than four. */
  lemma {:induction false} QueueIsCounted(events: seq<Event>)
    requires IsRun(INITIAL, events) && Guarded(events)
    ensures var st := RunFrom(INITIAL, events);
            |st.queue| <= st.queueSize <= MAX_PENDING_COMMANDS
  {
    RunCounts(INITIAL, events);
    RunKeepsOne(INITIAL, events);
  }

  // ---------- Every run: when the count is exact ----------

  predicate CountedExactly(st: State) {
    |st.queue| == st.queueSize && st.queueSize <= MAX_PENDING_COMMANDS
  }

  /** The event comes while the count can follow it: a control is delivered while the connection is
      up, one that is relayed finds room, and the connection is left with nothing queued. */
  predicate CountFollows(st: State, e: Event) {
    match e
    case Delivered => st.connected
    case Relayed(control, statusSupported) =>
      control == Nop || Refused(st, control, statusSupported) || st.queueSize < MAX_PENDING_COMMANDS
    case Switched => st.queue == []
    case _ => true
  }

  predicate CountAlwaysFollows(st: State, events: seq<Event>)
    requires IsRun(st, events)
    decreases events
  {
    events == [] || (CountFollows(st, events[0]) && CountAlwaysFollows(Step(st, events[0]), events[1..]))
  }

  predicate AlwaysExact(st: State, events: seq<Event>)
    requires IsRun(st, events)
    decreases events
  {
    CountedExactly(st) && (events == [] || AlwaysExact(Step(st, events[0]), events[1..]))
  }

  lemma {:induction false} StepExactIff(st: State, e: Event)
    requires CountedExactly(st) && Enabled(st, e)
    ensures CountedExactly(Step(st, e)) <==> CountFollows(st, e)
  {
    hide SendAll, Refused, StatusAfter, Controls, NeedsConnection;
    if e.UserActs? {
      UserCounts(st, e.action, e.statusSupported, e.groups);
      SendAllFrame(st, Controls(e.action), e.statusSupported);
    }
  }

  /** Over every run from an exact count: the count is that of the queue at every state if and only
      if each control is delivered while the connection is up, each one relayed finds room, and the
      connection is only left with nothing queued. */
  lemma {:induction false} CountExactIff(st: State, events: seq<Event>)
    requires CountedExactly(st) && IsRun(st, events)
    ensures AlwaysExact(st, events) <==> CountAlwaysFollows(st, events)
    decreases events
  {
    hide Step, Enabled, CountedExactly, CountFollows;
    if events != [] {
      assert Enabled(st, events[0]);
      StepExactIff(st, events[0]);
      if CountedExactly(Step(st, events[0])) {
        CountExactIff(Step(st, events[0]), events[1..]);
      }
    }
  }

  lemma {:induction false} EndIsExact(st: State, events: seq<Event>)
    requires IsRun(st, events) && AlwaysExact(st, events)
    ensures CountedExactly(RunFrom(st, events))
    decreases events
  {
    hide Step, Enabled, CountedExactly;
    if events != [] {
      EndIsExact(Step(st, events[0]), events[1..]);
    }
  }

  lemma {:induction false} DeliverDown(st: State)
    requires !st.connected && !st.pending && st.queue != []
    ensures Enabled(st, Delivered) && Step(st, Delivered) == st.(queue := st.queue[1..])
  {
  }

  const PLAY_LOST := [UserActs(Play, true, false), Delivered, Delivered]

  /** The case that fails: a play command taken while the connection is down is delivered to
      nothing, and its two controls are counted still. */
  lemma {:induction false} PlayLost(st: State)
    requires !st.connected && !st.pending && st.queue == [] && st.queueSize + 2 <= MAX_PENDING_COMMANDS
    ensures IsRun(st, PLAY_LOST)
    ensures var s := RunFrom(st, PLAY_LOST);
            && s == st.(queueSize := st.queueSize + 2, queued := s.queued)
            && !CountedExactly(s)
  {
    var press := Enqueue(st, PlayPress);
    var both := Enqueue(press, PlayRelease);
    assert Controls(Play)[1..] == [PlayRelease];
    SendOne(press, PlayRelease, true);
    assert Step(st, PLAY_LOST[0]) == both;
    assert both.queue == [PlayPress, PlayRelease] && both.queue[1..] == [PlayRelease];
    DeliverDown(both);
    DeliverDown(both.(queue := [PlayRelease]));
    var end := both.(queue := []);
    hide Step, Enabled, CountedExactly;
    assert IsRun(end, []);
    FirstStep(both.(queue := [PlayRelease]), Delivered, []);
    FirstStep(both, Delivered, [Delivered] + []);
    FirstStep(st, PLAY_LOST[0], [Delivered] + ([Delivered] + []));
    assert [PLAY_LOST[0]] + ([Delivered] + ([Delivered] + [])) == PLAY_LOST;
  }

  /** Nothing waits, and the count says there is no room. */
  predicate Jammed(st: State) {
    st.queue == [] && st.queueSize == MAX_PENDING_COMMANDS
  }

  lemma {:induction false} JammedStep(st: State, e: Event)
    requires Jammed(st) && Enabled(st, e) && !e.ControlDown? && !e.Relayed?
    ensures Jammed(Step(st, e)) && Step(st, e).queued == st.queued && Step(st, e).sent == st.sent
    ensures e.UserActs? ==> Step(st, e) == st
  {
    hide SendAll, Refused, StatusAfter, NeedsConnection;
  }

  lemma {:induction false} RunThen(st: State, first: seq<Event>, rest: seq<Event>)
    requires IsRun(st, first) && IsRun(RunFrom(st, first), rest)
    ensures IsRun(st, first + rest) && RunFrom(st, first + rest) == RunFrom(RunFrom(st, first), rest)
    decreases first
  {
    hide Step, Enabled;
    if first == [] {
      assert first + rest == rest;
    } else {
      RunThen(Step(st, first[0]), first[1..], rest);
      FirstStep(st, first[0], first[1..] + rest);
      assert [first[0]] + (first[1..] + rest) == first + rest;
    }
  }

  const PLAY_LOST_TWICE := PLAY_LOST + PLAY_LOST + [ControlUp]

  /** Two lost play commands fill the count, and the connection coming up does not clear it. */
  lemma {:induction false} JammedByPlay(st: State)
    requires !st.connected && !st.pending && st.queue == [] && st.queueSize == 0
    ensures IsRun(st, PLAY_LOST_TWICE)
    ensures Jammed(RunFrom(st, PLAY_LOST_TWICE)) && RunFrom(st, PLAY_LOST_TWICE).connected
  {
    PlayLost(st);
    var once := RunFrom(st, PLAY_LOST);
    PlayLost(once);
    var twice := RunFrom(once, PLAY_LOST);
    assert Enabled(twice, ControlUp) && Jammed(Step(twice, ControlUp)) && Step(twice, ControlUp).connected;
    hide Step, Enabled, Jammed, PLAY_LOST, CountedExactly;
    FirstStep(twice, ControlUp, []);
    assert [ControlUp] + [] == [ControlUp];
    RunThen(st, PLAY_LOST, PLAY_LOST);
    RunThen(st, PLAY_LOST + PLAY_LOST, [ControlUp]);
  }

  /** From there, until the connection goes down or a control is relayed, every user action is
      ignored, and no control is queued or sent. */
  lemma {:induction false} JammedUntilDown(st: State, events: seq<Event>)
    requires Jammed(st) && IsRun(st, events)
    requires forall i :: 0 <= i < |events| ==> !events[i].ControlDown? && !events[i].Relayed?
    ensures Jammed(RunFrom(st, events))
    ensures RunFrom(st, events).queued == st.queued && RunFrom(st, events).sent == st.sent
    decreases events
  {
    hide Step, Enabled, Jammed;
    if events != [] {
      JammedStep(st, events[0]);
      JammedUntilDown(Step(st, events[0]), events[1..]);
    }
  }

  /** A relayed control that is queued is counted if and only if the count has room for it. */
  lemma {:induction false} RelayCountedIff(st: State, control: Control, statusSupported: bool)
    requires |st.queue| == st.queueSize && control != Nop && !Refused(st, control, statusSupported)
    ensures var s := Step(st, Relayed(control, statusSupported));
            && s.queue == st.queue + [control]
            && (|s.queue| == s.queueSize <==> st.queueSize < MAX_PENDING_COMMANDS)
            && (Counted(s) <==> st.queueSize < MAX_PENDING_COMMANDS)
  {
    hide Refused;
  }

  lemma {:induction false} FirstStep(st: State, e: Event, rest: seq<Event>)
    requires Enabled(st, e) && IsRun(Step(st, e), rest)
    ensures IsRun(st, [e] + rest) && RunFrom(st, [e] + rest) == RunFrom(Step(st, e), rest)
  {
    hide Enabled, Step;
    assert ([e] + rest)[1..] == rest;
  }

  /** Relayed controls are queued without that check: this many are all queued, but no more
      than four are counted. */
  lemma {:induction false} RelayedUncounted(st: State, n: nat)
    requires st.queueSize <= MAX_PENDING_COMMANDS
    ensures var events := seq(n, _ => Relayed(PlayPress, true));
            && IsRun(st, events)
            && |RunFrom(st, events).queue| == |st.queue| + n
            && RunFrom(st, events).queueSize <= MAX_PENDING_COMMANDS
    decreases n
  {
    var e := Relayed(PlayPress, true);
    if n > 0 {
      assert seq(n, _ => e) == [e] + seq(n - 1, _ => e);
      RelayedUncounted(Step(st, e), n - 1);
      FirstStep(st, e, seq(n - 1, _ => e));
    }
  }

  // ---------- First in, first out ----------

  /** Nothing is dropped: the connection stays up and active. */
  predicate Undisturbed(events: seq<Event>) {
    forall i :: 0 <= i < |events| ==> !events[i].Switched? && !events[i].ControlDown?
  }

  /** All the controls queued so far are those sent, in order, and then those still waiting. */
  predicate InOrder(st: State, sentBefore: seq<Control>, queuedBefore: seq<Control>) {
    && st.connected
    && |sentBefore| <= |st.sent| && st.sent[..|sentBefore|] == sentBefore
    && |queuedBefore| <= |st.queued| && st.queued[..|queuedBefore|] == queuedBefore
    && st.sent[|sentBefore|..] + st.queue == st.queued[|queuedBefore|..]
  }

  lemma {:induction false} EnqueueInOrder(st: State, control: Control, sentBefore: seq<Control>, queuedBefore: seq<Control>)
    requires InOrder(st, sentBefore, queuedBefore)
    ensures InOrder(Enqueue(st, control), sentBefore, queuedBefore)
  {
    var n := |queuedBefore|;
    assert (st.queued + [control])[n..] == st.queued[n..] + [control];
    assert (st.queued + [control])[..n] == st.queued[..n];
  }

  lemma {:induction false} SendAllInOrder(
      st: State, controls: seq<Control>, statusSupported: bool, sentBefore: seq<Control>, queuedBefore: seq<Control>)
    requires InOrder(st, sentBefore, queuedBefore)
    ensures InOrder(SendAll(st, controls, statusSupported), sentBefore, queuedBefore)
    decreases controls
  {
    hide Refused, Enqueue;
    if controls != [] {
      EnqueueInOrder(st, controls[0], sentBefore, queuedBefore);
      SendAllInOrder(Send(st, controls[0], statusSupported), controls[1..], statusSupported, sentBefore, queuedBefore);
    }
  }

  lemma {:induction false} DeliverInOrder(st: State, sentBefore: seq<Control>, queuedBefore: seq<Control>)
    requires InOrder(st, sentBefore, queuedBefore) && st.queue != []
    ensures InOrder(Deliver(st), sentBefore, queuedBefore)
  {
    var n := |sentBefore|;
    assert (st.sent + [st.queue[0]])[n..] == st.sent[n..] + [st.queue[0]];
    assert (st.sent + [st.queue[0]])[..n] == st.sent[..n];
    assert [st.queue[0]] + st.queue[1..] == st.queue;
  }

  lemma {:induction false} StepInOrder(st: State, e: Event, sentBefore: seq<Control>, queuedBefore: seq<Control>)
    requires InOrder(st, sentBefore, queuedBefore) && Enabled(st, e) && !e.Switched? && !e.ControlDown?
    ensures InOrder(Step(st, e), sentBefore, queuedBefore)
  {
    hide SendAll, Refused, StatusAfter, Controls, Enqueue, Deliver;
    match e
    case UserActs(action, statusSupported, _) =>
      SendAllInOrder(st, Controls(action), statusSupported, sentBefore, queuedBefore);
    case Relayed(control, _) =>
      EnqueueInOrder(st, control, sentBefore, queuedBefore);
    case Delivered =>
      DeliverInOrder(st, sentBefore, queuedBefore);
    case _ =>
  }

  lemma {:induction false} RunInOrder(st: State, events: seq<Event>, sentBefore: seq<Control>, queuedBefore: seq<Control>)
    requires InOrder(st, sentBefore, queuedBefore) && IsRun(st, events) && Undisturbed(events)
    ensures InOrder(RunFrom(st, events), sentBefore, queuedBefore)
    decreases events
  {
    hide Step, Enabled, InOrder;
    if events != [] {
      StepInOrder(st, events[0], sentBefore, queuedBefore);
      RunInOrder(Step(st, events[0]), events[1..], sentBefore, queuedBefore);
    }
  }

  /** From any connected state with nothing queued, while the connection stays up and active:
      the controls sent are the first of those queued, in their order, and the rest still wait. */
  lemma {:induction false} SentInOrder(st: State, events: seq<Event>)
    requires st.connected && st.queue == [] && IsRun(st, events) && Undisturbed(events)
    ensures var s := RunFrom(st, events);
            && |st.sent| <= |s.sent| && |st.queued| <= |s.queued|
            && s.queued[|st.queued|..] == s.sent[|st.sent|..] + s.queue
  {
    assert InOrder(st, st.sent, st.queued);
    RunInOrder(st, events, st.sent, st.queued);
  }

  function Drain(n: nat): seq<Event> {
    if n == 0 then [] else [Delivered, Confirmed] + Drain(n - 1)
  }

  lemma {:induction false} DrainOne(st: State)
    requires st.connected && !st.pending && st.unconfirmed == 0 && st.queue != []
    ensures Enabled(st, Delivered) && Enabled(Step(st, Delivered), Confirmed)
    ensures var s := Step(Step(st, Delivered), Confirmed);
            && s.connected && !s.pending && s.unconfirmed == 0
            && s.queue == st.queue[1..] && s.sent == st.sent + [st.queue[0]]
            && s.queueSize == if st.queueSize == 0 then 0 else st.queueSize - 1
  {
  }

  /** A connection that stays up, with its requests confirmed, sends all that is queued, in order,
      each taken off the count down to none. */
  lemma {:induction false} QueueDrains(st: State)
    requires st.connected && !st.pending && st.unconfirmed == 0
    ensures IsRun(st, Drain(|st.queue|))
    ensures var s := RunFrom(st, Drain(|st.queue|));
            && s.queue == [] && s.sent == st.sent + st.queue && !s.pending
            && s.queueSize == if st.queueSize < |st.queue| then 0 else st.queueSize - |st.queue|
    decreases |st.queue|
  {
    if st.queue == [] {
      assert st.sent + st.queue == st.sent;
    } else {
      DrainOne(st);
      var sent := Step(st, Delivered);
      var s := Step(sent, Confirmed);
      var rest := Drain(|st.queue| - 1);
      QueueDrains(s);
      hide Step, Enabled, IsRun, RunFrom, Drain;
      FirstStep(sent, Confirmed, rest);
      FirstStep(st, Delivered, [Confirmed] + rest);
      assert [Delivered] + ([Confirmed] + rest) == [Delivered, Confirmed] + rest == Drain(|st.queue|) by { DrainNext(|st.queue|); }
      assert st.sent + [st.queue[0]] + st.queue[1..] == st.sent + st.queue;
    }
  }

  lemma {:induction false} DrainNext(n: nat)
    requires n > 0
    ensures Drain(n) == [Delivered, Confirmed] + Drain(n - 1)
  {
  }

  /** The vendor commands still to be confirmed: the one sent, and those that wait. */
  function VendorsOpen(st: State): seq<Vendor> {
    (if st.vendor.Some? then [st.vendor.value] else []) + st.vendorQueue
  }

  /** A vendor command that is taken joins the last while something is pending, and otherwise is sent
      at once, before any that still wait to be delivered; a confirmation takes off the one sent; a
      delivery sends the oldest that waits; and nothing else but a disconnection touches them. */
  lemma {:induction false} VendorsInOrder(st: State, e: Event)
    requires OneAtATime(st) && Enabled(st, e) && !e.ControlDown?
    ensures var s, vendors := Step(st, e), VendorsOpen(st);
            match e
            case VendorAsked(vendor, accepted, memory) =>
              if accepted && (memory || st.pending) then
                if st.pending then VendorsOpen(s) == vendors + [vendor]
                else VendorsOpen(s) == [vendor] + vendors && s.vendor == Some(vendor)
              else s == st
            case VendorDelivered(accepted, memory) =>
              if accepted && memory then VendorsOpen(s) == vendors && s.vendor == Some(vendors[0])
              else VendorsOpen(s) == vendors[1..]
            case Confirmed => VendorsOpen(s) == if st.connected && st.vendor.Some? then vendors[1..] else vendors
            case _ => VendorsOpen(s) == vendors
  {
    hide SendAll, Refused, StatusAfter, Controls, NeedsConnection;
    if e.UserActs? {
      SendAllFrame(st, Controls(e.action), e.statusSupported);
    }
  }

  /** A connection that comes up is assumed stopped, so a pause is ignored until the device is told
      to play, or says that it plays. */
  lemma {:induction false} PauseNeedsPlaying(st: State, told: PlayStatus)
    requires !st.connected && st.queueSize + 2 <= MAX_PENDING_COMMANDS
    ensures var up := Step(st, ControlUp);
            && up.connected && User(up, Pause, true, false) == up
            && var s := Step(up, StatusTold(told));
               User(s, Pause, true, false).queue == st.queue + if told == 1 then [PausePress, PauseRelease] else []
  {
    var up := Step(st, ControlUp);
    ActionQueues(up, Pause, true, false);
    ActionQueues(up.(playStatus := told), Pause, true, false);
    hide User;
  }

  // ---------- A pending request is a real one ----------

  /** Whatever is pending has its request in the library, so its confirmation can still come. */
  predicate PendingIsReal(st: State) {
    && OneAtATime(st)
    && (st.pending ==> st.unconfirmed == 1 && st.connected)
  }

  /** The event sends a vendor command: accepted, with memory to keep it, and nothing before it. */
  predicate TakesVendor(st: State, e: Event) {
    && (e.VendorAsked? || e.VendorDelivered?)
    && e.accepted && e.memory && !st.pending && st.vendor == None
  }

  predicate VendorTakenWhileUp(st: State, events: seq<Event>)
    requires IsRun(st, events)
    decreases events
  {
    events == [] ||
    ((TakesVendor(st, events[0]) ==> st.connected) && VendorTakenWhileUp(Step(st, events[0]), events[1..]))
  }

  predicate AlwaysReal(st: State, events: seq<Event>)
    requires IsRun(st, events)
    decreases events
  {
    PendingIsReal(st) && (events == [] || AlwaysReal(Step(st, events[0]), events[1..]))
  }

  lemma {:induction false} StepRealIff(st: State, e: Event)
    requires PendingIsReal(st) && Enabled(st, e)
    ensures PendingIsReal(Step(st, e)) <==> (TakesVendor(st, e) ==> st.connected)
  {
    hide SendAll, Refused, StatusAfter;
    if e.UserActs? {
      SendAllFrame(st, Controls(e.action), e.statusSupported);
    }
  }

  /** Over every run: whatever is pending has its request in the library, at every state, if and
      only if each vendor command that is sent is sent while the connection is up. */
  lemma {:induction false} PendingRealIff(st: State, events: seq<Event>)
    requires PendingIsReal(st) && IsRun(st, events)
    ensures AlwaysReal(st, events) <==> VendorTakenWhileUp(st, events)
    decreases events
  {
    hide Step, Enabled, PendingIsReal, TakesVendor;
    if events != [] {
      assert Enabled(st, events[0]);
      StepRealIff(st, events[0]);
      if PendingIsReal(Step(st, events[0])) {
        PendingRealIff(Step(st, events[0]), events[1..]);
      }
    }
  }

  lemma {:induction false} EndIsReal(st: State, events: seq<Event>)
    requires IsRun(st, events) && AlwaysReal(st, events)
    ensures PendingIsReal(RunFrom(st, events))
    decreases events
  {
    hide Step, Enabled, PendingIsReal;
    if events != [] {
      EndIsReal(Step(st, events[0]), events[1..]);
    }
  }

  /** Waiting for a confirmation that nothing was asked for. */
  predicate Stuck(st: State) {
    st.connected && st.pending && st.unconfirmed == 0
  }

  /** The case that fails: a vendor command held for a confirmation is delivered when the connection
      goes down, and its own confirmation then finds no connection. */
  lemma {:induction false} ConfirmationLost(st: State)
    requires st.connected && st.vendorQueue != []
    ensures var events := [ControlDown, VendorDelivered(true, true), Confirmed, ControlUp];
            IsRun(st, events) && Stuck(RunFrom(st, events))
  {
    var down := Step(st, ControlDown);
    var asked := Step(down, VendorDelivered(true, true));
    var confirmed := Step(asked, Confirmed);
    assert !asked.connected && asked.pending && asked.unconfirmed == 1;
    assert !confirmed.connected && confirmed.pending && confirmed.unconfirmed == 0;
    assert Stuck(Step(confirmed, ControlUp));
    hide Step, Stuck;
    assert IsRun(Step(confirmed, ControlUp), []);
    FirstStep(confirmed, ControlUp, []);
    assert [ControlUp] + [] == [ControlUp];
    FirstStep(asked, Confirmed, [ControlUp]);
    assert [Confirmed] + [ControlUp] == [Confirmed, ControlUp];
    FirstStep(down, VendorDelivered(true, true), [Confirmed, ControlUp]);
    assert [VendorDelivered(true, true)] + [Confirmed, ControlUp] == [VendorDelivered(true, true), Confirmed, ControlUp];
    FirstStep(st, ControlDown, [VendorDelivered(true, true), Confirmed, ControlUp]);
    assert [ControlDown] + [VendorDelivered(true, true), Confirmed, ControlUp]
        == [ControlDown, VendorDelivered(true, true), Confirmed, ControlUp];
  }

  /** Once stuck, no control is sent again until the connection next goes down. */
  lemma {:induction false} StuckUntilDown(st: State, events: seq<Event>)
    requires Stuck(st) && IsRun(st, events) && forall i :: 0 <= i < |events| ==> !events[i].ControlDown?
    ensures Stuck(RunFrom(st, events)) && RunFrom(st, events).sent == st.sent
    decreases events
  {
    hide Step, Enabled, Stuck;
    if events != [] {
      StuckStep(st, events[0]);
      StuckUntilDown(Step(st, events[0]), events[1..]);
    }
  }

  lemma {:induction false} StuckStep(st: State, e: Event)
    requires Stuck(st) && Enabled(st, e) && !e.ControlDown?
    ensures Stuck(Step(st, e)) && Step(st, e).sent == st.sent
  {
    hide SendAll, Refused, StatusAfter;
    if e.UserActs? {
      SendAllFrame(st, Controls(e.action), e.statusSupported);
    }
  }

  // ---------- Seeking, on a device that does not say what it plays ----------

  lemma {:induction false} SeekBits(status: PlayStatus)
    requires !Seeking(status)
    ensures StatusAfter(EndFastForward, StatusAfter(StartFastForward, status)) == status
    ensures StatusAfter(EndRewind, StatusAfter(StartRewind, status)) == status
    ensures Seeking(StatusAfter(StartFastForward, status)) && Seeking(StatusAfter(StartRewind, status))
  {
  }

  /** A seek and its end, with room for both, queue a press and a release and leave the assumed
      status as it was before the seek. */
  lemma {:induction false} SeekRoundTrip(st: State, forward: bool)
    requires st.connected && st.queueSize + 2 <= MAX_PENDING_COMMANDS && !Seeking(st.playStatus)
    ensures var start, end := if forward then StartFastForward else StartRewind, if forward then EndFastForward else EndRewind;
            var s := User(User(st, start, false, true), end, false, true);
            && s.playStatus == st.playStatus
            && s.queue == st.queue + (if forward then [FastForwardPress, FastForwardRelease] else [RewindPress, RewindRelease])
            && s.queueSize == st.queueSize + 2
  {
    SeekBits(st.playStatus);
    if forward {
      SeekPair(st, StartFastForward, FastForwardPress, EndFastForward, FastForwardRelease);
    } else {
      SeekPair(st, StartRewind, RewindPress, EndRewind, RewindRelease);
    }
    hide User, StatusAfter, Seeking;
  }

  lemma {:induction false} SeekPair(st: State, start: Action, press: Control, end: Action, release: Control)
    requires st.connected && st.queueSize + 2 <= MAX_PENDING_COMMANDS && start != Pause && end != Pause
    requires Controls(start) == [press] && Controls(end) == [release] && press != Nop && release != Nop && !EndsSeek(press)
    requires Seeking(StatusAfter(start, st.playStatus))
    ensures var s := User(User(st, start, false, true), end, false, true);
            && s.playStatus == StatusAfter(end, StatusAfter(start, st.playStatus))
            && s.queue == st.queue + [press, release]
            && s.queueSize == st.queueSize + 2
  {
    QueueOne(st, start, press);
    QueueOne(User(st, start, false, true), end, release);
    hide User, StatusAfter, Seeking, Controls, EndsSeek;
    assert st.queue + [press] + [release] == st.queue + [press, release];
  }

  /** An action of one control that is not refused, on a device that does not say what it plays. */
  lemma {:induction false} QueueOne(st: State, action: Action, control: Control)
    requires st.connected && st.queueSize < MAX_PENDING_COMMANDS && action != Pause
    requires Controls(action) == [control] && control != Nop && !Refused(st, control, false)
    ensures User(st, action, false, true) == Enqueue(st, control).(playStatus := StatusAfter(action, st.playStatus))
  {
    hide Controls, StatusAfter, Refused, SendAll;
    SendOne(st, control, false);
  }

  /** The end of a seek that was never begun is refused, but only the first time: the status it
      leaves looks like a seek, so the next end is queued. */
  lemma {:induction false} RefusedOnlyOnce(st: State)
    requires st.connected && st.queueSize < MAX_PENDING_COMMANDS && !Seeking(st.playStatus)
    ensures var once := User(st, EndFastForward, false, true);
            var twice := User(once, EndFastForward, false, true);
            && once.queue == st.queue && once.queueSize == st.queueSize
            && twice.queue == st.queue + [FastForwardRelease] && twice.queueSize == st.queueSize + 1
  {
    ErrorLooksLikeSeek();
    hide Seeking, StatusAfter;
    SendOne(st, FastForwardRelease, false);
    SendOne(User(st, EndFastForward, false, true), FastForwardRelease, false);
  }

  lemma {:induction false} ErrorLooksLikeSeek()
    ensures Seeking(StatusAfter(EndFastForward, ERROR))
  {
  }

  lemma {:induction false} SendOne(st: State, control: Control, statusSupported: bool)
    ensures SendAll(st, [control], statusSupported) == Send(st, control, statusSupported)
  {
    hide Send;
    assert [control][1..] == [];
    assert SendAll(Send(st, control, statusSupported), [], statusSupported) == Send(st, control, statusSupported);
  }
}
