/** Headset audio routing (apps/sink/sink_audio_routing.c and sink_audio.c, with the stream
    suspend and resume of sink_a2dp.c): one audio output, call audio before music before audio
    without a call. The non-soundbar build with SCO and A2DP sources. */
module AudioRouting {

  /** A sink handle; zero is none. */
  type Sink = nat

  /** hfp_link_priority and a2dp_link_priority */
  datatype Link = Primary | Secondary | Invalid

  const CALL_IDLE := 0
  const CALL_INCOMING := 1
  const STREAM_OPEN := 5
  const STREAM_STARTING := 6
  const STREAM_STREAMING := 7

  datatype Stream = Stream(sink: Sink, state: nat, asSink: bool)

  /** audio_source_status; `routed` is the sink routed when it was taken. */
  datatype Status = Status(routed: Sink, stateAG1: nat, stateAG2: nat, sinkAG1: Sink, sinkAG2: Sink, pri: Stream, sec: Stream)

  /** What the rest of the program and the libraries say during one call. */
  datatype Env = Env(
    initialising: bool, dutActive: bool,
    gateCall: bool, gateSco: bool, gateA2dp: bool,
    voiceRecognition: bool, autoSuspendOnCall: bool, peerHasCall: bool,
    samePriPri: bool, samePriSec: bool, sameSecPri: bool, sameSecSec: bool, // A2DP link and HFP link on one device
    peerPri: bool, peerSec: bool,                                           // the A2DP link is to a peer
    signallingPri: bool, signallingSec: bool,
    settingsPri: bool, settingsSec: bool,                                   // codec settings are available
    avrcpSwitching: bool, avrcp0: bool, avrcp1: bool, playing0: bool, playing1: bool,
    priIs0: bool, priIs1: bool)                                             // the primary stream's device has this AVRCP link

  datatype Source = SourceNone | SourceAG1 | SourceAG2

  datatype Suspended = NotSuspended | LocalSuspended | RemoteSuspended

  datatype Call = AudioConnect(sink: Sink) | AudioDisconnect

  /** Of each HFP link: whether a codec is negotiated, and the SCO priority. */
  datatype Profile = Profile(codec: bool, scoPriority: nat)

  datatype State = State(
    routed: Sink, source: Source, suspendPri: Suspended, suspendSec: Suspended,
    profile0: Profile, profile1: Profile, log: seq<Call>)

  // ---------- SCO priorities ----------

  /** PROFILE_INDEX: the invalid link shares the first profile. */
  function ProfileOf(st: State, link: Link): Profile {
    if link == Secondary then st.profile1 else st.profile0
  }

  /** The priority of a link is kept in the profile of the other. */
  function ScoPriority(st: State, link: Link): nat
    requires link != Invalid
  {
    if link == Primary then st.profile1.scoPriority else st.profile0.scoPriority
  }

  function SetScoPriority(st: State, link: Link, level: nat): State {
    match link
    case Primary => st.(profile1 := st.profile1.(scoPriority := level))
    case Secondary => st.(profile0 := st.profile0.(scoPriority := level))
    case Invalid => st
  }

  /** A priority set is the priority read, and no other changes. */
  lemma {:induction false} PriorityReadBack(st: State, link: Link, level: nat, other: Link)
    requires other != Invalid
    ensures ScoPriority(SetScoPriority(st, link, level), other) == if other == link then level else ScoPriority(st, other)
    ensures ProfileOf(SetScoPriority(st, link, level), other).codec == ProfileOf(st, other).codec
  {
  }

  lemma {:induction false} SetPriorityFrame(st: State, link: Link, level: nat)
    ensures var s := SetScoPriority(st, link, level);
            s == st.(profile0 := s.profile0, profile1 := s.profile1)
  {
  }

  // ---------- Connecting and disconnecting ----------

  /** audioDisconnectActiveSink */
  function Disconnect(st: State): State {
    if st.routed == 0 then st else st.(log := st.log + [AudioDisconnect], routed := 0)
  }

  /** audioHfpConnectAudio */
  function ConnectHfp(st: State, link: Link, sink: Sink): State {
    if ProfileOf(st, link).codec then st.(routed := sink, log := st.log + [AudioConnect(sink)]) else st
  }

  /** audioConnectScoSink */
  function ConnectSco(st: State, link: Link, sink: Sink): State {
    var s := if st.routed != 0 && st.routed != sink then Disconnect(st) else st;
    if s.routed == 0 then ConnectHfp(s, link, sink) else s
  }

  /** A2dpRouteAudio: without codec settings nothing is connected, but the sink counts as routed. */
  function RouteA2dp(st: State, env: Env, link: Link, sink: Sink): State {
    if sink == 0 then st
    else
      var s := if (if link == Primary then env.settingsPri else env.settingsSec)
               then st.(log := st.log + [AudioConnect(sink)]) else st;
      s.(routed := sink)
  }

  function SetSuspended(st: State, link: Link, suspended: Suspended): State {
    if link == Primary then st.(suspendPri := suspended) else st.(suspendSec := suspended)
  }

  function IsPeer(env: Env, link: Link): bool {
    if link == Primary then env.peerPri else env.peerSec
  }

  function SuspendStream(st: State, env: Env, link: Link): State {
    if IsPeer(env, link) then st else SetSuspended(st, link, LocalSuspended)
  }

  /** ResumeA2dpStream: an open stream is asked to play, one already streaming is routed, and
      anything else is asked to connect. */
  function ResumeStream(st: State, env: Env, link: Link, stream: Stream): State {
    if IsPeer(env, link) || !(if link == Primary then env.signallingPri else env.signallingSec) then st
    else if stream.state == STREAM_OPEN then SetSuspended(st, link, NotSuspended)
    else if stream.state == STREAM_STREAMING then RouteA2dp(SetSuspended(st, link, NotSuspended), env, link, stream.sink)
    else st
  }

  predicate MustSuspend(status: Status, env: Env, sameAG1: bool, sameAG2: bool) {
    || !env.autoSuspendOnCall || env.voiceRecognition
    || (status.stateAG1 != CALL_IDLE && status.stateAG2 == CALL_IDLE && !sameAG1)
    || (status.stateAG2 != CALL_IDLE && status.stateAG1 == CALL_IDLE && !sameAG2)
    || env.peerHasCall
  }

  /** audioSuspendDisconnectSource */
  function SuspendDisconnect(st: State, status: Status, env: Env): State {
    var s :=
      if status.routed == status.pri.sink then
        if MustSuspend(status, env, env.samePriPri, env.samePriSec) then SuspendStream(st, env, Primary) else st
      else if status.routed == status.sec.sink then
        if MustSuspend(status, env, env.sameSecPri, env.sameSecSec) then SuspendStream(st, env, Secondary) else st
      else st;
    Disconnect(s).(source := SourceNone)
  }

  /** Whatever was routed when the status was taken is suspended or disconnected. */
  function Clear(st: State, status: Status, env: Env): State {
    if status.routed != 0 then SuspendDisconnect(st, status, env) else st
  }

  // ---------- The three kinds of source ----------

  /** Call audio that should be heard: the higher SCO priority if there are two, the primary on a tie. */
  function SelectedCall(st: State, status: Status, env: Env): Link {
    var call1, call2 := status.stateAG1 > CALL_IDLE, status.stateAG2 > CALL_IDLE;
    if status.sinkAG1 != 0 && call1 && status.sinkAG2 != 0 && call2 then
      if ScoPriority(st, Secondary) > ScoPriority(st, Primary) then Secondary else Primary
    else if status.sinkAG1 != 0 && (call1 || env.voiceRecognition) then Primary
    else if status.sinkAG2 != 0 && (call2 || env.voiceRecognition) then Secondary
    else Invalid
  }

  function SinkOf(status: Status, link: Link): Sink {
    match link
    case Primary => status.sinkAG1
    case Secondary => status.sinkAG2
    case Invalid => 0
  }

  /** HfpLinkPriorityFromAudioSink */
  function LinkOf(status: Status, sink: Sink): Link {
    if sink == status.sinkAG1 then Primary else if sink == status.sinkAG2 then Secondary else Invalid
  }

  datatype Outcome = Outcome(st: State, taken: bool)

  predicate ScoRouted(status: Status) {
    status.routed != 0 && (status.routed == status.sinkAG1 || status.routed == status.sinkAG2)
  }

  /** Connects a SCO sink in place of what was routed, unless it was that. */
  function TakeSco(st: State, status: Status, env: Env, sink: Sink): State {
    if sink == status.routed then st
    else ConnectSco(Clear(st, status, env), LinkOf(status, sink), sink)
  }

  function SourceOf(link: Link): Source {
    if link == Primary then SourceAG1 else SourceAG2
  }

  /** audioActiveCallScoAvailable; an incoming call without a SCO silences everything for its ring. */
  function CallAvailable(st: State, status: Status, env: Env): Outcome {
    if env.gateCall then
      Outcome(if ScoRouted(status) then SuspendDisconnect(st, status, env) else st, false)
    else
      var link := SelectedCall(st, status, env);
      if link != Invalid then
        Outcome(TakeSco(st.(source := SourceOf(link)), status, env, SinkOf(status, link)), true)
      else if status.stateAG1 == CALL_INCOMING || status.stateAG2 == CALL_INCOMING then
        Outcome(Clear(st, status, env), true)
      else Outcome(st, false)
  }

  predicate BothStreamingOneRouted(status: Status) {
    && status.pri.state == STREAM_STREAMING && status.sec.state == STREAM_STREAMING
    && status.pri.asSink && status.sec.asSink
    && (status.pri.sink == status.routed || status.sec.sink == status.routed)
  }

  /** Which stream may be routed. Of two that are streaming with one of them routed, the one whose
      AVRCP link plays; a link that is not connected is taken to play, and its stream is the one the
      other link does not belong to. With index 0 chosen but not connected, the source looks at
      index 0 again for the other link. */
  datatype Choice = Either | Only(link: Link) | LeaveAsIs

  function Chosen(status: Status, env: Env): Choice {
    var playing0, playing1 := !env.avrcp0 || env.playing0, !env.avrcp1 || env.playing1;
    if !BothStreamingOneRouted(status) then Either
    else if !env.avrcpSwitching || playing0 == playing1 then LeaveAsIs
    else if playing0 then
      if env.avrcp0 then Only(if env.priIs0 then Primary else Secondary)
      else Only(if env.priIs0 then Secondary else Primary)
    else
      if env.avrcp1 then Only(if env.priIs1 then Primary else Secondary)
      else Only(if env.priIs0 then Secondary else Primary)
  }

  predicate Playable(stream: Stream, suspended: Suspended) {
    (stream.state == STREAM_STARTING || stream.state == STREAM_STREAMING) && suspended == NotSuspended && stream.asSink
  }

  function TakeStream(st: State, status: Status, env: Env, link: Link, stream: Stream): State {
    if status.routed == stream.sink then st
    else RouteA2dp(Clear(st, status, env), env, link, stream.sink).(source := SourceOf(link))
  }

  /** audioA2dpStreamAvailable for either link */
  function StreamAvailable(st: State, status: Status, env: Env): Outcome {
    if env.gateA2dp then
      var music := status.routed != 0 && (status.routed == status.pri.sink || status.routed == status.sec.sink);
      Outcome(if music then SuspendDisconnect(st, status, env) else st, false)
    else
      var choice := Chosen(status, env);
      if choice == LeaveAsIs then Outcome(st, true)
      else if choice != Only(Secondary) && st.suspendPri == LocalSuspended && status.pri.asSink then
        Outcome(ResumeStream(Clear(st, status, env), env, Primary, status.pri), true)
      else if choice != Only(Primary) && st.suspendSec == LocalSuspended && status.sec.asSink then
        Outcome(ResumeStream(Clear(st, status, env), env, Secondary, status.sec), true)
      else if choice != Only(Secondary) && Playable(status.pri, st.suspendPri) then
        Outcome(TakeStream(st, status, env, Primary, status.pri), true)
      else if choice != Only(Primary) && Playable(status.sec, st.suspendSec) then
        Outcome(TakeStream(st, status, env, Secondary, status.sec), true)
      else Outcome(st, false)
  }

  /** audioScoAvailable */
  function ScoAvailable(st: State, status: Status, env: Env): Outcome {
    if env.gateSco then
      Outcome(if ScoRouted(status) then SuspendDisconnect(st, status, env) else st, false)
    else if status.sinkAG1 != 0 then Outcome(TakeSco(st, status, env, status.sinkAG1), true)
    else if status.sinkAG2 != 0 then Outcome(TakeSco(st, status, env, status.sinkAG2), true)
    else Outcome(st, false)
  }

  /** The cascade of audioHandleRouting */
  function Cascade(st: State, status: Status, env: Env): State {
    var call := CallAvailable(st, status, env);
    if call.taken then call.st
    else
      var stream := StreamAvailable(call.st, status, env);
      if stream.taken then stream.st
      else
        var sco := ScoAvailable(stream.st, status, env);
        if !sco.taken && status.routed != 0 then Disconnect(sco.st) else sco.st
  }

  /** audioHandleRouting; `status` was just taken but for what is routed now. A test-mode
      disconnect goes straight to the library. */
  function HandleRouting(st: State, status: Status, env: Env): State {
    if env.initialising then st
    else Cascade(if env.dutActive then st.(log := st.log + [AudioDisconnect]) else st, status.(routed := st.routed), env)
  }

  // ---------- One connection at a time ----------

  /** The sink of the connection that is live after these calls, zero if none. */
  function Live(log: seq<Call>): Sink {
    if log == [] || log[|log| - 1].AudioDisconnect? then 0 else log[|log| - 1].sink
  }

  /** No connection is made while another is live. */
  predicate NeverOverlaps(log: seq<Call>) {
    forall i :: 0 <= i < |log| && log[i].AudioConnect? ==> Live(log[..i]) == 0
  }

  predicate Exclusive(st: State) {
    NeverOverlaps(st.log) && (Live(st.log) != 0 ==> Live(st.log) == st.routed)
  }

  lemma {:induction false} Append(log: seq<Call>, call: Call)
    requires NeverOverlaps(log) && (call.AudioConnect? ==> Live(log) == 0)
    ensures NeverOverlaps(log + [call])
    ensures Live(log + [call]) == if call.AudioConnect? then call.sink else 0
  {
    forall i | 0 <= i < |log + [call]| && (log + [call])[i].AudioConnect?
      ensures Live((log + [call])[..i]) == 0
    {
      assert (log + [call])[..i] == log[..i];
      assert log[..|log|] == log;
    }
  }

  lemma {:induction false} DisconnectKeeps(st: State)
    requires Exclusive(st)
    ensures Exclusive(Disconnect(st)) && Disconnect(st).routed == 0 && Live(Disconnect(st).log) == 0
    ensures Disconnect(st) == st.(routed := 0, log := Disconnect(st).log)
  {
    if st.routed != 0 {
      Append(st.log, AudioDisconnect);
    }
    hide Live, NeverOverlaps;
  }

  /** Suspending and clearing disconnects, and touches nothing of the HFP links. */
  lemma {:induction false} SuspendKeeps(st: State, status: Status, env: Env)
    requires Exclusive(st)
    ensures var s := SuspendDisconnect(st, status, env);
            Exclusive(s) && s.routed == 0 && s.profile0 == st.profile0 && s.profile1 == st.profile1
  {
    hide NeverOverlaps, Live, MustSuspend, Disconnect;
    DisconnectKeeps(st);
    DisconnectKeeps(SuspendStream(st, env, Primary));
    DisconnectKeeps(SuspendStream(st, env, Secondary));
  }

  lemma {:induction false} ClearKeeps(st: State, status: Status, env: Env)
    requires Exclusive(st) && (status.routed == 0 ==> st.routed == 0)
    ensures var s := Clear(st, status, env);
            Exclusive(s) && s.routed == 0 && s.profile0 == st.profile0 && s.profile1 == st.profile1
  {
    hide Exclusive, SuspendDisconnect;
    if status.routed != 0 {
      SuspendKeeps(st, status, env);
    }
  }

  lemma {:induction false} ConnectScoKeeps(st: State, link: Link, sink: Sink)
    requires Exclusive(st) && st.routed == 0 && sink != 0
    ensures var s := ConnectSco(st, link, sink);
            && Exclusive(s)
            && s.routed == (if ProfileOf(st, link).codec then sink else 0)
            && Live(s.log) == s.routed
  {
    if ProfileOf(st, link).codec {
      Append(st.log, AudioConnect(sink));
    }
    hide NeverOverlaps;
  }

  /** There are codec settings for the stream of this link. */
  predicate HasSettings(env: Env, link: Link) {
    (link == Primary && env.settingsPri) || (link != Primary && env.settingsSec)
  }

  lemma {:induction false} RouteKeeps(st: State, env: Env, link: Link, sink: Sink)
    requires Exclusive(st) && st.routed == 0
    ensures Exclusive(RouteA2dp(st, env, link, sink)) && RouteA2dp(st, env, link, sink).routed == sink
    ensures Live(RouteA2dp(st, env, link, sink).log) == if HasSettings(env, link) then sink else 0
  {
    Append(st.log, AudioConnect(sink));
    hide Live, NeverOverlaps;
  }

  lemma {:induction false} ResumeKeeps(st: State, env: Env, link: Link, stream: Stream)
    requires Exclusive(st) && st.routed == 0
    ensures Exclusive(ResumeStream(st, env, link, stream))
  {
    hide NeverOverlaps, Live, RouteA2dp;
    RouteKeeps(SetSuspended(st, link, NotSuspended), env, link, stream.sink);
  }

  /** The status may be older than the state by a disconnection, never by a connection. */
  predicate InStep(st: State, status: Status) {
    Exclusive(st) && (st.routed == status.routed || st.routed == 0)
  }

  lemma {:induction false} TakeScoKeeps(st: State, status: Status, env: Env, sink: Sink)
    requires InStep(st, status) && sink != 0
    ensures var s := TakeSco(st, status, env, sink);
            && Exclusive(s)
            && s.routed == (if sink == status.routed then st.routed
                            else if ProfileOf(st, LinkOf(status, sink)).codec then sink else 0)
            && (if sink == status.routed then s.log == st.log else Live(s.log) == s.routed)
  {
    hide Exclusive, Clear, ConnectSco, Live;
    if sink != status.routed {
      ClearKeeps(st, status, env);
      ConnectScoKeeps(Clear(st, status, env), LinkOf(status, sink), sink);
    }
  }

  lemma {:induction false} CallKeeps(st: State, status: Status, env: Env)
    requires InStep(st, status)
    ensures var o := CallAvailable(st, status, env);
            Exclusive(o.st) && (!o.taken ==> InStep(o.st, status))
  {
    hide NeverOverlaps, Live, TakeSco, SuspendDisconnect, Clear;
    var link := SelectedCall(st, status, env);
    if env.gateCall {
      SuspendKeeps(st, status, env);
    } else if link != Invalid {
      TakeScoKeeps(st.(source := SourceOf(link)), status, env, SinkOf(status, link));
    } else {
      ClearKeeps(st, status, env);
    }
  }

  lemma {:induction false} TakeStreamKeeps(st: State, status: Status, env: Env, link: Link, stream: Stream)
    requires InStep(st, status)
    ensures var s := TakeStream(st, status, env, link, stream);
            Exclusive(s)
            && (status.routed != stream.sink ==> s.routed == stream.sink && Live(s.log) == if HasSettings(env, link) then stream.sink else 0)
            && (status.routed == stream.sink ==> s == st)
  {
    ClearKeeps(st, status, env);
    RouteKeeps(Clear(st, status, env), env, link, stream.sink);
    hide NeverOverlaps, Live, Clear, RouteA2dp;
  }

  lemma {:induction false} StreamKeeps(st: State, status: Status, env: Env)
    requires InStep(st, status)
    ensures var o := StreamAvailable(st, status, env);
            Exclusive(o.st) && (!o.taken ==> InStep(o.st, status))
  {
    hide NeverOverlaps, Live, Chosen, Playable, TakeStream, ResumeStream, Clear, SuspendDisconnect;
    SuspendKeeps(st, status, env);
    ClearKeeps(st, status, env);
    var cleared := Clear(st, status, env);
    ResumeKeeps(cleared, env, Primary, status.pri);
    ResumeKeeps(cleared, env, Secondary, status.sec);
    TakeStreamKeeps(st, status, env, Primary, status.pri);
    TakeStreamKeeps(st, status, env, Secondary, status.sec);
  }

  lemma {:induction false} ScoKeeps(st: State, status: Status, env: Env)
    requires InStep(st, status)
    ensures var o := ScoAvailable(st, status, env);
            Exclusive(o.st) && (!o.taken ==> InStep(o.st, status))
  {
    hide NeverOverlaps, Live, TakeSco, SuspendDisconnect;
    SuspendKeeps(st, status, env);
    if !env.gateSco && status.sinkAG1 != 0 {
      TakeScoKeeps(st, status, env, status.sinkAG1);
    } else if !env.gateSco && status.sinkAG2 != 0 {
      TakeScoKeeps(st, status, env, status.sinkAG2);
    }
  }

  lemma {:induction false} CascadeKeeps(st: State, status: Status, env: Env)
    requires InStep(st, status)
    ensures Exclusive(Cascade(st, status, env))
  {
    hide Exclusive, CallAvailable, StreamAvailable, ScoAvailable, Disconnect;
    CallKeeps(st, status, env);
    var call := CallAvailable(st, status, env);
    if !call.taken {
      StreamKeeps(call.st, status, env);
      var stream := StreamAvailable(call.st, status, env);
      if !stream.taken {
        ScoKeeps(stream.st, status, env);
        DisconnectKeeps(ScoAvailable(stream.st, status, env).st);
      }
    }
  }

  lemma {:induction false} RoutingKeeps(st: State, status: Status, env: Env)
    requires Exclusive(st)
    ensures Exclusive(HandleRouting(st, status, env))
  {
    if !env.initialising {
      Append(st.log, AudioDisconnect);
      hide NeverOverlaps, Live, Cascade;
      CascadeKeeps(if env.dutActive then st.(log := st.log + [AudioDisconnect]) else st, status.(routed := st.routed), env);
    }
  }

  // ---------- Runs ----------

  /** Between routings the rest of the program may change anything but the routing itself. */
  datatype Event =
    | Routed(status: Status, env: Env)
    | Changed(suspendPri: Suspended, suspendSec: Suspended, profile0: Profile, profile1: Profile)

  function Step(st: State, e: Event): State {
    match e
    case Routed(status, env) => HandleRouting(st, status, env)
    case Changed(suspendPri, suspendSec, profile0, profile1) =>
      st.(suspendPri := suspendPri, suspendSec := suspendSec, profile0 := profile0, profile1 := profile1)
  }

  function RunFrom(st: State, events: seq<Event>): State
    decreases events
  {
    if events == [] then st else RunFrom(Step(st, events[0]), events[1..])
  }

  /** Over every run, with any statuses, gates and settings: no audio connection is made while
      an earlier one is live, and a live connection is the one said to be routed. */
  lemma {:induction false} OneConnection(st: State, events: seq<Event>)
    requires Exclusive(st)
    ensures Exclusive(RunFrom(st, events))
    decreases events
  {
    hide HandleRouting, NeverOverlaps, Live;
    if events != [] {
      if events[0].Routed? {
        RoutingKeeps(st, events[0].status, events[0].env);
      }
      OneConnection(Step(st, events[0]), events[1..]);
    }
  }

  // ---------- What ends up routed ----------

  /** The sinks in a status are handles of different things. */
  predicate Distinct(status: Status) {
    status.sinkAG1 != 0 ==> status.sinkAG1 != status.sinkAG2
  }

  predicate HasCodec(st: State, link: Link) {
    (link == Primary && st.profile0.codec) || (link == Secondary && st.profile1.codec)
  }

  /** Which call audio is selected: there is some if and only if a link with audio has a call, or
      voice recognition is on; and it is the secondary's if and only if it is that link's alone, or
      both have calls and its priority is the higher. */
  lemma {:induction false} SelectedIff(st: State, status: Status, env: Env)
    ensures var call1, call2 := status.sinkAG1 != 0 && status.stateAG1 > 0, status.sinkAG2 != 0 && status.stateAG2 > 0;
            var audio1, audio2 := call1 || (status.sinkAG1 != 0 && env.voiceRecognition),
                                  call2 || (status.sinkAG2 != 0 && env.voiceRecognition);
            && (SelectedCall(st, status, env) != Invalid <==> audio1 || audio2)
            && (SelectedCall(st, status, env) == Secondary <==>
                  audio2 && (!audio1 || (call1 && call2 && st.profile0.scoPriority > st.profile1.scoPriority)))
  {
  }

  /** Call audio that is not gated ends up routed, whatever was before, if and only if its link
      has a codec or it was routed already; otherwise nothing is routed. If it was not routed
      already its connection is live; if it was, only a test-mode disconnect has come between. */
  lemma {:induction false} CallEndsRouted(st: State, status: Status, env: Env)
    requires Exclusive(st) && Distinct(status) && !env.initialising && !env.gateCall
    requires SelectedCall(st, status, env) != Invalid
    ensures var link := SelectedCall(st, status, env);
            var sink := SinkOf(status, link);
            && sink != 0
            && HandleRouting(st, status, env).routed
               == (if HasCodec(st, link) || st.routed == sink then sink else 0)
            && Live(HandleRouting(st, status, env).log)
               == (if st.routed == sink then (if env.dutActive then 0 else Live(st.log))
                   else HandleRouting(st, status, env).routed)
            && HandleRouting(st, status, env).source
               == if st.routed != 0 && st.routed != sink then SourceNone
                  else if link == Primary then SourceAG1 else SourceAG2
  {
    var link := SelectedCall(st, status, env);
    var sink := SinkOf(status, link);
    Append(st.log, AudioDisconnect);
    hide NeverOverlaps, Live, StreamAvailable, ScoAvailable, TakeSco;
    var s := (if env.dutActive then st.(log := st.log + [AudioDisconnect]) else st).(source := SourceOf(link));
    TakeScoKeeps(s, status.(routed := st.routed), env, sink);
    TakeScoSource(s, status.(routed := st.routed), env, sink);
  }

  /** Clearing what was routed resets the name of the source, and connecting a SCO does not set it. */
  lemma {:induction false} TakeScoSource(st: State, status: Status, env: Env, sink: Sink)
    ensures TakeSco(st, status, env, sink).source
         == if status.routed != 0 && status.routed != sink then SourceNone else st.source
  {
    hide MustSuspend;
    ConnectScoFrame(Clear(st, status, env), LinkOf(status, sink), sink);
    hide ConnectSco, LinkOf;
  }

  /** A SCO sink that is not routed replaces what is: the other is disconnected, and it is connected
      if its link has a codec. */
  lemma {:induction false} ConnectScoReplaces(st: State, link: Link, sink: Sink)
    requires link != Invalid && sink != 0
    ensures ConnectSco(st, link, sink) ==
              if st.routed == sink then st
              else
                var log := if st.routed != 0 then st.log + [AudioDisconnect] else st.log;
                if HasCodec(st, link) then st.(routed := sink, log := log + [AudioConnect(sink)])
                else st.(routed := 0, log := log)
  {
  }

  /** Between two calls with audio the higher SCO priority is selected, and the primary on a tie. */
  lemma {:induction false} HigherPriorityWins(st: State, status: Status, env: Env)
    requires status.sinkAG1 != 0 && status.sinkAG2 != 0 && status.stateAG1 > CALL_IDLE && status.stateAG2 > CALL_IDLE
    ensures var winner := SelectedCall(st, status, env);
            && winner != Invalid
            && forall link: Link :: link != Invalid ==> ScoPriority(st, link) <= ScoPriority(st, winner)
    ensures SelectedCall(st, status, env) == Primary <==> ScoPriority(st, Primary) >= ScoPriority(st, Secondary)
  {
  }

  /** An incoming call with no call audio to hear leaves nothing routed, so its ring is heard. */
  lemma {:induction false} RingIsAlone(st: State, status: Status, env: Env)
    requires Exclusive(st) && !env.initialising && !env.gateCall
    requires SelectedCall(st, status, env) == Invalid
    requires status.stateAG1 == CALL_INCOMING || status.stateAG2 == CALL_INCOMING
    ensures HandleRouting(st, status, env).routed == 0 && Live(HandleRouting(st, status, env).log) == 0
  {
    RoutingKeeps(st, status, env);
    Append(st.log, AudioDisconnect);
    hide NeverOverlaps, Live, StreamAvailable, ScoAvailable, Clear;
    var s := if env.dutActive then st.(log := st.log + [AudioDisconnect]) else st;
    ClearKeeps(s, status.(routed := st.routed), env);
  }

  /** With every gate closed nothing is routed, and nothing is live. */
  lemma {:induction false} AllGatedIsSilent(st: State, status: Status, env: Env)
    requires Exclusive(st) && !env.initialising && env.gateCall && env.gateSco && env.gateA2dp
    ensures HandleRouting(st, status, env).routed == 0 && Live(HandleRouting(st, status, env).log) == 0
  {
    RoutingKeeps(st, status, env);
    Append(st.log, AudioDisconnect);
    hide NeverOverlaps, Live, SuspendDisconnect, Disconnect;
    var s := if env.dutActive then st.(log := st.log + [AudioDisconnect]) else st;
    var now := status.(routed := st.routed);
    CallKeeps(s, now, env);
    var c := CallAvailable(s, now, env).st;
    StreamKeeps(c, now, env);
    var t := StreamAvailable(c, now, env).st;
    ScoKeeps(t, now, env);
    DisconnectKeeps(ScoAvailable(t, now, env).st);
  }

  function StreamOf(status: Status, link: Link): Stream {
    if link == Primary then status.pri else status.sec
  }

  function SuspendedOf(st: State, link: Link): Suspended {
    if link == Primary then st.suspendPri else st.suspendSec
  }

  /** Calls are not gated, and there is none to hear or ring for. */
  predicate Quiet(st: State, status: Status, env: Env) {
    && !env.gateCall && SelectedCall(st, status, env) == Invalid
    && status.stateAG1 != CALL_INCOMING && status.stateAG2 != CALL_INCOMING
  }

  predicate Waiting(st: State, status: Status, link: Link) {
    SuspendedOf(st, link) == LocalSuspended && StreamOf(status, link).asSink
  }

  predicate Ready(st: State, status: Status, link: Link) {
    Playable(StreamOf(status, link), SuspendedOf(st, link))
  }

  /** A stream is ready when it starts or runs, unsuspended, as a sink. */
  lemma {:induction false} ReadyIff(st: State, status: Status, link: Link)
    requires link != Invalid
    ensures Ready(st, status, link) <==>
              if link == Primary then
                (status.pri.state == 6 || status.pri.state == 7) && st.suspendPri == NotSuspended && status.pri.asSink
              else
                (status.sec.state == 6 || status.sec.state == 7) && st.suspendSec == NotSuspended && status.sec.asSink
  {
  }

  /** Music that is not gated, suspended or chosen against ends up routed when there is no call:
      a stream that waits to be resumed goes before it, and the primary before the secondary. */
  lemma {:induction false} MusicEndsRouted(st: State, status: Status, env: Env, link: Link)
    requires Exclusive(st) && !env.initialising && !env.gateA2dp && Quiet(st, status, env)
    requires link != Invalid && Ready(st, status, link)
    requires var choice, other := Chosen(status.(routed := st.routed), env), if link == Primary then Secondary else Primary;
             || choice == Only(link)
             || (choice == Either && !Waiting(st, status, other) && (other == Primary ==> !Ready(st, status, other)))
    ensures var s, sink := HandleRouting(st, status, env), StreamOf(status, link).sink;
            && s.routed == sink
            && Live(s.log) == if st.routed == sink then (if env.dutActive then 0 else Live(st.log))
                              else if HasSettings(env, link) then sink else 0
    ensures st.routed != StreamOf(status, link).sink ==>
              HandleRouting(st, status, env).source == if link == Primary then SourceAG1 else SourceAG2
  {
    Append(st.log, AudioDisconnect);
    var s := if env.dutActive then st.(log := st.log + [AudioDisconnect]) else st;
    var now := status.(routed := st.routed);
    SameSelected(st, s, status, env);
    NoCallTaken(s, now, env);
    assert InStep(s, now);
    hide NeverOverlaps, Live, InStep, CallAvailable, SelectedCall, ScoAvailable, TakeStream, ResumeStream, Clear, Chosen;
    TakeStreamEnds(s, now, env, link);
  }

  lemma {:induction false} TakeStreamEnds(st: State, status: Status, env: Env, link: Link)
    requires InStep(st, status) && st.routed == status.routed
    ensures var s, sink := TakeStream(st, status, env, link, StreamOf(status, link)), StreamOf(status, link).sink;
            && s.routed == sink
            && Live(s.log) == (if st.routed == sink then Live(st.log) else if HasSettings(env, link) then sink else 0)
            && (st.routed != sink ==> s.source == if link == Primary then SourceAG1 else SourceAG2)
  {
    hide NeverOverlaps, Live, Clear, RouteA2dp;
    TakeStreamKeeps(st, status, env, link, StreamOf(status, link));
  }

  /** Why a stream that gives way is suspended, by the device of its link. */
  predicate GivesWay(status: Status, env: Env, link: Link) {
    && !IsPeer(env, link)
    && if link == Primary then MustSuspend(status, env, env.samePriPri, env.samePriSec)
       else MustSuspend(status, env, env.sameSecPri, env.sameSecSec)
  }

  /** Why: calls are not assumed to suspend music, voice recognition is on, the one call is on
      another device, or the peer has a call. */
  lemma {:induction false} GivesWayIff(status: Status, env: Env, link: Link)
    requires link != Invalid
    ensures var peer, same1, same2 := if link == Primary then env.peerPri else env.peerSec,
                                      if link == Primary then env.samePriPri else env.sameSecPri,
                                      if link == Primary then env.samePriSec else env.sameSecSec;
            GivesWay(status, env, link) <==>
              && !peer
              && (!env.autoSuspendOnCall || env.voiceRecognition || env.peerHasCall
                  || (status.stateAG1 > 0 && status.stateAG2 == 0 && !same1)
                  || (status.stateAG2 > 0 && status.stateAG1 == 0 && !same2))
  {
  }

  lemma {:induction false} SuspendsRouted(st: State, status: Status, env: Env, link: Link)
    requires link != Invalid && status.routed == StreamOf(status, link).sink
    requires link == Secondary ==> status.routed != status.pri.sink
    ensures var s := SuspendDisconnect(st, status, env);
            && s.suspendPri == (if link == Primary && GivesWay(status, env, link) then LocalSuspended else st.suspendPri)
            && s.suspendSec == (if link == Secondary && GivesWay(status, env, link) then LocalSuspended else st.suspendSec)
  {
    hide MustSuspend;
  }

  lemma {:induction false} ConnectScoFrame(st: State, link: Link, sink: Sink)
    ensures var s := ConnectSco(st, link, sink);
            s == st.(routed := s.routed, log := s.log)
  {
  }

  /** Music that gives way to a call elsewhere is suspended, unless its device is a peer, and the
      other stream's state is left. */
  lemma {:induction false} MusicSuspendedForCall(st: State, status: Status, env: Env, link: Link)
    requires !env.initialising && !env.gateCall && link != Invalid
    requires SelectedCall(st, status, env) != Invalid
    requires st.routed == StreamOf(status, link).sink != 0 && st.routed != SinkOf(status, SelectedCall(st, status, env))
    requires link == Secondary ==> st.routed != status.pri.sink
    ensures var s := HandleRouting(st, status, env);
            && s.suspendPri == (if link == Primary && GivesWay(status, env, link) then LocalSuspended else st.suspendPri)
            && s.suspendSec == (if link == Secondary && GivesWay(status, env, link) then LocalSuspended else st.suspendSec)
  {
    var call := SelectedCall(st, status, env);
    var s := (if env.dutActive then st.(log := st.log + [AudioDisconnect]) else st).(source := SourceOf(call));
    var now := status.(routed := st.routed);
    SuspendsRouted(s, now, env, link);
    ConnectScoFrame(Clear(s, now, env), LinkOf(now, SinkOf(now, call)), SinkOf(now, call));
    assert GivesWay(now, env, link) == GivesWay(status, env, link);
    hide StreamAvailable, ScoAvailable, ConnectSco, SuspendDisconnect, GivesWay, LinkOf;
  }

  /** Music that was suspended, and is not chosen against, is routed again, and no longer suspended,
      once its stream runs and there is no call. */
  lemma {:induction false} MusicResumed(st: State, status: Status, env: Env, link: Link)
    requires Exclusive(st) && !env.initialising && !env.gateA2dp && Quiet(st, status, env)
    requires link != Invalid && Waiting(st, status, link) && StreamOf(status, link).state == STREAM_STREAMING
    requires !IsPeer(env, link) && if link == Primary then env.signallingPri else env.signallingSec
    requires var choice := Chosen(status.(routed := st.routed), env);
             choice == Only(link) || (choice == Either && (link == Secondary ==> !Waiting(st, status, Primary)))
    ensures var s := HandleRouting(st, status, env);
            && s.routed == StreamOf(status, link).sink && SuspendedOf(s, link) == NotSuspended
            && Live(s.log) == if HasSettings(env, link) then s.routed else 0
  {
    Append(st.log, AudioDisconnect);
    var s := if env.dutActive then st.(log := st.log + [AudioDisconnect]) else st;
    var now := status.(routed := st.routed);
    SameSelected(st, s, status, env);
    NoCallTaken(s, now, env);
    assert Exclusive(s);
    hide Exclusive, ScoAvailable, TakeStream, Clear, CallAvailable, SelectedCall, RouteA2dp, Chosen;
    ClearKeeps(s, now, env);
    RouteKeeps(SetSuspended(Clear(s, now, env), link, NotSuspended), env, link, StreamOf(status, link).sink);
    RouteA2dpFrame(SetSuspended(Clear(s, now, env), link, NotSuspended), env, link, StreamOf(status, link).sink);
  }

  /** Music that was suspended with its stream open is only asked to play: it is no longer suspended,
      and nothing is routed until it runs. */
  lemma {:induction false} MusicAskedToPlay(st: State, status: Status, env: Env, link: Link)
    requires Exclusive(st) && !env.initialising && !env.gateA2dp && Quiet(st, status, env)
    requires link != Invalid && Waiting(st, status, link) && StreamOf(status, link).state == STREAM_OPEN
    requires !IsPeer(env, link) && if link == Primary then env.signallingPri else env.signallingSec
    requires var choice := Chosen(status.(routed := st.routed), env);
             choice == Only(link) || (choice == Either && (link == Secondary ==> !Waiting(st, status, Primary)))
    ensures var s := HandleRouting(st, status, env);
            s.routed == 0 && Live(s.log) == 0 && SuspendedOf(s, link) == NotSuspended
  {
    RoutingKeeps(st, status, env);
    Append(st.log, AudioDisconnect);
    var s := if env.dutActive then st.(log := st.log + [AudioDisconnect]) else st;
    var now := status.(routed := st.routed);
    SameSelected(st, s, status, env);
    NoCallTaken(s, now, env);
    assert Exclusive(s);
    hide NeverOverlaps, Live, ScoAvailable, TakeStream, Clear, CallAvailable, SelectedCall, RouteA2dp, Chosen;
    ClearKeeps(s, now, env);
  }

  /** A stream that waits but is to a peer, or has no signalling channel, stays suspended; what was
      routed gives way to it all the same. */
  lemma {:induction false} MusicNotResumed(st: State, status: Status, env: Env, link: Link)
    requires Exclusive(st) && !env.initialising && !env.gateA2dp && Quiet(st, status, env)
    requires link != Invalid && Waiting(st, status, link)
    requires if link == Primary then env.peerPri || !env.signallingPri else env.peerSec || !env.signallingSec
    requires var choice := Chosen(status.(routed := st.routed), env);
             choice == Only(link) || (choice == Either && (link == Secondary ==> !Waiting(st, status, Primary)))
    ensures var s := HandleRouting(st, status, env);
            s.routed == 0 && Live(s.log) == 0 && SuspendedOf(s, link) == LocalSuspended
  {
    RoutingKeeps(st, status, env);
    Append(st.log, AudioDisconnect);
    var s := if env.dutActive then st.(log := st.log + [AudioDisconnect]) else st;
    var now := status.(routed := st.routed);
    SameSelected(st, s, status, env);
    NoCallTaken(s, now, env);
    assert Exclusive(s);
    ClearKeeps(s, now, env);
    ClearSuspends(s, now, env);
    hide NeverOverlaps, Live, ScoAvailable, TakeStream, Clear, CallAvailable, SelectedCall, RouteA2dp, Chosen;
  }

  /** Clearing only ever suspends. */
  lemma {:induction false} ClearSuspends(st: State, status: Status, env: Env)
    ensures var s := Clear(st, status, env);
            && (s.suspendPri == st.suspendPri || s.suspendPri == LocalSuspended)
            && (s.suspendSec == st.suspendSec || s.suspendSec == LocalSuspended)
  {
    hide MustSuspend;
  }

  /** Whether the music step takes anything: not if gated; otherwise if the routing is to be left as
      it is, or a stream not chosen against waits or is ready. */
  lemma {:induction false} MusicTakenIff(st: State, status: Status, env: Env)
    ensures var choice := Chosen(status, env);
            StreamAvailable(st, status, env).taken <==>
              && !env.gateA2dp
              && (|| choice == LeaveAsIs
                  || (choice != Only(Secondary) && (Waiting(st, status, Primary) || Ready(st, status, Primary)))
                  || (choice != Only(Primary) && (Waiting(st, status, Secondary) || Ready(st, status, Secondary))))
  {
    hide Chosen, TakeStream, ResumeStream, Clear, SuspendDisconnect, Playable;
  }

  /** Music that has ended, with no other audio, is disconnected and is not suspended. */
  lemma {:induction false} MusicEnded(st: State, status: Status, env: Env)
    requires Exclusive(st) && !env.initialising && !env.gateA2dp && Quiet(st, status, env)
    requires !StreamAvailable(st, status.(routed := st.routed), env).taken
    requires env.gateSco || (status.sinkAG1 == 0 && status.sinkAG2 == 0)
    requires st.routed == 0 || (st.routed != status.sinkAG1 && st.routed != status.sinkAG2)
    ensures var s := HandleRouting(st, status, env);
            s.routed == 0 && Live(s.log) == 0 && s.suspendPri == st.suspendPri && s.suspendSec == st.suspendSec
  {
    RoutingKeeps(st, status, env);
    var s := if env.dutActive then st.(log := st.log + [AudioDisconnect]) else st;
    var now := status.(routed := st.routed);
    SameSelected(st, s, status, env);
    NoCallTaken(s, now, env);
    MusicTakenFrame(st, s, now, env);
    hide Exclusive, CallAvailable, SelectedCall, Chosen, TakeStream, ResumeStream, SuspendDisconnect, Clear, TakeSco, Playable;
    assert HandleRouting(st, status, env).routed == 0;
    NothingLive(HandleRouting(st, status, env));
  }

  lemma {:induction false} NothingLive(st: State)
    requires Exclusive(st) && st.routed == 0
    ensures Live(st.log) == 0
  {
  }

  /** Music that is gated is suspended, unless its device is a peer, where a call would suspend it,
      and gives way. */
  lemma {:induction false} MusicGated(st: State, status: Status, env: Env, link: Link)
    requires !env.initialising && env.gateA2dp && Quiet(st, status, env) && link != Invalid
    requires st.routed == StreamOf(status, link).sink != 0 && (link == Secondary ==> st.routed != status.pri.sink)
    requires st.routed != status.sinkAG1 && st.routed != status.sinkAG2
    ensures var s := HandleRouting(st, status, env);
            && s.routed != st.routed
            && s.suspendPri == (if link == Primary && GivesWay(status, env, link) then LocalSuspended else st.suspendPri)
            && s.suspendSec == (if link == Secondary && GivesWay(status, env, link) then LocalSuspended else st.suspendSec)
  {
    var s := if env.dutActive then st.(log := st.log + [AudioDisconnect]) else st;
    var now := status.(routed := st.routed);
    SameSelected(st, s, status, env);
    NoCallTaken(s, now, env);
    assert GivesWay(now, env, link) == GivesWay(status, env, link);
    SuspendsRouted(s, now, env, link);
    var t := SuspendDisconnect(s, now, env);
    SuspendsRouted(t, now, env, link);
    ConnectScoFrame(Clear(t, now, env), LinkOf(now, status.sinkAG1), status.sinkAG1);
    ConnectScoFrame(Clear(t, now, env), LinkOf(now, status.sinkAG2), status.sinkAG2);
    ClearsRouted(s, now, env);
    ClearsRouted(t, now, env);
    hide CallAvailable, SelectedCall, SuspendDisconnect, GivesWay;
  }

  lemma {:induction false} ClearsRouted(st: State, status: Status, env: Env)
    ensures SuspendDisconnect(st, status, env).routed == 0
  {
    hide MustSuspend;
  }

  lemma {:induction false} NoCallTaken(st: State, status: Status, env: Env)
    requires Quiet(st, status, env)
    ensures CallAvailable(st, status, env) == Outcome(st, false)
  {
  }

  lemma {:induction false} RouteA2dpFrame(st: State, env: Env, link: Link, sink: Sink)
    requires st.routed == 0
    ensures var s := RouteA2dp(st, env, link, sink);
            s.routed == sink && s.suspendPri == st.suspendPri && s.suspendSec == st.suspendSec
  {
  }

  // ---------- Which of two streaming devices ends up routed ----------

  /** The choice with the other index looked at for an index that is not connected. */
  function Intended(status: Status, env: Env): Choice {
    var playing0, playing1 := !env.avrcp0 || env.playing0, !env.avrcp1 || env.playing1;
    if !BothStreamingOneRouted(status) then Either
    else if !env.avrcpSwitching || playing0 == playing1 then LeaveAsIs
    else if playing0 then
      if env.avrcp0 then Only(if env.priIs0 then Primary else Secondary)
      else Only(if env.priIs1 then Secondary else Primary)
    else
      if env.avrcp1 then Only(if env.priIs1 then Primary else Secondary)
      else Only(if env.priIs0 then Secondary else Primary)
  }

  /** The choice is left open unless two streams as sinks are streaming and one of them is routed;
      then the routing is left as it is unless AVRCP switching is on and exactly one of the two says
      it is paused. */
  lemma {:induction false} ChoiceIff(status: Status, env: Env)
    ensures var two := status.pri.state == 7 && status.sec.state == 7 && status.pri.asSink && status.sec.asSink
                       && (status.pri.sink == status.routed || status.sec.sink == status.routed);
            var paused0, paused1 := env.avrcp0 && !env.playing0, env.avrcp1 && !env.playing1;
            && (Chosen(status, env) == Either <==> !two)
            && (Chosen(status, env) == LeaveAsIs <==> two && (!env.avrcpSwitching || paused0 == paused1))
            && (Chosen(status, env).Only? ==> Chosen(status, env).link != Invalid)
  {
  }

  /** Routing that is left as it is stays, connected or not. */
  lemma {:induction false} LeftAsItIs(st: State, status: Status, env: Env)
    requires !env.initialising && !env.gateA2dp && Quiet(st, status, env)
    requires Chosen(status.(routed := st.routed), env) == LeaveAsIs
    ensures HandleRouting(st, status, env) == if env.dutActive then st.(log := st.log + [AudioDisconnect]) else st
  {
    var s := if env.dutActive then st.(log := st.log + [AudioDisconnect]) else st;
    var now := status.(routed := st.routed);
    SameSelected(st, s, status, env);
    NoCallTaken(s, now, env);
    hide CallAvailable, SelectedCall, ScoAvailable, TakeStream, ResumeStream, Clear, Chosen;
  }

  /** The source's choice is that one, but where index 0 is not connected, index 1 says paused, and
      the two are not the same to the primary stream. */
  lemma {:induction false} ChosenIsIntendedIff(status: Status, env: Env)
    requires BothStreamingOneRouted(status) && env.avrcpSwitching
    ensures Chosen(status, env) == Intended(status, env)
       <==> !(!env.avrcp0 && env.avrcp1 && !env.playing1 && env.priIs0 != env.priIs1)
  {
    hide BothStreamingOneRouted;
  }

  /** A connected AVRCP link says that the device of this stream is not playing. */
  predicate SaysPaused(env: Env, link: Link) {
    || (env.avrcp0 && !env.playing0 && (link == Primary <==> env.priIs0))
    || (env.avrcp1 && !env.playing1 && (link == Primary <==> env.priIs1))
  }

  /** A chosen stream is of a device that says it is paused exactly in that case, or when both
      AVRCP links are connected and are the same to the primary stream; as intended, only then. */
  lemma {:induction false} PausedChosenIff(status: Status, env: Env)
    ensures Chosen(status, env).Only? ==>
              (SaysPaused(env, Chosen(status, env).link)
               <==> env.avrcp1 && if env.avrcp0 then env.priIs0 == env.priIs1 else env.priIs0 != env.priIs1)
    ensures Intended(status, env).Only? ==>
              (SaysPaused(env, Intended(status, env).link) <==> env.avrcp0 && env.avrcp1 && env.priIs0 == env.priIs1)
  {
    hide BothStreamingOneRouted;
  }

  /** Of two streams, neither suspended, with no call: the one the AVRCP links choose ends up
      routed; that is the one intended if and only if index 0 is connected, or the two are the
      same to the primary stream. */
  lemma {:induction false} ChoiceEndsRouted(st: State, status: Status, env: Env)
    requires Exclusive(st) && !env.initialising && !env.gateA2dp && Quiet(st, status, env)
    requires BothStreamingOneRouted(status.(routed := st.routed)) && status.pri.sink != status.sec.sink
    requires st.suspendPri == NotSuspended && st.suspendSec == NotSuspended
    requires Chosen(status.(routed := st.routed), env).Only?
    ensures var now := status.(routed := st.routed);
            var link := Chosen(now, env).link;
            && HandleRouting(st, status, env).routed == StreamOf(status, link).sink
            && (st.routed != StreamOf(status, link).sink ==>
                  Live(HandleRouting(st, status, env).log) == if HasSettings(env, link) then StreamOf(status, link).sink else 0)
            && Intended(now, env).Only?
            && (HandleRouting(st, status, env).routed == StreamOf(status, Intended(now, env).link).sink
                <==> env.avrcp0 || env.priIs0 == env.priIs1)
  {
    var now := status.(routed := st.routed);
    ChosenIsIntendedIff(now, env);
    MusicEndsRouted(st, status, env, Chosen(now, env).link);
    hide HandleRouting, Exclusive, Quiet;
  }

  /** The case that fails: only the AVRCP link of the primary's device is connected, as index 1,
      and says paused. The primary ends up routed all the same, even in place of the secondary. */
  lemma {:induction false} PausedEndsRouted(st: State, status: Status, env: Env)
    requires Exclusive(st) && !env.initialising && !env.gateA2dp && Quiet(st, status, env)
    requires BothStreamingOneRouted(status.(routed := st.routed)) && env.avrcpSwitching
    requires st.suspendPri == NotSuspended
    requires !env.avrcp0 && env.avrcp1 && !env.playing1 && !env.priIs0 && env.priIs1
    ensures SaysPaused(env, Primary) && !SaysPaused(env, Secondary)
    ensures Intended(status.(routed := st.routed), env) == Only(Secondary)
    ensures HandleRouting(st, status, env).routed == status.pri.sink
  {
    MusicEndsRouted(st, status, env, Primary);
    hide HandleRouting, Exclusive, Quiet;
  }

  /** Of two calls with audio the one whose SCO priority was set higher ends up routed, the primary
      on a tie, whatever was routed before and wherever the priorities are kept. */
  lemma {:induction false} HigherPriorityEndsRouted(st: State, primary: nat, secondary: nat, status: Status, env: Env)
    requires Exclusive(st) && Distinct(status) && !env.initialising && !env.gateCall
    requires status.sinkAG1 != 0 && status.sinkAG2 != 0 && status.stateAG1 > CALL_IDLE && status.stateAG2 > CALL_IDLE
    requires st.profile0.codec && st.profile1.codec
    ensures var s := SetScoPriority(SetScoPriority(st, Primary, primary), Secondary, secondary);
            HandleRouting(s, status, env).routed == if secondary > primary then status.sinkAG2 else status.sinkAG1
  {
    var s := SetScoPriority(SetScoPriority(st, Primary, primary), Secondary, secondary);
    hide HandleRouting, NeverOverlaps, Live, SelectedCall, ScoPriority, SetScoPriority;
    PriorityReadBack(st, Primary, primary, Primary);
    PriorityReadBack(st, Primary, primary, Secondary);
    PriorityReadBack(SetScoPriority(st, Primary, primary), Secondary, secondary, Primary);
    PriorityReadBack(SetScoPriority(st, Primary, primary), Secondary, secondary, Secondary);
    HigherPriorityWins(s, status, env);
    SetPriorityFrame(st, Primary, primary);
    SetPriorityFrame(SetScoPriority(st, Primary, primary), Secondary, secondary);
    CallEndsRouted(s, status, env);
  }

  /** SCO sinks are not the sinks of music. */
  predicate ScoDistinct(status: Status) {
    && Distinct(status)
    && (status.sinkAG1 != 0 ==> status.sinkAG1 != status.pri.sink && status.sinkAG1 != status.sec.sink)
    && (status.sinkAG2 != 0 ==> status.sinkAG2 != status.pri.sink && status.sinkAG2 != status.sec.sink)
  }

  /** Nothing is done for a call: it is gated, or there is none to hear or ring for. */
  predicate NoCall(st: State, status: Status, env: Env) {
    env.gateCall ||
    (SelectedCall(st, status, env) == Invalid && status.stateAG1 != CALL_INCOMING && status.stateAG2 != CALL_INCOMING)
  }

  /** The call gate drops a routed SCO, and otherwise a call step that takes nothing changes nothing. */
  lemma {:induction false} NoCallStep(st: State, status: Status, env: Env)
    requires InStep(st, status) && NoCall(st, status, env) && ScoDistinct(status)
    ensures var o := CallAvailable(st, status, env);
            && !o.taken && InStep(o.st, status)
            && o.st.routed == (if env.gateCall && ScoRouted(status) then 0 else st.routed)
            && o.st.profile0 == st.profile0 && o.st.profile1 == st.profile1
            && o.st.suspendPri == st.suspendPri && o.st.suspendSec == st.suspendSec
  {
    CallKeeps(st, status, env);
    SuspendKeeps(st, status, env);
    hide NeverOverlaps, Live, SelectedCall, TakeSco, Clear, MustSuspend;
  }

  /** A music step that takes nothing changes nothing but to drop gated music. */
  lemma {:induction false} NoMusicStep(st: State, status: Status, env: Env)
    requires InStep(st, status) && !StreamAvailable(st, status, env).taken
    ensures var o := StreamAvailable(st, status, env);
            && InStep(o.st, status)
            && (o.st.routed == st.routed || (o.st.routed == 0 && (status.routed == status.pri.sink || status.routed == status.sec.sink)))
            && o.st.profile0 == st.profile0 && o.st.profile1 == st.profile1
  {
    StreamKeeps(st, status, env);
    SuspendKeeps(st, status, env);
    hide NeverOverlaps, Live, Chosen, Playable, TakeStream, ResumeStream, Clear, SuspendDisconnect;
  }

  /** Whether the music step takes anything is decided by the gate, the status and what is suspended. */
  lemma {:induction false} MusicTakenFrame(a: State, b: State, status: Status, env: Env)
    requires a.suspendPri == b.suspendPri && a.suspendSec == b.suspendSec
    ensures StreamAvailable(a, status, env).taken == StreamAvailable(b, status, env).taken
  {
    hide Chosen, Playable, TakeStream, ResumeStream, Clear, SuspendDisconnect;
  }

  /** With no call and no music taken, ungated SCO audio ends up routed, the primary's before the
      secondary's, if and only if its link has a codec or it was routed already; but if it was
      routed while calls are gated, that gate has just dropped it and nothing is routed. */
  lemma {:induction false} ScoEndsRouted(st: State, status: Status, env: Env)
    requires Exclusive(st) && ScoDistinct(status) && !env.initialising && !env.gateSco
    requires NoCall(st, status, env) && !StreamAvailable(st, status.(routed := st.routed), env).taken
    requires status.sinkAG1 != 0 || status.sinkAG2 != 0
    ensures var sink := if status.sinkAG1 != 0 then status.sinkAG1 else status.sinkAG2;
            HandleRouting(st, status, env).routed ==
              if st.routed == sink then (if env.gateCall then 0 else sink)
              else if HasCodec(st, if status.sinkAG1 != 0 then Primary else Secondary) then sink else 0
  {
    Append(st.log, AudioDisconnect);
    var s := if env.dutActive then st.(log := st.log + [AudioDisconnect]) else st;
    var now := status.(routed := st.routed);
    var sink := if status.sinkAG1 != 0 then status.sinkAG1 else status.sinkAG2;
    SameSelected(st, s, status, env);
    assert InStep(s, now) && NoCall(s, now, env);
    hide NeverOverlaps, Live, Exclusive, CallAvailable, StreamAvailable, TakeSco, NoCall, InStep;
    NoCallStep(s, now, env);
    var c := CallAvailable(s, now, env).st;
    MusicTakenFrame(st, c, now, env);
    NoMusicStep(c, now, env);
    var t := StreamAvailable(c, now, env).st;
    TakeScoKeeps(t, now, env, sink);
  }

  /** The selection reads neither the log nor what is routed. */
  lemma {:induction false} SameSelected(a: State, b: State, status: Status, env: Env)
    requires a.profile0 == b.profile0 && a.profile1 == b.profile1
    ensures SelectedCall(b, status.(routed := a.routed), env) == SelectedCall(a, status, env)
  {
  }
}
