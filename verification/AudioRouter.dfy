/** The routing functions of apps/sink/sink_audio_routing.c and sink_audio.c as they run, updating
    what is routed in place. Each is proved to act as the function of `AudioRouting` for it. */
module AudioRouter {
  import opened AudioRouting

  class Router {
    var routed: Sink
    var source: Source
    var suspendPri: Suspended
    var suspendSec: Suspended
    var profile0: Profile
    var profile1: Profile
    ghost var log: seq<Call>

    ghost function View(): State
      reads this
    {
      State(routed, source, suspendPri, suspendSec, profile0, profile1, log)
    }

    constructor ()
      ensures View() == State(0, SourceNone, NotSuspended, NotSuspended, Profile(false, 0), Profile(false, 0), [])
      ensures Exclusive(View())
    {
      routed, source, suspendPri, suspendSec := 0, SourceNone, NotSuspended, NotSuspended;
      profile0, profile1, log := Profile(false, 0), Profile(false, 0), [];
    }

    function GetScoPriority(link: Link): nat
      requires link != Invalid
      reads this
    {
      if link == Primary then profile1.scoPriority else profile0.scoPriority
    }

    method SetPriority(link: Link, level: nat)
      modifies this
      ensures View() == SetScoPriority(old(View()), link, level)
    {
      match link {
        case Primary => profile1 := profile1.(scoPriority := level);
        case Secondary => profile0 := profile0.(scoPriority := level);
        case Invalid =>
      }
    }

    method DisconnectActiveSink()
      modifies this
      ensures View() == Disconnect(old(View()))
    {
      if routed != 0 {
        log := log + [AudioDisconnect];
        routed := 0;
      }
    }

    method HfpConnectAudio(link: Link, sink: Sink)
      modifies this
      ensures View() == ConnectHfp(old(View()), link, sink)
    {
      var profile := if link == Secondary then profile1 else profile0;
      if profile.codec {
        routed := sink;
        log := log + [AudioConnect(sink)];
      }
    }

    method ConnectScoSink(link: Link, sink: Sink)
      modifies this
      ensures View() == ConnectSco(old(View()), link, sink)
    {
      if routed != 0 && routed != sink {
        DisconnectActiveSink();
      }
      if routed == 0 {
        HfpConnectAudio(link, sink);
      }
    }

    method A2dpRouteAudio(env: Env, link: Link, sink: Sink)
      modifies this
      ensures View() == RouteA2dp(old(View()), env, link, sink)
    {
      if sink != 0 {
        if if link == Primary then env.settingsPri else env.settingsSec {
          log := log + [AudioConnect(sink)];
        }
        routed := sink;
      }
    }

    method SetSuspendState(link: Link, suspended: Suspended)
      modifies this
      ensures View() == SetSuspended(old(View()), link, suspended)
    {
      if link == Primary {
        suspendPri := suspended;
      } else {
        suspendSec := suspended;
      }
    }

    method SuspendA2dpStream(env: Env, link: Link)
      modifies this
      ensures View() == SuspendStream(old(View()), env, link)
    {
      if !IsPeer(env, link) {
        SetSuspendState(link, LocalSuspended);
      }
    }

    method ResumeA2dpStream(env: Env, link: Link, stream: Stream)
      modifies this
      ensures View() == ResumeStream(old(View()), env, link, stream)
    {
      if !IsPeer(env, link) {
        if if link == Primary then env.signallingPri else env.signallingSec {
          if stream.state == STREAM_OPEN {
            SetSuspendState(link, NotSuspended);
          } else if stream.state == STREAM_STREAMING {
            SetSuspendState(link, NotSuspended);
            A2dpRouteAudio(env, link, stream.sink);
          }
        }
      }
    }

    method SuspendDisconnectSource(status: Status, env: Env)
      modifies this
      ensures View() == SuspendDisconnect(old(View()), status, env)
    {
      hide MustSuspend, SuspendStream, Disconnect;
      if status.routed == status.pri.sink {
        if MustSuspend(status, env, env.samePriPri, env.samePriSec) {
          SuspendA2dpStream(env, Primary);
        }
        DisconnectActiveSink();
      } else if status.routed == status.sec.sink {
        if MustSuspend(status, env, env.sameSecPri, env.sameSecSec) {
          SuspendA2dpStream(env, Secondary);
        }
        DisconnectActiveSink();
      } else {
        DisconnectActiveSink();
      }
      source := SourceNone;
    }

    /** The choice of a call sink, which also names the source. */
    method SelectCall(status: Status, env: Env) returns (sink: Sink)
      modifies this
      ensures var link := SelectedCall(old(View()), status, env);
              && sink == SinkOf(status, link)
              && (link != Invalid ==> sink != 0)
              && View() == if link == Invalid then old(View()) else old(View()).(source := SourceOf(link))
    {
      sink := 0;
      if status.sinkAG1 != 0 && status.stateAG1 > CALL_IDLE && status.sinkAG2 != 0 && status.stateAG2 > CALL_IDLE {
        if GetScoPriority(Secondary) > GetScoPriority(Primary) {
          sink := status.sinkAG2;
          source := SourceAG2;
        } else {
          sink := status.sinkAG1;
          source := SourceAG1;
        }
      } else if status.sinkAG1 != 0 && (status.stateAG1 > CALL_IDLE || env.voiceRecognition) {
        sink := status.sinkAG1;
        source := SourceAG1;
      } else if status.sinkAG2 != 0 && (status.stateAG2 > CALL_IDLE || env.voiceRecognition) {
        sink := status.sinkAG2;
        source := SourceAG2;
      }
    }

    method RouteSco(status: Status, env: Env, sink: Sink)
      modifies this
      ensures View() == TakeSco(old(View()), status, env, sink)
    {
      hide SuspendDisconnect, ConnectSco;
      if sink != status.routed {
        if status.routed != 0 {
          SuspendDisconnectSource(status, env);
        }
        ConnectScoSink(LinkOf(status, sink), sink);
      }
    }

    method ActiveCallScoAvailable(status: Status, env: Env) returns (taken: bool)
      modifies this
      ensures Outcome(View(), taken) == CallAvailable(old(View()), status, env)
    {
      hide SuspendDisconnect, TakeSco, SelectedCall;
      if env.gateCall {
        if status.routed != 0 && (status.routed == status.sinkAG1 || status.routed == status.sinkAG2) {
          SuspendDisconnectSource(status, env);
        }
        return false;
      }
      var sink := SelectCall(status, env);
      if sink == 0 && (status.stateAG1 == CALL_INCOMING || status.stateAG2 == CALL_INCOMING) {
        if status.routed != 0 {
          SuspendDisconnectSource(status, env);
        }
        return true;
      }
      if sink != 0 {
        RouteSco(status, env, sink);
        return true;
      }
      taken := false;
    }

    method RouteStream(status: Status, env: Env, link: Link, stream: Stream)
      modifies this
      ensures View() == TakeStream(old(View()), status, env, link, stream)
    {
      hide SuspendDisconnect, RouteA2dp;
      if status.routed != stream.sink {
        if status.routed != 0 {
          SuspendDisconnectSource(status, env);
        }
        A2dpRouteAudio(env, link, stream.sink);
        source := SourceOf(link);
      }
    }

    method ResumeInstead(status: Status, env: Env, link: Link, stream: Stream)
      modifies this
      ensures View() == ResumeStream(Clear(old(View()), status, env), env, link, stream)
    {
      hide SuspendDisconnect, ResumeStream;
      if status.routed != 0 {
        SuspendDisconnectSource(status, env);
      }
      ResumeA2dpStream(env, link, stream);
    }

    /** Which stream the AVRCP play statuses choose. */
    method Choose(status: Status, env: Env) returns (choice: Choice)
      ensures choice == Chosen(status, env)
    {
      choice := Either;
      if BothStreamingOneRouted(status) {
        if !env.avrcpSwitching {
          return LeaveAsIs;
        }
        var playing0, playing1 := true, true;
        if env.avrcp0 {
          playing0 := env.playing0;
        }
        if env.avrcp1 {
          playing1 := env.playing1;
        }
        if playing0 && !playing1 {
          if env.avrcp0 {
            choice := Only(if env.priIs0 then Primary else Secondary);
          } else {
            choice := Only(if env.priIs0 then Secondary else Primary);
          }
        } else if playing1 && !playing0 {
          if env.avrcp1 {
            choice := Only(if env.priIs1 then Primary else Secondary);
          } else {
            choice := Only(if env.priIs0 then Secondary else Primary);
          }
        } else {
          choice := LeaveAsIs;
        }
      }
    }

    method A2dpStreamAvailable(status: Status, env: Env) returns (taken: bool)
      modifies this
      ensures Outcome(View(), taken) == StreamAvailable(old(View()), status, env)
    {
      hide SuspendDisconnect, Clear, ResumeStream, TakeStream, Chosen, Playable;
      if env.gateA2dp {
        if status.routed != 0 && (status.routed == status.pri.sink || status.routed == status.sec.sink) {
          SuspendDisconnectSource(status, env);
        }
        return false;
      }
      var choice := Choose(status, env);
      if choice == LeaveAsIs {
        return true;
      }
      taken := true;
      if choice != Only(Secondary) && suspendPri == LocalSuspended && status.pri.asSink {
        ResumeInstead(status, env, Primary, status.pri);
      } else if choice != Only(Primary) && suspendSec == LocalSuspended && status.sec.asSink {
        ResumeInstead(status, env, Secondary, status.sec);
      } else if choice != Only(Secondary) && Playable(status.pri, suspendPri) {
        RouteStream(status, env, Primary, status.pri);
      } else if choice != Only(Primary) && Playable(status.sec, suspendSec) {
        RouteStream(status, env, Secondary, status.sec);
      } else {
        taken := false;
      }
    }

    method ScoWithoutCallAvailable(status: Status, env: Env) returns (taken: bool)
      modifies this
      ensures Outcome(View(), taken) == ScoAvailable(old(View()), status, env)
    {
      hide SuspendDisconnect, TakeSco;
      if env.gateSco {
        if status.routed != 0 && (status.routed == status.sinkAG1 || status.routed == status.sinkAG2) {
          SuspendDisconnectSource(status, env);
        }
        return false;
      }
      var sink := 0;
      if status.sinkAG1 != 0 {
        sink := status.sinkAG1;
      } else if status.sinkAG2 != 0 {
        sink := status.sinkAG2;
      }
      if sink != 0 {
        RouteSco(status, env, sink);
        return true;
      }
      taken := false;
    }

    /** The status is taken here: what is routed now, and the rest from the libraries. */
    method Handle(fromLibraries: Status, env: Env) returns (ready: bool)
      requires Exclusive(View())
      modifies this
      ensures View() == HandleRouting(old(View()), fromLibraries, env)
      ensures Exclusive(View())
      ensures ready == !env.initialising
    {
      RoutingKeeps(View(), fromLibraries, env);
      hide CallAvailable, StreamAvailable, ScoAvailable, Disconnect, Exclusive;
      var status := fromLibraries.(routed := routed);
      if env.initialising {
        return false;
      }
      if env.dutActive {
        log := log + [AudioDisconnect];
      }
      var taken := ActiveCallScoAvailable(status, env);
      if !taken {
        taken := A2dpStreamAvailable(status, env);
        if !taken {
          taken := ScoWithoutCallAvailable(status, env);
          if !taken {
            if status.routed != 0 {
              DisconnectActiveSink();
            }
          }
        }
      }
      ready := true;
    }
  }
}
