/** What becomes of single requests on the browsing channel of `BrowsingChannel`, and of the channel
    itself, followed event by event: from any state on which connection and library agree. */
module BrowsingRuns {
  import opened BrowsingChannel

  /** These calls and no others were made since. */
  predicate CallsMade(st: State, s: State, calls: seq<Call>) {
    && |s.log| == |st.log| + |calls| && s.log[..|st.log|] == st.log
    && forall i :: 0 <= i < |calls| ==> s.log[|st.log| + i].call == calls[i]
  }

  lemma {:induction false} TwoSteps(st: State, first: Event, second: Event)
    requires Enabled(st, first) && Enabled(Step(st, first), second)
    ensures IsRun(st, [first, second]) && RunFrom(st, [first, second]) == Step(Step(st, first), second)
  {
    hide Enabled, Step;
    var next := Step(st, first);
    FirstStep(next, second, []);
    FirstStep(st, first, [second] + []);
    assert [first] + ([second] + []) == [first, second];
  }

  lemma {:induction false} ThreeSteps(st: State, first: Event, second: Event, third: Event)
    requires Enabled(st, first) && Enabled(Step(st, first), second) && Enabled(Step(Step(st, first), second), third)
    ensures IsRun(st, [first, second, third])
    ensures RunFrom(st, [first, second, third]) == Step(Step(Step(st, first), second), third)
  {
    hide Enabled, Step;
    TwoSteps(Step(st, first), second, third);
    FirstStep(st, first, [second, third]);
    assert [first] + [second, third] == [first, second, third];
  }

  /** A request made with no channel: one is asked for, and when it comes up, not before, the request
      is delivered and sent. */
  lemma {:induction false} AskedWhenDown(st: State, request: Request)
    requires Invariant(st) && st.active && st.connected && st.channel == Disconnected
    ensures !Enabled(Step(st, Asked(request, true)), Delivered(|st.held|, true))
    ensures var events := [Asked(request, true), ConnectConfirmed(st.avrcp, true), Delivered(|st.held|, true)];
            && IsRun(st, events)
            && var s := RunFrom(st, events);
               s.channel == Connected && s.held == st.held && CallsMade(st, s, [ConnectCall, RequestCall(request)])
  {
    hide AllProper, OthersDown, IdleNames;
    var asked := Step(st, Asked(request, true));
    var up := Step(asked, ConnectConfirmed(st.avrcp, true));
    assert up.held == st.held + [Held(request, OnChannel)] && up.channel == Connected;
    assert up.held[..|st.held|] + up.held[|st.held| + 1..] == st.held;
    var s := Step(up, Delivered(|st.held|, true));
    hide Step, Enabled, Invariant;
    ThreeSteps(st, Asked(request, true), ConnectConfirmed(st.avrcp, true), Delivered(|st.held|, true));
  }

  /** A request made while the channel is closing: once it is down, one is asked for again. */
  lemma {:induction false} AskedWhileClosing(st: State, request: Request)
    requires Invariant(st) && st.active && st.connected && st.channel == Disconnecting
    ensures var events := [Asked(request, true), DisconnectIndicated(st.avrcp)];
            && IsRun(st, events)
            && var s := RunFrom(st, events);
               s.channel == Pending && LibOf(s, st.avrcp).channel == Connecting && CallsMade(st, s, [ConnectCall])
  {
    hide AllProper, OthersDown, IdleNames;
    var asked := Step(st, Asked(request, true));
    assert asked.channel == Pending && asked.log == st.log && asked.avrcp == st.avrcp;
    hide Ask;
    TwoSteps(st, Asked(request, true), DisconnectIndicated(st.avrcp));
    hide RunFrom, IsRun;
  }

  /** A listing asked for while another is outstanding waits for its answer, and only then is sent. */
  lemma {:induction false} ListingWaits(st: State, scope: Scope)
    requires Invariant(st) && st.active && st.channel == Connected && st.scope != 0
    ensures !Enabled(Step(st, Asked(GetFolderItems(scope), true)), Delivered(|st.held|, true))
    ensures var events := [Asked(GetFolderItems(scope), true), ListingConfirmed(st.avrcp), Delivered(|st.held|, true)];
            && IsRun(st, events)
            && var s := RunFrom(st, events);
               s.held == st.held && s.scope == ScopeNumber(scope) && CallsMade(st, s, [RequestCall(GetFolderItems(scope))])
  {
    hide AllProper, OthersDown, IdleNames;
    var request := GetFolderItems(scope);
    var asked := Step(st, Asked(request, true));
    assert asked.held == st.held + [Held(request, OnScope)] && asked.log == st.log;
    var answered := Step(asked, ListingConfirmed(st.avrcp));
    assert answered.scope == 0 && answered.held == asked.held;
    assert answered.held[..|st.held|] + answered.held[|st.held| + 1..] == st.held;
    var s := Step(answered, Delivered(|st.held|, true));
    hide Step, Enabled, Invariant;
    ThreeSteps(st, Asked(request, true), ListingConfirmed(st.avrcp), Delivered(|st.held|, true));
  }

  /** The answer to a listing frees the lock if the control connection is still up; otherwise the lock
      stays until the channel is down. */
  lemma {:induction false} AnswerFrees(st: State)
    requires Invariant(st) && LibOf(st, st.avrcp).listings != []
    ensures var s := Step(st, ListingConfirmed(st.avrcp));
            s.scope == (if st.connected then 0 else st.scope) && LibOf(s, st.avrcp).listings == []
  {
    hide AllProper, OthersDown, IdleNames;
  }

  /** A channel that has gone idle is closed when the request to close it is delivered; a request
      sent before that cancels it. */
  lemma {:induction false} IdleCloses(st: State, request: Request)
    requires Invariant(st) && st.active && st.channel == Connected
    ensures var events := [AttributesCame(st.avrcp), IdleTimer(|st.idle|)];
            && IsRun(st, events)
            && RunFrom(st, events).channel == Disconnecting && CallsMade(st, RunFrom(st, events), [DisconnectCall])
    ensures Step(Step(st, AttributesCame(st.avrcp)), Asked(request, true)).idle == []
  {
    hide AllProper, OthersDown, LockHeld;
    var idle := Step(st, AttributesCame(st.avrcp));
    assert idle.idle == st.idle + [st.avrcp];
    TwoSteps(st, AttributesCame(st.avrcp), IdleTimer(|st.idle|));
    hide RunFrom, IsRun;
  }

  /** A channel that the remote device asks for is answered, not asked for again. */
  lemma {:induction false} IndicatedIsAnswered(st: State)
    requires Invariant(st) && st.connected && LibOf(st, st.avrcp).channel == Idle
    ensures Enabled(st, ConnectIndicated)
    ensures var s := Step(st, ConnectIndicated); s.channel == Pending && CallsMade(st, s, [ConnectResponse])
  {
    hide AllProper, OthersDown, IdleNames, LockHeld;
  }

  /** A channel that goes down, or fails to come up, takes what was held for it along; one that is
      wanted again is asked for. */
  lemma {:induction false} DownDropsHeld(st: State)
    requires Invariant(st) && st.avrcp != 0
    ensures var lib := LibOf(st, st.avrcp).channel;
            && (lib == Up || lib == Closing ==>
                  var s := Step(st, DisconnectIndicated(st.avrcp));
                  s.held == [] && s.scope == 0 && (s.channel == Disconnected <==> !(st.channel == Pending && st.connected)))
            && (lib == Connecting ==>
                  var s := Step(st, ConnectConfirmed(st.avrcp, false)); s.held == [] && s.idle == [] && s.channel == Disconnected)
  {
    hide AllProper, OthersDown, IdleNames, LockHeld;
  }

  /** The instance is forgotten when control connection and channel are both down: at the control
      connection's end if the channel is down, otherwise when the channel goes down or fails, unless
      it was wanted again before. */
  lemma {:induction false} ForgottenWhenDown(st: State)
    requires Invariant(st) && st.avrcp != 0
    ensures st.connected ==>
              var s := Step(st, ControlDown);
              !s.connected && s.avrcp == if st.channel == Disconnected then 0 else st.avrcp
    ensures var lib := LibOf(st, st.avrcp).channel;
            && ((lib == Up || lib == Closing) && st.channel != Pending ==>
                  Step(st, DisconnectIndicated(st.avrcp)).avrcp == if st.connected then st.avrcp else 0)
            && (lib == Connecting ==>
                  Step(st, ConnectConfirmed(st.avrcp, false)).avrcp == if st.connected then st.avrcp else 0)
  {
    hide AllProper, OthersDown, IdleNames, LockHeld;
  }

  /** The link closing leaves nothing connected, held or locked; leaving the connection for another
      starts to close its channel and drops what waits. */
  lemma {:induction false} LinkLostAndLeft(st: State)
    requires Invariant(st)
    ensures var s := Step(st, LinkLost(st.avrcp));
            !s.connected && s.channel == Disconnected && s.scope == 0 && s.held == [] && s.idle == [] && s.log == st.log
    ensures st.active ==>
              var s := Step(st, LeftForAnother);
              && !s.active && s.held == [] && s.idle == []
              && (st.channel == Connected ==> s.channel == Disconnecting && CallsMade(st, s, [DisconnectCall]))
              && (st.channel != Connected ==> s.channel == st.channel && s.log == st.log)
  {
    hide AllProper, OthersDown, LockHeld;
  }
}
