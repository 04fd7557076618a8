/** The edge reports of the button interpreter when one input is configured for edge detection:
    they follow the input through every run. */
module ButtonEdges {
  import opened Buttons
  import ButtonTaps

  /** The one edge-configured input. */
  predicate SingleEdge(cfg: Config) {
    cfg.edgeMask != NONE && Both(cfg.edgeMask, cfg.edgeMask - 1) == NONE
  }

  /** Rises reported less falls reported. */
  function Net(log: seq<Entry>): int {
    if log == [] then 0 else Net(log[..|log| - 1]) + Sign(log[|log| - 1])
  }

  function Sign(e: Entry): int {
    if e.Detected? && e.time == LowToHigh then 1
    else if e.Detected? && e.time == HighToLow then -1
    else 0
  }

  lemma {:induction false} NetAppend(log: seq<Entry>, e: Entry)
    ensures Net(log + [e]) == Net(log) + Sign(e)
  {
    assert (log + [e])[..|log|] == log;
  }

  /** No edge is reported and the input seen last stays. */
  predicate NoEdge(st: State, s: State) {
    Net(s.log) == Net(st.log) && s.oldInput == st.oldInput
  }

  lemma {:induction false} DetectNoEdge(st: State, mask: Mask, time: Time)
    requires time != LowToHigh && time != HighToLow
    ensures NoEdge(st, Detect(st, mask, time))
  {
    NetAppend(st.log, Detected(mask, time));
  }

  lemma {:induction false} CountNoEdge(st: State, before: Mask)
    ensures NoEdge(st, CountTap(st, before))
  {
    hide Net, Detect, SameTap, TapsNow, TimeNow;
    DetectNoEdge(st.(tapCount := TapsNow(st, before), time := TimeNow(st, before)), before, Triple);
  }

  lemma {:induction false} ReportNoEdge(st: State, before: Mask)
    ensures NoEdge(st, ReportTime(st, before))
  {
    hide Net, Detect;
    DetectNoEdge(st, before, Short);
    DetectNoEdge(st, before, ReleaseOf(st.time));
  }

  lemma {:induction false} LevelNoEdge(cfg: Config, st: State, input: Mask)
    ensures NoEdge(st, LevelDetect(cfg, st, input))
  {
    hide Net, CountTap, ReportTime, Both, WasPressed;
    NetAppend(st.log, Pressed);
    var before := Both(st.oldInput, cfg.levelMask);
    CountNoEdge(st, before);
    ReportNoEdge(CountTap(st, before), before);
  }

  lemma {:induction false} TimerNoEdge(cfg: Config, st: State, e: Event)
    requires Enabled(st, e) && !e.InputChange?
    ensures NoEdge(st, Step(cfg, st, e))
  {
    hide Net, Detect, Both;
    match e
    case MultipleTimer =>
      var s := st.(multipleTimers := st.multipleTimers - 1);
      DetectNoEdge(s, Both(st.multipleState, cfg.levelMask), Double);
      DetectNoEdge(s, Both(st.multipleState, cfg.levelMask), ShortSingle);
    case InternalTimer =>
      InternalNoEdge(cfg, st);
    case RepeatTimer =>
      DetectNoEdge(st, Both(st.oldInput, cfg.levelMask), Repeat);
  }

  lemma {:induction false} InternalNoEdge(cfg: Config, st: State)
    requires st.internalTimers > 0
    ensures NoEdge(st, InternalFired(cfg, st))
  {
    hide Net, Detect, Both;
    var dropped := if st.tapCount > 0 then [Dropped(st.tapCount)] else [];
    assert st.log + [] == st.log;
    NetAppend(st.log, Dropped(st.tapCount));
    NetAppend(st.log + dropped, Crossed);
    assert st.log + (dropped + [Crossed]) == st.log + dropped + [Crossed];
    var s := st.(multipleState := NONE, tapCount := 0, multipleTimers := 0, time := NextThreshold(st.time),
                 internalTimers := st.internalTimers - 1 + if st.time == VeryLong then 0 else 1,
                 log := st.log + (dropped + [Crossed]));
    DetectNoEdge(s, Both(s.oldInput, cfg.levelMask), s.time);
  }

  lemma {:induction false} EdgeBits(cfg: Config, x: Mask)
    requires SingleEdge(cfg)
    ensures cfg.edgeMask != NONE
    ensures Both(x, cfg.edgeMask) == NONE || Both(x, cfg.edgeMask) == cfg.edgeMask
    ensures Both(cfg.edgeMask, x) == Both(x, cfg.edgeMask)
  {
    ButtonTaps.MaskBit(cfg.edgeMask, x);
  }

  lemma {:induction false} DifferBits(m: Mask)
    ensures Differ(m, NONE) == m && Differ(NONE, m) == m && Differ(m, m) == NONE && Differ(NONE, NONE) == NONE
    ensures Both(m, m) == m && Both(NONE, m) == NONE
  {
  }

  function LevelOf(cfg: Config, input: Mask): int {
    if Both(input, cfg.edgeMask) != NONE then 1 else 0
  }

  /** An input change reports a rise if the input rose, a fall if it fell, and otherwise nothing. */
  lemma {:induction false} EdgeReports(cfg: Config, st: State, input: Mask)
    requires SingleEdge(cfg)
    ensures var s := EdgeDetect(cfg, st, input);
            && Net(s.log) == Net(st.log) + LevelOf(cfg, input) - LevelOf(cfg, st.oldInput)
            && s == st.(log := s.log)
            && s.log == st.log + if LevelOf(cfg, input) == LevelOf(cfg, st.oldInput) then []
                                 else [Detected(cfg.edgeMask, if LevelOf(cfg, input) == 1 then LowToHigh else HighToLow)]
  {
    hide Both, Differ, SingleEdge, Net;
    var m := cfg.edgeMask;
    EdgeBits(cfg, st.oldInput);
    EdgeBits(cfg, input);
    DifferBits(m);
    NetAppend(st.log, Detected(m, LowToHigh));
    NetAppend(st.log, Detected(m, HighToLow));
    assert st.log + [] == st.log;
  }

  predicate Follows(cfg: Config, st: State) {
    Net(st.log) == LevelOf(cfg, st.oldInput)
  }

  lemma {:induction false} ChangeFollows(cfg: Config, st: State, input: Mask)
    requires SingleEdge(cfg) && Follows(cfg, st)
    ensures Follows(cfg, InputChanged(cfg, st, input))
  {
    hide Both, SingleEdge, Net, EdgeDetect, LevelDetect;
    EdgeBits(cfg, st.oldInput);
    EdgeBits(cfg, input);
    EdgeReports(cfg, st, input);
    LevelNoEdge(cfg, EdgePass(cfg, st, input), input);
  }

  lemma {:induction false} RunFollows(cfg: Config, st: State, events: seq<Event>)
    requires SingleEdge(cfg) && Follows(cfg, st) && IsRun(cfg, st, events)
    ensures Follows(cfg, RunFrom(cfg, st, events))
    decreases events
  {
    hide SingleEdge, Net, Both, InputChanged, MultipleFired, InternalFired, RepeatFired;
    if events != [] {
      match events[0] {
        case InputChange(input) => ChangeFollows(cfg, st, input);
        case _ => TimerNoEdge(cfg, st, events[0]);
      }
      RunFollows(cfg, Step(cfg, st, events[0]), events[1..]);
    }
  }

  lemma {:induction false} BootFollows(cfg: Config, input: Mask)
    requires SingleEdge(cfg)
    ensures Follows(cfg, Boot(cfg, input))
  {
    hide Both, SingleEdge, EdgeDetect, LevelDetect;
    var zero := State(NONE, NONE, 0, Invalid, 0, 0, 0, []);
    var s := LevelDetect(cfg, zero, Both(input, cfg.levelMask));
    LevelNoEdge(cfg, zero, Both(input, cfg.levelMask));
    EdgeReports(cfg, s, Both(input, cfg.edgeMask));
    DifferBits(cfg.edgeMask);
    EdgeBits(cfg, input);
  }

  /** Over every run of a single edge input, whatever else is configured: rises and falls are
      reported in turn, starting with a rise, and the last report says how the input stands. */
  lemma {:induction false} EdgesFollowInput(cfg: Config, boot: Mask, events: seq<Event>)
    requires SingleEdge(cfg) && IsRun(cfg, Boot(cfg, boot), events)
    ensures var st := RunFrom(cfg, Boot(cfg, boot), events);
            Net(st.log) == if Both(st.oldInput, cfg.edgeMask) != NONE then 1 else 0
  {
    hide Both, SingleEdge, Boot, IsRun, RunFrom, Net;
    BootFollows(cfg, boot);
    RunFollows(cfg, Boot(cfg, boot), events);
  }
}
