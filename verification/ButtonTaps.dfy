/** Conservation of taps in the button interpreter when one input is configured for level
    detection: every release is accounted for by exactly one kind of report, whatever the
    interleaving of input changes and timers. */
module ButtonTaps {
  import opened Buttons

  /** The one level-configured input. */
  predicate SingleInput(cfg: Config) {
    cfg.levelMask != NONE && Both(cfg.levelMask, cfg.levelMask - 1) == NONE
  }

  // ---------- Counting reports ----------

  /** Totals over a log; `crossings` counts thresholds since the last press only. */
  datatype Tally = Tally(short: nat, single: nat, double: nat, triple: nat, longReleases: nat,
                         droppedTaps: nat, droppedGroups: nat, crossings: nat)

  function Add(t: Tally, e: Entry): Tally {
    match e
    case Pressed => t.(crossings := 0)
    case Crossed => t.(crossings := t.crossings + 1)
    case Dropped(n) => t.(droppedTaps := t.droppedTaps + n, droppedGroups := t.droppedGroups + 1)
    case Detected(_, time) =>
      match time
      case Short => t.(short := t.short + 1)
      case ShortSingle => t.(single := t.single + 1)
      case Double => t.(double := t.double + 1)
      case Triple => t.(triple := t.triple + 1)
      case LongRelease => t.(longReleases := t.longReleases + 1)
      case VeryLongRelease => t.(longReleases := t.longReleases + 1)
      case VeryVeryLongRelease => t.(longReleases := t.longReleases + 1)
      case _ => t
  }

  function TallyOf(log: seq<Entry>): Tally {
    if log == [] then Tally(0, 0, 0, 0, 0, 0, 0, 0) else Add(TallyOf(log[..|log| - 1]), log[|log| - 1])
  }

  lemma {:induction false} TallyAppend(log: seq<Entry>, e: Entry)
    ensures TallyOf(log + [e]) == Add(TallyOf(log), e)
  {
    assert (log + [e])[..|log|] == log;
  }

  /** Releases of the input `m` in a sequence of events, with `held` the inputs before it. */
  function Releases(m: Mask, held: Mask, events: seq<Event>): nat
    decreases events
  {
    if events == [] then 0
    else match events[0]
      case InputChange(input) => ReleasedNow(m, held, input) + Releases(m, input, events[1..])
      case _ => Releases(m, held, events[1..])
  }

  function ReleasedNow(m: Mask, before: Mask, after: Mask): nat {
    if Both(before, m) != NONE && Both(after, m) == NONE then 1 else 0
  }

  // ---------- The invariant ----------

  predicate Held(cfg: Config, st: State) {
    Both(st.oldInput, cfg.levelMask) != NONE
  }

  predicate TapInvariant(cfg: Config, st: State) {
    var t := TallyOf(st.log);
    && (Held(cfg, st) ==> t.crossings <= 3 && st.time == TimeAfter(t.crossings))
    && (!Held(cfg, st) ==> st.time == Invalid)
    && st.internalTimers == (if Held(cfg, st) && t.crossings < 3 then 1 else 0)
    && (st.repeatTimers > 0 ==> Held(cfg, st))
    && st.tapCount <= 2
    && st.multipleTimers == (if st.tapCount > 0 then 1 else 0)
    && (st.tapCount > 0 ==> st.multipleState == cfg.levelMask)
    && (Held(cfg, st) && t.crossings > 0 ==> st.tapCount == 0)
    && t.short == t.single + t.double + t.triple + t.droppedGroups + if st.tapCount > 0 then 1 else 0
  }

  /** The taps and holds the log accounts for, with those still being counted. */
  function Accounted(st: State): nat {
    var t := TallyOf(st.log);
    t.single + 2 * t.double + 3 * t.triple + t.longReleases + t.droppedTaps + st.tapCount
  }

  // ---------- Each event ----------

  lemma {:induction false} OneBit(cfg: Config, x: Mask)
    requires SingleInput(cfg)
    ensures Both(x, cfg.levelMask) == NONE || Both(x, cfg.levelMask) == cfg.levelMask
    ensures Both(cfg.levelMask, x) == Both(x, cfg.levelMask)
    ensures cfg.levelMask != NONE
  {
    MaskBit(cfg.levelMask, x);
  }

  lemma {:induction false} MaskBit(m: Mask, x: Mask)
    requires m != NONE && Both(m, m - 1) == NONE
    ensures Both(x, m) == NONE || Both(x, m) == m
    ensures Both(m, x) == Both(x, m)
  {
  }

  lemma {:induction false} SinglePress(m: Mask)
    requires m != NONE
    ensures WasPressed(NONE, m) && !WasPressed(m, NONE) && !WasPressed(m, m) && !WasPressed(NONE, NONE)
  {
  }

  lemma {:induction false} EdgeReportAddsNothing(st: State, mask: Mask, time: Time)
    requires time == LowToHigh || time == HighToLow
    ensures var s := Detect(st, mask, time);
            mask != NONE ==> s == st.(log := s.log) && TallyOf(s.log) == TallyOf(st.log)
  {
    TallyAppend(st.log, Detected(mask, time));
  }

  lemma {:induction false} EdgeAddsNothing(cfg: Config, st: State, input: Mask)
    ensures var s := EdgeDetect(cfg, st, input);
            && s == st.(log := s.log)
            && TallyOf(s.log) == TallyOf(st.log)
  {
    hide Both, Differ, Detect, TallyOf;
    var changed := Differ(Both(input, cfg.edgeMask), Both(st.oldInput, cfg.edgeMask));
    EdgeReportAddsNothing(st, changed, LowToHigh);
    EdgeReportAddsNothing(st, changed, HighToLow);
  }

  /** A report only adds its own tally. */
  lemma {:induction false} DetectCounts(st: State, mask: Mask, time: Time)
    requires mask != NONE && time != VeryLong
    ensures Detect(st, mask, time) == st.(log := st.log + [Detected(mask, time)])
    ensures TallyOf(st.log + [Detected(mask, time)]) == Add(TallyOf(st.log), Detected(mask, time))
  {
    TallyAppend(st.log, Detected(mask, time));
  }

  /** What a further tap of the single input `m` does. */
  lemma {:induction false} CountCases(m: Mask, st: State)
    requires m != NONE && st.tapCount <= 2 && (st.tapCount > 0 ==> st.multipleState == m)
    ensures CountTap(st, m) ==
      if st.tapCount == 2 then
        st.(multipleState := NONE, tapCount := 0, multipleTimers := 0, time := Triple, log := st.log + [Detected(m, Triple)])
      else if st.tapCount == 1 then st.(tapCount := 2, time := Double)
      else st
  {
  }

  /** What is reported of a hold of the single input `m`. */
  lemma {:induction false} ReportCases(m: Mask, s: State)
    requires m != NONE && (s.time == Short ==> s.tapCount == 0 && s.multipleTimers == 0)
    ensures ReportTime(s, m) ==
      if s.time == Short then
        s.(multipleState := m, tapCount := 1, multipleTimers := 1, log := s.log + [Detected(m, Short)])
      else if ReleaseOf(s.time) != Invalid then s.(log := s.log + [Detected(m, ReleaseOf(s.time))])
      else s
  {
  }

  /** The state after the single input `m` is released, by the time it was held and the taps before. */
  lemma {:induction false} ReleaseCases(m: Mask, st: State)
    requires m != NONE && st.tapCount <= 2
    requires st.tapCount > 0 ==> st.multipleState == m && st.multipleTimers == 1 && st.time == Short
    requires st.tapCount == 0 ==> st.multipleTimers == 0
    requires st.time == Short || st.time == Long || st.time == VeryLong || st.time == VeryVeryLong
    ensures Release(st, m, NONE) ==
      if st.tapCount == 2 then
        st.(multipleState := NONE, tapCount := 0, multipleTimers := 0, internalTimers := 0, repeatTimers := 0,
            time := Invalid, log := st.log + [Detected(m, Triple)])
      else if st.tapCount == 1 then
        st.(tapCount := 2, internalTimers := 0, repeatTimers := 0, time := Invalid)
      else if st.time == Short then
        st.(multipleState := m, tapCount := 1, multipleTimers := 1, internalTimers := 0, repeatTimers := 0,
            time := Invalid, log := st.log + [Detected(m, Short)])
      else
        st.(internalTimers := 0, repeatTimers := 0, time := Invalid, log := st.log + [Detected(m, ReleaseOf(st.time))])
  {
    hide CountTap, ReportTime;
    CountCases(m, st);
    ReportCases(m, CountTap(st, m));
  }

  lemma {:induction false} ReleaseCounts(cfg: Config, st: State, input: Mask)
    requires SingleInput(cfg) && TapInvariant(cfg, st)
    requires Both(st.oldInput, cfg.levelMask) == cfg.levelMask && Both(input, cfg.levelMask) == NONE
    ensures var s := Release(st, cfg.levelMask, NONE).(oldInput := input);
            TapInvariant(cfg, s) && Accounted(s) == Accounted(st) + 1
  {
    hide TallyOf, SingleInput, Both, Detect, Release;
    var m := cfg.levelMask;
    OneBit(cfg, m);
    ReleaseCases(m, st);
    if st.tapCount == 2 {
      DetectCounts(st, m, Triple);
    } else if st.tapCount == 0 && st.time == Short {
      DetectCounts(st, m, Short);
    } else if st.tapCount == 0 {
      DetectCounts(st, m, ReleaseOf(st.time));
    }
  }

  lemma {:induction false} PressCounts(cfg: Config, st: State, input: Mask)
    requires SingleInput(cfg) && TapInvariant(cfg, st)
    requires Both(st.oldInput, cfg.levelMask) == NONE && Both(input, cfg.levelMask) == cfg.levelMask
    ensures var s := Press(st).(oldInput := input);
            TapInvariant(cfg, s) && Accounted(s) == Accounted(st)
  {
    hide TallyOf, SingleInput, Both;
    OneBit(cfg, input);
    TallyAppend(st.log, Pressed);
  }

  /** What the level detector does with one input. */
  lemma {:induction false} LevelCases(cfg: Config, st: State, input: Mask)
    requires SingleInput(cfg)
    ensures var m := cfg.levelMask;
            && (Both(st.oldInput, m) == NONE || Both(st.oldInput, m) == m)
            && (Both(input, m) == NONE || Both(input, m) == m)
            && LevelDetect(cfg, st, input) ==
               if Both(st.oldInput, m) == Both(input, m) then st
               else if Both(input, m) == m then Press(st)
               else Release(st, m, NONE)
  {
    hide SingleInput, Both, WasPressed, Press, Release;
    OneBit(cfg, st.oldInput);
    OneBit(cfg, input);
    SinglePress(cfg.levelMask);
  }

  /** The edge detector comes first and adds nothing to the tally. */
  lemma {:induction false} ChangeCases(cfg: Config, st: State, input: Mask)
    requires SingleInput(cfg)
    ensures var s := EdgePass(cfg, st, input);
            && s == st.(log := s.log)
            && TallyOf(s.log) == TallyOf(st.log)
            && InputChanged(cfg, st, input) == LevelDetect(cfg, s, input).(oldInput := input)
  {
    hide SingleInput, Both, LevelDetect, EdgeDetect, TallyOf;
    var s := EdgePass(cfg, st, input);
    EdgeAddsNothing(cfg, st, input);
    OneBit(cfg, st.oldInput);
    OneBit(cfg, input);
    LevelCases(cfg, s, input);
  }

  /** Only the tally, the counters and the level of the input matter. */
  lemma {:induction false} SameCounts(cfg: Config, st: State, s: State)
    requires TapInvariant(cfg, st)
    requires s == st.(log := s.log, oldInput := s.oldInput)
    requires TallyOf(s.log) == TallyOf(st.log) && Both(s.oldInput, cfg.levelMask) == Both(st.oldInput, cfg.levelMask)
    ensures TapInvariant(cfg, s) && Accounted(s) == Accounted(st)
  {
    hide TallyOf, Both;
  }

  /** The level detector, whatever edges were reported before. */
  lemma {:induction false} LevelCounts(cfg: Config, s: State, input: Mask)
    requires SingleInput(cfg) && TapInvariant(cfg, s)
    ensures var t := LevelDetect(cfg, s, input).(oldInput := input);
            TapInvariant(cfg, t) && Accounted(t) == Accounted(s) + ReleasedNow(cfg.levelMask, s.oldInput, input)
  {
    hide TallyOf, TapInvariant, Accounted, SingleInput, Both, Release, Press, LevelDetect;
    var m := cfg.levelMask;
    LevelCases(cfg, s, input);
    OneBit(cfg, input);
    if Both(s.oldInput, m) == Both(input, m) {
      SameCounts(cfg, s, s.(oldInput := input));
    } else if Both(input, m) == m {
      PressCounts(cfg, s, input);
    } else {
      ReleaseCounts(cfg, s, input);
    }
  }

  lemma {:induction false} InputCounts(cfg: Config, st: State, input: Mask)
    requires SingleInput(cfg) && TapInvariant(cfg, st)
    ensures var s := InputChanged(cfg, st, input);
            TapInvariant(cfg, s) && Accounted(s) == Accounted(st) + ReleasedNow(cfg.levelMask, st.oldInput, input)
  {
    ChangeCases(cfg, st, input);
    hide TallyOf, TapInvariant, Accounted, SingleInput, Both, LevelDetect, InputChanged, EdgePass, ReleasedNow;
    var s := EdgePass(cfg, st, input);
    SameCounts(cfg, st, s);
    LevelCounts(cfg, s, input);
  }

  lemma {:induction false} MultipleCounts(cfg: Config, st: State)
    requires SingleInput(cfg) && TapInvariant(cfg, st) && st.multipleTimers > 0
    ensures var s := MultipleFired(cfg, st);
            TapInvariant(cfg, s) && Accounted(s) == Accounted(st) && s.oldInput == st.oldInput
  {
    hide TallyOf, SingleInput, Both, Detect;
    var s := st.(multipleTimers := st.multipleTimers - 1);
    OneBit(cfg, st.oldInput);
    SelfMask(cfg.levelMask);
    DetectCounts(s, cfg.levelMask, Double);
    DetectCounts(s, cfg.levelMask, ShortSingle);
  }

  /** A threshold report may be withheld, but counts nothing either way. */
  lemma {:induction false} HoldReport(st: State, mask: Mask, time: Time)
    requires Rank(time) > 0
    ensures var d := Detect(st, mask, time);
            && d == st.(log := d.log, repeatTimers := d.repeatTimers)
            && (d.repeatTimers == st.repeatTimers || d.repeatTimers == 0)
            && TallyOf(d.log) == TallyOf(st.log)
  {
    TallyAppend(st.log, Detected(mask, time));
  }

  lemma {:induction false} MarksCount(log: seq<Entry>, taps: nat)
    ensures var t := TallyOf(log);
            && TallyOf(log + [Crossed]) == t.(crossings := t.crossings + 1)
            && TallyOf(log + [Dropped(taps), Crossed])
               == t.(crossings := t.crossings + 1, droppedTaps := t.droppedTaps + taps, droppedGroups := t.droppedGroups + 1)
  {
    hide TallyOf;
    TallyAppend(log, Crossed);
    TallyAppend(log, Dropped(taps));
    TallyAppend(log + [Dropped(taps)], Crossed);
    assert log + [Dropped(taps), Crossed] == log + [Dropped(taps)] + [Crossed];
  }

  lemma {:induction false} InternalCounts(cfg: Config, st: State)
    requires SingleInput(cfg) && TapInvariant(cfg, st) && st.internalTimers > 0
    ensures var s := InternalFired(cfg, st);
            TapInvariant(cfg, s) && Accounted(s) == Accounted(st) && s.oldInput == st.oldInput
  {
    hide TallyOf, SingleInput, Both, Detect;
    var marks := (if st.tapCount > 0 then [Dropped(st.tapCount)] else []) + [Crossed];
    assert marks == if st.tapCount > 0 then [Dropped(st.tapCount), Crossed] else [Crossed];
    MarksCount(st.log, st.tapCount);
    var s := st.(multipleState := NONE, tapCount := 0, multipleTimers := 0, time := NextThreshold(st.time),
                 internalTimers := st.internalTimers - 1 + if st.time == VeryLong then 0 else 1,
                 log := st.log + marks);
    HoldReport(s, Both(s.oldInput, cfg.levelMask), s.time);
  }

  lemma {:induction false} RepeatCounts(cfg: Config, st: State)
    requires SingleInput(cfg) && TapInvariant(cfg, st) && st.repeatTimers > 0
    ensures var s := RepeatFired(cfg, st);
            TapInvariant(cfg, s) && Accounted(s) == Accounted(st) && s.oldInput == st.oldInput
  {
    hide TallyOf, SingleInput, Both, Detect;
    OneBit(cfg, st.oldInput);
    DetectCounts(st, cfg.levelMask, Repeat);
  }

  lemma {:induction false} TimerCounts(cfg: Config, st: State, e: Event)
    requires SingleInput(cfg) && TapInvariant(cfg, st) && Enabled(st, e) && !e.InputChange?
    ensures var s := Step(cfg, st, e);
            TapInvariant(cfg, s) && Accounted(s) == Accounted(st) && s.oldInput == st.oldInput
  {
    hide SingleInput, TapInvariant, Accounted, MultipleFired, InternalFired, RepeatFired;
    match e
    case MultipleTimer => MultipleCounts(cfg, st);
    case InternalTimer => InternalCounts(cfg, st);
    case RepeatTimer => RepeatCounts(cfg, st);
  }

  lemma {:induction false} SelfMask(m: Mask)
    ensures Both(m, m) == m
  {
  }

  // ---------- Whole runs ----------

  lemma {:induction false} RunCounts(cfg: Config, st: State, events: seq<Event>)
    requires SingleInput(cfg) && TapInvariant(cfg, st) && IsRun(cfg, st, events)
    ensures var s := RunFrom(cfg, st, events);
            TapInvariant(cfg, s) && Accounted(s) == Accounted(st) + Releases(cfg.levelMask, st.oldInput, events)
    decreases events
  {
    hide TapInvariant, Accounted, InputChanged, MultipleFired, InternalFired, RepeatFired, Both;
    if events != [] {
      var e := events[0];
      var s := Step(cfg, st, e);
      match e
      case InputChange(input) =>
        InputCounts(cfg, st, input);
        assert s.oldInput == input by { OldInputIsNew(cfg, st, input); }
        RunCounts(cfg, s, events[1..]);
      case _ =>
        TimerCounts(cfg, st, e);
        RunCounts(cfg, s, events[1..]);
    }
  }

  lemma {:induction false} OldInputIsNew(cfg: Config, st: State, input: Mask)
    ensures InputChanged(cfg, st, input).oldInput == input
  {
  }

  lemma {:induction false} BootCounts(cfg: Config, input: Mask)
    requires SingleInput(cfg)
    ensures TapInvariant(cfg, Boot(cfg, input)) && Accounted(Boot(cfg, input)) == 0
    ensures Boot(cfg, input).oldInput == input
  {
    hide SingleInput, Both, WasPressed, EdgeDetect;
    var m, zero := cfg.levelMask, State(NONE, NONE, 0, Invalid, 0, 0, 0, []);
    OneBit(cfg, input);
    SinglePress(m);
    SelfMask(m);
    NothingHeld(m);
    assert Both(Both(input, m), m) == Both(input, m);
    TallyAppend([], Pressed);
    EdgeAddsNothing(cfg, LevelDetect(cfg, zero, Both(input, m)), Both(input, cfg.edgeMask));
  }

  lemma {:induction false} NothingHeld(m: Mask)
    ensures Both(NONE, m) == NONE
  {
  }

  /** Every reachable state keeps the invariant and accounts for every release so far. */
  lemma {:induction false} Reached(cfg: Config, boot: Mask, events: seq<Event>)
    requires SingleInput(cfg) && IsRun(cfg, Boot(cfg, boot), events)
    ensures var st := RunFrom(cfg, Boot(cfg, boot), events);
            TapInvariant(cfg, st) && Accounted(st) == Releases(cfg.levelMask, boot, events)
  {
    hide TapInvariant, Accounted, Boot, RunFrom, IsRun, Releases, SingleInput;
    BootCounts(cfg, boot);
    RunCounts(cfg, Boot(cfg, boot), events);
  }

  /** Conservation over every run of a single level input. Each release is a tap counted by
      exactly one of: a single, a double (two), a triple (three), a tap dropped by a long
      hold, or the group still open; or it is the release of a hold. And each group of taps,
      however it ends, reported exactly one short press. */
  lemma {:induction false} EveryReleaseAccounted(cfg: Config, boot: Mask, events: seq<Event>)
    requires SingleInput(cfg) && IsRun(cfg, Boot(cfg, boot), events)
    ensures var st := RunFrom(cfg, Boot(cfg, boot), events);
            var t := TallyOf(st.log);
            && Releases(cfg.levelMask, boot, events)
               == t.single + 2 * t.double + 3 * t.triple + t.longReleases + t.droppedTaps + st.tapCount
            && t.short == t.single + t.double + t.triple + t.droppedGroups + (if st.tapCount > 0 then 1 else 0)
            && st.tapCount <= 2
  {
    hide SingleInput, IsRun, RunFrom, Boot, Releases, TallyOf, Both;
    Reached(cfg, boot, events);
  }

  function ReleaseReport(crossings: nat): Time
    requires 1 <= crossings <= 3
  {
    if crossings == 1 then LongRelease else if crossings == 2 then VeryLongRelease else VeryVeryLongRelease
  }

  /** When a hold that passed at least one threshold ends, the last report made names the
      highest threshold passed since the press, and only edge reports come before it. */
  lemma {:induction false} ReleaseNamesThreshold(cfg: Config, boot: Mask, events: seq<Event>, input: Mask)
    requires SingleInput(cfg) && IsRun(cfg, Boot(cfg, boot), events)
    requires var st := RunFrom(cfg, Boot(cfg, boot), events);
             Held(cfg, st) && TallyOf(st.log).crossings > 0 && Both(input, cfg.levelMask) == NONE
    ensures var st := RunFrom(cfg, Boot(cfg, boot), events);
            && TallyOf(st.log).crossings <= 3
            && InputChanged(cfg, st, input).log
               == EdgePass(cfg, st, input).log
                  + [Detected(cfg.levelMask, ReleaseReport(TallyOf(st.log).crossings))]
  {
    hide IsRun, RunFrom, Boot, TallyOf, SingleInput, Both, Releases, Detect, Release, EdgePass, InputChanged, LevelDetect;
    Reached(cfg, boot, events);
    var st := RunFrom(cfg, Boot(cfg, boot), events);
    ChangeCases(cfg, st, input);
    var s := EdgePass(cfg, st, input);
    LevelCases(cfg, s, input);
    ReleaseCases(cfg.levelMask, s);
  }

  /** The repeat report is only made while the input is held. */
  lemma {:induction false} RepeatOnlyWhileHeld(cfg: Config, boot: Mask, events: seq<Event>)
    requires SingleInput(cfg) && IsRun(cfg, Boot(cfg, boot), events)
    requires RunFrom(cfg, Boot(cfg, boot), events).repeatTimers > 0
    ensures Both(RunFrom(cfg, Boot(cfg, boot), events).oldInput, cfg.levelMask) == cfg.levelMask
  {
    hide IsRun, RunFrom, Boot, TallyOf, SingleInput, Both, Releases;
    Reached(cfg, boot, events);
    OneBit(cfg, RunFrom(cfg, Boot(cfg, boot), events).oldInput);
  }
}
