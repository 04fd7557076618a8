/** The button interpreter of apps/sink/sink_buttons.c: input changes and timer messages turn
    into tap, multiple-tap and hold reports. The state here is the fields the handlers update,
    the number of pending messages of each timer, and a log of what was reported. */
module Buttons {

  /** Translated inputs, one bit each. */
  type Mask = bv32

  const NONE: Mask := 0
  const VREG_PIN_MASK: Mask := 0x100_0000
  const DOUBLE_PRESS := 2
  const TRIPLE_PRESS := 3

  function Both(a: Mask, b: Mask): Mask { a & b }

  function Differ(a: Mask, b: Mask): Mask { a ^ b }

  /** ButtonsTime_t */
  datatype Time =
    | Invalid | Short | Long | VeryLong | Double | Repeat | LowToHigh | HighToLow | ShortSingle
    | LongRelease | VeryLongRelease | VeryVeryLong | VeryVeryLongRelease | Triple

  /** What the log holds: the reports passed to the button manager, and three marks that only
      the statements below look at. */
  datatype Entry =
    | Detected(mask: Mask, time: Time)
    | Pressed                // a level input went down
    | Crossed                // a hold threshold was passed
    | Dropped(taps: nat)     // a hold ended a group of taps

  /** The inputs configured for level and for edge detection, fixed once read. */
  datatype Config = Config(levelMask: Mask, edgeMask: Mask)

  datatype State = State(
    oldInput: Mask, multipleState: Mask, tapCount: nat, time: Time,
    internalTimers: nat, multipleTimers: nat, repeatTimers: nat, log: seq<Entry>)

  // ---------- What each handler does ----------

  /** ButtonsButtonDetected: nothing to report cancels the repeat timer instead. */
  function Detect(st: State, mask: Mask, time: Time): State {
    if mask == NONE || (time == VeryLong && mask == VREG_PIN_MASK) then st.(repeatTimers := 0)
    else st.(log := st.log + [Detected(mask, time)])
  }

  predicate WasPressed(before: Mask, after: Mask) {
    Both(Differ(after, before), after) != NONE
  }

  function Press(st: State): State {
    st.(internalTimers := 1, repeatTimers := 1, time := Short, log := st.log + [Pressed])
  }

  /** The release of a hold is reported under the threshold reached. */
  function ReleaseOf(time: Time): Time {
    match time
    case Long => LongRelease
    case VeryLong => VeryLongRelease
    case VeryVeryLong => VeryVeryLongRelease
    case _ => Invalid
  }

  predicate SameTap(st: State, before: Mask) {
    st.tapCount > 0 && before == st.multipleState
  }

  /** The tap count is a byte. */
  function TapsNow(st: State, before: Mask): nat {
    if SameTap(st, before) then (st.tapCount + 1) % 0x100 else st.tapCount
  }

  function TimeNow(st: State, before: Mask): Time {
    if SameTap(st, before) && TapsNow(st, before) == DOUBLE_PRESS then Double
    else if SameTap(st, before) && TapsNow(st, before) == TRIPLE_PRESS then Triple
    else st.time
  }

  /** The third tap is reported at once; the second waits for the multiple-tap timer. */
  function ReportTriple(s: State, before: Mask): State {
    Detect(s, before, Triple).(multipleState := NONE, tapCount := 0, multipleTimers := 0)
  }

  /** A tap that continues no group opens one, and arms the multiple-tap timer. */
  function ReportShort(s: State, before: Mask): State {
    var d := Detect(s, before, Short);
    d.(multipleState := before, tapCount := (s.tapCount + 1) % 0x100, multipleTimers := d.multipleTimers + 1)
  }

  /** One more tap of the same inputs, reported if it is the third. */
  function CountTap(st: State, before: Mask): State {
    var s := st.(tapCount := TapsNow(st, before), time := TimeNow(st, before));
    if SameTap(st, before) && s.tapCount == TRIPLE_PRESS then ReportTriple(s, before) else s
  }

  function ReportTime(s: State, before: Mask): State {
    if s.time == Short then ReportShort(s, before)
    else if ReleaseOf(s.time) != Invalid then Detect(s, before, ReleaseOf(s.time))
    else s
  }

  /** The hold is over: its timers are cancelled. */
  function EndHold(st: State, after: Mask): State {
    var s := if st.time != Invalid then st.(internalTimers := 0, repeatTimers := 0) else st;
    if after == NONE then s.(time := Invalid) else s
  }

  /** A release of the inputs `before`; `after` is what is still held. */
  function Release(st: State, before: Mask, after: Mask): State {
    EndHold(ReportTime(CountTap(st, before), before), after)
  }

  function LevelDetect(cfg: Config, st: State, input: Mask): State {
    var before, after := Both(st.oldInput, cfg.levelMask), Both(input, cfg.levelMask);
    if WasPressed(before, after) then Press(st)
    else if before != after && before != NONE then Release(st, before, after)
    else st
  }

  function EdgeDetect(cfg: Config, st: State, input: Mask): State {
    var before, after := Both(st.oldInput, cfg.edgeMask), Both(input, cfg.edgeMask);
    var changed := Differ(after, before);
    if changed == NONE then st
    else if Both(after, changed) != NONE then Detect(st, changed, LowToHigh)
    else Detect(st, changed, HighToLow)
  }

  /** Each detector runs only when one of its inputs is or was down. */
  function EdgePass(cfg: Config, st: State, input: Mask): State {
    if Both(cfg.edgeMask, input) != NONE || Both(cfg.edgeMask, st.oldInput) != NONE
    then EdgeDetect(cfg, st, input) else st
  }

  function LevelPass(cfg: Config, st: State, input: Mask): State {
    if Both(cfg.levelMask, input) != NONE || Both(cfg.levelMask, st.oldInput) != NONE
    then LevelDetect(cfg, st, input) else st
  }

  /** ButtonsCheckDetection */
  function InputChanged(cfg: Config, st: State, input: Mask): State {
    LevelPass(cfg, EdgePass(cfg, st, input), input).(oldInput := input)
  }

  /** B_MULTIPLE_TIMER: the taps so far are a double or a single. */
  function MultipleFired(cfg: Config, st: State): State
    requires st.multipleTimers > 0
  {
    var s := st.(multipleTimers := st.multipleTimers - 1);
    Detect(s, Both(s.multipleState, cfg.levelMask), if s.tapCount == DOUBLE_PRESS then Double else ShortSingle)
      .(tapCount := 0, multipleState := NONE)
  }

  function NextThreshold(time: Time): Time {
    if time == VeryLong then VeryVeryLong else if time == Long then VeryLong else Long
  }

  /** B_INTERNAL_TIMER: the hold passed the next threshold, and no tap group survives it. */
  function InternalFired(cfg: Config, st: State): State
    requires st.internalTimers > 0
  {
    var marks := (if st.tapCount > 0 then [Dropped(st.tapCount)] else []) + [Crossed];
    var s := st.(multipleState := NONE, tapCount := 0, multipleTimers := 0, time := NextThreshold(st.time),
                 internalTimers := st.internalTimers - 1 + if st.time == VeryLong then 0 else 1,
                 log := st.log + marks);
    Detect(s, Both(s.oldInput, cfg.levelMask), s.time)
  }

  /** B_REPEAT_TIMER: re-armed first, then reported. */
  function RepeatFired(cfg: Config, st: State): State
    requires st.repeatTimers > 0
  {
    Detect(st, Both(st.oldInput, cfg.levelMask), Repeat)
  }

  /** ButtonsCheckForChangeAfterInit on the zeroed structure. */
  function Boot(cfg: Config, input: Mask): State {
    var s := State(NONE, NONE, 0, Invalid, 0, 0, 0, []);
    EdgeDetect(cfg, LevelDetect(cfg, s, Both(input, cfg.levelMask)), Both(input, cfg.edgeMask)).(oldInput := input)
  }

  // ---------- Runs ----------

  datatype Event = InputChange(input: Mask) | MultipleTimer | InternalTimer | RepeatTimer

  predicate Enabled(st: State, e: Event) {
    match e
    case InputChange(_) => true
    case MultipleTimer => st.multipleTimers > 0
    case InternalTimer => st.internalTimers > 0
    case RepeatTimer => st.repeatTimers > 0
  }

  function Step(cfg: Config, st: State, e: Event): State
    requires Enabled(st, e)
  {
    match e
    case InputChange(input) => InputChanged(cfg, st, input)
    case MultipleTimer => MultipleFired(cfg, st)
    case InternalTimer => InternalFired(cfg, st)
    case RepeatTimer => RepeatFired(cfg, st)
  }

  /** Every state on the way can take its event: timers fire only while pending. */
  predicate IsRun(cfg: Config, st: State, events: seq<Event>)
    decreases events
  {
    events == [] || (Enabled(st, events[0]) && IsRun(cfg, Step(cfg, st, events[0]), events[1..]))
  }

  function RunFrom(cfg: Config, st: State, events: seq<Event>): State
    requires IsRun(cfg, st, events)
    decreases events
  {
    if events == [] then st else RunFrom(cfg, Step(cfg, st, events[0]), events[1..])
  }

  /** What the time says of a hold, by the thresholds passed since its press. */
  function TimeAfter(crossings: nat): Time {
    if crossings == 0 then Short else if crossings == 1 then Long else if crossings == 2 then VeryLong else VeryVeryLong
  }

  // ---------- Any inputs: thresholds are reported once each and in order ----------

  function Rank(time: Time): nat {
    match time
    case Long => 1
    case VeryLong => 2
    case VeryVeryLong => 3
    case _ => 0
  }

  /** The threshold reports since the last press. */
  function HoldRanks(log: seq<Entry>): seq<nat> {
    if log == [] || log[|log| - 1] == Pressed then []
    else
      var e := log[|log| - 1];
      HoldRanks(log[..|log| - 1]) + if e.Detected? && Rank(e.time) > 0 then [Rank(e.time)] else []
  }

  predicate StrictlyIncreasing(s: seq<nat>) {
    forall i, j :: 0 <= i < j < |s| ==> s[i] < s[j]
  }

  predicate AllAtMost(s: seq<nat>, bound: nat) {
    forall i :: 0 <= i < |s| ==> s[i] <= bound
  }

  predicate Rising(log: seq<Entry>) {
    StrictlyIncreasing(HoldRanks(log))
  }

  predicate RisingTo(log: seq<Entry>, bound: nat) {
    Rising(log) && AllAtMost(HoldRanks(log), bound)
  }

  /** Holds of every reachable state, for any inputs and any configuration. */
  predicate TimerInvariant(st: State) {
    && st.internalTimers <= 1
    && st.repeatTimers <= 1
    && st.tapCount < 0x100
    && (st.internalTimers == 1 ==> (st.time == Short || st.time == Long || st.time == VeryLong) && RisingTo(st.log, Rank(st.time)))
    && Rising(st.log)
  }

  lemma {:induction false} HoldRanksAppend(log: seq<Entry>, e: Entry)
    ensures HoldRanks(log + [e])
         == if e == Pressed then [] else HoldRanks(log) + if e.Detected? && Rank(e.time) > 0 then [Rank(e.time)] else []
  {
    assert (log + [e])[..|log|] == log;
  }

  /** A report changes the log and perhaps cancels the repeat timer, nothing else. */
  lemma {:induction false} DetectFrame(st: State, mask: Mask, time: Time)
    ensures var d := Detect(st, mask, time);
            && d == st.(log := d.log, repeatTimers := d.repeatTimers)
            && (d.repeatTimers == st.repeatTimers || d.repeatTimers == 0)
            && (d.log == st.log || d.log == st.log + [Detected(mask, time)])
    ensures Rank(time) == 0 ==> HoldRanks(Detect(st, mask, time).log) == HoldRanks(st.log)
  {
    HoldRanksAppend(st.log, Detected(mask, time));
  }

  /** What a release report leaves alone. */
  predicate ReleaseFrame(s: State, r: State) {
    && r.internalTimers == s.internalTimers
    && (r.repeatTimers == s.repeatTimers || r.repeatTimers == 0)
    && r.tapCount < 0x100
    && (r.time == Invalid ==> s.time == Invalid)
    && HoldRanks(r.log) == HoldRanks(s.log)
  }

  lemma {:induction false} CountFrame(st: State, before: Mask)
    requires st.tapCount < 0x100
    ensures ReleaseFrame(st, CountTap(st, before))
  {
    hide HoldRanks, Detect;
    DetectFrame(st.(tapCount := TapsNow(st, before), time := TimeNow(st, before)), before, Triple);
  }

  lemma {:induction false} ReportFrame(s: State, before: Mask)
    requires s.tapCount < 0x100
    ensures ReleaseFrame(s, ReportTime(s, before))
  {
    hide HoldRanks, Detect;
    DetectFrame(s, before, Short);
    DetectFrame(s, before, ReleaseOf(s.time));
  }

  lemma {:induction false} ReleaseKeepsTimers(st: State, before: Mask, after: Mask)
    requires TimerInvariant(st)
    ensures TimerInvariant(Release(st, before, after))
  {
    hide HoldRanks, StrictlyIncreasing, AllAtMost, CountTap, ReportTime;
    CountFrame(st, before);
    ReportFrame(CountTap(st, before), before);
  }

  lemma {:induction false} EdgeKeepsTimers(cfg: Config, st: State, input: Mask)
    requires TimerInvariant(st)
    ensures TimerInvariant(EdgeDetect(cfg, st, input))
  {
    hide HoldRanks, StrictlyIncreasing, AllAtMost, Both, Differ, Detect;
    var changed := Differ(Both(input, cfg.edgeMask), Both(st.oldInput, cfg.edgeMask));
    DetectFrame(st, changed, LowToHigh);
    DetectFrame(st, changed, HighToLow);
  }

  lemma {:induction false} NewHold(log: seq<Entry>)
    ensures RisingTo(log + [Pressed], 0)
  {
    HoldRanksAppend(log, Pressed);
  }

  lemma {:induction false} LevelKeepsTimers(cfg: Config, st: State, input: Mask)
    requires TimerInvariant(st)
    ensures TimerInvariant(LevelDetect(cfg, st, input))
  {
    hide Release, WasPressed, Both, HoldRanks;
    NewHold(st.log);
    ReleaseKeepsTimers(st, Both(st.oldInput, cfg.levelMask), Both(input, cfg.levelMask));
  }

  /** Passing a threshold above all those reported keeps the reports rising. */
  lemma {:induction false} NextReport(log: seq<Entry>, time: Time, mask: Mask)
    requires (time == Short || time == Long || time == VeryLong) && RisingTo(log, Rank(time))
    ensures var next := NextThreshold(time);
            && RisingTo(log + [Detected(mask, next)], Rank(next))
            && RisingTo(log, Rank(next))
  {
    HoldRanksAppend(log, Detected(mask, NextThreshold(time)));
  }

  lemma {:induction false} MarksKeepHold(log: seq<Entry>, taps: nat)
    ensures HoldRanks(log + [Crossed]) == HoldRanks(log)
    ensures HoldRanks(log + [Dropped(taps), Crossed]) == HoldRanks(log)
  {
    HoldRanksAppend(log, Crossed);
    HoldRanksAppend(log, Dropped(taps));
    HoldRanksAppend(log + [Dropped(taps)], Crossed);
    assert log + [Dropped(taps), Crossed] == log + [Dropped(taps)] + [Crossed];
  }

  lemma {:induction false} InternalKeepsTimers(cfg: Config, st: State)
    requires TimerInvariant(st) && st.internalTimers > 0
    ensures TimerInvariant(InternalFired(cfg, st))
  {
    hide HoldRanks, StrictlyIncreasing, AllAtMost, Both;
    var mask := Both(st.oldInput, cfg.levelMask);
    var marks := (if st.tapCount > 0 then [Dropped(st.tapCount)] else []) + [Crossed];
    assert marks == if st.tapCount > 0 then [Dropped(st.tapCount), Crossed] else [Crossed];
    MarksKeepHold(st.log, st.tapCount);
    NextReport(st.log + marks, st.time, mask);
  }

  lemma {:induction false} MultipleKeepsTimers(cfg: Config, st: State)
    requires TimerInvariant(st) && st.multipleTimers > 0
    ensures TimerInvariant(MultipleFired(cfg, st))
  {
    hide HoldRanks, StrictlyIncreasing, AllAtMost, Both, Detect;
    var s := st.(multipleTimers := st.multipleTimers - 1);
    DetectFrame(s, Both(st.multipleState, cfg.levelMask), Double);
    DetectFrame(s, Both(st.multipleState, cfg.levelMask), ShortSingle);
  }

  lemma {:induction false} StepKeepsTimers(cfg: Config, st: State, e: Event)
    requires TimerInvariant(st) && Enabled(st, e)
    ensures TimerInvariant(Step(cfg, st, e))
  {
    hide Rising, RisingTo, EdgeDetect, LevelDetect, InternalFired, MultipleFired, Both, Detect, HoldRanks;
    match e
    case InputChange(input) =>
      EdgeKeepsTimers(cfg, st, input);
      LevelKeepsTimers(cfg, st, input);
      LevelKeepsTimers(cfg, EdgeDetect(cfg, st, input), input);
    case MultipleTimer =>
      MultipleKeepsTimers(cfg, st);
    case InternalTimer =>
      InternalKeepsTimers(cfg, st);
    case RepeatTimer =>
      RepeatKeepsTimers(cfg, st);
  }

  lemma {:induction false} RepeatKeepsTimers(cfg: Config, st: State)
    requires TimerInvariant(st) && st.repeatTimers > 0
    ensures TimerInvariant(RepeatFired(cfg, st))
  {
    hide HoldRanks, StrictlyIncreasing, AllAtMost, Both, Detect;
    DetectFrame(st, Both(st.oldInput, cfg.levelMask), Repeat);
  }

  lemma {:induction false} RunKeepsTimers(cfg: Config, st: State, events: seq<Event>)
    requires TimerInvariant(st) && IsRun(cfg, st, events)
    ensures TimerInvariant(RunFrom(cfg, st, events))
    decreases events
  {
    hide TimerInvariant, Step;
    if events != [] {
      StepKeepsTimers(cfg, st, events[0]);
      RunKeepsTimers(cfg, Step(cfg, st, events[0]), events[1..]);
    }
  }

  /** For any configuration and any interleaving of input changes and timers: a pending hold
      timer means the hold is short, long or very long; and since the last press the
      thresholds were reported at most once each and in rising order. */
  lemma {:induction false} ThresholdsOnceInOrder(cfg: Config, input: Mask, events: seq<Event>)
    requires IsRun(cfg, Boot(cfg, input), events)
    ensures var st := RunFrom(cfg, Boot(cfg, input), events);
            && st.internalTimers <= 1 && st.repeatTimers <= 1
            && (st.internalTimers == 1 ==> st.time in {Short, Long, VeryLong})
            && StrictlyIncreasing(HoldRanks(st.log))
  {
    hide Boot, RunFrom, HoldRanks;
    BootKeepsTimers(cfg, input);
    RunKeepsTimers(cfg, Boot(cfg, input), events);
  }

  lemma {:induction false} BootKeepsTimers(cfg: Config, input: Mask)
    ensures TimerInvariant(Boot(cfg, input))
  {
    hide EdgeDetect, LevelDetect, Both;
    var s := State(NONE, NONE, 0, Invalid, 0, 0, 0, []);
    LevelKeepsTimers(cfg, s, Both(input, cfg.levelMask));
    EdgeKeepsTimers(cfg, LevelDetect(cfg, s, Both(input, cfg.levelMask)), Both(input, cfg.edgeMask));
  }
}
