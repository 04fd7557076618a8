/** Which inputs each report of the button interpreter names, for every configuration and every
    run: read off the log of reports and the inputs alone. */
module ButtonReports {
  import opened Buttons

  // ---------- What the log and the inputs say ----------

  /** The inputs last reported to the interpreter. */
  function LastInput(boot: Mask, events: seq<Event>): Mask
    decreases events
  {
    if events == [] then boot
    else LastInput(if events[0].InputChange? then events[0].input else boot, events[1..])
  }

  /** The inputs of the group of taps still open: those of the last short report, unless the
      group has ended since, in a single, double or triple, or at a threshold. */
  function OpenGroup(log: seq<Entry>): Mask {
    if log == [] then NONE else GroupAfter(OpenGroup(log[..|log| - 1]), log[|log| - 1])
  }

  function GroupAfter(group: Mask, e: Entry): Mask {
    match e
    case Crossed => NONE
    case Detected(mask, Short) => mask
    case Detected(_, time) => if time in {ShortSingle, Double, Triple} then NONE else group
    case _ => group
  }

  /** Thresholds passed since the last press. */
  function Crossings(log: seq<Entry>): nat {
    if log == [] || log[|log| - 1] == Pressed then 0
    else Crossings(log[..|log| - 1]) + if log[|log| - 1] == Crossed then 1 else 0
  }

  lemma {:induction false} LogAppend(log: seq<Entry>, e: Entry)
    ensures OpenGroup(log + [e]) == GroupAfter(OpenGroup(log), e)
    ensures Crossings(log + [e]) == if e == Pressed then 0 else Crossings(log) + if e == Crossed then 1 else 0
  {
    assert (log + [e])[..|log|] == log;
  }

  /** The last change of the level inputs was a press. */
  predicate PressedLast(cfg: Config, held: Mask, pressedLast: bool, events: seq<Event>)
    decreases events
  {
    if events == [] then pressedLast
    else match events[0]
      case InputChange(input) =>
        PressedLast(cfg, input, PressedNow(cfg, held, pressedLast, input), events[1..])
      case _ => PressedLast(cfg, held, pressedLast, events[1..])
  }

  predicate PressedNow(cfg: Config, before: Mask, pressedLast: bool, after: Mask) {
    Rose(cfg.levelMask, before, after) || (pressedLast && Among(before, cfg.levelMask) == Among(after, cfg.levelMask))
  }

  /** Those of the inputs `m` that are down. */
  function Among(input: Mask, m: Mask): Mask { input & m }

  /** Some of the inputs `m` went down. */
  predicate Rose(m: Mask, before: Mask, after: Mask) {
    New(Among(before, m), Among(after, m))
  }

  predicate New(x: Mask, y: Mask) { y & !x != 0 }

  function Changed(x: Mask, y: Mask): Mask { x ^ y }

  // ---------- Bits ----------

  lemma {:induction false} AmongIsBoth(x: Mask, m: Mask)
    ensures Both(x, m) == Among(x, m) && Both(m, x) == Among(x, m)
    ensures Both(Among(x, m), m) == Among(x, m) && Both(NONE, m) == NONE
  {
  }

  lemma {:induction false} ChangedBits(x: Mask, y: Mask)
    ensures Differ(y, x) == Changed(x, y) && (Changed(x, y) == NONE <==> x == y)
  {
    XorOrder(x, y);
    XorNone(x, y);
  }

  lemma {:induction false} XorOrder(x: Mask, y: Mask)
    ensures Differ(y, x) == Changed(x, y)
  {
  }

  lemma {:induction false} XorNone(x: Mask, y: Mask)
    ensures Changed(x, y) == NONE <==> x == y
  {
    XorTwice(x, y);
    XorSelf(x);
    if Changed(x, y) == NONE {
      assert y == x ^ NONE == x;
    }
  }

  lemma {:induction false} XorTwice(x: Mask, y: Mask)
    ensures x ^ (x ^ y) == y
  {
  }

  lemma {:induction false} XorSelf(x: Mask)
    ensures x ^ x == NONE && x ^ NONE == x
  {
  }

  lemma {:induction false} NewBits(x: Mask, y: Mask)
    ensures New(x, y) <==> Both(Changed(x, y), y) != NONE
    ensures Both(y, Changed(x, y)) == Both(Changed(x, y), y)
  {
    assert (x ^ y) & y == y & !x;
  }

  lemma {:induction false} NewIsDown(x: Mask, y: Mask)
    ensures !New(x, x) && (New(x, y) ==> y != NONE) && (!New(x, y) && x != y ==> x != NONE)
  {
  }

  // ---------- The invariant ----------

  /** `pressedLast` says that the last change of the level inputs was a press. */
  predicate Reporting(cfg: Config, st: State, pressedLast: bool) {
    var crossings := Crossings(st.log);
    && st.multipleState == OpenGroup(st.log) && Both(st.multipleState, cfg.levelMask) == st.multipleState
    && crossings <= 3
    && (st.internalTimers > 0 ==> crossings < 3 && st.time == TimeAfter(crossings))
    && (crossings > 0 ==> st.multipleState == NONE && (st.time == Invalid || st.time == TimeAfter(crossings)))
    && (crossings == 0 ==> st.time in {Invalid, Short, Double, Triple})
    && (Both(st.oldInput, cfg.levelMask) != NONE ==> st.time != Invalid)
    && (pressedLast && crossings == 0 ==> st.time == Short)
  }

  // ---------- Reports of edges ----------

  function EdgeReport(cfg: Config, before: Mask, after: Mask): seq<Entry> {
    var x, y := Among(before, cfg.edgeMask), Among(after, cfg.edgeMask);
    if x == y then [] else [Detected(Changed(x, y), if Rose(cfg.edgeMask, before, after) then LowToHigh else HighToLow)]
  }

  lemma {:induction false} EdgeReported(cfg: Config, st: State, input: Mask)
    ensures EdgePass(cfg, st, input) == st.(log := st.log + EdgeReport(cfg, st.oldInput, input))
    ensures EdgeDetect(cfg, st, input) == st.(log := st.log + EdgeReport(cfg, st.oldInput, input))
  {
    var m := cfg.edgeMask;
    var x, y := Among(st.oldInput, m), Among(input, m);
    AmongIsBoth(st.oldInput, m);
    AmongIsBoth(input, m);
    ChangedBits(x, y);
    NewBits(x, y);
    hide Both, Differ, New, Among, Changed, Detect;
    assert st.log + [] == st.log;
    if x != y {
      Reported(st, Changed(x, y), LowToHigh);
      Reported(st, Changed(x, y), HighToLow);
    }
  }

  lemma {:induction false} EdgeChangesNothing(cfg: Config, log: seq<Entry>, before: Mask, after: Mask)
    ensures OpenGroup(log + EdgeReport(cfg, before, after)) == OpenGroup(log)
    ensures Crossings(log + EdgeReport(cfg, before, after)) == Crossings(log)
  {
    hide Rose, Among, Changed, OpenGroup, Crossings;
    var x, y := Among(before, cfg.edgeMask), Among(after, cfg.edgeMask);
    assert log + [] == log;
    LogAppend(log, Detected(Changed(x, y), LowToHigh));
    LogAppend(log, Detected(Changed(x, y), HighToLow));
  }

  // ---------- Reports of a release ----------

  /** A release under the last threshold passed, or, before the first, a tap. */
  predicate ReleaseReport(st: State, before: Mask, pressedLast: bool, report: seq<Entry>) {
    if Crossings(st.log) > 0 then
      report == [Detected(before, if Crossings(st.log) == 1 then LongRelease
                                  else if Crossings(st.log) == 2 then VeryLongRelease else VeryVeryLongRelease)]
    else
      && (report == [] || report == [Detected(before, Short)] || report == [Detected(before, Triple)])
      && (OpenGroup(st.log) != before ==> report == [] || report == [Detected(before, Short)])
      && (pressedLast && OpenGroup(st.log) != before ==> report == [Detected(before, Short)])
  }

  /** What a release does to the timers and the group, by what it reports. */
  predicate ReleaseEffect(st: State, s: State, before: Mask, report: seq<Entry>) {
    && s.log == st.log + report && s.internalTimers == s.repeatTimers == 0
    && s.multipleState == OpenGroup(s.log)
    && s.multipleTimers == (if report == [Detected(before, Short)] then st.multipleTimers + 1
                            else if report == [Detected(before, Triple)] then 0 else st.multipleTimers)
  }

  lemma {:induction false} Reported(st: State, mask: Mask, time: Time)
    requires mask != NONE && time != VeryLong
    ensures Detect(st, mask, time) == st.(log := st.log + [Detected(mask, time)])
  {
  }

  /** A release that counts as one more tap of the open group. */
  predicate Repeats(st: State, before: Mask) {
    SameTap(st, before) && (TapsNow(st, before) == DOUBLE_PRESS || TapsNow(st, before) == TRIPLE_PRESS)
  }

  lemma {:induction false} AnotherTap(st: State, before: Mask, after: Mask) returns (report: seq<Entry>)
    requires before != NONE && st.time != Invalid && Repeats(st, before)
    ensures report == if TapsNow(st, before) == TRIPLE_PRESS then [Detected(before, Triple)] else []
    ensures var s := Release(st, before, after);
            && s == st.(log := st.log + report, internalTimers := 0, repeatTimers := 0, time := s.time,
                        tapCount := if report == [] then DOUBLE_PRESS else 0,
                        multipleState := if report == [] then st.multipleState else NONE,
                        multipleTimers := if report == [] then st.multipleTimers else 0)
            && s.time == if after == NONE then Invalid else if report == [] then Double else Triple
  {
    var c := st.(tapCount := TapsNow(st, before), time := TimeNow(st, before));
    Reported(c, before, Triple);
    hide Detect, TapsNow;
    report := if TapsNow(st, before) == TRIPLE_PRESS then [Detected(before, Triple)] else [];
    assert st.log + [] == st.log;
  }

  lemma {:induction false} HoldEnds(st: State, before: Mask, after: Mask) returns (report: seq<Entry>)
    requires before != NONE && st.time != Invalid && !Repeats(st, before)
    ensures var s := Release(st, before, after);
            && s == st.(log := st.log + report, internalTimers := 0, repeatTimers := 0, time := s.time,
                        tapCount := if st.time == Short then (TapsNow(st, before) + 1) % 0x100 else TapsNow(st, before),
                        multipleState := if st.time == Short then before else st.multipleState,
                        multipleTimers := if st.time == Short then st.multipleTimers + 1 else st.multipleTimers)
            && s.time == (if after == NONE then Invalid else st.time)
            && report == if st.time == Short then [Detected(before, Short)]
                         else if ReleaseOf(st.time) == Invalid then []
                         else [Detected(before, ReleaseOf(st.time))]
  {
    var c := st.(tapCount := TapsNow(st, before), time := TimeNow(st, before));
    assert CountTap(st, before) == c && c.time == st.time;
    hide CountTap, TapsNow;
    Reported(c, before, Short);
    if ReleaseOf(st.time) != Invalid {
      Reported(c, before, ReleaseOf(st.time));
    }
    hide Detect;
    report := if st.time == Short then [Detected(before, Short)]
              else if ReleaseOf(st.time) == Invalid then [] else [Detected(before, ReleaseOf(st.time))];
    assert st.log + [] == st.log;
  }

  lemma {:induction false} TapReported(cfg: Config, st: State, before: Mask, input: Mask, pressedLast: bool)
      returns (report: seq<Entry>)
    requires Reporting(cfg, st, pressedLast) && before == Both(st.oldInput, cfg.levelMask) != NONE && Repeats(st, before)
    ensures var s := Release(st, before, Both(input, cfg.levelMask)).(oldInput := input);
            && ReleaseReport(st, before, pressedLast, report) && ReleaseEffect(st, s, before, report)
            && Reporting(cfg, s, false)
  {
    report := AnotherTap(st, before, Both(input, cfg.levelMask));
    AmongIsBoth(NONE, cfg.levelMask);
    assert st.multipleState == before;
    hide Both, Among, Release, OpenGroup, Crossings, TapsNow, SameTap, ReleaseOf;
    assert Crossings(st.log) == 0;
    if report == [] {
      assert st.log + [] == st.log;
    } else {
      LogAppend(st.log, Detected(before, Triple));
    }
  }

  lemma {:induction false} ShortReported(cfg: Config, st: State, before: Mask, input: Mask, pressedLast: bool)
      returns (report: seq<Entry>)
    requires Reporting(cfg, st, pressedLast) && before == Both(st.oldInput, cfg.levelMask) != NONE && !Repeats(st, before)
    requires Both(before, cfg.levelMask) == before
    requires st.time == Short
    ensures var s := Release(st, before, Both(input, cfg.levelMask)).(oldInput := input);
            && ReleaseReport(st, before, pressedLast, report) && ReleaseEffect(st, s, before, report)
            && Reporting(cfg, s, false)
  {
    report := HoldEnds(st, before, Both(input, cfg.levelMask));
    hide Both, Release, OpenGroup, Crossings, TapsNow, SameTap;
    LogAppend(st.log, Detected(before, Short));
  }

  lemma {:induction false} PassedReported(cfg: Config, st: State, before: Mask, input: Mask, pressedLast: bool)
      returns (report: seq<Entry>)
    requires Reporting(cfg, st, pressedLast) && before == Both(st.oldInput, cfg.levelMask) != NONE && !Repeats(st, before)
    requires Both(before, cfg.levelMask) == before
    requires Crossings(st.log) > 0
    ensures var s := Release(st, before, Both(input, cfg.levelMask)).(oldInput := input);
            && ReleaseReport(st, before, pressedLast, report) && ReleaseEffect(st, s, before, report)
            && Reporting(cfg, s, false)
  {
    report := HoldEnds(st, before, Both(input, cfg.levelMask));
    hide Both, Release, OpenGroup, Crossings, TapsNow, SameTap;
    LogAppend(st.log, Detected(before, ReleaseOf(st.time)));
  }

  lemma {:induction false} NothingReported(cfg: Config, st: State, before: Mask, input: Mask, pressedLast: bool)
      returns (report: seq<Entry>)
    requires Reporting(cfg, st, pressedLast) && before == Both(st.oldInput, cfg.levelMask) != NONE && !Repeats(st, before)
    requires Both(before, cfg.levelMask) == before
    requires Crossings(st.log) == 0 && st.time != Short
    ensures var s := Release(st, before, Both(input, cfg.levelMask)).(oldInput := input);
            && ReleaseReport(st, before, pressedLast, report) && ReleaseEffect(st, s, before, report)
            && Reporting(cfg, s, false)
  {
    report := HoldEnds(st, before, Both(input, cfg.levelMask));
    hide Both, Release, OpenGroup, Crossings, TapsNow, SameTap;
    assert st.log + [] == st.log;
  }

  lemma {:induction false} HoldReported(cfg: Config, st: State, before: Mask, input: Mask, pressedLast: bool)
      returns (report: seq<Entry>)
    requires Reporting(cfg, st, pressedLast) && before == Both(st.oldInput, cfg.levelMask) != NONE && !Repeats(st, before)
    requires Both(before, cfg.levelMask) == before
    ensures var s := Release(st, before, Both(input, cfg.levelMask)).(oldInput := input);
            && ReleaseReport(st, before, pressedLast, report) && ReleaseEffect(st, s, before, report)
            && Reporting(cfg, s, false)
  {
    hide Both, Release, ReleaseReport, ReleaseEffect, Reporting, Repeats, Crossings;
    if st.time == Short {
      report := ShortReported(cfg, st, before, input, pressedLast);
    } else if Crossings(st.log) > 0 {
      report := PassedReported(cfg, st, before, input, pressedLast);
    } else {
      report := NothingReported(cfg, st, before, input, pressedLast);
    }
  }

  lemma {:induction false} ReleaseReported(cfg: Config, st: State, input: Mask, pressedLast: bool) returns (report: seq<Entry>)
    requires Reporting(cfg, st, pressedLast) && Both(st.oldInput, cfg.levelMask) != NONE
    ensures var before, after := Both(st.oldInput, cfg.levelMask), Both(input, cfg.levelMask);
            var s := Release(st, before, after).(oldInput := input);
            && ReleaseReport(st, before, pressedLast, report) && ReleaseEffect(st, s, before, report)
            && Reporting(cfg, s, false)
  {
    var before := Both(st.oldInput, cfg.levelMask);
    AmongIsBoth(st.oldInput, cfg.levelMask);
    hide Both, Among, Release, ReleaseReport, ReleaseEffect, Reporting, Repeats;
    if Repeats(st, before) {
      report := TapReported(cfg, st, before, input, pressedLast);
    } else {
      report := HoldReported(cfg, st, before, input, pressedLast);
    }
  }

  // ---------- Every event ----------

  /** What an input change adds to the log: edges, then a press or a release of level inputs. */
  ghost predicate ChangeReport(cfg: Config, st: State, input: Mask, pressedLast: bool, s: State) {
    var m := cfg.levelMask;
    var before, after, edges := Among(st.oldInput, m), Among(input, m), EdgeReport(cfg, st.oldInput, input);
    if Rose(m, st.oldInput, input) then
      s.log == st.log + edges + [Pressed] && s.internalTimers == s.repeatTimers == 1 && s.multipleTimers == st.multipleTimers
    else if before == after then
      && s.log == st.log + edges && s.internalTimers == st.internalTimers && s.repeatTimers == st.repeatTimers
      && s.multipleTimers == st.multipleTimers
    else
      exists report ::
        && ReleaseReport(st, before, pressedLast, report)
        && ReleaseEffect(st.(log := st.log + edges), s, before, report)
  }

  lemma {:induction false} PressReported(cfg: Config, st: State, input: Mask, pressedLast: bool)
    requires Reporting(cfg, st, pressedLast)
    ensures Reporting(cfg, Press(st).(oldInput := input), true)
  {
    hide Both;
    LogAppend(st.log, Pressed);
  }

  lemma {:induction false} SameLevels(cfg: Config, st: State, input: Mask, pressedLast: bool)
    requires Reporting(cfg, st, pressedLast) && Both(input, cfg.levelMask) == Both(st.oldInput, cfg.levelMask)
    ensures Reporting(cfg, st.(oldInput := input), pressedLast)
  {
    hide Both;
  }

  lemma {:induction false} LevelReported(cfg: Config, st: State, input: Mask, pressedLast: bool)
    requires Reporting(cfg, st, pressedLast)
    ensures var before, after := Among(st.oldInput, cfg.levelMask), Among(input, cfg.levelMask);
            var s := LevelPass(cfg, st, input).(oldInput := input);
            && Reporting(cfg, s, PressedNow(cfg, st.oldInput, pressedLast, input))
            && if Rose(cfg.levelMask, st.oldInput, input) then s == Press(st).(oldInput := input)
               else if before == after then s == st.(oldInput := input)
               else exists report :: ReleaseReport(st, before, pressedLast, report) && ReleaseEffect(st, s, before, report)
  {
    var m := cfg.levelMask;
    AmongIsBoth(st.oldInput, m);
    AmongIsBoth(input, m);
    ChangedBits(Among(st.oldInput, m), Among(input, m));
    NewBits(Among(st.oldInput, m), Among(input, m));
    NewIsDown(Among(st.oldInput, m), Among(input, m));
    hide Both, Among, New, Differ, Changed, Release, ReleaseReport, ReleaseEffect, Reporting;
    if Rose(m, st.oldInput, input) {
      PressReported(cfg, st, input, pressedLast);
    } else if Among(st.oldInput, m) == Among(input, m) {
      SameLevels(cfg, st, input, pressedLast);
    } else {
      var report := ReleaseReported(cfg, st, input, pressedLast);
    }
  }

  lemma {:induction false} SameLog(cfg: Config, st: State, e: State, pressedLast: bool)
    requires Reporting(cfg, st, pressedLast) && e == st.(log := e.log)
    requires OpenGroup(e.log) == OpenGroup(st.log) && Crossings(e.log) == Crossings(st.log)
    ensures Reporting(cfg, e, pressedLast)
  {
    hide Both, OpenGroup, Crossings;
  }

  lemma {:induction false} SameRelease(st: State, e: State, before: Mask, pressedLast: bool, report: seq<Entry>)
    requires OpenGroup(e.log) == OpenGroup(st.log) && Crossings(e.log) == Crossings(st.log)
    ensures ReleaseReport(st, before, pressedLast, report) == ReleaseReport(e, before, pressedLast, report)
  {
    hide OpenGroup, Crossings;
  }

  lemma {:induction false} PressLogs(st: State)
    ensures Press(st) == st.(internalTimers := 1, repeatTimers := 1, time := Short, log := st.log + [Pressed])
  {
  }

  lemma {:induction false} ChangeReported(cfg: Config, st: State, input: Mask, pressedLast: bool)
    requires Reporting(cfg, st, pressedLast)
    ensures ChangeReport(cfg, st, input, pressedLast, InputChanged(cfg, st, input))
    ensures Reporting(cfg, InputChanged(cfg, st, input), PressedNow(cfg, st.oldInput, pressedLast, input))
  {
    var edges := EdgeReport(cfg, st.oldInput, input);
    EdgeReported(cfg, st, input);
    EdgeChangesNothing(cfg, st.log, st.oldInput, input);
    var e := st.(log := st.log + edges);
    SameLog(cfg, st, e, pressedLast);
    PressLogs(e);
    LevelReported(cfg, e, input, pressedLast);
    forall before, report ensures ReleaseReport(st, before, pressedLast, report) == ReleaseReport(e, before, pressedLast, report) {
      SameRelease(st, e, before, pressedLast, report);
    }
    hide ReleaseReport, Press, Reporting, Rose, EdgePass, LevelPass, EdgeReport, Both, Among, OpenGroup, Crossings, ReleaseEffect;
  }

  /** What a firing of the multiple-tap timer adds: the single or double of the open group. */
  predicate GroupReport(st: State, s: State) {
    s.log == st.log + if OpenGroup(st.log) == NONE then []
                      else [Detected(OpenGroup(st.log), if st.tapCount == DOUBLE_PRESS then Double else ShortSingle)]
  }

  lemma {:induction false} GroupReported(cfg: Config, st: State, pressedLast: bool)
    requires Reporting(cfg, st, pressedLast) && st.multipleTimers > 0
    ensures GroupReport(st, MultipleFired(cfg, st)) && Reporting(cfg, MultipleFired(cfg, st), pressedLast)
  {
    AmongIsBoth(NONE, cfg.levelMask);
    hide Both, Among, OpenGroup, Crossings;
    assert st.log + [] == st.log;
    LogAppend(st.log, Detected(st.multipleState, Double));
    LogAppend(st.log, Detected(st.multipleState, ShortSingle));
  }

  /** What passing a threshold adds: the threshold, under the level inputs that are down. */
  predicate ThresholdReport(cfg: Config, st: State, s: State) {
    var down, crossings := Among(st.oldInput, cfg.levelMask), Crossings(st.log);
    var marks := (if st.tapCount > 0 then [Dropped(st.tapCount)] else []) + [Crossed];
    var silent := down == 0 || (crossings == 1 && down == 0x100_0000);
    && s.log == st.log + marks + (if silent then []
                                  else [Detected(down, if crossings == 0 then Long else if crossings == 1 then VeryLong else VeryVeryLong)])
    && s.internalTimers == st.internalTimers - (if crossings < 2 then 0 else 1)
    && s.repeatTimers == (if silent then 0 else st.repeatTimers) && s.multipleTimers == 0
  }

  lemma {:induction false} ThresholdReported(cfg: Config, st: State, pressedLast: bool)
    requires Reporting(cfg, st, pressedLast) && st.internalTimers == 1
    ensures ThresholdReport(cfg, st, InternalFired(cfg, st)) && Reporting(cfg, InternalFired(cfg, st), pressedLast)
  {
    AmongIsBoth(st.oldInput, cfg.levelMask);
    AmongIsBoth(NONE, cfg.levelMask);
    hide Both, Among, OpenGroup, Crossings;
    var log := st.log + if st.tapCount > 0 then [Dropped(st.tapCount)] else [];
    assert st.log + [] == st.log;
    LogAppend(st.log, Dropped(st.tapCount));
    LogAppend(log, Crossed);
    var marks := (if st.tapCount > 0 then [Dropped(st.tapCount)] else []) + [Crossed];
    assert st.log + marks == log + [Crossed];
    LogAppend(log + [Crossed], Detected(Among(st.oldInput, cfg.levelMask), NextThreshold(st.time)));
    assert st.log + marks + [] == st.log + marks;
  }

  /** What a firing of the repeat timer adds: a repeat of the level inputs that are down; with
      none down it stops. */
  predicate RepeatReport(cfg: Config, st: State, s: State) {
    var down := Among(st.oldInput, cfg.levelMask);
    && s.log == st.log + (if down == 0 then [] else [Detected(down, Repeat)])
    && s.repeatTimers == if down == 0 then 0 else st.repeatTimers
  }

  lemma {:induction false} RepeatReported(cfg: Config, st: State, pressedLast: bool)
    requires Reporting(cfg, st, pressedLast) && st.repeatTimers > 0
    ensures RepeatReport(cfg, st, RepeatFired(cfg, st)) && Reporting(cfg, RepeatFired(cfg, st), pressedLast)
  {
    AmongIsBoth(st.oldInput, cfg.levelMask);
    hide Both, Among, OpenGroup, Crossings;
    assert st.log + [] == st.log;
    LogAppend(st.log, Detected(Among(st.oldInput, cfg.levelMask), Repeat));
  }

  // ---------- Whole runs ----------

  predicate Reports(cfg: Config, st: State, pressedLast: bool) {
    Reporting(cfg, st, pressedLast) && TimerInvariant(st)
  }

  lemma {:induction false} StepReports(cfg: Config, st: State, e: Event, pressedLast: bool)
    requires Reports(cfg, st, pressedLast) && Enabled(st, e)
    ensures Reports(cfg, Step(cfg, st, e),
                    if e.InputChange? then PressedNow(cfg, st.oldInput, pressedLast, e.input) else pressedLast)
    ensures Step(cfg, st, e).oldInput == if e.InputChange? then e.input else st.oldInput
  {
    StepKeepsTimers(cfg, st, e);
    InputKept(cfg, st, e);
    hide Reporting, InputChanged, MultipleFired, InternalFired, RepeatFired, Rising, RisingTo, PressedNow;
    match e
    case InputChange(input) => ChangeReported(cfg, st, input, pressedLast);
    case MultipleTimer => GroupReported(cfg, st, pressedLast);
    case InternalTimer => ThresholdReported(cfg, st, pressedLast);
    case RepeatTimer => RepeatReported(cfg, st, pressedLast);
  }

  lemma {:induction false} InputKept(cfg: Config, st: State, e: Event)
    requires Enabled(st, e)
    ensures Step(cfg, st, e).oldInput == if e.InputChange? then e.input else st.oldInput
  {
    hide Both, EdgePass, LevelPass;
  }

  lemma {:induction false} RunReports(cfg: Config, st: State, events: seq<Event>, pressedLast: bool)
    requires Reports(cfg, st, pressedLast) && IsRun(cfg, st, events)
    ensures Reports(cfg, RunFrom(cfg, st, events), PressedLast(cfg, st.oldInput, pressedLast, events))
    ensures RunFrom(cfg, st, events).oldInput == LastInput(st.oldInput, events)
    decreases events
  {
    hide Reports, Step, Enabled, PressedNow;
    if events != [] {
      var e := events[0];
      assert Enabled(st, e);
      StepReports(cfg, st, e, pressedLast);
      RunReports(cfg, Step(cfg, st, e), events[1..],
                 if e.InputChange? then PressedNow(cfg, st.oldInput, pressedLast, e.input) else pressedLast);
    }
  }

  lemma {:induction false} BootReports(cfg: Config, input: Mask)
    ensures Boot(cfg, input).log
         == (if Among(input, cfg.levelMask) == 0 then [] else [Pressed])
            + (if Among(input, cfg.edgeMask) == 0 then [] else [Detected(Among(input, cfg.edgeMask), LowToHigh)])
    ensures Reports(cfg, Boot(cfg, input), Among(input, cfg.levelMask) != 0) && Boot(cfg, input).oldInput == input
  {
    BootKeepsTimers(cfg, input);
    var level, edge := Among(input, cfg.levelMask), Among(input, cfg.edgeMask);
    var zero := State(NONE, NONE, 0, Invalid, 0, 0, 0, []);
    AmongIsBoth(input, cfg.levelMask);
    AmongIsBoth(level, cfg.levelMask);
    AmongIsBoth(NONE, cfg.levelMask);
    AmongIsBoth(input, cfg.edgeMask);
    AmongIsBoth(edge, cfg.edgeMask);
    AmongIsBoth(NONE, cfg.edgeMask);
    FromNothing(level);
    FromNothing(edge);
    LogAppend([], Pressed);
    var s := LevelDetect(cfg, zero, level);
    EdgeReported(cfg, s, edge);
    EdgeChangesNothing(cfg, s.log, NONE, edge);
    hide Both, Among, New, Differ, Changed, OpenGroup, Crossings, EdgeDetect, TimerInvariant;
  }

  lemma {:induction false} FromNothing(x: Mask)
    ensures New(NONE, x) <==> x != NONE
    ensures WasPressed(NONE, x) <==> x != NONE
    ensures Changed(NONE, x) == x
  {
  }

  lemma {:induction false} Reached(cfg: Config, boot: Mask, events: seq<Event>)
    requires IsRun(cfg, Boot(cfg, boot), events)
    ensures var st := RunFrom(cfg, Boot(cfg, boot), events);
            && Reports(cfg, st, PressedLast(cfg, boot, Among(boot, cfg.levelMask) != 0, events))
            && st.oldInput == LastInput(boot, events)
  {
    hide Boot, RunFrom, IsRun, Reports, LastInput, PressedLast;
    BootReports(cfg, boot);
    RunReports(cfg, Boot(cfg, boot), events, Among(boot, cfg.levelMask) != 0);
  }

  /** For every configuration and run: the single or double that closes a group of taps names the
      inputs of the short report that opened it. */
  lemma {:induction false} GroupNamesItsTaps(cfg: Config, boot: Mask, events: seq<Event>)
    requires IsRun(cfg, Boot(cfg, boot), events) && RunFrom(cfg, Boot(cfg, boot), events).multipleTimers > 0
    ensures var st := RunFrom(cfg, Boot(cfg, boot), events);
            GroupReport(st, MultipleFired(cfg, st))
  {
    hide Boot, RunFrom, IsRun, MultipleFired, GroupReport;
    Reached(cfg, boot, events);
    GroupReported(cfg, RunFrom(cfg, Boot(cfg, boot), events), PressedLast(cfg, boot, Among(boot, cfg.levelMask) != 0, events));
  }

  /** Each threshold and each repeat names the level inputs now down, and is reported at every
      firing while any is, but for the very long hold of the regulator pin alone. */
  lemma {:induction false} TimersNameInputsDown(cfg: Config, boot: Mask, events: seq<Event>)
    requires IsRun(cfg, Boot(cfg, boot), events)
    ensures var st := RunFrom(cfg, Boot(cfg, boot), events);
            && st.oldInput == LastInput(boot, events)
            && (st.internalTimers > 0 ==> ThresholdReport(cfg, st, InternalFired(cfg, st)))
            && (st.repeatTimers > 0 ==> RepeatReport(cfg, st, RepeatFired(cfg, st)))
  {
    hide Boot, RunFrom, IsRun, InternalFired, RepeatFired, ThresholdReport, RepeatReport, Rising, RisingTo;
    var st, pressedLast := RunFrom(cfg, Boot(cfg, boot), events), PressedLast(cfg, boot, Among(boot, cfg.levelMask) != 0, events);
    Reached(cfg, boot, events);
    hide Reporting;
    if st.internalTimers > 0 { ThresholdReported(cfg, st, pressedLast); }
    if st.repeatTimers > 0 { RepeatReported(cfg, st, pressedLast); }
  }

  /** What every input change reports, and what it does to the timers: the edges of the edge inputs;
      then a press if a level input went down, and otherwise, if one went up, a release naming
      those that were down, by the thresholds passed since the press. */
  lemma {:induction false} ChangesReported(cfg: Config, boot: Mask, events: seq<Event>, input: Mask)
    requires IsRun(cfg, Boot(cfg, boot), events)
    ensures var st := RunFrom(cfg, Boot(cfg, boot), events);
            && st.oldInput == LastInput(boot, events)
            && ChangeReport(cfg, st, input, PressedLast(cfg, boot, Among(boot, cfg.levelMask) != 0, events),
                            InputChanged(cfg, st, input))
  {
    hide Boot, RunFrom, IsRun, InputChanged, ChangeReport;
    Reached(cfg, boot, events);
    ChangeReported(cfg, RunFrom(cfg, Boot(cfg, boot), events), input,
                   PressedLast(cfg, boot, Among(boot, cfg.levelMask) != 0, events));
  }

  // ---------- Taps within the time ----------

  /** These are level inputs and nothing else. */
  predicate LevelOnly(cfg: Config, m: Mask) {
    m != NONE && Among(m, cfg.levelMask) == m && Among(m, cfg.edgeMask) == NONE
  }

  /** Nothing is down, and `taps` taps of `group` are counted. */
  predicate Between(st: State, taps: nat, group: Mask, timers: nat) {
    st.oldInput == NONE && st.tapCount == taps && st.multipleState == group && st.multipleTimers == timers
  }

  /** The inputs go down and up again, before a threshold. */
  function Tap(m: Mask): seq<Event> {
    [InputChange(m), InputChange(NONE)]
  }

  lemma {:induction false} TapIsRelease(cfg: Config, st: State, m: Mask)
    requires LevelOnly(cfg, m) && st.oldInput == NONE
    ensures IsRun(cfg, st, Tap(m))
    ensures RunFrom(cfg, st, Tap(m)) == Release(Press(st).(oldInput := m), m, NONE).(oldInput := NONE)
  {
    AmongIsBoth(m, cfg.levelMask);
    AmongIsBoth(m, cfg.edgeMask);
    AmongIsBoth(NONE, cfg.levelMask);
    AmongIsBoth(NONE, cfg.edgeMask);
    FromNothing(m);
    ToNothing(m);
    hide Both, Among, WasPressed, Differ, Press, Release;
    var pressed := InputChanged(cfg, st, m);
    assert pressed == Press(st).(oldInput := m) by { hide RunFrom, IsRun; }
    assert InputChanged(cfg, pressed, NONE) == Release(pressed, m, NONE).(oldInput := NONE) by { hide RunFrom, IsRun; }
    hide InputChanged;
    var up := InputChanged(cfg, pressed, NONE);
    assert IsRun(cfg, up, []) && RunFrom(cfg, up, []) == up;
    assert [InputChange(NONE)][1..] == [];
    assert IsRun(cfg, pressed, [InputChange(NONE)]) && RunFrom(cfg, pressed, [InputChange(NONE)]) == up;
    assert Tap(m)[1..] == [InputChange(NONE)];
  }

  lemma {:induction false} ToNothing(x: Mask)
    ensures !WasPressed(x, NONE) && Differ(NONE, NONE) == NONE
  {
  }

  /** A short tap, from nothing down: what it reports, by the taps counted so far. */
  lemma {:induction false} TapCounts(cfg: Config, st: State, m: Mask)
    requires LevelOnly(cfg, m) && st.oldInput == NONE && st.tapCount <= 2
    ensures IsRun(cfg, st, Tap(m))
    ensures var s, same := RunFrom(cfg, st, Tap(m)), st.tapCount > 0 && st.multipleState == m;
            if same && st.tapCount == 2 then
              Between(s, 0, NONE, 0) && s.log == st.log + [Pressed, Detected(m, Triple)]
            else if same then
              Between(s, 2, m, st.multipleTimers) && s.log == st.log + [Pressed]
            else
              Between(s, st.tapCount + 1, m, st.multipleTimers + 1) && s.log == st.log + [Pressed, Detected(m, Short)]
  {
    TapIsRelease(cfg, st, m);
    hide IsRun, RunFrom, Release, Between, Press;
    if st.tapCount > 0 && st.multipleState == m {
      AgainCounts(st, m);
    } else {
      FirstCounts(st, m);
    }
  }

  lemma {:induction false} AgainCounts(st: State, m: Mask)
    requires m != NONE && 0 < st.tapCount <= 2 && st.multipleState == m
    ensures var s := Release(Press(st).(oldInput := m), m, NONE).(oldInput := NONE);
            if st.tapCount == 2 then
              Between(s, 0, NONE, 0) && s.log == st.log + [Pressed, Detected(m, Triple)]
            else
              Between(s, 2, m, st.multipleTimers) && s.log == st.log + [Pressed]
  {
    PressedThen(st, m);
    hide Release, SameTap, TapsNow, Repeats;
    var report := AnotherTap(Press(st).(oldInput := m), m, NONE);
  }

  lemma {:induction false} FirstCounts(st: State, m: Mask)
    requires m != NONE && st.tapCount <= 2 && !(st.tapCount > 0 && st.multipleState == m)
    ensures var s := Release(Press(st).(oldInput := m), m, NONE).(oldInput := NONE);
            Between(s, st.tapCount + 1, m, st.multipleTimers + 1) && s.log == st.log + [Pressed, Detected(m, Short)]
  {
    PressedThen(st, m);
    hide Release, SameTap, TapsNow, Repeats;
    var report := HoldEnds(Press(st).(oldInput := m), m, NONE);
  }

  /** The state after a press: what its release will look at. */
  lemma {:induction false} PressedThen(st: State, m: Mask)
    requires st.tapCount <= 2
    ensures var p, same := Press(st).(oldInput := m), st.tapCount > 0 && st.multipleState == m;
            && p.time == Short && p.log + [] == st.log + [Pressed]
            && p.log + [Detected(m, Short)] == st.log + [Pressed, Detected(m, Short)]
            && p.log + [Detected(m, Triple)] == st.log + [Pressed, Detected(m, Triple)]
            && (Repeats(p, m) <==> same)
            && TapsNow(p, m) == if same then st.tapCount + 1 else st.tapCount
  {
  }

  lemma {:induction false} RunThen(cfg: Config, st: State, first: seq<Event>, rest: seq<Event>)
    requires IsRun(cfg, st, first) && IsRun(cfg, RunFrom(cfg, st, first), rest)
    ensures IsRun(cfg, st, first + rest)
    ensures RunFrom(cfg, st, first + rest) == RunFrom(cfg, RunFrom(cfg, st, first), rest)
    decreases first
  {
    hide Step, Enabled;
    if first == [] {
      assert first + rest == rest;
    } else {
      RunThen(cfg, Step(cfg, st, first[0]), first[1..], rest);
      assert (first + rest)[1..] == first[1..] + rest;
    }
  }

  lemma {:induction false} TimerRuns(cfg: Config, st: State, m: Mask)
    requires st.multipleTimers > 0 && st.multipleState == m && LevelOnly(cfg, m)
    ensures IsRun(cfg, st, [MultipleTimer])
    ensures RunFrom(cfg, st, [MultipleTimer]).log
         == st.log + [Detected(m, if st.tapCount == 2 then Double else ShortSingle)]
  {
    AmongIsBoth(m, cfg.levelMask);
    hide Both, Among;
    assert [MultipleTimer][1..] == [];
    assert IsRun(cfg, MultipleFired(cfg, st), []);
    assert RunFrom(cfg, MultipleFired(cfg, st), []) == MultipleFired(cfg, st);
  }

  /** One tap within the time is a single; two of the same inputs are a double; and so are two of
      different ones, reported as a double of the second. */
  lemma {:induction false} TapsWithinTime(cfg: Config, a: Mask, b: Mask)
    requires LevelOnly(cfg, a) && LevelOnly(cfg, b)
    ensures var one := Tap(a) + [MultipleTimer];
            && IsRun(cfg, Boot(cfg, NONE), one)
            && RunFrom(cfg, Boot(cfg, NONE), one).log == [Pressed, Detected(a, Short), Detected(a, ShortSingle)]
    ensures var two := Tap(a) + Tap(b) + [MultipleTimer];
            && IsRun(cfg, Boot(cfg, NONE), two)
            && RunFrom(cfg, Boot(cfg, NONE), two).log
               == [Pressed, Detected(a, Short), Pressed] + if a == b then [Detected(a, Double)]
                                                           else [Detected(b, Short), Detected(b, Double)]
  {
    var st := Boot(cfg, NONE);
    BootEmpty(cfg);
    hide Boot, IsRun, RunFrom, LevelOnly, Tap;
    TapCounts(cfg, st, a);
    var once := RunFrom(cfg, st, Tap(a));
    TimerRuns(cfg, once, a);
    RunThen(cfg, st, Tap(a), [MultipleTimer]);
    TapCounts(cfg, once, b);
    var twice := RunFrom(cfg, once, Tap(b));
    TimerRuns(cfg, twice, b);
    RunThen(cfg, st, Tap(a), Tap(b));
    RunThen(cfg, st, Tap(a) + Tap(b), [MultipleTimer]);
  }

  /** Three taps of the same inputs are a triple, reported at the third release. */
  lemma {:induction false} ThreeTaps(cfg: Config, a: Mask)
    requires LevelOnly(cfg, a)
    ensures var three := Tap(a) + Tap(a) + Tap(a);
            && IsRun(cfg, Boot(cfg, NONE), three)
            && RunFrom(cfg, Boot(cfg, NONE), three).log
               == [Pressed, Detected(a, Short), Pressed, Pressed, Detected(a, Triple)]
            && RunFrom(cfg, Boot(cfg, NONE), three).multipleTimers == 0
  {
    var st := Boot(cfg, NONE);
    BootEmpty(cfg);
    hide Boot, IsRun, RunFrom, LevelOnly, Tap;
    TapCounts(cfg, st, a);
    var once := RunFrom(cfg, st, Tap(a));
    TapCounts(cfg, once, a);
    var twice := RunFrom(cfg, once, Tap(a));
    TapCounts(cfg, twice, a);
    RunThen(cfg, st, Tap(a), Tap(a));
    RunThen(cfg, st, Tap(a) + Tap(a), Tap(a));
  }

  lemma {:induction false} BootEmpty(cfg: Config)
    ensures Boot(cfg, NONE) == State(NONE, NONE, 0, Invalid, 0, 0, 0, [])
  {
    AmongIsBoth(NONE, cfg.levelMask);
    AmongIsBoth(NONE, cfg.edgeMask);
    ToNothing(NONE);
    hide Both, Among, WasPressed, Differ;
  }
}
