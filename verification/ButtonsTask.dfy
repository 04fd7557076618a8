/** The button handlers of apps/sink/sink_buttons.c as the program runs them, updating the fields
    of ButtonsTaskData in place. Each is proved to act on the fields exactly as the function of
    `Buttons` for it acts on states, so what is proved of runs there holds of them. */
module ButtonsTask {
  import opened Buttons

  class Task {
    const cfg: Config
    var oldInput: Mask
    var multipleState: Mask
    var tapCount: nat
    var time: Time
    var internalTimers: nat
    var multipleTimers: nat
    var repeatTimers: nat
    var log: seq<Entry>

    function View(): State
      reads this
    {
      State(oldInput, multipleState, tapCount, time, internalTimers, multipleTimers, repeatTimers, log)
    }

    constructor (cfg: Config)
      ensures this.cfg == cfg && View() == State(NONE, NONE, 0, Invalid, 0, 0, 0, [])
    {
      this.cfg := cfg;
      oldInput, multipleState, tapCount, time := NONE, NONE, 0, Invalid;
      internalTimers, multipleTimers, repeatTimers, log := 0, 0, 0, [];
    }

    /** Reports to the button manager, or cancels the repeat timer. */
    method ButtonDetected(mask: Mask, t: Time)
      modifies this
      ensures View() == Detect(old(View()), mask, t)
    {
      if mask == NONE || (t == VeryLong && mask == VREG_PIN_MASK) {
        repeatTimers := 0;
      } else {
        log := log + [Detected(mask, t)];
      }
    }

    method TapReleased(before: Mask)
      modifies this
      ensures View() == CountTap(old(View()), before)
    {
      if tapCount > 0 && before == multipleState {
        tapCount := (tapCount + 1) % 0x100;
        if tapCount == DOUBLE_PRESS {
          time := Double;
        } else if tapCount == TRIPLE_PRESS {
          time := Triple;
          ButtonDetected(before, Triple);
          multipleState := NONE;
          tapCount := 0;
          multipleTimers := 0;
        }
      }
    }

    method HoldReleased(before: Mask)
      modifies this
      ensures View() == ReportTime(old(View()), before)
    {
      DetectFrame(View(), before, Short);
      hide Detect, HoldRanks;
      if time == Short {
        ButtonDetected(before, Short);
        multipleState := before;
        tapCount := (tapCount + 1) % 0x100;
        multipleTimers := multipleTimers + 1;
      } else if time == Long {
        ButtonDetected(before, LongRelease);
      } else if time == VeryLong {
        ButtonDetected(before, VeryLongRelease);
      } else if time == VeryVeryLong {
        ButtonDetected(before, VeryVeryLongRelease);
      }
    }

    method ReleaseInput(before: Mask, after: Mask)
      modifies this
      ensures View() == Release(old(View()), before, after)
    {
      hide CountTap, ReportTime;
      TapReleased(before);
      HoldReleased(before);
      if time != Invalid {
        internalTimers := 0;
        repeatTimers := 0;
      }
      if after == NONE {
        time := Invalid;
      }
    }

    method DetectLevel(input: Mask)
      modifies this
      ensures View() == LevelDetect(cfg, old(View()), input)
    {
      hide Release, WasPressed, Both;
      var newInput, previous := Both(input, cfg.levelMask), Both(oldInput, cfg.levelMask);
      if WasPressed(previous, newInput) {
        internalTimers, repeatTimers := 0, 0;
        internalTimers, repeatTimers := internalTimers + 1, repeatTimers + 1;
        time := Short;
        log := log + [Pressed];
      } else if previous != newInput {
        if previous != NONE {
          ReleaseInput(previous, newInput);
        }
      }
    }

    method DetectEdge(input: Mask)
      modifies this
      ensures View() == EdgeDetect(cfg, old(View()), input)
    {
      hide Detect, Differ, Both;
      var newInput, previous := Both(input, cfg.edgeMask), Both(oldInput, cfg.edgeMask);
      var changed := Differ(newInput, previous);
      if changed != NONE {
        if Both(newInput, changed) != NONE {
          ButtonDetected(changed, LowToHigh);
        } else {
          ButtonDetected(changed, HighToLow);
        }
      }
    }

    method CheckDetection(input: Mask)
      modifies this
      ensures View() == InputChanged(cfg, old(View()), input)
    {
      hide EdgeDetect, LevelDetect, Both;
      if Both(cfg.edgeMask, input) != NONE || Both(cfg.edgeMask, oldInput) != NONE {
        DetectEdge(input);
      }
      EdgeKeepsInput(cfg, old(View()), input);
      if Both(cfg.levelMask, input) != NONE || Both(cfg.levelMask, oldInput) != NONE {
        DetectLevel(input);
      }
      oldInput := input;
    }

    method CheckForChangeAfterInit(input: Mask)
      requires View() == State(NONE, NONE, 0, Invalid, 0, 0, 0, [])
      modifies this
      ensures View() == Boot(cfg, input)
    {
      hide EdgeDetect, LevelDetect, Both;
      time := Invalid;
      DetectLevel(Both(input, cfg.levelMask));
      DetectEdge(Both(input, cfg.edgeMask));
      oldInput := input;
    }

    method MultipleTimerMessage()
      requires multipleTimers > 0
      modifies this
      ensures View() == MultipleFired(cfg, old(View()))
    {
      hide Detect, Both;
      multipleTimers := multipleTimers - 1;
      if tapCount == DOUBLE_PRESS {
        ButtonDetected(Both(multipleState, cfg.levelMask), Double);
      } else {
        ButtonDetected(Both(multipleState, cfg.levelMask), ShortSingle);
      }
      tapCount := 0;
      multipleState := NONE;
    }

    method InternalTimerMessage()
      requires internalTimers > 0
      modifies this
      ensures View() == InternalFired(cfg, old(View()))
    {
      hide Detect, Both;
      internalTimers := internalTimers - 1;
      log := log + ((if tapCount > 0 then [Dropped(tapCount)] else []) + [Crossed]);
      multipleState := NONE;
      tapCount := 0;
      multipleTimers := 0;
      if time == VeryLong {
        time := VeryVeryLong;
      } else if time == Long {
        internalTimers := internalTimers + 1;
        time := VeryLong;
      } else {
        internalTimers := internalTimers + 1;
        time := Long;
      }
      ButtonDetected(Both(oldInput, cfg.levelMask), time);
    }

    method RepeatTimerMessage()
      requires repeatTimers > 0
      modifies this
      ensures View() == RepeatFired(cfg, old(View()))
    {
      hide Detect, Both;
      repeatTimers := repeatTimers - 1;
      repeatTimers := repeatTimers + 1;
      ButtonDetected(Both(oldInput, cfg.levelMask), Repeat);
    }

    /** Serves any run of input changes and timer messages, ending where the run ends. */
    method Serve(events: seq<Event>)
      requires IsRun(cfg, View(), events)
      modifies this
      ensures View() == RunFrom(cfg, old(View()), events)
    {
      hide InputChanged, MultipleFired, InternalFired, RepeatFired;
      var i := 0;
      while i < |events|
        invariant i <= |events|
        invariant IsRun(cfg, View(), events[i..])
        invariant RunFrom(cfg, View(), events[i..]) == RunFrom(cfg, old(View()), events)
      {
        assert events[i..][1..] == events[i + 1..];
        match events[i] {
          case InputChange(input) => CheckDetection(input);
          case MultipleTimer => MultipleTimerMessage();
          case InternalTimer => InternalTimerMessage();
          case RepeatTimer => RepeatTimerMessage();
        }
        i := i + 1;
      }
    }
  }

  lemma {:induction false} EdgeKeepsInput(cfg: Config, st: State, input: Mask)
    ensures EdgeDetect(cfg, st, input).oldInput == st.oldInput
  {
  }
}
