/** Absolute volume over AVRCP (section 6.13 of AVRCP 1.5) beside the headset's own volume
    steps: apps/sink/sink_avrcp.c and the A2DP part of apps/sink/sink_volume.c. */
module AvrcpVolume {

  const MAX_ABS_VOL := 127
  const MIN_LEVEL := 0

  /** The configured number of volume steps. */
  type Steps = n: nat | 1 <= n <= MAX_ABS_VOL witness 1

  datatype Direction = Increase | Decrease | Same

  /** A local level as an absolute volume, and back; both divisions round down. */
  function ToAbsolute(level: nat, steps: nat): nat
    requires steps > 0
  {
    level * MAX_ABS_VOL / steps
  }

  function ToLocal(volume: nat, steps: nat): nat {
    volume * steps / MAX_ABS_VOL
  }

  // ---------- The two scales ----------

  lemma {:induction false} Scaled(a: nat, b: nat, d: nat)
    requires a <= b
    ensures a * d <= b * d
  {
  }

  lemma {:induction false} DivideBetween(n: nat, d: nat)
    requires d > 0
    ensures n / d * d <= n < n / d * d + d
  {
  }

  lemma {:induction false} DivideAtMost(n: nat, d: nat, q: nat)
    requires d > 0 && n < (q + 1) * d
    ensures n / d <= q
  {
    DivideBetween(n, d);
    if n / d > q {
      Scaled(q + 1, n / d, d);
      assert false;
    }
  }

  lemma {:induction false} DivideAtLeast(n: nat, d: nat, q: nat)
    requires d > 0 && n >= q * d
    ensures n / d >= q
  {
    DivideBetween(n, d);
    if n / d < q {
      Scaled(n / d + 1, q, d);
      assert false;
    }
  }

  /** Rounding down keeps order. */
  lemma {:induction false} AbsoluteAtMost(level: nat, steps: Steps)
    requires level <= steps
    ensures ToAbsolute(level, steps) <= MAX_ABS_VOL
  {
    assert level * MAX_ABS_VOL < (MAX_ABS_VOL + 1) * steps by {
      Scaled(level, steps, MAX_ABS_VOL);
    }
    DivideAtMost(level * MAX_ABS_VOL, steps, MAX_ABS_VOL);
  }

  lemma {:induction false} LocalAtMost(volume: nat, steps: Steps)
    requires volume <= MAX_ABS_VOL
    ensures ToLocal(volume, steps) <= steps
  {
    Scaled(volume, MAX_ABS_VOL, steps);
    DivideAtMost(volume * steps, MAX_ABS_VOL, steps);
  }

  /** A level sent as an absolute volume and brought back never gains; it loses one step
      exactly if it has no exact absolute volume. */
  lemma {:induction false} LocalRoundTrip(level: nat, steps: Steps)
    requires level <= steps
    ensures ToAbsolute(level, steps) <= MAX_ABS_VOL
    ensures ToLocal(ToAbsolute(level, steps), steps) == if level * MAX_ABS_VOL % steps == 0 then level else level - 1
  {
    AbsoluteAtMost(level, steps);
    var a, r := ToAbsolute(level, steps), level * MAX_ABS_VOL % steps;
    assert a * steps + r == level * MAX_ABS_VOL;
    hide ToAbsolute;
    var back := if r == 0 then level else level - 1;
    DivideAtMost(a * steps, MAX_ABS_VOL, back);
    DivideAtLeast(a * steps, MAX_ABS_VOL, back);
  }

  /** An absolute volume as a level and back never gains, and loses less than one level's worth
      and one more unit. */
  lemma {:induction false} AbsoluteRoundTrip(volume: nat, steps: Steps)
    requires volume <= MAX_ABS_VOL
    ensures ToLocal(volume, steps) <= steps
    ensures ToAbsolute(ToLocal(volume, steps), steps) <= volume
    ensures (volume - ToAbsolute(ToLocal(volume, steps), steps)) * steps < MAX_ABS_VOL + steps - 1
  {
    LocalAtMost(volume, steps);
    var l := ToLocal(volume, steps);
    DivideBetween(volume * steps, MAX_ABS_VOL);
    var a := ToAbsolute(l, steps);
    DivideBetween(l * MAX_ABS_VOL, steps);
    DivideAtMost(l * MAX_ABS_VOL, steps, volume);
    hide ToLocal, ToAbsolute;
    assert (volume - a) * steps == volume * steps - a * steps;
  }

  // ---------- One connection's volume ----------

  /** `told` holds the volumes the remote device was notified of, most recent last. */
  datatype State = State(level: nat, volume: nat, connected: bool, registered: bool, told: seq<nat>)

  function Notify(st: State): State {
    if st.registered then st.(registered := false, told := st.told + [st.volume]) else st
  }

  /** sinkAvrcpVolumeStepChange; a zero step means an end of the scale was reached. */
  function StepChange(st: State, direction: Direction, change: nat): State {
    if !st.connected then st
    else
      match direction
      case Increase =>
        Notify(st.(volume := if st.volume + change > MAX_ABS_VOL || change == 0 then MAX_ABS_VOL else st.volume + change))
      case Decrease =>
        Notify(st.(volume := if change != 0 && st.volume >= change then st.volume - change else 0))
      case Same => Notify(st)
  }

  /** The level after one press of a volume button, in VolumeCheckA2dp. */
  function NextLevel(level: nat, direction: Direction, steps: nat): nat
    requires steps > 0
  {
    match direction
    case Increase => if level + 1 >= steps - 1 then steps - 1 else level + 1
    case Decrease => if level <= MIN_LEVEL + 1 then MIN_LEVEL else level - 1
    case Same => level
  }

  function Distance(a: nat, b: nat): nat {
    if a > b then a - b else b - a
  }

  /** VolumeCheckA2dp for the routed stream of this connection */
  function Press(st: State, direction: Direction, steps: nat): State
    requires steps > 0
  {
    var next := NextLevel(st.level, direction, steps);
    StepChange(st.(level := next), direction, Distance(st.level, next) * MAX_ABS_VOL / steps)
  }

  /** handleAvrcpSetAbsVolInd, on a connected instance */
  function SetAbsolute(st: State, volume: nat, steps: nat): State {
    st.(volume := volume, level := ToLocal(volume, steps))
  }

  /** sinkAvrcpSetLocalVolume */
  function SetLocal(st: State, steps: nat): State
    requires steps > 0
  {
    Notify(st.(volume := ToAbsolute(st.level, steps)))
  }

  // ---------- Runs ----------

  datatype Event =
    | Pressed(direction: Direction)
    | AbsoluteSet(volume: nat)
    | Registered
    | Up(level: nat)       // connected, with the stored level
    | Down

  predicate InRange(e: Event, steps: nat) {
    && (e.AbsoluteSet? ==> e.volume <= MAX_ABS_VOL)
    && (e.Up? ==> e.level <= steps)
  }

  function Step(st: State, e: Event, steps: nat): State
    requires steps > 0
  {
    match e
    case Pressed(direction) => Press(st, direction, steps)
    case AbsoluteSet(volume) => if st.connected then SetAbsolute(st, volume, steps) else st
    case Registered => if st.connected then st.(registered := true, told := st.told + [st.volume]) else st
    case Up(level) => SetLocal(st.(connected := true, level := level), steps)
    case Down => st.(connected := false, registered := false)
  }

  function RunFrom(st: State, events: seq<Event>, steps: nat): State
    requires steps > 0
    decreases events
  {
    if events == [] then st else RunFrom(Step(st, events[0], steps), events[1..], steps)
  }

  predicate Bounded(st: State, steps: nat) {
    && st.level <= steps
    && st.volume <= MAX_ABS_VOL
    && forall i :: 0 <= i < |st.told| ==> st.told[i] <= MAX_ABS_VOL
  }

  lemma {:induction false} ChangeBounded(st: State, direction: Direction, change: nat, steps: Steps)
    requires Bounded(st, steps)
    ensures Bounded(StepChange(st, direction, change), steps)
  {
  }

  lemma {:induction false} StepBounded(st: State, e: Event, steps: Steps)
    requires Bounded(st, steps) && InRange(e, steps)
    ensures Bounded(Step(st, e, steps), steps)
  {
    match e
    case AbsoluteSet(volume) =>
      LocalAtMost(volume, steps);
      hide ToAbsolute, ToLocal;
    case Up(level) =>
      AbsoluteAtMost(level, steps);
      hide ToAbsolute, ToLocal;
    case Pressed(direction) =>
      var next := NextLevel(st.level, direction, steps);
      ChangeBounded(st.(level := next), direction, Distance(st.level, next) * MAX_ABS_VOL / steps, steps);
    case _ =>
  }

  /** Over every run, the absolute volume, and every volume the remote device was told, stays
      within the 0 to 127 that the profile allows. */
  lemma {:induction false} VolumeInRange(st: State, events: seq<Event>, steps: Steps)
    requires Bounded(st, steps) && forall i :: 0 <= i < |events| ==> InRange(events[i], steps)
    ensures Bounded(RunFrom(st, events, steps), steps)
    decreases events
  {
    hide Step, Bounded, InRange;
    if events != [] {
      assert InRange(events[0], steps);
      StepBounded(st, events[0], steps);
      VolumeInRange(Step(st, events[0], steps), events[1..], steps);
    }
  }

  // ---------- Single presses ----------

  /** A press that moves the level by one changes the absolute volume by less than a jump to an
      end of the scale, if and only if there are at most 127 steps. */
  lemma {:induction false} PressIsNoJump(st: State, steps: nat)
    requires steps > 0 && st.connected && st.level + 2 < steps && st.volume + MAX_ABS_VOL / steps < MAX_ABS_VOL
    ensures Press(st, Increase, steps).volume < MAX_ABS_VOL <==> steps <= MAX_ABS_VOL
    ensures Press(st, Increase, steps).volume
         == if steps <= MAX_ABS_VOL then st.volume + MAX_ABS_VOL / steps else MAX_ABS_VOL
  {
    OneLevel(steps);
  }

  lemma {:induction false} OneLevel(steps: nat)
    requires steps > 0
    ensures MAX_ABS_VOL / steps > 0 <==> steps <= MAX_ABS_VOL
  {
    if steps <= MAX_ABS_VOL {
      DivideAtLeast(MAX_ABS_VOL, steps, 1);
    } else {
      DivideAtMost(MAX_ABS_VOL, steps, 0);
    }
  }

  /** A press up and a press down, clear of both ends of both scales, undo each other. */
  lemma {:induction false} UpThenDown(st: State, steps: Steps)
    requires st.connected && st.level + 2 < steps && st.volume + MAX_ABS_VOL / steps <= MAX_ABS_VOL
    ensures var up := Press(st, Increase, steps);
            var back := Press(up, Decrease, steps);
            && up.level == st.level + 1 && up.volume == st.volume + MAX_ABS_VOL / steps
            && back.level == st.level && back.volume == st.volume
  {
    OneLevel(steps);
  }

  /** Presses up from a level that the absolute volume does not overstate never overstate it. */
  lemma {:induction false} PressesNeverOverstate(st: State, steps: Steps, n: nat)
    requires st.connected && st.level + n + 1 < steps && st.volume <= ToAbsolute(st.level, steps)
    ensures var s := RunFrom(st, seq(n, _ => Pressed(Increase)), steps);
            s.level == st.level + n && s.volume <= ToAbsolute(s.level, steps)
    decreases n
  {
    hide ToAbsolute;
    if n > 0 {
      var e := Pressed(Increase);
      assert seq(n, _ => e)[1..] == seq(n - 1, _ => e);
      OnePress(st, steps);
      PressesNeverOverstate(Step(st, e, steps), steps, n - 1);
    }
  }

  lemma {:induction false} OnePress(st: State, steps: Steps)
    requires st.connected && st.level + 2 < steps && st.volume <= ToAbsolute(st.level, steps)
    ensures var s := Step(st, Pressed(Increase), steps);
            s.connected && s.level == st.level + 1 && s.volume <= ToAbsolute(s.level, steps)
  {
    OneLevel(steps);
    LevelAdds(st.level, steps);
    AbsoluteAtMost(st.level + 1, steps);
    hide ToAbsolute;
  }

  /** One level is worth at least the change a press makes. */
  lemma {:induction false} LevelAdds(level: nat, steps: Steps)
    ensures ToAbsolute(level, steps) + MAX_ABS_VOL / steps <= ToAbsolute(level + 1, steps)
  {
    var a, q := ToAbsolute(level, steps), MAX_ABS_VOL / steps;
    DivideBetween(level * MAX_ABS_VOL, steps);
    DivideBetween(MAX_ABS_VOL, steps);
    assert (a + q) * steps == a * steps + q * steps;
    DivideAtLeast((level + 1) * MAX_ABS_VOL, steps, a + q);
  }

  // ---------- What the remote device is told ----------

  function Registrations(events: seq<Event>): nat {
    if events == [] then 0 else (if events[0].Registered? then 1 else 0) + Registrations(events[1..])
  }

  /** Each registration is answered at once and at most once more, when the volume next changes. */
  lemma {:induction false} ToldAtMostTwice(st: State, events: seq<Event>, steps: nat)
    requires steps > 0
    ensures var s := RunFrom(st, events, steps);
            |s.told| + (if s.registered then 1 else 0)
              <= |st.told| + (if st.registered then 1 else 0) + 2 * Registrations(events)
    decreases events
  {
    hide ToAbsolute, ToLocal;
    if events != [] {
      ToldAtMostTwice(Step(st, events[0], steps), events[1..], steps);
    }
  }

  /** The volume the remote device knows of: the last it was told or set itself. */
  function KnownAfter(known: nat, st: State, e: Event, s: State): nat {
    if e.AbsoluteSet? && st.connected then e.volume
    else if |s.told| > |st.told| then s.told[|s.told| - 1]
    else known
  }

  function KnownAtEnd(known: nat, st: State, events: seq<Event>, steps: nat): nat
    requires steps > 0
    decreases events
  {
    if events == [] then known
    else
      var s := Step(st, events[0], steps);
      KnownAtEnd(KnownAfter(known, st, events[0], s), s, events[1..], steps)
  }

  /** Over every run: while a registration is open, the remote device knows the volume. */
  lemma {:induction false} RegisteredKnows(known: nat, st: State, events: seq<Event>, steps: nat)
    requires steps > 0 && (st.registered ==> st.connected && known == st.volume)
    ensures var s := RunFrom(st, events, steps);
            s.registered ==> s.connected && KnownAtEnd(known, st, events, steps) == s.volume
    decreases events
  {
    hide ToAbsolute, ToLocal, NextLevel;
    if events != [] {
      var s := Step(st, events[0], steps);
      RegisteredKnows(KnownAfter(known, st, events[0], s), s, events[1..], steps);
    }
  }

  /** A registration on a connection that is up is answered with the volume now, and then with the
      volume after the next press, and is used up. */
  lemma {:induction false} RegisteredThenPressed(st: State, direction: Direction, steps: nat)
    requires st.connected && steps > 0
    ensures var s := Step(Step(st, Registered, steps), Pressed(direction), steps);
            s.told == st.told + [st.volume, s.volume] && !s.registered
  {
    hide NextLevel;
    var s := Step(Step(st, Registered, steps), Pressed(direction), steps);
    assert st.told + [st.volume] + [s.volume] == st.told + [st.volume, s.volume];
  }

  /** A press moves the level by one within 0 and one below the steps; the press that cannot move
      it sends the volume to that end of its scale. */
  lemma {:induction false} PressMoves(st: State, steps: nat)
    requires steps > 0 && st.connected && st.level < steps && st.volume <= 127
    ensures var up, down := Press(st, Increase, steps), Press(st, Decrease, steps);
            && up.level == (if st.level == steps - 1 then steps - 1 else st.level + 1)
            && (st.level == steps - 1 ==> up.volume == 127)
            && down.level == (if st.level == 0 then 0 else st.level - 1)
            && (st.level == 0 ==> down.volume == 0)
    ensures Press(st, Same, steps) == Notify(st)
  {
    assert 0 * MAX_ABS_VOL / steps == 0;
  }

  /** The volume the remote device sets is taken as it is, and the level follows it, rounded down,
      without an answer; on a connection that is down it is ignored. */
  lemma {:induction false} RemoteSets(st: State, volume: nat, steps: nat)
    requires steps > 0
    ensures var s := Step(st, AbsoluteSet(volume), steps);
            if st.connected then
              && s == st.(volume := volume, level := s.level)
              && s.level * 127 <= volume * steps < (s.level + 1) * 127
            else s == st
  {
    DivideBetween(volume * steps, MAX_ABS_VOL);
  }

  /** A connection that comes up has its stored level, and the volume that is its worth, rounded
      down. One that went down is told nothing and keeps its volume until it comes up again. */
  lemma {:induction false} UpAndDown(st: State, level: nat, events: seq<Event>, steps: nat)
    requires steps > 0 && forall i :: 0 <= i < |events| ==> !events[i].Up?
    ensures var up := Step(st, Up(level), steps);
            && up.connected && up.level == level
            && up.volume * steps <= level * 127 < (up.volume + 1) * steps
    ensures var s := RunFrom(Step(st, Down, steps), events, steps);
            !s.connected && !s.registered && s.volume == st.volume && s.told == st.told
  {
    DivideBetween(level * MAX_ABS_VOL, steps);
    StaysDown(Step(st, Down, steps), events, steps);
    hide RunFrom;
  }

  lemma {:induction false} StaysDown(st: State, events: seq<Event>, steps: nat)
    requires steps > 0 && !st.connected && !st.registered && forall i :: 0 <= i < |events| ==> !events[i].Up?
    ensures var s := RunFrom(st, events, steps);
            !s.connected && !s.registered && s.volume == st.volume && s.told == st.told
    decreases events
  {
    hide NextLevel, ToLocal, ToAbsolute;
    if events != [] {
      StaysDown(Step(st, events[0], steps), events[1..], steps);
    }
  }

  // ---------- In place ----------

  /** The entries of one connection, updated by the handlers above. */
  class Connection {
    var level: nat
    var volume: nat
    var connected: bool
    var registered: bool
    ghost var told: seq<nat>

    ghost function View(): State
      reads this
    {
      State(level, volume, connected, registered, told)
    }

    constructor (level: nat)
      ensures View() == State(level, 0, false, false, [])
    {
      this.level, volume, connected, registered, told := level, 0, false, false, [];
    }

    method NotifyIfRegistered()
      modifies this
      ensures View() == Notify(old(View()))
    {
      if registered {
        told := told + [volume];
        registered := false;
      }
    }

    method VolumeStepChange(direction: Direction, change: nat)
      modifies this
      ensures View() == StepChange(old(View()), direction, change)
    {
      if connected {
        if direction == Increase {
          volume := volume + change;
          if volume > MAX_ABS_VOL || change == 0 {
            volume := MAX_ABS_VOL;
          }
        } else if direction == Decrease {
          if change != 0 && volume >= change {
            volume := volume - change;
          } else {
            volume := 0;
          }
        }
        NotifyIfRegistered();
      }
    }

    method MoveLevel(direction: Direction, steps: nat)
      requires steps > 0
      modifies this
      ensures View() == old(View()).(level := NextLevel(old(level), direction, steps))
    {
      match direction {
        case Increase =>
          level := level + 1;
          if level >= steps - 1 {
            level := steps - 1;
          }
        case Decrease =>
          if level <= MIN_LEVEL + 1 {
            level := MIN_LEVEL;
          } else {
            level := level - 1;
          }
        case Same =>
      }
    }

    method VolumeCheckA2dp(direction: Direction, steps: nat)
      requires steps > 0
      modifies this
      ensures View() == Press(old(View()), direction, steps)
    {
      hide NextLevel, StepChange;
      var oldLevel := level;
      MoveLevel(direction, steps);
      var moved: nat;
      if oldLevel > level - 1 {
        moved := oldLevel - level;
      } else {
        moved := level - oldLevel;
      }
      VolumeStepChange(direction, moved * MAX_ABS_VOL / steps);
    }

    method SetAbsVolInd(newVolume: nat, steps: nat)
      requires connected
      modifies this
      ensures View() == SetAbsolute(old(View()), newVolume, steps)
    {
      volume := newVolume;
      level := newVolume * steps / MAX_ABS_VOL;
    }

    method SetLocalVolume(steps: nat)
      requires steps > 0
      modifies this
      ensures View() == SetLocal(old(View()), steps)
    {
      volume := level * MAX_ABS_VOL / steps;
      NotifyIfRegistered();
    }

    /** A registration for volume changes is answered at once. */
    method RegisterForChanges()
      requires connected
      modifies this
      ensures View() == old(View()).(registered := true, told := old(told) + [old(volume)])
    {
      registered := true;
      told := told + [volume];
    }

    method Dispatch(e: Event, steps: nat)
      requires steps > 0
      modifies this
      ensures View() == Step(old(View()), e, steps)
    {
      hide Press, SetAbsolute, SetLocal;
      match e {
        case Pressed(direction) => VolumeCheckA2dp(direction, steps);
        case AbsoluteSet(newVolume) =>
          if connected {
            SetAbsVolInd(newVolume, steps);
          }
        case Registered =>
          if connected {
            RegisterForChanges();
          }
        case Up(newLevel) =>
          connected := true;
          level := newLevel;
          SetLocalVolume(steps);
        case Down =>
          connected := false;
          registered := false;
      }
    }

    /** Serving any run of events ends where the run ends: with every volume in range if the inputs
        were, and no more notifications than two for each registration. */
    method Serve(events: seq<Event>, steps: nat)
      requires steps > 0
      modifies this
      ensures View() == RunFrom(old(View()), events, steps)
      ensures steps <= MAX_ABS_VOL && Bounded(old(View()), steps) && (forall i :: 0 <= i < |events| ==> InRange(events[i], steps))
              ==> Bounded(View(), steps)
      ensures |told| + (if registered then 1 else 0)
              <= old(|told|) + (if old(registered) then 1 else 0) + 2 * Registrations(events)
    {
      ghost var st := View();
      ToldAtMostTwice(st, events, steps);
      if steps <= MAX_ABS_VOL && Bounded(st, steps) && forall i :: 0 <= i < |events| ==> InRange(events[i], steps) {
        VolumeInRange(st, events, steps);
      }
      hide Step, Bounded, InRange, Registrations;
      var i := 0;
      while i < |events|
        invariant i <= |events|
        invariant RunFrom(View(), events[i..], steps) == RunFrom(st, events, steps)
      {
        assert events[i..][1..] == events[i + 1..];
        Dispatch(events[i], steps);
        i := i + 1;
      }
    }
  }
}
