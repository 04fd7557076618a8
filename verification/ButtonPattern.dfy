/** The button pattern matcher of apps/sink/sink_buttonmanager.c: up to four sequences of up to
    six presses, matched one press at a time. */
module ButtonPattern {
  import opened Buttons
  import opened Seqs

  const B_INVALID := 0
  const NUM_BUTTON_MATCH_PATTERNS := 4
  const NUM_BUTTONS_PER_MATCH_PATTERN := 6

  /** ButtonMatchPattern_t */
  datatype Pattern = Pattern(event: nat, numberOfMatches: nat, buttons: seq<Mask>)

  predicate Shaped(p: Pattern) {
    |p.buttons| == NUM_BUTTONS_PER_MATCH_PATTERN && p.numberOfMatches <= NUM_BUTTONS_PER_MATCH_PATTERN
  }

  predicate InStep(p: Pattern, progress: nat) {
    progress == 0 || progress < p.numberOfMatches
  }

  // ---------- One press ----------

  predicate Completes(p: Pattern, progress: nat, mask: Mask)
    requires Shaped(p) && progress < NUM_BUTTONS_PER_MATCH_PATTERN
  {
    p.buttons[progress] == mask && progress + 1 >= p.numberOfMatches
  }

  function Advance(p: Pattern, progress: nat, mask: Mask): (next: nat)
    requires Shaped(p) && progress < NUM_BUTTONS_PER_MATCH_PATTERN
    ensures next < NUM_BUTTONS_PER_MATCH_PATTERN && (InStep(p, progress) ==> InStep(p, next))
  {
    if p.buttons[progress] == mask then
      if progress + 1 >= p.numberOfMatches then 0 else progress + 1
    else if p.buttons[0] == mask then 1
    else 0
  }

  // ---------- Whole histories ----------

  /** The progress after a history of presses, from where it started. */
  function TrackFrom(p: Pattern, start: nat, history: seq<Mask>): (progress: nat)
    requires Shaped(p) && start < NUM_BUTTONS_PER_MATCH_PATTERN
    ensures progress < NUM_BUTTONS_PER_MATCH_PATTERN && (InStep(p, start) ==> InStep(p, progress))
  {
    if history == [] then start
    else Advance(p, TrackFrom(p, start, history[..|history| - 1]), history[|history| - 1])
  }

  /** The event is sent on the last press of the history. */
  predicate SendsFrom(p: Pattern, start: nat, history: seq<Mask>)
    requires Shaped(p) && start < NUM_BUTTONS_PER_MATCH_PATTERN
  {
    history != [] && Completes(p, TrackFrom(p, start, history[..|history| - 1]), history[|history| - 1])
  }

  /** From no progress, as every pattern starts that is configured before any press. */
  function Track(p: Pattern, history: seq<Mask>): (progress: nat)
    requires Shaped(p)
    ensures InStep(p, progress)
  {
    TrackFrom(p, 0, history)
  }

  predicate Sends(p: Pattern, history: seq<Mask>)
    requires Shaped(p)
  {
    SendsFrom(p, 0, history)
  }

  predicate EndsWith(history: seq<Mask>, tail: seq<Mask>) {
    |tail| <= |history| && history[|history| - |tail|..] == tail
  }

  function Steps(p: Pattern): seq<Mask>
    requires Shaped(p)
  {
    p.buttons[..p.numberOfMatches]
  }

  predicate FirstNeverRecurs(p: Pattern)
    requires Shaped(p)
  {
    forall k :: 1 <= k < p.numberOfMatches ==> p.buttons[k] != p.buttons[0]
  }

  lemma {:induction false} TrackAppend(p: Pattern, start: nat, history: seq<Mask>, mask: Mask)
    requires Shaped(p) && start < NUM_BUTTONS_PER_MATCH_PATTERN
    ensures TrackFrom(p, start, history + [mask]) == Advance(p, TrackFrom(p, start, history), mask)
    ensures SendsFrom(p, start, history + [mask]) == Completes(p, TrackFrom(p, start, history), mask)
  {
    assert (history + [mask])[..|history|] == history;
  }

  /** One press more than a beginning of the pattern is the next beginning. */
  lemma {:induction false} EndsWithNext(p: Pattern, history: seq<Mask>, i: nat)
    requires Shaped(p) && i < |p.buttons| && history != [] && history[|history| - 1] == p.buttons[i]
    requires EndsWith(history[..|history| - 1], p.buttons[..i])
    ensures EndsWith(history, p.buttons[..i + 1])
  {
    FirstElements(p.buttons, i);
    LastElements(history, i);
  }

  lemma {:induction false} EndsWithNothing(p: Pattern, history: seq<Mask>)
    requires Shaped(p)
    ensures EndsWith(history, p.buttons[..0])
  {
  }

  /** Progress `i` always means that the last `i` presses are the first `i` of the pattern. */
  lemma {:induction false} TrackIsMatched(p: Pattern, history: seq<Mask>)
    requires Shaped(p)
    ensures EndsWith(history, p.buttons[..Track(p, history)])
  {
    EndsWithNothing(p, history);
    if history != [] {
      var before := history[..|history| - 1];
      TrackIsMatched(p, before);
      var i := Track(p, before);
      assert Track(p, history) == Advance(p, i, history[|before|]);
      hide Track, EndsWith;
      if history[|before|] == p.buttons[i] {
        EndsWithNext(p, history, i);
      } else if history[|before|] == p.buttons[0] {
        EndsWithNothing(p, before);
        EndsWithNext(p, history, 0);
      }
    }
  }

  /** For any configured pattern: the event is sent only when the presses end with it. */
  lemma {:induction false} SendsOnlyPattern(p: Pattern, history: seq<Mask>)
    requires Shaped(p) && p.numberOfMatches > 0 && Sends(p, history)
    ensures EndsWith(history, Steps(p))
  {
    var before := history[..|history| - 1];
    TrackIsMatched(p, before);
    var i := Track(p, before);
    assert i + 1 == p.numberOfMatches;
    EndsWithNext(p, history, i);
  }

  /** Presses that end with the first `i` of a pattern end, before the last, with the first `i - 1`. */
  lemma {:induction false} EndsBefore(p: Pattern, history: seq<Mask>, i: nat)
    requires Shaped(p) && 0 < i <= p.numberOfMatches && EndsWith(history, p.buttons[..i])
    ensures history != [] && history[|history| - 1] == p.buttons[i - 1]
    ensures EndsWith(history[..|history| - 1], p.buttons[..i - 1])
  {
    FirstElements(p.buttons, i - 1);
    LastElements(history, i - 1);
    assert history[|history| - i..][..i - 1] == p.buttons[..i][..i - 1];
    assert history[|history| - i..][i - 1] == p.buttons[..i][i - 1];
  }

  /** If the first button never recurs, progress is the only beginning the presses end with. */
  lemma {:induction false} TrackIsOnly(p: Pattern, history: seq<Mask>, i: nat)
    requires Shaped(p) && FirstNeverRecurs(p)
    requires 0 < i < p.numberOfMatches && EndsWith(history, p.buttons[..i])
    ensures Track(p, history) == i
  {
    var before := history[..|history| - 1];
    EndsBefore(p, history, i);
    hide EndsWith;
    if i > 1 {
      TrackIsOnly(p, before, i - 1);
    } else if Track(p, before) > 0 {
      assert p.buttons[Track(p, before)] != p.buttons[0];
    }
  }

  lemma {:induction false} SendsExactly(p: Pattern, history: seq<Mask>)
    requires Shaped(p) && p.numberOfMatches > 0 && FirstNeverRecurs(p)
    ensures Sends(p, history) <==> EndsWith(history, Steps(p))
  {
    if Sends(p, history) {
      SendsOnlyPattern(p, history);
    } else if EndsWith(history, Steps(p)) {
      var n := p.numberOfMatches;
      EndsBefore(p, history, n);
      if n > 1 {
        TrackIsOnly(p, history[..|history| - 1], n - 1);
      }
    }
  }

  // ---------- A first button that recurs ----------

  /** Feeding the beginning of a pattern from no progress follows it. */
  lemma {:induction false} TrackBeginning(p: Pattern, i: nat)
    requires Shaped(p) && i < p.numberOfMatches
    ensures Track(p, p.buttons[..i]) == i
  {
    if i > 0 {
      TrackBeginning(p, i - 1);
      assert p.buttons[..i] == p.buttons[..i - 1] + [p.buttons[i - 1]];
      TrackAppend(p, 0, p.buttons[..i - 1], p.buttons[i - 1]);
    }
  }

  /** After the pattern up to a recurrence of its first button, the pattern itself is either
      followed from the wrong place or from later than its start. */
  lemma {:induction false} TrackAfterFalseStart(p: Pattern, k: nat, i: nat)
    requires Shaped(p) && 0 < k < p.numberOfMatches && p.buttons[k] == p.buttons[0]
    requires 0 < i < p.numberOfMatches
    ensures var t := Track(p, p.buttons[..k] + p.buttons[..i]); t == k + i || t < i
  {
    var h := p.buttons[..k];
    assert p.buttons[..i] == p.buttons[..i - 1] + [p.buttons[i - 1]];
    assert h + p.buttons[..i] == h + p.buttons[..i - 1] + [p.buttons[i - 1]];
    TrackAppend(p, 0, h + p.buttons[..i - 1], p.buttons[i - 1]);
    if i == 1 {
      assert h + p.buttons[..0] == h;
      TrackBeginning(p, k);
    } else {
      TrackAfterFalseStart(p, k, i - 1);
    }
  }

  lemma {:induction false} FalseStartMisses(p: Pattern, k: nat)
    requires Shaped(p) && 0 < k < p.numberOfMatches && p.buttons[k] == p.buttons[0]
    ensures EndsWith(p.buttons[..k] + Steps(p), Steps(p))
    ensures !Sends(p, p.buttons[..k] + Steps(p))
  {
    var n := p.numberOfMatches;
    var h := p.buttons[..k];
    TrackAfterFalseStart(p, k, n - 1);
    assert h + Steps(p) == h + p.buttons[..n - 1] + [p.buttons[n - 1]];
    TrackAppend(p, 0, h + p.buttons[..n - 1], p.buttons[n - 1]);
  }

  /** Every press reported names some button. */
  predicate Pressed(history: seq<Mask>) {
    forall j :: 0 <= j < |history| ==> history[j] != NONE
  }

  predicate HasEmptyPlace(p: Pattern)
    requires Shaped(p)
  {
    exists j :: 0 <= j < p.numberOfMatches && p.buttons[j] == NONE
  }

  lemma {:induction false} EndsWithAt(history: seq<Mask>, tail: seq<Mask>, j: nat)
    requires EndsWith(history, tail) && j < |tail|
    ensures history[|history| - |tail| + j] == tail[j]
  {
    assert history[|history| - |tail|..][j] == tail[j];
  }

  lemma {:induction false} EmptyPlaceNeverEnds(p: Pattern, history: seq<Mask>)
    requires Shaped(p) && HasEmptyPlace(p) && Pressed(history)
    ensures !EndsWith(history, Steps(p))
  {
    var j :| 0 <= j < p.numberOfMatches && p.buttons[j] == NONE;
    if EndsWith(history, Steps(p)) {
      EndsWithAt(history, Steps(p), j);
    }
  }

  /** The matcher finds a configured pattern in every history of presses if and only if the
      pattern's first button does not recur in it, or one of its places is empty, so that no
      presses are the pattern. */
  lemma {:induction false} MatcherExactIff(p: Pattern)
    requires Shaped(p) && p.numberOfMatches > 0
    ensures (forall history :: Pressed(history) ==> (Sends(p, history) <==> EndsWith(history, Steps(p))))
       <==> FirstNeverRecurs(p) || HasEmptyPlace(p)
  {
    if FirstNeverRecurs(p) || HasEmptyPlace(p) {
      forall history | Pressed(history) ensures Sends(p, history) <==> EndsWith(history, Steps(p)) {
        if HasEmptyPlace(p) {
          EmptyPlaceNeverEnds(p, history);
          if Sends(p, history) { SendsOnlyPattern(p, history); }
        } else {
          SendsExactly(p, history);
        }
      }
    } else {
      var k :| 1 <= k < p.numberOfMatches && p.buttons[k] == p.buttons[0];
      FalseStartMisses(p, k);
      assert Pressed(p.buttons[..k] + Steps(p));
    }
  }

  // ---------- Configuring a pattern ----------

  /** Buttons are numbered from one; zero is none. */
  type Button = b: nat | b <= 32

  function ButtonMask(button: Button): Mask {
    if button == 0 then 0 else 1 << (button - 1)
  }

  lemma {:induction false} ButtonMaskIsZero(button: Button)
    ensures ButtonMask(button) == 0 <==> button == 0
  {
    if 0 < button {
      var shift: bv6 := (button - 1) as bv6;
      assert shift < 32 ==> (1 as bv32) << shift != 0;
      assert (1 as bv32) << (button - 1) == (1 as bv32) << shift;
    }
  }

  /** Bit `n` of the inputs is down. */
  predicate Down(mask: Mask, n: nat)
    requires n < 32
  {
    mask & (1 << n) != 0
  }

  lemma {:induction false} ShiftAs(n: nat) returns (b: bv6)
    requires n < 32
    ensures b < 32 && b as int == n && (1 as bv32) << n == (1 as bv32) << b
  {
    b := n as bv6;
  }

  lemma {:induction false} SameBits(a: bv6, b: bv6)
    ensures a == b <==> a as int == b as int
  {
  }

  lemma {:induction false} OneBit(a: bv6, b: bv6)
    requires a < 32 && b < 32
    ensures (((1 as bv32) << a) & ((1 as bv32) << b) != 0) <==> a as int == b as int
  {
    SameBits(a, b);
    OneShift(a, b);
  }

  lemma {:induction false} OneShift(a: bv6, b: bv6)
    requires a < 32 && b < 32
    ensures (((1 as bv32) << a) & ((1 as bv32) << b) != 0) <==> a == b
  {
  }

  /** A button is one bit, the one before its number; no button is none. */
  lemma {:induction false} ButtonIsBit(button: Button, n: nat)
    requires n < 32
    ensures Down(ButtonMask(button), n) <==> button == n + 1
  {
    hide ButtonMask, Down;
    MaskOf(button);
    DownIs(ButtonMask(button), n);
    if button == 0 {
      NothingDown(1 << n);
    } else {
      BitsMeet(button - 1, n);
    }
  }

  lemma {:induction false} NothingDown(bit: Mask)
    ensures (0 as bv32) & bit == 0
  {
  }

  lemma {:induction false} BitsMeet(m: nat, n: nat)
    requires m < 32 && n < 32
    ensures (((1 as bv32) << m) & ((1 as bv32) << n) != 0) <==> m == n
  {
    var a := ShiftAs(m);
    var b := ShiftAs(n);
    OneBit(a, b);
  }

  lemma {:induction false} MaskOf(button: Button)
    ensures ButtonMask(button) == if button == 0 then 0 else 1 << (button - 1)
  {
  }

  lemma {:induction false} DownIs(mask: Mask, n: nat)
    requires n < 32
    ensures Down(mask, n) <==> mask & (1 << n) != 0
  {
  }

  /** The last of the first `upto` buttons given, counted from one; `otherwise` if none is. */
  function LastGiven(buttons: seq<Button>, upto: nat, otherwise: nat): (n: nat)
    requires upto <= |buttons|
    ensures (n == otherwise && forall j :: 0 <= j < upto ==> buttons[j] == 0)
         || (0 < n <= upto && buttons[n - 1] != 0 && forall j :: n <= j < upto ==> buttons[j] == 0)
  {
    if upto == 0 then otherwise
    else if buttons[upto - 1] != 0 then upto
    else LastGiven(buttons, upto - 1, otherwise)
  }

  function Extended(history: seq<seq<Mask>>, mask: Mask): seq<seq<Mask>> {
    seq(|history|, j requires 0 <= j < |history| => history[j] + [mask])
  }

  /** The masks of a pattern's buttons, and how many of them there are to match. */
  method ConvertButtons(buttons: seq<Button>, before: nat) returns (masks: seq<Mask>, count: nat)
    ensures |masks| == |buttons| && forall j :: 0 <= j < |buttons| ==> masks[j] == ButtonMask(buttons[j])
    ensures count == LastGiven(buttons, |buttons|, before)
  {
    hide ButtonMask;
    masks, count := [], before;
    var index := 0;
    while index < |buttons|
      invariant index <= |buttons| && |masks| == index
      invariant forall j :: 0 <= j < index ==> masks[j] == ButtonMask(buttons[j])
      invariant count == LastGiven(buttons, index, before)
    {
      ButtonMaskIsZero(buttons[index]);
      var pattern := ButtonMask(buttons[index]);
      masks := masks + [pattern];
      if masks[index] != 0 {
        count := index + 1;
      }
      index := index + 1;
    }
  }

  /** The matcher's share of the button handlers. `history` holds, for each slot, the presses since
      the slot was configured, and `starts` the progress it had then. */
  class Matcher {
    var patterns: seq<Pattern>
    const progress: array<nat>
    var sent: seq<nat>
    ghost var history: seq<seq<Mask>>
    ghost var starts: seq<nat>

    ghost predicate Valid()
      reads this, progress
    {
      && |patterns| == |history| == |starts| == progress.Length == NUM_BUTTON_MATCH_PATTERNS
      && forall j :: 0 <= j < |patterns| ==>
           && Shaped(patterns[j]) && starts[j] < NUM_BUTTONS_PER_MATCH_PATTERN
           && progress[j] == TrackFrom(patterns[j], starts[j], history[j])
    }

    constructor ()
      ensures Valid() && fresh(progress) && sent == []
      ensures forall j :: 0 <= j < |patterns| ==>
                patterns[j].event == B_INVALID && patterns[j].numberOfMatches == 0 && history[j] == [] && starts[j] == 0
    {
      patterns := seq(NUM_BUTTON_MATCH_PATTERNS, _ => Pattern(B_INVALID, 0, seq(NUM_BUTTONS_PER_MATCH_PATTERN, _ => 0)));
      progress := new nat[NUM_BUTTON_MATCH_PATTERNS](_ => 0);
      sent := [];
      history := seq(NUM_BUTTON_MATCH_PATTERNS, _ => []);
      starts := seq(NUM_BUTTON_MATCH_PATTERNS, _ => 0);
    }

    /** Configures an unused slot, from whatever progress it has: none, unless it was matched
        before under no event. The number of matches ends with the last button given; with none
        given it keeps its old value. */
    method AddPatternMapping(event: nat, buttons: seq<Button>, slot: nat)
      requires Valid() && slot < NUM_BUTTON_MATCH_PATTERNS
      requires |buttons| == NUM_BUTTONS_PER_MATCH_PATTERN
      modifies this
      ensures Valid() && sent == old(sent)
      ensures old(patterns[slot].event) != B_INVALID ==>
                patterns == old(patterns) && history == old(history) && starts == old(starts)
      ensures old(patterns[slot].event) == B_INVALID ==>
                && (forall j :: 0 <= j < |patterns| && j != slot ==>
                      patterns[j] == old(patterns[j]) && history[j] == old(history[j]) && starts[j] == old(starts[j]))
                && history[slot] == [] && starts[slot] == progress[slot]
                && patterns[slot].event == event
                && (forall j :: 0 <= j < |buttons| ==> patterns[slot].buttons[j] == ButtonMask(buttons[j]))
                && patterns[slot].numberOfMatches
                   == LastGiven(buttons, |buttons|, old(patterns[slot].numberOfMatches))
    {
      if patterns[slot].event == B_INVALID {
        var masks, count := ConvertButtons(buttons, patterns[slot].numberOfMatches);
        hide ButtonMask, LastGiven;
        patterns := patterns[slot := Pattern(event, count, masks)];
        history := history[slot := []];
        starts := starts[slot := progress[slot]];
      }
    }

    /** One press offered to one pattern. */
    method OfferPress(index: nat, mask: Mask)
      requires Valid() && index < NUM_BUTTON_MATCH_PATTERNS
      modifies this`sent, this`history, progress
      ensures Valid()
      ensures history == old(history[index := history[index] + [mask]])
      ensures sent == old(sent) + if SendsFrom(patterns[index], starts[index], history[index]) then [patterns[index].event] else []
    {
      hide SendsFrom, TrackFrom;
      TrackAppend(patterns[index], starts[index], history[index], mask);
      if patterns[index].buttons[progress[index]] == mask {
        progress[index] := progress[index] + 1;
        if progress[index] >= patterns[index].numberOfMatches {
          progress[index] := 0;
          sent := sent + [patterns[index].event];
        }
      } else {
        progress[index] := 0;
        if patterns[index].buttons[0] == mask {
          progress[index] := 1;
        }
      }
      history := history[index := history[index] + [mask]];
    }

    /** One press, offered to every pattern in turn. */
    method CheckForButtonPatternMatch(mask: Mask)
      requires Valid()
      modifies this`sent, this`history, progress
      ensures Valid()
      ensures history == Extended(old(history), mask)
      ensures sent == old(sent) + Sent(patterns, starts, history, |patterns|)
    {
      hide SendsFrom, TrackFrom, Shaped, Sent;
      var index := 0;
      SentNext(patterns, starts, history, 0);
      while index < NUM_BUTTON_MATCH_PATTERNS
        invariant index <= NUM_BUTTON_MATCH_PATTERNS
        invariant Valid()
        invariant forall j :: 0 <= j < index ==> history[j] == old(history)[j] + [mask]
        invariant forall j :: index <= j < |history| ==> history[j] == old(history)[j]
        invariant sent == old(sent) + Sent(patterns, starts, history, index)
      {
        ghost var before := history;
        OfferPress(index, mask);
        SentFrame(patterns, starts, before, history, index);
        SentNext(patterns, starts, history, index);
        index := index + 1;
      }
    }

    /** BMButtonDetected, as far as patterns go: only short and long presses count. */
    method ButtonDetected(mask: Mask, time: Time)
      requires Valid()
      modifies this`sent, this`history, progress
      ensures Valid()
      ensures time == Short || time == Long ==>
                && history == Extended(old(history), WithoutVreg(mask))
                && sent == old(sent) + Sent(patterns, starts, history, |patterns|)
      ensures time != Short && time != Long ==> history == old(history) && sent == old(sent)
    {
      if time == Short || time == Long {
        CheckForButtonPatternMatch(WithoutVreg(mask));
      }
    }
  }

  /** The regulator pin is ignored beside ordinary buttons. */
  function WithoutVreg(mask: Mask): Mask {
    if mask & 0xFFFF != 0 then mask & !VREG_PIN_MASK else mask
  }

  predicate AnyOfFirst16(mask: Mask) {
    exists i: nat :: i < 16 && Down(mask, i)
  }

  /** Of the inputs only the regulator pin, 24, is ever ignored, and only when one of the first 16 is
      down with it. */
  lemma {:induction false} OnlyVregIgnored(mask: Mask, n: nat)
    requires n < 32
    ensures Down(WithoutVreg(mask), n)
       <==> Down(mask, n) && !(n == 24 && AnyOfFirst16(mask))
  {
    LowHalf(mask);
    WithoutBit(mask, n);
    hide AnyOfFirst16, Down;
  }

  lemma {:induction false} WithoutBit(mask: Mask, n: nat)
    requires n < 32
    ensures Down(mask & !VREG_PIN_MASK, n) <==> Down(mask, n) && n != 24
  {
    var b := ShiftAs(n);
    ClearedBit(mask, b);
    SameBits(b, 24);
  }

  lemma {:induction false} ClearedBit(mask: Mask, b: bv6)
    requires b < 32
    ensures (mask & !VREG_PIN_MASK) & ((1 as bv32) << b) == if b == 24 then 0 else mask & ((1 as bv32) << b)
  {
  }

  lemma {:induction false} SomeBit(mask: Mask, bit: Mask)
    requires bit != 0 && bit & (bit - 1) == 0 && bit <= 0x8000 && mask & bit != 0
    ensures mask & 0xFFFF != 0
  {
  }

  lemma {:induction false} LowHalf(mask: Mask)
    ensures mask & 0xFFFF != 0 <==> AnyOfFirst16(mask)
  {
    if mask & 0xFFFF != 0 {
      assert mask & 0x0001 != 0 || mask & 0x0002 != 0 || mask & 0x0004 != 0 || mask & 0x0008 != 0
          || mask & 0x0010 != 0 || mask & 0x0020 != 0 || mask & 0x0040 != 0 || mask & 0x0080 != 0
          || mask & 0x0100 != 0 || mask & 0x0200 != 0 || mask & 0x0400 != 0 || mask & 0x0800 != 0
          || mask & 0x1000 != 0 || mask & 0x2000 != 0 || mask & 0x4000 != 0 || mask & 0x8000 != 0;
      assert Down(mask, 0) || Down(mask, 1) || Down(mask, 2) || Down(mask, 3)
          || Down(mask, 4) || Down(mask, 5) || Down(mask, 6) || Down(mask, 7)
          || Down(mask, 8) || Down(mask, 9) || Down(mask, 10) || Down(mask, 11)
          || Down(mask, 12) || Down(mask, 13) || Down(mask, 14) || Down(mask, 15);
    }
    forall i: nat | i < 16 && Down(mask, i) ensures mask & 0xFFFF != 0 {
      SomeLowBit(mask, i);
    }
  }

  lemma {:induction false} SomeLowBit(mask: Mask, i: nat)
    requires i < 16 && Down(mask, i)
    ensures mask & 0xFFFF != 0
  {
    var b := ShiftAs(i);
    LessBits(b);
    LowBit(b);
    SomeBit(mask, (1 as bv32) << b);
  }

  lemma {:induction false} LessBits(b: bv6)
    requires b as int < 16
    ensures b < 16
  {
  }

  lemma {:induction false} LowBit(b: bv6)
    requires b < 16
    ensures var bit := (1 as bv32) << b; bit != 0 && bit & (bit - 1) == 0 && bit <= 0x8000
  {
  }

  /** The events of the first `upto` slots whose last press completes their pattern, in slot order. */
  function Sent(patterns: seq<Pattern>, starts: seq<nat>, history: seq<seq<Mask>>, upto: nat): seq<nat>
    requires upto <= |patterns| == |starts| == |history|
    requires forall p <- patterns :: Shaped(p)
    requires forall j :: 0 <= j < |starts| ==> starts[j] < NUM_BUTTONS_PER_MATCH_PATTERN
  {
    if upto == 0 then []
    else
      Sent(patterns, starts, history, upto - 1)
      + if SendsFrom(patterns[upto - 1], starts[upto - 1], history[upto - 1]) then [patterns[upto - 1].event] else []
  }

  lemma {:induction false} SentNext(patterns: seq<Pattern>, starts: seq<nat>, history: seq<seq<Mask>>, upto: nat)
    requires upto < |patterns| == |starts| == |history|
    requires forall p <- patterns :: Shaped(p)
    requires forall j :: 0 <= j < |starts| ==> starts[j] < NUM_BUTTONS_PER_MATCH_PATTERN
    ensures Sent(patterns, starts, history, 0) == []
    ensures Sent(patterns, starts, history, upto + 1)
         == Sent(patterns, starts, history, upto)
            + if SendsFrom(patterns[upto], starts[upto], history[upto]) then [patterns[upto].event] else []
  {
    hide SendsFrom;
  }

  lemma {:induction false} SentFrame(
      patterns: seq<Pattern>, starts: seq<nat>, a: seq<seq<Mask>>, b: seq<seq<Mask>>, upto: nat)
    requires upto <= |patterns| == |starts| == |a| == |b|
    requires forall p <- patterns :: Shaped(p)
    requires forall j :: 0 <= j < |starts| ==> starts[j] < NUM_BUTTONS_PER_MATCH_PATTERN
    requires forall j :: 0 <= j < upto ==> a[j] == b[j]
    ensures Sent(patterns, starts, a, upto) == Sent(patterns, starts, b, upto)
  {
    if upto > 0 {
      SentFrame(patterns, starts, a, b, upto - 1);
    }
  }
}
