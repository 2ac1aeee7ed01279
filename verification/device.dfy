/** The whole input pipeline of the response box (src/main.c): timer ticks
    and main-loop report steps, interleaved in any order, each one atomic.
    The lemmas here follow the globals along such runs: what every
    reachable state satisfies, what the filter windows remember, how fast
    a press or a release reaches `lastEvent`, and what the host is sent. */
module Device {
  import opened Debounce
  import opened Timer
  import opened Report

  /** Everything the firmware keeps between events: the shared globals and
      the gamepad report local to `main`. */
  datatype Device = Device(state: State, report: GamepadReport)

  /** The device after start-up: zeroed globals, zeroed report. */
  const PowerUp: Device := Device(Start, Neutral)

  /** One atomic event: a timer tick with the input levels it reads, or one
      iteration of the main loop with the USB stack's answers. */
  datatype Event = TimerTick(levels: Levels) | MainLoop(bus: Bus)

  function Step(d: Device, e: Event): Device
  {
    match e
    case TimerTick(levels) => d.(state := Tick(d.state, levels).state)
    case MainLoop(bus) =>
      var r := LoopStep(d.state, d.report, bus);
      Device(r.state, r.report)
  }

  /** The device after a sequence of events, oldest first. */
  function Run(d: Device, events: seq<Event>): Device
  {
    if events == [] then d else Step(Run(d, events[..|events| - 1]), events[|events| - 1])
  }

  /** The input levels of the timer ticks among `events`, oldest first. */
  function Ticks(events: seq<Event>): (t: seq<Levels>)
    ensures |t| <= |events|
  {
    if events == [] then []
    else
      var last := events[|events| - 1];
      Ticks(events[..|events| - 1]) + (if last.TimerTick? then [last.levels] else [])
  }

  /** Channel k was active (its input read low) in the i-th most recent
      tick, counting from 0. */
  predicate ActiveAgo(events: seq<Event>, k: nat, i: nat)
    requires k < Channels && i < |Ticks(events)|
  {
    !Ticks(events)[|Ticks(events)| - 1 - i][k]
  }

  /** What holds between any two events, from power-up on: every sample
      byte has bit 0 clear, every window is below 32, bit k of the debounced
      byte is the classification of channel k's window, `lastEvent` is the
      debounced byte of the latest tick, and the report differs from the
      zero report in its buttons at most. */
  predicate Consistent(d: Device)
  {
    && (forall k :: 0 <= k < Channels ==> !Bit(d.state.dataIn[k], 0))
    && (forall k :: 0 <= k < Channels ==>
          d.state.window[k] < 32 && Bit(d.state.newEvent, k) == Classify(d.state.window[k]))
    && d.state.lastEvent == d.state.newEvent
    && d.report == Neutral.(buttons := d.report.buttons)
  }

  lemma PowerUpConsistent()
    ensures Consistent(PowerUp)
  {
    assert !Classify(0);
  }

  /** Every event keeps the device consistent. */
  lemma {:induction false} StepConsistent(d: Device, e: Event)
    requires Consistent(d)
    ensures Consistent(Step(d, e))
  {
    if e.TimerTick? {
      forall k | 0 <= k < Channels
        ensures !Bit(Step(d, e).state.dataIn[k], 0)
        ensures Step(d, e).state.window[k] < 32
        ensures Bit(Step(d, e).state.newEvent, k) == Classify(Step(d, e).state.window[k])
      {
        TickClearsSampleBit(d.state, e.levels, k);
        TickDebounced(d.state, e.levels, k);
      }
      TickDetectsChange(d.state, e.levels);
    }
  }

  /** Every state reachable from power-up is consistent. */
  lemma {:induction false} ReachableConsistent(d: Device, events: seq<Event>)
    requires Consistent(d)
    ensures Consistent(Run(d, events))
  {
    if events != [] {
      ReachableConsistent(d, events[..|events| - 1]);
      StepConsistent(Run(d, events[..|events| - 1]), events[|events| - 1]);
    }
  }

  /** Who moves the flag: only a tick that changes `lastEvent` raises it,
      and only a loop step that sends a report lowers it. */
  lemma {:induction false} FlagDiscipline(d: Device, e: Event)
    ensures !d.state.eventAvailable && Step(d, e).state.eventAvailable ==>
      e.TimerTick? && Step(d, e).state.lastEvent != d.state.lastEvent
    ensures d.state.eventAvailable && !Step(d, e).state.eventAvailable ==>
      e.MainLoop? && LoopStep(d.state, d.report, e.bus).effect.SendGamepad?
  {
    if e.TimerTick? {
      TickDetectsChange(d.state, e.levels);
    }
  }

  /** What the host receives: from a consistent device, a sent report is the
      zero report with the buttons set to the debounced byte of the latest
      tick, so button bit k is the current classification of channel k. */
  lemma {:induction false} ReportCarriesDebouncedState(d: Device, bus: Bus)
    requires Consistent(d)
    requires LoopStep(d.state, d.report, bus).effect.SendGamepad?
    ensures LoopStep(d.state, d.report, bus).effect.report == Neutral.(buttons := Buttons(d.state.newEvent))
    ensures forall k :: 0 <= k < Channels ==>
      d.state.window[k] < 32 &&
      (Bit32(LoopStep(d.state, d.report, bus).effect.report.buttons, k) <==> Classify(d.state.window[k]))
  {
    ButtonBits(d.state.newEvent);
  }

  /** Bit i of a window that has followed `events` from the device `d`:
      channel k's sample of the i-th most recent tick of the run, or, for
      ticks before the run, the bit the window started with. */
  predicate Remembered(d: Device, events: seq<Event>, k: nat, i: nat)
    requires k < Channels && i < WindowWidth
  {
    if i < |Ticks(events)| then ActiveAgo(events, k, i) else Bit(d.state.window[k], i - |Ticks(events)|)
  }

  /** The window remembers the samples: after any events from a consistent
      device, bit i of channel k's window is channel k's sample of the i-th
      most recent tick, or, for ticks before the run, the window's bit from
      before. Main-loop steps leave the windows alone. */
  lemma {:induction false} WindowHistory(d: Device, events: seq<Event>, k: nat)
    requires Consistent(d) && k < Channels
    ensures forall i :: 0 <= i < WindowWidth ==> Bit(Run(d, events).state.window[k], i) == Remembered(d, events, k, i)
  {
    if events != [] {
      var prefix := events[..|events| - 1];
      var e := events[|events| - 1];
      WindowHistory(d, prefix, k);
      ReachableConsistent(d, prefix);
      assert Run(d, events) == Step(Run(d, prefix), e);
      if e.TimerTick? {
        HistoryTick(d, prefix, e.levels, events, k);
      } else {
        HistoryLoop(d, prefix, e.bus, events, k);
      }
    }
  }

  /** A tick shifts the newest sample into the remembered history. */
  lemma {:induction false} HistoryTick(d: Device, prefix: seq<Event>, levels: Levels, events: seq<Event>, k: nat)
    requires k < Channels && events == prefix + [TimerTick(levels)]
    requires !Bit(Run(d, prefix).state.dataIn[k], 0)
    requires forall i :: 0 <= i < WindowWidth ==> Bit(Run(d, prefix).state.window[k], i) == Remembered(d, prefix, k, i)
    ensures forall i :: 0 <= i < WindowWidth ==>
      Bit(Tick(Run(d, prefix).state, levels).state.window[k], i) == Remembered(d, events, k, i)
  {
    assert events[..|events| - 1] == prefix;
    assert Ticks(events) == Ticks(prefix) + [levels];
    var s := Run(d, prefix).state;
    TickWindow(s, levels, k);
    var w := Tick(s, levels).state.window[k];
    forall i | 0 <= i < WindowWidth
      ensures Bit(w, i) == Remembered(d, events, k, i)
    {
      if i == 0 {
        assert ActiveAgo(events, k, 0) == !levels[k];
      } else {
        RememberedShift(d, prefix, levels, events, k, i);
      }
    }
  }

  /** Appending a tick moves every remembered sample one place back. */
  lemma {:induction false} RememberedShift(d: Device, prefix: seq<Event>, levels: Levels, events: seq<Event>, k: nat, i: nat)
    requires k < Channels && 1 <= i < WindowWidth
    requires Ticks(events) == Ticks(prefix) + [levels]
    ensures Remembered(d, events, k, i) == Remembered(d, prefix, k, i - 1)
  {
  }

  /** A main-loop step neither moves the windows nor adds a sample. */
  lemma {:induction false} HistoryLoop(d: Device, prefix: seq<Event>, bus: Bus, events: seq<Event>, k: nat)
    requires k < Channels && events == prefix + [MainLoop(bus)]
    ensures forall i :: 0 <= i < WindowWidth ==> Remembered(d, events, k, i) == Remembered(d, prefix, k, i)
  {
    assert events[..|events| - 1] == prefix;
    assert Ticks(events) == Ticks(prefix);
  }

  /** The debounced bit of a channel depends on nothing but that channel's
      four most recent samples: not on older samples, not on the other
      channels, not on the main loop. */
  lemma {:induction false} LastFourSamplesDecide(d1: Device, events1: seq<Event>, d2: Device, events2: seq<Event>, k: nat)
    requires Consistent(d1) && Consistent(d2) && k < Channels
    requires |Ticks(events1)| >= 4 && |Ticks(events2)| >= 4
    requires forall i :: 0 <= i < 4 ==> ActiveAgo(events1, k, i) == ActiveAgo(events2, k, i)
    ensures Bit(Run(d1, events1).state.lastEvent, k) == Bit(Run(d2, events2).state.lastEvent, k)
  {
    WindowHistory(d1, events1, k);
    WindowHistory(d2, events2, k);
    ReachableConsistent(d1, events1);
    ReachableConsistent(d2, events2);
    FourNewestDecide(Run(d1, events1).state.window[k], Run(d2, events2).state.window[k]);
  }

  /** Latency of a press: two consecutive active samples set the channel's
      bit of `lastEvent`, whatever came before. */
  lemma {:induction false} TwoActiveTicksPress(d: Device, events: seq<Event>, k: nat)
    requires Consistent(d) && k < Channels
    requires |Ticks(events)| >= 2 && ActiveAgo(events, k, 0) && ActiveAgo(events, k, 1)
    ensures Bit(Run(d, events).state.lastEvent, k)
  {
    WindowHistory(d, events, k);
    ReachableConsistent(d, events);
    ClassifyIsTwoOfFour(Run(d, events).state.window[k]);
  }

  /** Latency of a release: three consecutive inactive samples clear the
      channel's bit of `lastEvent`, whatever came before. */
  lemma {:induction false} ThreeInactiveTicksRelease(d: Device, events: seq<Event>, k: nat)
    requires Consistent(d) && k < Channels
    requires |Ticks(events)| >= 3
    requires !ActiveAgo(events, k, 0) && !ActiveAgo(events, k, 1) && !ActiveAgo(events, k, 2)
    ensures !Bit(Run(d, events).state.lastEvent, k)
  {
    WindowHistory(d, events, k);
    ReachableConsistent(d, events);
    ClassifyIsTwoOfFour(Run(d, events).state.window[k]);
  }

  /** Glitch rejection along a run: after three agreeing samples, one
      contrary sample does not change the channel's bit. */
  lemma {:induction false} SingleGlitchIgnored(d: Device, events: seq<Event>, k: nat)
    requires Consistent(d) && k < Channels
    requires |Ticks(events)| >= 4
    requires ActiveAgo(events, k, 1) == ActiveAgo(events, k, 2) == ActiveAgo(events, k, 3)
    requires ActiveAgo(events, k, 0) != ActiveAgo(events, k, 1)
    ensures Bit(Run(d, events).state.lastEvent, k) == ActiveAgo(events, k, 1)
  {
    WindowHistory(d, events, k);
    ReachableConsistent(d, events);
    ClassifyIsTwoOfFour(Run(d, events).state.window[k]);
  }

  /** Input levels with only channel 0 pressed, and with nothing pressed. */
  const Channel0Pressed: Levels := [false, true, true, true, true, true, true, true]
  const NonePressed: Levels := [true, true, true, true, true, true, true, true]

  /** From power-up, a channel held pressed stays released for the first
      tick (window 00001) and reads pressed from the second tick on
      (window 00011): the filter delay is one extra sample period. */
  lemma {:induction false} PressFromPowerUp(events: seq<Event>, k: nat)
    requires k < Channels && |Ticks(events)| >= 1
    requires forall i :: 0 <= i < |Ticks(events)| ==> ActiveAgo(events, k, i)
    ensures Bit(Run(PowerUp, events).state.lastEvent, k) <==> |Ticks(events)| >= 2
  {
    PowerUpConsistent();
    WindowHistory(PowerUp, events, k);
    ReachableConsistent(PowerUp, events);
    ClassifyIsTwoOfFour(Run(PowerUp, events).state.window[k]);
  }

  /** The events of a stretch of ticks with no main-loop step between them. */
  function TicksOnly(ls: seq<Levels>): (events: seq<Event>)
    ensures |events| == |ls|
    ensures forall i :: 0 <= i < |ls| ==> events[i] == TimerTick(ls[i])
  {
    seq(|ls|, i requires 0 <= i < |ls| => TimerTick(ls[i]))
  }

  lemma {:induction false} TicksOfTicksOnly(ls: seq<Levels>)
    ensures Ticks(TicksOnly(ls)) == ls
  {
    if ls != [] {
      TicksOfTicksOnly(ls[..|ls| - 1]);
      assert TicksOnly(ls)[..|ls| - 1] == TicksOnly(ls[..|ls| - 1]);
    }
  }

  /** Ticks alone never lower the flag, and a stretch of ticks that ends
      with a different `lastEvent` than it started with leaves it up. */
  lemma {:induction false} TicksRaiseFlag(d: Device, ls: seq<Levels>)
    ensures d.state.eventAvailable ==> Run(d, TicksOnly(ls)).state.eventAvailable
    ensures Run(d, TicksOnly(ls)).state.lastEvent != d.state.lastEvent ==> Run(d, TicksOnly(ls)).state.eventAvailable
  {
    if ls != [] {
      var prefix := ls[..|ls| - 1];
      TicksRaiseFlag(d, prefix);
      assert TicksOnly(ls)[..|ls| - 1] == TicksOnly(prefix);
      TickDetectsChange(Run(d, TicksOnly(prefix)).state, ls[|ls| - 1]);
    }
  }

  /** There is no back-pressure: a change still waiting for the host is
      overwritten by the next one. From a consistent device with nothing
      pressed, a stretch of ticks ending in two pressed samples on channel k
      raises the flag with bit k of `lastEvent` set; three or more ticks
      with every input released then bring `lastEvent` back to 0 while the
      flag stays up, and the report finally sent carries no pressed button:
      the press never reaches the host. */
  lemma {:induction false} PressOverwrittenBeforeReport(d: Device, press: seq<Levels>, release: seq<Levels>, k: nat)
    requires Consistent(d) && d.state.lastEvent == 0 && k < Channels
    requires |press| >= 2 && !press[|press| - 1][k] && !press[|press| - 2][k]
    requires |release| >= 3 && forall i :: 0 <= i < |release| ==> release[i] == NonePressed
    ensures Run(d, TicksOnly(press)).state.eventAvailable
    ensures Bit(Run(d, TicksOnly(press)).state.lastEvent, k)
    ensures Run(d, TicksOnly(press + release)).state.eventAvailable
    ensures Run(d, TicksOnly(press + release)).state.lastEvent == 0
    ensures LoopStep(Run(d, TicksOnly(press + release)).state, Run(d, TicksOnly(press + release)).report,
      Bus(false, true)).effect == SendGamepad(Neutral)
  {
    PressRaisesFlag(d, press, k);
    ReachableConsistent(d, TicksOnly(press));
    ReleaseOverwrites(Run(d, TicksOnly(press)), release);
    RunTicksAppend(d, press, release);
  }

  /** Two pressed samples on channel k, after a `lastEvent` of 0, set bit k
      of `lastEvent` and raise the flag. */
  lemma {:induction false} PressRaisesFlag(d: Device, press: seq<Levels>, k: nat)
    requires Consistent(d) && d.state.lastEvent == 0 && k < Channels
    requires |press| >= 2 && !press[|press| - 1][k] && !press[|press| - 2][k]
    ensures Run(d, TicksOnly(press)).state.eventAvailable
    ensures Bit(Run(d, TicksOnly(press)).state.lastEvent, k)
  {
    TicksOfTicksOnly(press);
    TwoActiveTicksPress(d, TicksOnly(press), k);
    TicksRaiseFlag(d, press);
  }

  /** Three or more ticks with every input released clear channel k's bit
      of `lastEvent`. */
  lemma {:induction false} ReleaseClearsChannel(d: Device, release: seq<Levels>, k: nat)
    requires Consistent(d) && k < Channels
    requires |release| >= 3 && forall i :: 0 <= i < |release| ==> release[i] == NonePressed
    ensures !Bit(Run(d, TicksOnly(release)).state.lastEvent, k)
  {
    TicksOfTicksOnly(release);
    var n := |release|;
    assert release[n - 1] == release[n - 2] == release[n - 3] == NonePressed;
    assert NonePressed[k];
    ThreeInactiveTicksRelease(d, TicksOnly(release), k);
  }

  /** Three or more ticks with every input released bring every bit of
      `lastEvent` to 0. */
  lemma {:induction false} ReleaseClearsEvent(d: Device, release: seq<Levels>)
    requires Consistent(d)
    requires |release| >= 3 && forall i :: 0 <= i < |release| ==> release[i] == NonePressed
    ensures Run(d, TicksOnly(release)).state.lastEvent == 0
  {
    var last := Run(d, TicksOnly(release)).state.lastEvent;
    forall j | 0 <= j < Channels
      ensures !Bit(last, j)
    {
      ReleaseClearsChannel(d, release, j);
    }
    BitsDetermineByte(last, 0);
  }

  /** Three or more ticks with every input released, while a change is
      pending: `lastEvent` becomes 0, the flag stays up, and a ready bus
      is sent the zero report. */
  lemma {:induction false} ReleaseOverwrites(d: Device, release: seq<Levels>)
    requires Consistent(d) && d.state.eventAvailable
    requires |release| >= 3 && forall i :: 0 <= i < |release| ==> release[i] == NonePressed
    ensures Run(d, TicksOnly(release)).state.eventAvailable
    ensures Run(d, TicksOnly(release)).state.lastEvent == 0
    ensures LoopStep(Run(d, TicksOnly(release)).state, Run(d, TicksOnly(release)).report,
      Bus(false, true)).effect == SendGamepad(Neutral)
  {
    ReleaseClearsEvent(d, release);
    TicksRaiseFlag(d, release);
    ReachableConsistent(d, TicksOnly(release));
    assert Buttons(0) == 0;
  }

  /** Running two stretches of ticks one after the other. */
  lemma {:induction false} RunTicksAppend(d: Device, ls1: seq<Levels>, ls2: seq<Levels>)
    ensures Run(d, TicksOnly(ls1 + ls2)) == Run(Run(d, TicksOnly(ls1)), TicksOnly(ls2))
  {
    assert TicksOnly(ls1 + ls2) == TicksOnly(ls1) + TicksOnly(ls2);
    RunAppend(d, TicksOnly(ls1), TicksOnly(ls2));
  }

  /** Running two event sequences one after the other. */
  lemma {:induction false} RunAppend(d: Device, e1: seq<Event>, e2: seq<Event>)
    ensures Run(d, e1 + e2) == Run(Run(d, e1), e2)
  {
    if e2 != [] {
      assert (e1 + e2)[..|e1 + e2| - 1] == e1 + e2[..|e2| - 1];
      RunAppend(d, e1, e2[..|e2| - 1]);
    } else {
      assert e1 + e2 == e1;
    }
  }
}
