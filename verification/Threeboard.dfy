// The main loop: timer interrupts scan the panel and sample the keys, the event loop hands chords to
// the layers. Under any interleaving, and whatever the external EEPROMs and the USB port do, the board is
// on account with its step function for the chords that the loop was in time for.
module ThreeboardMain {
  import opened Types
  import opened Layout
  import opened Devices
  import opened Leds
  import opened LedScan
  import opened ChordStream
  import opened EventLoop
  import opened Keycodes
  import opened Manual
  import opened Reference
  import opened Layers
  import opened PanelReadback
  import PropertyTest

  // An interrupt: timer 1 scans the next row of the panel, timer 3 polls the keys and moves the blink
  // phase on, and start-of-frame interrupts send idle reports.
  datatype Interruption = Timer1 | Timer3(pinb: bv8) | Frames(reports: nat)

  // One thing the MCU does: an interrupt, or an iteration of the event loop with the interrupts that
  // hit it after it has looked at the buffer.
  datatype Action = Interrupt(interruption: Interruption) | Iteration(during: seq<Interruption>)

  function SampleOf(t: Interruption): seq<set<Key>> {
    if t.Timer3? then [Pressed(t.pinb)] else []
  }

  // The samples that some interrupts take, in order.
  function SamplesIn(hits: seq<Interruption>): seq<set<Key>> {
    if hits == [] then []
    else var n := |hits| - 1; SamplesIn(hits[..n]) + SampleOf(hits[n])
  }

  function InterruptsOf(action: Action): seq<Interruption> {
    match action
    case Interrupt(t) => [t]
    case Iteration(during) => during
  }

  // The samples of a schedule, in order.
  function SamplesOf(schedule: seq<Action>): seq<set<Key>> {
    if schedule == [] then []
    else var n := |schedule| - 1; SamplesOf(schedule[..n]) + SamplesIn(InterruptsOf(schedule[n]))
  }

  // The chord that arrives at the buffer with an interrupt, if that closes a block.
  function Arrival(before: seq<set<Key>>, t: Interruption): seq<Happening> {
    if t.Timer3? && Pressed(t.pinb) == {} && Open(before) != [] then [Chord(Named(Union(Open(before))))] else []
  }

  // The chords that arrive during some interrupts.
  function Arrivals(before: seq<set<Key>>, hits: seq<Interruption>): seq<Happening> {
    if hits == [] then []
    else
      var n := |hits| - 1;
      Arrivals(before, hits[..n]) + Arrival(before + SamplesIn(hits[..n]), hits[n])
  }

  lemma OneMoreInterrupt(before: seq<set<Key>>, trace: seq<Happening>, hits: seq<Interruption>, i: nat)
    requires i < |hits|
    ensures var sampled := before + SamplesIn(hits[..i]);
            && sampled + SampleOf(hits[i]) == before + SamplesIn(hits[..i + 1])
            && trace + Arrivals(before, hits[..i]) + Arrival(sampled, hits[i]) ==
                 trace + Arrivals(before, hits[..i + 1])
  {
    assert hits[..i + 1][..i] == hits[..i];
  }

  // What one action makes happen at the buffer. An iteration looks before its interrupts hit.
  function HappeningsIn(before: seq<set<Key>>, action: Action): seq<Happening> {
    match action
    case Interrupt(t) => Arrivals(before, [t])
    case Iteration(during) => [Poll] + Arrivals(before, during)
  }

  // Everything that happens at the buffer under a schedule.
  function TraceOf(schedule: seq<Action>): seq<Happening> {
    if schedule == [] then []
    else
      var n := |schedule| - 1;
      TraceOf(schedule[..n]) + HappeningsIn(SamplesOf(schedule[..n]), schedule[n])
  }

  // The event that was waiting, if any, has been handled.
  ghost predicate Handled(has: bool, keypress: Keypress, before: Observation, after: Observation, status: bool) {
    if has then StepAllowed(before, after, keypress, status) else status && after == before
  }

  // What one action does, with the strokes that were typed and what the panel shows then.
  ghost predicate Reported(a: Observation, b: Observation, has: bool, key: Keypress, status: bool, strokes: seq<Stroke>,
                           panel: Panel)
  {
    && Handled(has, key, a, b, status) && a.internalReliable && a.coherent
    && (a.allReliable ==> a.bus.left.Quiet()) && (b.allReliable ==> b.bus.left.Quiet())
    && (has ==> strokes == b.typed[|a.typed|..]) && (Visible(b.model) ==> panel == Show(b.model))
  }

  // An account with one more event, if there is one.
  function Grown<T>(s: seq<T>, has: bool, t: T): seq<T> { if has then s + [t] else s }

  // The events consumed so far are the first of those heard in all, and they are accounted for.
  ghost predicate GoingAt(f: Fit, heard: seq<Keypress>, kept: seq<bool>, buses: seq<Bus>, panels: seq<Panel>,
                          typed: seq<seq<Stroke>>, reliable: bool, consumed: seq<Keypress>, obs: Observation)
  {
    && |kept| <= |heard| && consumed == heard[..|kept|]
    && PropertyTest.AccountedAt(f, heard, kept, buses, panels, typed, reliable, obs)
  }

  lemma GoesOn(f: Fit, heard: seq<Keypress>, kept: seq<bool>, buses: seq<Bus>, panels: seq<Panel>,
               typed: seq<seq<Stroke>>, reliable: bool, consumed: seq<Keypress>, a: Observation, b: Observation,
               has: bool, key: Keypress, status: bool, strokes: seq<Stroke>, panel: Panel)
    returns (kept': seq<bool>, buses': seq<Bus>)
    requires GoingAt(f, heard, kept, buses, panels, typed, reliable, consumed, a)
    requires Reported(a, b, has, key, status, strokes, panel) && consumed + (if has then [key] else []) <= heard
    ensures GoingAt(f, heard, kept', buses', Grown(panels, has, panel), Grown(typed, has, strokes), reliable,
                    consumed + (if has then [key] else []), b)
  {
    kept', buses' := kept, buses;
    ConsumedNext(heard, |kept|, has, key);
    if has {
      PropertyTest.AllowedPlaysOn(f, heard, kept, buses, panels, typed, reliable, a, b, status, panel);
      kept', buses' := kept + [PropertyTest.Took(a, b, key)], PropertyTest.Further(buses, |kept|, a, b, key);
    }
  }

  class Threeboard {
    const keys: KeyController
    const buffer: EventBuffer
    const board: LayerController
    const leds: LedController

    constructor (board: LayerController)
      requires board.Running()
      ensures Valid() && this.board == board && keys.samples == [] && buffer.trace == []
      ensures fresh(keys) && fresh(buffer) && fresh(leds) && fresh(leds.pins) && fresh(leds.pins.simulator)
    {
      this.board := board;
      var slot := new EventBuffer();
      buffer := slot;
      keys := new KeyController(slot);
      var simulator := new Simulator();
      var pins := new Pins(simulator);
      leds := new LedController(pins, board.led);
    }

    ghost function Objects(): set<object> {
      {keys, buffer, leds, leds.pins, leds.pins.simulator, board} + board.Objects()
    }

    ghost predicate KeysValid()
      reads keys, keys.buffer
    {
      keys.buffer == buffer && keys.Valid()
    }

    ghost predicate BoardValid()
      reads leds, leds.pins, leds.pins.simulator, board, board.dflt, board.r, board.g, board.b,
            board.led, board.usb, board.storage, board.storage.internal, board.storage.internal.cells,
            board.storage.ext0, board.storage.ext0.cells, board.storage.ext1, board.storage.ext1.cells,
            board.storage.wire
    {
      board.Running() && leds.Valid() && leds.state == board.led
    }

    ghost predicate Valid()
      reads keys, keys.buffer
      reads leds, leds.pins, leds.pins.simulator, board, board.dflt, board.r, board.g, board.b,
            board.led, board.usb, board.storage, board.storage.internal, board.storage.internal.cells,
            board.storage.ext0, board.storage.ext0.cells, board.storage.ext1, board.storage.ext1.cells,
            board.storage.wire
    {
      KeysValid() && BoardValid()
    }

    // An interrupt changes nothing that the layers can see.
    method HandleTimer1Interrupt()
      requires BoardValid()
      modifies leds`nextScanLine, leds.pins, leds.pins.simulator, board.led
      ensures BoardValid() && board.Observe() == old(board.Observe())
    {
      Scan(board, leds);
    }

    method HandleTimer3Interrupt(pinb: bv8)
      requires Valid()
      modifies keys, buffer, leds`blinkStatus
      ensures KeysValid() && keys.samples == old(keys.samples) + [Pressed(pinb)]
      ensures buffer.consumed == old(buffer.consumed)
      ensures buffer.trace == old(buffer.trace) + Arrival(old(keys.samples), Timer3(pinb))
      ensures BoardValid() && board.Observe() == old(board.Observe())
      ensures leds.blinkStatus == BlinkStep(old(leds.blinkStatus))
    {
      PollKeys(pinb);
      UpdateBlink();
    }

    method PollKeys(pinb: bv8)
      requires KeysValid()
      modifies keys, buffer
      ensures KeysValid() && keys.samples == old(keys.samples) + [Pressed(pinb)]
      ensures buffer.consumed == old(buffer.consumed)
      ensures buffer.trace == old(buffer.trace) + Arrival(old(keys.samples), Timer3(pinb))
    {
      keys.PollKeyState(pinb);
    }

    method UpdateBlink()
      requires BoardValid()
      modifies leds`blinkStatus
      ensures BoardValid() && board.Observe() == old(board.Observe())
      ensures leds.blinkStatus == BlinkStep(old(leds.blinkStatus))
    {
      leds.UpdateBlinkStatus();
    }

    // The reports that go out while an event is being handled are the port's.
    method HandleFrames(reports: nat)
      requires BoardValid()
      modifies board.usb`log
      ensures BoardValid() && board.Observe() == old(board.Observe())
    {
      PropertyTest.IdleFirst(board, reports);
    }

    method HandleInterrupt(t: Interruption)
      requires Valid()
      modifies keys, buffer, leds, leds.pins, leds.pins.simulator, board.led, board.usb`log
      ensures KeysValid() && keys.samples == old(keys.samples) + SampleOf(t)
      ensures buffer.consumed == old(buffer.consumed)
      ensures buffer.trace == old(buffer.trace) + Arrival(old(keys.samples), t)
      ensures BoardValid() && board.Observe() == old(board.Observe())
    {
      match t {
        case Timer1 => HandleTimer1Interrupt();
        case Timer3(pinb) => HandleTimer3Interrupt(pinb);
        case Frames(reports) => HandleFrames(reports);
      }
    }

    // Some interrupts have been handled since the key controller and the buffer were like this.
    ghost predicate Polled(consumed: seq<Keypress>, samples: seq<set<Key>>, trace: seq<Happening>,
                           hits: seq<Interruption>)
      reads keys, keys.buffer, buffer
    {
      && KeysValid() && buffer.consumed == consumed
      && keys.samples == samples + SamplesIn(hits) && buffer.trace == trace + Arrivals(samples, hits)
    }

    ghost predicate Undisturbed(seen: Observation)
      reads leds, leds.pins, leds.pins.simulator, board, board.dflt, board.r, board.g, board.b,
            board.led, board.usb, board.storage, board.storage.internal, board.storage.internal.cells,
            board.storage.ext0, board.storage.ext0.cells, board.storage.ext1, board.storage.ext1.cells,
            board.storage.wire
    {
      BoardValid() && board.Observe() == seen
    }

    method OneInterrupt(ghost seen: Observation, ghost consumed: seq<Keypress>, ghost samples: seq<set<Key>>,
                        ghost trace: seq<Happening>, hits: seq<Interruption>, i: nat)
      requires i < |hits| && Polled(consumed, samples, trace, hits[..i]) && Undisturbed(seen)
      modifies keys, buffer, leds, leds.pins, leds.pins.simulator, board.led, board.usb`log
      ensures Polled(consumed, samples, trace, hits[..i + 1]) && Undisturbed(seen)
    {
      OneMoreInterrupt(samples, trace, hits, i);
      HandleInterrupt(hits[i]);
    }

    method Interrupts(hits: seq<Interruption>)
      requires Valid()
      modifies keys, buffer, leds, leds.pins, leds.pins.simulator, board.led, board.usb`log
      ensures Polled(old(buffer.consumed), old(keys.samples), old(buffer.trace), hits)
      ensures Undisturbed(old(board.Observe()))
    {
      ghost var seen, consumed, samples, trace := board.Observe(), buffer.consumed, keys.samples, buffer.trace;
      assert samples + [] == samples && trace + [] == trace;
      var i := 0;
      while i < |hits|
        invariant 0 <= i <= |hits| && Polled(consumed, samples, trace, hits[..i]) && Undisturbed(seen)
      {
        OneInterrupt(seen, consumed, samples, trace, hits, i);
        i := i + 1;
      }
      assert hits[..i] == hits;
    }

    // A failed event makes the ERR LED pulse.
    method HandleEvent(keypress: Keypress) returns (status: bool)
      requires BoardValid()
      modifies board, board.Objects()
      ensures BoardValid() && StepAllowed(old(board.Observe()), board.Observe(), keypress, status)
      ensures !status ==> board.led.err == Set(PULSE)
    {
      status := HandleOnBoard(keypress);
      if !status {
        PulseErr();
      }
    }

    method HandleOnBoard(keypress: Keypress) returns (status: bool)
      requires BoardValid()
      modifies board, board.Objects()
      ensures BoardValid() && StepAllowed(old(board.Observe()), board.Observe(), keypress, status)
    {
      status := board.HandleEvent(keypress);
    }

    method PulseErr()
      requires BoardValid()
      modifies board.led`err
      ensures board.led.err == Set(PULSE) && BoardValid() && board.Observe() == old(board.Observe())
    {
      board.led.err := Set(PULSE);
    }

    // The atomic look at the buffer.
    method Look() returns (has: bool, keypress: Keypress)
      requires Valid()
      modifies buffer
      ensures Valid() && board.Observe() == old(board.Observe())
      ensures buffer.trace == old(buffer.trace) + [Poll]
      ensures has == old(buffer.hasKeypress) && (has ==> keypress == old(buffer.event))
      ensures buffer.consumed == old(buffer.consumed) + (if has then [keypress] else [])
    {
      has, keypress := buffer.TakeEvent();
      assert buffer.trace[..|buffer.trace| - 1] == old(buffer.trace);
    }

    method HandleIfAny(has: bool, keypress: Keypress) returns (status: bool)
      requires BoardValid()
      modifies board, board.Objects()
      ensures BoardValid() && Handled(has, keypress, old(board.Observe()), board.Observe(), status)
    {
      status := true;
      if has {
        status := HandleEvent(keypress);
      }
    }

    method HandleFirst(has: bool, keypress: Keypress) returns (status: bool)
      requires Valid()
      modifies board, board.Objects()
      ensures KeysValid() && unchanged(keys) && unchanged(buffer)
      ensures BoardValid() && Handled(has, keypress, old(board.Observe()), board.Observe(), status)
    {
      assert keys !in board.Objects() + {board} && buffer !in board.Objects() + {board};
      status := HandleIfAny(has, keypress);
    }

    // Handling touches neither the key controller nor the buffer, so interrupts that hit meanwhile
    // may as well come right after it.
    method Finish(has: bool, keypress: Keypress, during: seq<Interruption>) returns (status: bool)
      requires Valid()
      modifies Objects()
      ensures BoardValid() && Handled(has, keypress, old(board.Observe()), board.Observe(), status)
      ensures Polled(old(buffer.consumed), old(keys.samples), old(buffer.trace), during)
    {
      status := HandleFirst(has, keypress);
      Interrupts(during);
    }

    method RunEventLoopIteration(during: seq<Interruption>) returns (status: bool)
      requires Valid()
      modifies Objects()
      ensures Valid()
      ensures keys.samples == old(keys.samples) + SamplesIn(during)
      ensures buffer.trace == old(buffer.trace) + [Poll] + Arrivals(old(keys.samples), during)
      ensures buffer.consumed == old(buffer.consumed) + (if old(buffer.hasKeypress) then [old(buffer.event)] else [])
      ensures Handled(old(buffer.hasKeypress), old(buffer.event), old(board.Observe()), board.Observe(), status)
    {
      var has, keypress := Look();
      status := Finish(has, keypress, during);
    }

    // One iteration, with the strokes that were typed and what the panel shows if it handles an event.
    method Iterate(during: seq<Interruption>)
      returns (has: bool, strokes: seq<Stroke>, panel: Panel, ghost key: Keypress, ghost status: bool)
      requires Valid()
      modifies Objects()
      ensures Valid()
      ensures keys.samples == old(keys.samples) + SamplesIn(during)
      ensures buffer.trace == old(buffer.trace) + [Poll] + Arrivals(old(keys.samples), during)
      ensures buffer.consumed == old(buffer.consumed) + (if has then [key] else [])
      ensures Reported(old(board.Observe()), board.Observe(), has, key, status, strokes, panel)
    {
      PropertyTest.ReliableIsQuiet(board);
      key := buffer.event;
      has := buffer.hasKeypress;
      var sent := |board.usb.Typed()|;
      status := RunEventLoopIteration(during);
      PropertyTest.ReliableIsQuiet(board);
      PropertyTest.LitIsShown(board);
      strokes, panel := board.usb.Typed()[sent..], board.led.Lit();
    }

    // One action of a schedule.
    method Step(action: Action)
      returns (has: bool, strokes: seq<Stroke>, panel: Panel, ghost key: Keypress, ghost status: bool)
      requires Valid()
      modifies Objects()
      ensures Valid()
      ensures keys.samples == old(keys.samples) + SamplesIn(InterruptsOf(action))
      ensures buffer.trace == old(buffer.trace) + HappeningsIn(old(keys.samples), action)
      ensures buffer.consumed == old(buffer.consumed) + (if has then [key] else [])
      ensures Reported(old(board.Observe()), board.Observe(), has, key, status, strokes, panel)
    {
      match action {
        case Interrupt(t) =>
          has, strokes, panel, key, status := InterruptAlone(t);
        case Iteration(during) =>
          LookComesFirst(buffer.trace, keys.samples, during);
          has, strokes, panel, key, status := Iterate(during);
      }
    }

    method InterruptAlone(t: Interruption)
      returns (has: bool, strokes: seq<Stroke>, panel: Panel, ghost key: Keypress, ghost status: bool)
      requires Valid()
      modifies Objects()
      ensures Valid() && !has
      ensures keys.samples == old(keys.samples) + SamplesIn([t])
      ensures buffer.trace == old(buffer.trace) + Arrivals(old(keys.samples), [t])
      ensures buffer.consumed == old(buffer.consumed)
      ensures Reported(old(board.Observe()), board.Observe(), has, key, status, strokes, panel)
    {
      PropertyTest.ReliableIsQuiet(board);
      PropertyTest.LitIsShown(board);
      Interrupts([t]);
      PropertyTest.LitIsShown(board);
      has, strokes, panel, key, status := false, [], board.led.Lit(), INACTIVE, true;
    }

    ghost predicate Going(f: Fit, heard: seq<Keypress>, kept: seq<bool>, buses: seq<Bus>, panels: seq<Panel>,
                          typed: seq<seq<Stroke>>, reliable: bool)
      reads keys, keys.buffer, buffer, leds, leds.pins, leds.pins.simulator, board, board.dflt, board.r, board.g,
            board.b, board.led, board.usb, board.storage, board.storage.internal, board.storage.internal.cells,
            board.storage.ext0, board.storage.ext0.cells, board.storage.ext1, board.storage.ext1.cells,
            board.storage.wire
    {
      Valid() && GoingAt(f, heard, kept, buses, panels, typed, reliable, buffer.consumed, board.Observe())
    }

    // What the key controller sampled and what happened at the buffer is what the schedule says.
    ghost predicate Followed(schedule: seq<Action>)
      reads keys, buffer
    {
      keys.samples == SamplesOf(schedule) && buffer.trace == TraceOf(schedule)
    }
  }

  // What was taken early in a trace is what is taken first.
  lemma {:induction false} TakenSoFar(trace: seq<Happening>, longer: seq<Happening>)
    requires trace <= longer
    ensures Taken(trace) <= Taken(longer)
  {
    if |trace| < |longer| {
      TakenSoFar(trace, longer[..|longer| - 1]);
    } else {
      assert trace == longer;
    }
  }

  lemma {:induction false} TraceSoFar(schedule: seq<Action>, i: nat)
    requires i <= |schedule|
    ensures TraceOf(schedule[..i]) <= TraceOf(schedule)
  {
    if i < |schedule| {
      var last := |schedule| - 1;
      TraceSoFar(schedule[..last], i);
      assert schedule[..last][..i] == schedule[..i];
    } else {
      assert schedule[..i] == schedule;
    }
  }

  lemma HeardSoFar(schedule: seq<Action>, i: nat)
    requires i <= |schedule|
    ensures Taken(TraceOf(schedule[..i])) <= Taken(TraceOf(schedule))
  {
    TraceSoFar(schedule, i);
    TakenSoFar(TraceOf(schedule[..i]), TraceOf(schedule));
  }

  // The event that is consumed next, if any, is the next that is heard.
  lemma ConsumedNext(heard: seq<Keypress>, n: nat, has: bool, k: Keypress)
    requires n <= |heard| && heard[..n] + (if has then [k] else []) <= heard
    ensures has ==> n < |heard| && heard[n] == k
    ensures heard[..n] + (if has then [k] else []) == heard[..n + if has then 1 else 0]
  {
    if has {
      assert (heard[..n] + [k])[n] == k;
    }
  }

  lemma ScheduleGrows(schedule: seq<Action>, i: nat)
    requires i < |schedule|
    ensures SamplesOf(schedule[..i + 1]) == SamplesOf(schedule[..i]) + SamplesIn(InterruptsOf(schedule[i]))
    ensures TraceOf(schedule[..i + 1]) == TraceOf(schedule[..i]) + HappeningsIn(SamplesOf(schedule[..i]), schedule[i])
  {
    assert schedule[..i + 1][..i] == schedule[..i];
  }

  lemma LookComesFirst(trace: seq<Happening>, samples: seq<set<Key>>, during: seq<Interruption>)
    ensures trace + HappeningsIn(samples, Iteration(during)) == trace + [Poll] + Arrivals(samples, during)
  {}

  lemma Begins(f: Fit, heard: seq<Keypress>, reliable: bool, obs: Observation)
    requires obs.model == Initial() && obs.fit == f && obs.typed == [] && obs.bus == CLEAR
    requires reliable ==> obs.allReliable
    ensures GoingAt(f, heard, [], [CLEAR], [], [], reliable, [], obs)
  {}

  method Start(f: Fit, script0: seq<Breakage>, script1: seq<Breakage>, scriptUsb: seq<Sending>,
               ghost heard: seq<Keypress>)
    returns (main: Threeboard)
    ensures fresh(main.Objects()) && main.Followed([])
    ensures main.Going(f, heard, [], [CLEAR], [], [], script0 == [] && script1 == [] && scriptUsb == [])
  {
    var board := PropertyTest.PowerOn(f, script0, script1, scriptUsb);
    main := new Threeboard(board);
    Begins(f, heard, script0 == [] && script1 == [] && scriptUsb == [], board.Observe());
  }

  // Action i of a schedule.
  method Act(main: Threeboard, schedule: seq<Action>, i: nat)
    returns (has: bool, strokes: seq<Stroke>, panel: Panel, ghost key: Keypress, ghost status: bool)
    requires i < |schedule| && main.Valid() && main.Followed(schedule[..i])
    modifies main.Objects()
    ensures main.Valid() && main.Followed(schedule[..i + 1])
    ensures main.buffer.consumed == old(main.buffer.consumed) + (if has then [key] else [])
    ensures main.buffer.consumed <= Taken(TraceOf(schedule))
    ensures Reported(old(main.board.Observe()), main.board.Observe(), has, key, status, strokes, panel)
  {
    ScheduleGrows(schedule, i);
    HeardSoFar(schedule, i + 1);
    has, strokes, panel, key, status := main.Step(schedule[i]);
  }

  // Its part of the account.
  method StepOf(main: Threeboard, f: Fit, schedule: seq<Action>, i: nat, ghost heard: seq<Keypress>,
                ghost kept: seq<bool>, ghost buses: seq<Bus>, panels: seq<Panel>, typed: seq<seq<Stroke>>,
                ghost reliable: bool)
    returns (panels': seq<Panel>, typed': seq<seq<Stroke>>, ghost kept': seq<bool>, ghost buses': seq<Bus>)
    requires i < |schedule| && heard == Taken(TraceOf(schedule))
    requires main.Followed(schedule[..i]) && main.Going(f, heard, kept, buses, panels, typed, reliable)
    modifies main.Objects()
    ensures main.Followed(schedule[..i + 1]) && main.Going(f, heard, kept', buses', panels', typed', reliable)
  {
    ghost var a, consumed := main.board.Observe(), main.buffer.consumed;
    ghost var key, status;
    var has, strokes, panel;
    has, strokes, panel, key, status := Act(main, schedule, i);
    ghost var b := main.board.Observe();
    kept', buses' := GoesOn(f, heard, kept, buses, panels, typed, reliable, consumed, a, b, has, key, status, strokes,
                            panel);
    panels', typed' := Grown(panels, has, panel), Grown(typed, has, strokes);
  }

  // What a schedule does from power-on.
  method Follow(f: Fit, schedule: seq<Action>, script0: seq<Breakage>, script1: seq<Breakage>, scriptUsb: seq<Sending>)
    returns (main: Threeboard, panels: seq<Panel>, typed: seq<seq<Stroke>>, ghost kept: seq<bool>,
             ghost buses: seq<Bus>)
    ensures fresh(main.Objects()) && main.Followed(schedule)
    ensures main.Going(f, Taken(TraceOf(schedule)), kept, buses, panels, typed,
                       script0 == [] && script1 == [] && scriptUsb == [])
  {
    ghost var heard, reliable := Taken(TraceOf(schedule)), script0 == [] && script1 == [] && scriptUsb == [];
    main := Start(f, script0, script1, scriptUsb, heard);
    panels, typed, kept, buses := [], [], [], [CLEAR];
    var i := 0;
    while i < |schedule|
      invariant 0 <= i <= |schedule| && fresh(main.Objects())
      invariant main.Followed(schedule[..i]) && main.Going(f, heard, kept, buses, panels, typed, reliable)
    {
      panels, typed, kept, buses := StepOf(main, f, schedule, i, heard, kept, buses, panels, typed, reliable);
      i := i + 1;
    }
    assert schedule[..i] == schedule;
  }

  // The panel that was read off the pins is that of this board.
  predicate PanelOfBoard(m: Board, decoded: Decoded) {
    Visible(m) ==>
      && decoded.high0 < 16 && decoded.low0 < 16 && decoded.high1 < 16 && decoded.low1 < 16
      && PanelOf(decoded) == Show(m)
  }

  // The run has an account, and the panel that was read off the pins in the end is that of the board
  // which the account ends with.
  ghost predicate Ran(f: Fit, heard: seq<Keypress>, panels: seq<Panel>, typed: seq<seq<Stroke>>, screen: seq<Stroke>,
                      decoded: Decoded, reliable: bool)
  {
    exists kept: seq<bool>, buses: seq<Bus> ::
      && PropertyTest.Explains(f, heard, kept, buses, panels, typed, screen, reliable)
      && PanelOfBoard(PropertyTest.At(f, heard, kept, |heard|), decoded)
  }

  lemma AlikePanel(m: Board, m': Board, decoded: Decoded)
    requires Alike(m, m') && PanelOfBoard(m', decoded)
    ensures PanelOfBoard(m, decoded)
  {
    AlikeShow(m, m');
  }

  // Where every event takes effect, the board follows the step function on all of them.
  lemma AllTakeEffect(f: Fit, heard: seq<Keypress>, kept: seq<bool>, typed: seq<seq<Stroke>>, n: nat)
    requires PropertyTest.Exactly(f, heard, kept, typed) && n <= |kept|
    ensures PropertyTest.At(f, heard, kept, n) == After(f, heard[..n])
  {
    PropertyTest.KeptAll(heard[..n], kept[..n]);
  }

  // These strokes are what the step function types at each event.
  predicate TypesAll(f: Fit, heard: seq<Keypress>, typed: seq<seq<Stroke>>) {
    |typed| == |heard| && forall i :: 0 <= i < |typed| ==> typed[i] == Apply(f, After(f, heard[..i]), heard[i]).1
  }

  lemma {:induction false} TypedInOrder(f: Fit, heard: seq<Keypress>, typed: seq<seq<Stroke>>)
    requires TypesAll(f, heard, typed)
    ensures PropertyTest.Flatten(typed) == AllTyped(f, heard)
  {
    if typed != [] {
      var n := |typed| - 1;
      forall i | 0 <= i < n ensures typed[..n][i] == Apply(f, After(f, heard[..n][..i]), heard[..n][i]).1 {
        assert heard[..n][..i] == heard[..i];
      }
      TypedInOrder(f, heard[..n], typed[..n]);
    }
  }

  lemma ExactlyTypesAll(f: Fit, heard: seq<Keypress>, kept: seq<bool>, typed: seq<seq<Stroke>>)
    requires PropertyTest.Exactly(f, heard, kept, typed) && |kept| == |heard|
    ensures TypesAll(f, heard, typed)
  {
    forall i | 0 <= i < |typed| ensures typed[i] == Apply(f, After(f, heard[..i]), heard[i]).1 {
      AllTakeEffect(f, heard, kept, typed, i);
    }
  }

  lemma RanReliably(f: Fit, heard: seq<Keypress>, panels: seq<Panel>, typed: seq<seq<Stroke>>, screen: seq<Stroke>,
                    decoded: Decoded)
    requires Ran(f, heard, panels, typed, screen, decoded, true)
    ensures PanelOfBoard(After(f, heard), decoded) && screen == AllTyped(f, heard)
  {
    var kept: seq<bool>, buses: seq<Bus> :|
      && PropertyTest.Explains(f, heard, kept, buses, panels, typed, screen, true)
      && PanelOfBoard(PropertyTest.At(f, heard, kept, |heard|), decoded);
    AllTakeEffect(f, heard, kept, typed, |heard|);
    ExactlyTypesAll(f, heard, kept, typed);
    TypedInOrder(f, heard, typed);
    assert heard[..|heard|] == heard;
  }

  // Any schedule of interrupts and event loop iterations, from power-on, with external EEPROMs and a USB
  // port that fail as they like: the chords that arrive are those of the samples; the loop takes exactly
  // the chords it is in time for; there is an account of what these do; and the panel read off the pins
  // after one more full refresh is the one to be shown in the end. With devices that do not fail it is
  // the panel after all of them, and the host has seen all their strokes, each once.
  method RunSchedule(f: Fit, schedule: seq<Action>, script0: seq<Breakage>, script1: seq<Breakage>,
                     scriptUsb: seq<Sending>)
    returns (panels: seq<Panel>, typed: seq<seq<Stroke>>, screen: seq<Stroke>, decoded: Decoded)
    ensures ChordsOf(TraceOf(schedule)) == NamedAll(Chords(SamplesOf(schedule)))
    ensures Ran(f, Taken(TraceOf(schedule)), panels, typed, screen, decoded,
                script0 == [] && script1 == [] && scriptUsb == [])
    ensures script0 == [] && script1 == [] && scriptUsb == [] ==>
              && PanelOfBoard(After(f, Taken(TraceOf(schedule))), decoded)
              && screen == AllTyped(f, Taken(TraceOf(schedule)))
  {
    ghost var heard, reliable := Taken(TraceOf(schedule)), script0 == [] && script1 == [] && scriptUsb == [];
    var main;
    ghost var kept, buses;
    main, panels, typed, kept, buses := Follow(f, schedule, script0, script1, scriptUsb);
    screen, decoded := ReadOff(main, f, heard, kept, buses, panels, typed, reliable);
    if reliable {
      RanReliably(f, heard, panels, typed, screen, decoded);
    }
  }

  // The end of a run: the panel is refreshed and read.
  method ReadOff(main: Threeboard, ghost f: Fit, ghost heard: seq<Keypress>, ghost kept: seq<bool>,
                 ghost buses: seq<Bus>, ghost panels: seq<Panel>, ghost typed: seq<seq<Stroke>>, ghost reliable: bool)
    returns (screen: seq<Stroke>, decoded: Decoded)
    requires main.Going(f, heard, kept, buses, panels, typed, reliable) && main.buffer.consumed == heard
    modifies main.leds, main.leds.pins, main.leds.pins.simulator, main.board.led
    ensures Ran(f, heard, panels, typed, screen, decoded, reliable)
  {
    ghost var m := main.board.Abstract();
    PropertyTest.ReliableIsQuiet(main.board);
    screen := main.board.usb.Seen();
    PortStammers(main.board.usb.log);
    decoded := ReadPanel(main.board, main.leds);
    AlikePanel(PropertyTest.At(f, heard, kept, |heard|), m, decoded);
    assert PropertyTest.Explains(f, heard, kept, buses, panels, typed, screen, reliable);
  }

  // ---- Any sequence of chords can be entered ----

  // The pins while these keys are held down.
  function PinsOf(k: Keypress): bv8 {
    match k
    case INACTIVE => 0xFF case Z => 0xFD case Y => 0xF7 case YZ => 0xF5
    case X => 0xFB case XZ => 0xF9 case XY => 0xF3 case XYZ => 0xF1
  }

  lemma PinsName(k: Keypress)
    ensures Named(Pressed(PinsOf(k))) == k && (k != INACTIVE ==> Pressed(PinsOf(k)) != {}) && Pressed(0xFF) == {}
  {}

  // A chord is held for one sample and let go, and then the event loop looks.
  function Tap(k: Keypress): seq<Action> {
    [Interrupt(Timer3(PinsOf(k))), Interrupt(Timer3(0xFF)), Iteration([])]
  }

  predicate Chorded(keys: seq<Keypress>) { forall i :: 0 <= i < |keys| ==> keys[i] != INACTIVE }

  function TapAll(keys: seq<Keypress>): seq<Action> {
    if keys == [] then [] else TapAll(keys[..|keys| - 1]) + Tap(keys[|keys| - 1])
  }

  lemma OneMoreAction(schedule: seq<Action>, action: Action)
    ensures SamplesOf(schedule + [action]) == SamplesOf(schedule) + SamplesIn(InterruptsOf(action))
    ensures TraceOf(schedule + [action]) == TraceOf(schedule) + HappeningsIn(SamplesOf(schedule), action)
  {
    assert (schedule + [action])[..|schedule|] == schedule;
  }

  lemma OneMoreSample(schedule: seq<Action>, pinb: bv8)
    ensures var now := schedule + [Interrupt(Timer3(pinb))];
            && SamplesOf(now) == SamplesOf(schedule) + [Pressed(pinb)]
            && TraceOf(now) == TraceOf(schedule) + Arrival(SamplesOf(schedule), Timer3(pinb))
  {
    OneMoreAction(schedule, Interrupt(Timer3(pinb)));
    OneAlone(SamplesOf(schedule), Timer3(pinb));
  }

  lemma OneAlone(samples: seq<set<Key>>, t: Interruption)
    ensures SamplesIn([t]) == SampleOf(t) && Arrivals(samples, [t]) == Arrival(samples, t)
  {
    assert [t][..0] == [] && SamplesIn([]) == [] && samples + [] == samples;
    assert [] + SampleOf(t) == SampleOf(t) && [] + Arrival(samples, t) == Arrival(samples, t);
  }

  lemma TakenAfterLook(trace: seq<Happening>, k: Keypress)
    ensures Taken(trace + [Chord(k)] + [Poll]) == Taken(trace) + [k]
  {
    assert (trace + [Chord(k)])[..|trace|] == trace;
    assert (trace + [Chord(k)] + [Poll])[..|trace| + 1] == trace + [Chord(k)];
  }

  lemma ChordIsHeld(schedule: seq<Action>, k: Keypress)
    requires k != INACTIVE && Open(SamplesOf(schedule)) == []
    ensures var held := schedule + [Interrupt(Timer3(PinsOf(k)))];
            Open(SamplesOf(held)) == [Pressed(PinsOf(k))] && TraceOf(held) == TraceOf(schedule)
  {
    PinsName(k);
    OneMoreSample(schedule, PinsOf(k));
    ChordsSnoc(SamplesOf(schedule), Pressed(PinsOf(k)));
    assert TraceOf(schedule) + [] == TraceOf(schedule);
  }

  lemma ChordIsReleased(schedule: seq<Action>, k: Keypress)
    requires k != INACTIVE && Open(SamplesOf(schedule)) == [Pressed(PinsOf(k))]
    ensures var released := schedule + [Interrupt(Timer3(0xFF))];
            Open(SamplesOf(released)) == [] && TraceOf(released) == TraceOf(schedule) + [Chord(k)]
  {
    PinsName(k);
    OneMoreSample(schedule, 0xFF);
    ChordsSnoc(SamplesOf(schedule), {});
    assert Union([Pressed(PinsOf(k))]) == Pressed(PinsOf(k));
  }

  lemma LookTakes(schedule: seq<Action>, trace: seq<Happening>, k: Keypress)
    requires TraceOf(schedule) == trace + [Chord(k)]
    ensures SamplesOf(schedule + [Iteration([])]) == SamplesOf(schedule)
    ensures Taken(TraceOf(schedule + [Iteration([])])) == Taken(trace) + [k]
  {
    OneMoreAction(schedule, Iteration([]));
    TakenAfterLook(trace, k);
    assert SamplesOf(schedule) + [] == SamplesOf(schedule) && [Poll] + [] == [Poll];
  }

  lemma TapIsThree(schedule: seq<Action>, k: Keypress)
    ensures schedule + Tap(k) ==
              schedule + [Interrupt(Timer3(PinsOf(k)))] + [Interrupt(Timer3(0xFF))] + [Iteration([])]
  {}

  // No chord is under way, and these have been taken.
  predicate Entered(schedule: seq<Action>, keys: seq<Keypress>) {
    Open(SamplesOf(schedule)) == [] && Taken(TraceOf(schedule)) == keys
  }

  lemma TapIsTaken(schedule: seq<Action>, keys: seq<Keypress>, k: Keypress)
    requires k != INACTIVE && Entered(schedule, keys)
    ensures Entered(schedule + Tap(k), keys + [k])
  {
    var held := schedule + [Interrupt(Timer3(PinsOf(k)))];
    var released := held + [Interrupt(Timer3(0xFF))];
    TapIsThree(schedule, k);
    ChordIsHeld(schedule, k);
    ChordIsReleased(held, k);
    LookTakes(released, TraceOf(schedule), k);
  }

  lemma {:induction false} TapAllTaken(keys: seq<Keypress>)
    requires Chorded(keys)
    ensures Entered(TapAll(keys), keys)
  {
    if keys == [] {
      NothingEntered();
    } else {
      var n := |keys| - 1;
      LastChord(keys, n);
      TapOneMore(keys, n);
      TapAllTaken(keys[..n]);
      TapIsTaken(TapAll(keys[..n]), keys[..n], keys[n]);
    }
  }

  lemma TapOneMore(keys: seq<Keypress>, n: nat)
    requires |keys| == n + 1
    ensures TapAll(keys) == TapAll(keys[..n]) + Tap(keys[n])
  {}

  lemma LastChord(keys: seq<Keypress>, n: nat)
    requires |keys| == n + 1 && Chorded(keys)
    ensures keys == keys[..n] + [keys[n]] && Chorded(keys[..n]) && keys[n] != INACTIVE
  {}

  lemma NothingEntered()
    ensures Entered([], [])
  {}

  // Any sequence of chords, tapped at the pins of a board that has just started, with devices that do not
  // fail: the pins of the panel and the screen show what the step function says.
  method TapKeys(f: Fit, keys: seq<Keypress>) returns (screen: seq<Stroke>, decoded: Decoded)
    requires Chorded(keys)
    ensures screen == AllTyped(f, keys) && PanelOfBoard(After(f, keys), decoded)
  {
    TapAllTaken(keys);
    var panels, typed;
    panels, typed, screen, decoded := RunSchedule(f, TapAll(keys), [], [], []);
  }

  // The user manual's first example, from the pins to the screen.
  method TapHello(f: Fit) returns (screen: seq<Stroke>, decoded: Decoded)
    ensures Printed(screen) == "Hello"
  {
    TypesHello(f);
    screen, decoded := TapKeys(f, TYPE_HELLO);
  }
}
