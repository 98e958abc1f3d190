// The USB side: keypress reports and their idle repetition, and what a host makes of them. The
// controller is a machine of small actions; a keypress is several of them, with interrupts in between.
module Usb {
  import opened Bytes
  import opened Types
  import opened Devices

  datatype HidState = HidState(configuration: byte, mod: byte, keys: seq<byte>, idleConfig: byte, idleCount: byte)

  const INITIAL := HidState(0, 0, [0, 0, 0, 0, 0, 0], 125, 0)

  // HID 1.11, appendix B.1: modifier byte, reserved byte, six key slots.
  function Report(h: HidState): seq<byte> {
    [h.mod, 0] + h.keys
  }

  datatype Action =
    | Press(key: byte, mod: byte)
    | Transmit
    | SetIdle(config: byte)
    | SetConfiguration(value: byte)
    | Frame(startOfFrame: bool, frameError: bool, writable: bool)

  // What may happen at any time while interrupts are enabled.
  predicate IsInterrupt(a: Action) { !a.Press? && !a.Transmit? }

  predicate AllInterrupts(actions: seq<Action>) { forall a :: a in actions ==> IsInterrupt(a) }

  predicate Eligible(h: HidState, a: Action) {
    a.Frame? && a.startOfFrame && !a.frameError && a.writable && h.configuration != 0 && h.idleConfig != 0
  }

  // Sending a report restarts the idle count.
  function Emit(h: HidState): (HidState, seq<seq<byte>>) {
    (h.(idleCount := 0), [Report(h)])
  }

  function FrameStep(h: HidState): (HidState, seq<seq<byte>>) {
    var counted := h.(idleCount := Inc(h.idleCount));
    if counted.idleCount == counted.idleConfig then Emit(counted) else (counted, [])
  }

  function Step(h: HidState, a: Action): (r: (HidState, seq<seq<byte>>))
    requires |h.keys| == 6
    ensures |r.0.keys| == 6
  {
    match a
    case Press(key, mod) => (h.(mod := mod, keys := h.keys[0 := key]), [])
    case Transmit => Emit(h)
    case SetIdle(config) => (h.(idleConfig := config, idleCount := 0), [])
    case SetConfiguration(value) => (h.(configuration := value), [])
    case Frame(_, _, _) => if Eligible(h, a) then FrameStep(h) else (h, [])
  }

  // What one frame does: a start of frame without error, on a configured device with an idle rate and a
  // writable endpoint, counts one, and sends a report and counts from zero again if that is the rate.
  lemma FrameCounts(h: HidState, startOfFrame: bool, frameError: bool, writable: bool)
    requires |h.keys| == 6
    ensures var (g, sent) := Step(h, Frame(startOfFrame, frameError, writable));
            var counts := startOfFrame && !frameError && writable && h.configuration != 0 && h.idleConfig != 0;
            var count := (h.idleCount + 1) % 256;
            && g == h.(idleCount := g.idleCount)
            && (!counts ==> g == h && sent == [])
            && (counts && count != h.idleConfig ==> g.idleCount as int == count && sent == [])
            && (counts && count == h.idleConfig ==> g.idleCount == 0 && sent == [[h.mod, 0] + h.keys])
  {}

  function Run(h: HidState, actions: seq<Action>): (r: (HidState, seq<seq<byte>>))
    requires |h.keys| == 6
    ensures |r.0.keys| == 6
  {
    if actions == [] then (h, [])
    else
      var n := |actions| - 1;
      var (g, sent) := Run(h, actions[..n]);
      var (f, more) := Step(g, actions[n]);
      (f, sent + more)
  }

  lemma {:induction false} RunAppend(h: HidState, a: seq<Action>, b: seq<Action>)
    requires |h.keys| == 6
    ensures var (g, sent) := Run(h, a); var (f, more) := Run(g, b); Run(h, a + b) == (f, sent + more)
  {
    if b == [] {
      assert a + b == a && Run(h, a).1 + [] == Run(h, a).1;
    } else {
      var n := |b| - 1;
      RunAppend(h, a, b[..n]);
      assert (a + b)[..|a| + n] == a + b[..n] && (a + b)[|a| + n] == b[n];
      var (g, sent) := Run(h, a);
      var (g', more) := Run(g, b[..n]);
      assert sent + more + Step(g', b[n]).1 == sent + (more + Step(g', b[n]).1);
    }
  }

  lemma RunOne(h: HidState, a: Action)
    requires |h.keys| == 6
    ensures Run(h, [a]) == Step(h, a)
  {
    assert [a][..0] == [];
    assert [] + Step(h, a).1 == Step(h, a).1;
  }

  // ---- Waiting for the endpoint ----

  // One look at the endpoint: the interrupts since the last one, whether data may be written, and
  // the frame number.
  datatype Look = Look(interrupts: seq<Action>, writable: bool, frame: byte)

  datatype Wait = Ready | Unconfigured | TimedOut | Waiting

  const FRAME_TIMEOUT := 50

  // How waiting ends, and the interrupts meanwhile. The two frame numbers are subtracted as ints,
  // without wrapping.
  function Await(h: HidState, initial: byte, looks: seq<Look>): (r: (Wait, seq<Action>))
    requires |h.keys| == 6
    decreases looks
  {
    if looks == [] then (Waiting, [])
    else
      var g := Run(h, looks[0].interrupts).0;
      if looks[0].writable then (Ready, looks[0].interrupts)
      else if g.configuration == 0 then (Unconfigured, looks[0].interrupts)
      else if looks[0].frame - initial >= FRAME_TIMEOUT then (TimedOut, looks[0].interrupts)
      else var (wait, more) := Await(g, initial, looks[1..]); (wait, looks[0].interrupts + more)
  }

  // The first look that finds the endpoint writable, the device unconfigured or the time over decides, in
  // this order, and the interrupts up to there have been taken.
  lemma {:induction false} FirstLookDecides(h: HidState, initial: byte, looks: seq<Look>, i: nat)
    requires |h.keys| == 6 && i < |looks|
    requires forall j :: 0 <= j < i ==> GoesOnWaiting(h, initial, looks, j)
    requires !GoesOnWaiting(h, initial, looks, i)
    ensures DecidedAt(h, initial, looks, i)
    decreases i
  {
    InterruptsOfMore(looks, 0);
    if i > 0 {
      assert GoesOnWaiting(h, initial, looks, 0);
      var g := Run(h, looks[0].interrupts).0;
      forall j | 0 <= j < i
        ensures GoesOnWaiting(g, initial, looks[1..], j) == GoesOnWaiting(h, initial, looks, j + 1)
      {
        LaterLook(h, initial, looks, j);
      }
      FirstLookDecides(g, initial, looks[1..], i - 1);
      DecidedLater(h, initial, looks, i);
    }
  }

  predicate DecidedAt(h: HidState, initial: byte, looks: seq<Look>, i: nat)
    requires |h.keys| == 6 && i < |looks|
  {
    var (wait, taken) := Await(h, initial, looks);
    && taken == AllInterruptsOf(looks[..i + 1])
    && wait == if looks[i].writable then Ready
               else if Run(h, taken).0.configuration == 0 then Unconfigured else TimedOut
  }

  lemma DecidedLater(h: HidState, initial: byte, looks: seq<Look>, i: nat)
    requires |h.keys| == 6 && 0 < i < |looks| && GoesOnWaiting(h, initial, looks, 0)
    requires DecidedAt(Run(h, looks[0].interrupts).0, initial, looks[1..], i - 1)
    ensures DecidedAt(h, initial, looks, i)
  {
    InterruptsOfMore(looks, 0);
    InterruptsOfMore(looks, i);
    RunAppend(h, looks[0].interrupts, AllInterruptsOf(looks[1..][..i]));
  }

  function AllInterruptsOf(looks: seq<Look>): seq<Action> {
    if looks == [] then [] else looks[0].interrupts + AllInterruptsOf(looks[1..])
  }

  predicate GoesOnWaiting(h: HidState, initial: byte, looks: seq<Look>, i: nat)
    requires |h.keys| == 6 && i < |looks|
  {
    && !looks[i].writable && Run(h, AllInterruptsOf(looks[..i + 1])).0.configuration != 0
    && looks[i].frame < initial + 50
  }

  lemma InterruptsOfMore(looks: seq<Look>, i: nat)
    requires i < |looks|
    ensures AllInterruptsOf(looks[..i + 1]) == looks[0].interrupts + AllInterruptsOf(looks[1..][..i])
    ensures i == 0 ==> AllInterruptsOf(looks[..1]) == looks[0].interrupts
  {
    assert looks[..i + 1][1..] == looks[1..][..i];
    assert looks[0].interrupts + [] == looks[0].interrupts;
  }

  lemma LaterLook(h: HidState, initial: byte, looks: seq<Look>, j: nat)
    requires |h.keys| == 6 && j + 1 < |looks|
    ensures var g := Run(h, looks[0].interrupts).0;
            GoesOnWaiting(g, initial, looks[1..], j) == GoesOnWaiting(h, initial, looks, j + 1)
  {
    InterruptsOfMore(looks, j + 1);
    RunAppend(h, looks[0].interrupts, AllInterruptsOf(looks[1..][..j + 1]));
  }

  // The endpoint is never writable, and the device stays configured.
  predicate Blocked(h: HidState, looks: seq<Look>)
    requires |h.keys| == 6
    decreases looks
  {
    looks != [] ==>
      var g := Run(h, looks[0].interrupts).0;
      !looks[0].writable && g.configuration != 0 && Blocked(g, looks[1..])
  }

  // A blocked endpoint is given up exactly when a look shows a frame number 50 above the first.
  lemma {:induction false} TimesOutWhen(h: HidState, initial: byte, looks: seq<Look>)
    requires |h.keys| == 6 && Blocked(h, looks)
    ensures Await(h, initial, looks).0 == if exists i :: 0 <= i < |looks| && looks[i].frame >= initial + FRAME_TIMEOUT
                                          then TimedOut else Waiting
    decreases looks
  {
    if looks != [] {
      TimesOutWhen(Run(h, looks[0].interrupts).0, initial, looks[1..]);
      assert forall i :: 1 <= i < |looks| ==> looks[i] == looks[1..][i - 1];
    }
  }

  // From one look to the next the eight-bit frame number advances by one at most.
  predicate Steady(frame: byte, looks: seq<Look>)
    decreases looks
  {
    looks != [] ==> (looks[0].frame == frame || looks[0].frame == Inc(frame)) && Steady(looks[0].frame, looks[1..])
  }

  // How many frames go by.
  function Elapsed(frame: byte, looks: seq<Look>): nat
    decreases looks
  {
    if looks == [] then 0 else (if looks[0].frame == frame then 0 else 1) + Elapsed(looks[0].frame, looks[1..])
  }

  // A blocked endpoint is given up after exactly 50 frames if the first frame number is at most 205;
  // from 206 on it is waited for without end.
  lemma TimeoutNeedsLowFrame(h: HidState, initial: byte, looks: seq<Look>)
    requires |h.keys| == 6 && Blocked(h, looks) && Steady(initial, looks)
    ensures Await(h, initial, looks).0 ==
              if initial <= 205 && Elapsed(initial, looks) >= FRAME_TIMEOUT then TimedOut else Waiting
  {
    if initial <= 205 {
      CountsFrames(h, initial, initial, looks);
    } else {
      TimesOutWhen(h, initial, looks);
    }
  }

  lemma {:induction false} CountsFrames(h: HidState, initial: byte, frame: byte, looks: seq<Look>)
    requires |h.keys| == 6 && Blocked(h, looks) && Steady(frame, looks)
    requires initial <= 205 && initial <= frame < initial + FRAME_TIMEOUT
    ensures Await(h, initial, looks).0 ==
              if frame - initial + Elapsed(frame, looks) >= FRAME_TIMEOUT then TimedOut else Waiting
    decreases looks
  {
    if looks != [] && looks[0].frame - initial < FRAME_TIMEOUT {
      CountsFrames(Run(h, looks[0].interrupts).0, initial, looks[0].frame, looks[1..]);
    }
  }

  // ---- Idle reporting ----

  predicate IdleInvariant(h: HidState) {
    h.idleConfig == 0 || h.idleCount < h.idleConfig
  }

  lemma {:induction false} IdleInvariantHolds(h: HidState, actions: seq<Action>)
    requires |h.keys| == 6 && IdleInvariant(h)
    ensures IdleInvariant(Run(h, actions).0)
  {
    if actions != [] {
      IdleInvariantHolds(h, actions[..|actions| - 1]);
    }
  }

  function ConfigurationAfter(configuration: byte, actions: seq<Action>): byte {
    if actions == [] then configuration
    else
      var last := actions[|actions| - 1];
      if last.SetConfiguration? then last.value else ConfigurationAfter(configuration, actions[..|actions| - 1])
  }

  // The frames at which a configured device with a writable endpoint counts.
  function EligibleFrames(configuration: byte, actions: seq<Action>): nat {
    if actions == [] then 0
    else
      var n := |actions| - 1;
      var a := actions[n];
      var configured := ConfigurationAfter(configuration, actions[..n]) != 0;
      EligibleFrames(configuration, actions[..n])
      + if a.Frame? && a.startOfFrame && !a.frameError && a.writable && configured then 1 else 0
  }

  // How many more such frames there are up to the next idle report. Only an idle count at or above the
  // idle rate, which no reachable state has, must go through zero first.
  function FramesToReport(rate: byte, count: byte): nat {
    if count < rate then rate - count else 256 + rate - count
  }

  predicate IsPlain(a: Action) { IsInterrupt(a) && !a.SetIdle? }

  lemma {:induction false} ConfigurationIs(h: HidState, actions: seq<Action>)
    requires |h.keys| == 6
    ensures Run(h, actions).0.configuration == ConfigurationAfter(h.configuration, actions)
  {
    if actions != [] {
      ConfigurationIs(h, actions[..|actions| - 1]);
    }
  }

  // While the idle rate stays as it is and nothing else is sent, an idle report goes out exactly if there
  // are as many eligible frames as it takes.
  lemma {:induction false} SilenceIsShort(h: HidState, actions: seq<Action>)
    requires |h.keys| == 6 && h.idleConfig != 0 && forall a :: a in actions ==> IsPlain(a)
    ensures var frames := EligibleFrames(h.configuration, actions);
            && Run(h, actions).0.idleConfig == h.idleConfig
            && (Run(h, actions).1 == [] <==> frames < FramesToReport(h.idleConfig, h.idleCount))
            && (Run(h, actions).1 == [] ==> Run(h, actions).0.idleCount as int == (h.idleCount + frames) % 256)
  {
    if actions != [] {
      var n := |actions| - 1;
      SilenceIsShort(h, actions[..n]);
      ConfigurationIs(h, actions[..n]);
      PlainStep(Run(h, actions[..n]).0, actions[n]);
      OneFrameMore(h.idleConfig, h.idleCount, EligibleFrames(h.configuration, actions[..n]));
    }
  }

  // From power-on, once configured, the first idle report goes out with the 125th eligible frame.
  lemma PowerOnIdle(configuration: byte, actions: seq<Action>)
    requires forall a :: a in actions ==> IsPlain(a)
    ensures Run(INITIAL.(configuration := configuration), actions).1 == [] <==>
              EligibleFrames(configuration, actions) < 125
  {
    SilenceIsShort(INITIAL.(configuration := configuration), actions);
  }

  // Any report restarts the count: the next idle report comes with exactly as many eligible frames as the
  // idle rate says.
  lemma ReportRestarts(h: HidState, actions: seq<Action>)
    requires |h.keys| == 6 && h.idleConfig != 0 && forall a :: a in actions ==> IsPlain(a)
    ensures |Run(h, [Transmit] + actions).1| == 1 <==> EligibleFrames(h.configuration, actions) < h.idleConfig
  {
    var g := Step(h, Transmit).0;
    RunOne(h, Transmit);
    RunAppend(h, [Transmit], actions);
    SilenceIsShort(g, actions);
  }

  lemma PlainStep(h: HidState, a: Action)
    requires |h.keys| == 6 && h.idleConfig != 0 && IsPlain(a)
    ensures var (g, sent) := Step(h, a);
            && g.idleConfig == h.idleConfig
            && (sent == [] <==> !(Eligible(h, a) && Inc(h.idleCount) == h.idleConfig))
            && (sent == [] ==> g.idleCount == if Eligible(h, a) then Inc(h.idleCount) else h.idleCount)
  {}

  lemma OneFrameMore(rate: byte, count: byte, frames: nat)
    requires rate != 0
    ensures frames < FramesToReport(rate, count) ==>
              var now := (count + frames) % 256;
              && Inc(now) as int == (count + frames + 1) % 256
              && (Inc(now) != rate <==> frames + 1 < FramesToReport(rate, count))
  {}

  // Without an idle rate there are no idle reports.
  lemma {:induction false} NoRateIsSilent(h: HidState, actions: seq<Action>)
    requires |h.keys| == 6 && h.idleConfig == 0 && forall a :: a in actions ==> IsPlain(a)
    ensures Run(h, actions).1 == []
  {
    if actions != [] {
      var n := |actions| - 1;
      NoRateStays(h, actions[..n]);
      NoRateIsSilent(h, actions[..n]);
      assert IsPlain(actions[n]);
    }
  }

  lemma {:induction false} NoRateStays(h: HidState, actions: seq<Action>)
    requires |h.keys| == 6 && h.idleConfig == 0 && forall a :: a in actions ==> IsPlain(a)
    ensures Run(h, actions).0.idleConfig == 0
  {
    if actions != [] {
      NoRateStays(h, actions[..|actions| - 1]);
      assert IsPlain(actions[|actions| - 1]);
    }
  }

  function FirstSetIdle(actions: seq<Action>): (n: nat)
    ensures n <= |actions| && (n < |actions| ==> actions[n].SetIdle?)
    ensures forall i :: 0 <= i < n ==> !actions[i].SetIdle?
  {
    if actions == [] || actions[0].SetIdle? then 0 else 1 + FirstSetIdle(actions[1..])
  }

  // Between any two settings of the idle rate there are too few eligible frames for a report.
  predicate Silent(rate: byte, count: byte, configuration: byte, actions: seq<Action>)
    decreases |actions|
  {
    var n := FirstSetIdle(actions);
    && (rate != 0 ==> EligibleFrames(configuration, actions[..n]) < FramesToReport(rate, count))
    && (n < |actions| ==>
          Silent(actions[n].config, 0, ConfigurationAfter(configuration, actions[..n]), actions[n + 1..]))
  }

  // Interrupts send no report exactly if there is silence between any two settings of the idle rate.
  lemma {:induction false} SilentExactly(h: HidState, actions: seq<Action>)
    requires |h.keys| == 6 && AllInterrupts(actions)
    ensures Run(h, actions).1 == [] <==> Silent(h.idleConfig, h.idleCount, h.configuration, actions)
    decreases |actions|
  {
    var n := FirstSetIdle(actions);
    var head, rest := actions[..n], actions[n..];
    assert actions == head + rest;
    assert forall a :: a in head ==> IsPlain(a);
    RunAppend(h, head, rest);
    ConfigurationIs(h, head);
    if h.idleConfig == 0 {
      NoRateIsSilent(h, head);
    } else {
      SilenceIsShort(h, head);
    }
    if n < |actions| {
      var g := Run(h, head).0;
      var again, later := Step(g, actions[n]).0, actions[n + 1..];
      assert rest == [actions[n]] + later;
      RunAppend(g, [actions[n]], later);
      RunOne(g, actions[n]);
      assert AllInterrupts(later);
      SilentExactly(again, later);
      assert Run(h, actions).1 == Run(h, head).1 + ([] + Run(again, later).1);
    } else {
      assert rest == [] && head == actions;
    }
  }

  // ---- Reports and strokes ----

  predicate WellFormed(report: seq<byte>) {
    |report| == 8 && report[1] == 0 && forall i :: 3 <= i < 8 ==> report[i] == 0
  }

  predicate AllWellFormed(reports: seq<seq<byte>>) {
    forall i :: 0 <= i < |reports| ==> WellFormed(reports[i])
  }

  function StrokeOf(report: seq<byte>): Stroke
    requires WellFormed(report)
  {
    Stroke(report[2], report[0])
  }

  function Strokes(reports: seq<seq<byte>>): (strokes: seq<Stroke>)
    requires AllWellFormed(reports)
    ensures |strokes| == |reports|
  {
    seq(|reports|, i requires 0 <= i < |reports| => StrokeOf(reports[i]))
  }

  // The host reads each report once and drops those with neither key nor modifier.
  function HostView(reports: seq<seq<byte>>): seq<Stroke>
    requires AllWellFormed(reports)
  {
    Shown(Strokes(reports))
  }

  lemma HostViewAppend(a: seq<seq<byte>>, b: seq<seq<byte>>)
    requires AllWellFormed(a) && AllWellFormed(b)
    ensures AllWellFormed(a + b) && HostView(a + b) == HostView(a) + HostView(b)
  {
    assert Strokes(a + b) == Strokes(a) + Strokes(b);
    ShownAppend(Strokes(a), Strokes(b));
  }

  // The stroke that a report would carry now. Key slots 1 to 5 are never used.
  predicate OneKey(h: HidState) {
    |h.keys| == 6 && h.keys[1..] == [0, 0, 0, 0, 0]
  }

  function Held(h: HidState): Stroke
    requires OneKey(h)
  {
    Stroke(h.keys[0], h.mod)
  }

  lemma HeldIsReported(h: HidState)
    requires OneKey(h)
    ensures WellFormed(Report(h)) && StrokeOf(Report(h)) == Held(h)
    ensures Report(h) == [h.mod, 0, h.keys[0], 0, 0, 0, 0, 0]
  {
    assert h.keys == [h.keys[0]] + h.keys[1..];
  }

  predicate AllCarry(reports: seq<seq<byte>>, s: Stroke) {
    forall i :: 0 <= i < |reports| ==> reports[i] == [s.mod, 0, s.key, 0, 0, 0, 0, 0]
  }

  // Between two presses every report carries the same stroke, whatever else happens.
  lemma {:induction false} SameUntilPressed(h: HidState, actions: seq<Action>)
    requires OneKey(h) && forall a :: a in actions ==> !a.Press?
    ensures var (g, reports) := Run(h, actions); OneKey(g) && Held(g) == Held(h) && AllCarry(reports, Held(h))
  {
    if actions != [] {
      var n := |actions| - 1;
      SameUntilPressed(h, actions[..n]);
      HeldIsReported(Run(h, actions[..n]).0);
      HeldIsReported(Run(h, actions[..n]).0.(idleCount := 0));
    }
  }

  lemma CarriedIsSeen(reports: seq<seq<byte>>, s: Stroke)
    requires AllCarry(reports, s)
    ensures AllWellFormed(reports) && HostView(reports) == Shown(Copies(s, |reports|))
  {
    assert Strokes(reports) == Copies(s, |reports|);
  }

  lemma {:induction false} NothingShown(n: nat)
    ensures Shown(Copies(Stroke(0, 0), n)) == []
  {
    if n > 0 {
      NothingShown(n - 1);
      assert Copies(Stroke(0, 0), n)[1..] == Copies(Stroke(0, 0), n - 1);
    }
  }

  // ---- Keypresses ----

  // A keypress as it came about: the interrupts while the press waited and whether it got out, and
  // the same for the release. A keypress whose press fails ends there.
  datatype Event =
    | Keystroke(key: byte, mod: byte, first: seq<Action>, pressed: bool, second: seq<Action>, released: bool)
    | Interrupt(action: Action)

  predicate IsEvent(e: Event) {
    match e
    case Keystroke(_, _, first, _, second, _) => AllInterrupts(first) && AllInterrupts(second)
    case Interrupt(a) => IsInterrupt(a)
  }

  function ReleaseActions(e: Event): seq<Action>
    requires e.Keystroke?
  {
    [Press(0, 0)] + e.second + if e.released then [Transmit] else []
  }

  function ActionsOf(e: Event): seq<Action> {
    match e
    case Keystroke(key, mod, first, pressed, _, _) =>
      [Press(key, mod)] + first + if pressed then [Transmit] + ReleaseActions(e) else []
    case Interrupt(a) => [a]
  }

  predicate Succeeds(e: Event) {
    e.Keystroke? ==> e.pressed && e.released
  }

  function Pressed(h: HidState, key: byte, mod: byte): HidState
    requires |h.keys| == 6
  {
    Step(h, Press(key, mod)).0
  }

  lemma PressedHolds(h: HidState, key: byte, mod: byte)
    requires OneKey(h)
    ensures OneKey(Pressed(h, key, mod)) && Held(Pressed(h, key, mod)) == Stroke(key, mod)
  {
    assert h.keys[0 := key][1..] == h.keys[1..];
  }

  // The idle reports while a press waits.
  function WaitingReports(h: HidState, e: Event): nat
    requires |h.keys| == 6 && e.Keystroke?
  {
    |Run(Pressed(h, e.key, e.mod), e.first).1|
  }

  lemma ReleaseReports(h: HidState, e: Event)
    requires OneKey(h) && e.Keystroke? && IsEvent(e)
    ensures var (g, reports) := Run(h, ReleaseActions(e));
            && OneKey(g) && Held(g) == Stroke(0, 0)
            && AllCarry(reports, Stroke(0, 0))
  {
    var rest := e.second + if e.released then [Transmit] else [];
    assert ReleaseActions(e) == [Press(0, 0)] + rest;
    RunAppend(h, [Press(0, 0)], rest);
    RunOne(h, Press(0, 0));
    PressedHolds(h, 0, 0);
    SameUntilPressed(Pressed(h, 0, 0), rest);
    assert [] + Run(Pressed(h, 0, 0), rest).1 == Run(Pressed(h, 0, 0), rest).1;
  }

  function DownActions(e: Event): seq<Action>
    requires e.Keystroke?
  {
    e.first + if e.pressed then [Transmit] else []
  }

  // The press and its reports.
  lemma PressReports(h: HidState, e: Event)
    requires OneKey(h) && e.Keystroke? && IsEvent(e)
    ensures var (g, reports) := Run(h, [Press(e.key, e.mod)] + DownActions(e));
            && OneKey(g) && Held(g) == Stroke(e.key, e.mod) && AllCarry(reports, Stroke(e.key, e.mod))
            && |reports| == WaitingReports(h, e) + if e.pressed then 1 else 0
  {
    var down, h1 := DownActions(e), Pressed(h, e.key, e.mod);
    RunAppend(h, [Press(e.key, e.mod)], down);
    RunOne(h, Press(e.key, e.mod));
    assert [] + Run(h1, down).1 == Run(h1, down).1;
    PressedHolds(h, e.key, e.mod);
    SameUntilPressed(h1, down);
    RunAppend(h1, e.first, if e.pressed then [Transmit] else []);
    RunOne(Run(h1, e.first).0, Transmit);
  }

  // What a keypress sends: its stroke while it waits and when it gets out, then only releases.
  lemma KeypressReports(h: HidState, e: Event)
    requires OneKey(h) && e.Keystroke? && IsEvent(e)
    ensures var (g, reports) := Run(h, ActionsOf(e));
            var n := WaitingReports(h, e) + if e.pressed then 1 else 0;
            && OneKey(g) && Held(g) == (if e.pressed then Stroke(0, 0) else Stroke(e.key, e.mod))
            && n <= |reports| && (!e.pressed ==> n == |reports|)
            && AllCarry(reports[..n], Stroke(e.key, e.mod)) && AllCarry(reports[n..], Stroke(0, 0))
  {
    var press, release := [Press(e.key, e.mod)] + DownActions(e), if e.pressed then ReleaseActions(e) else [];
    assert ActionsOf(e) == press + release;
    RunAppend(h, press, release);
    PressReports(h, e);
    var (h2, before) := Run(h, press);
    if e.pressed {
      ReleaseReports(h2, e);
    }
    var after := Run(h2, release).1;
    assert (before + after)[..|before|] == before && (before + after)[|before|..] == after;
  }

  // Undisturbed, a successful keypress is its report and the empty one.
  lemma TwoReports(h: HidState, key: byte, mod: byte)
    requires OneKey(h)
    ensures Run(h, ActionsOf(Keystroke(key, mod, [], true, [], true))).1 ==
              [[mod, 0, key, 0, 0, 0, 0, 0], [0, 0, 0, 0, 0, 0, 0, 0]]
  {
    var e := Keystroke(key, mod, [], true, [], true);
    KeypressReports(h, e);
    var press, release := [Press(key, mod)] + [Transmit], [Press(0, 0)] + [Transmit];
    assert ActionsOf(e) == press + release;
    RunAppend(h, press, release);
    OneReport(h, key, mod);
    OneReport(Run(h, press).0, 0, 0);
  }

  lemma OneReport(h: HidState, key: byte, mod: byte)
    requires |h.keys| == 6
    ensures |Run(h, [Press(key, mod)] + [Transmit]).1| == 1
  {
    RunAppend(h, [Press(key, mod)], [Transmit]);
    RunOne(h, Press(key, mod));
    RunOne(Step(h, Press(key, mod)).0, Transmit);
  }

  // A keypress leaves no key set exactly if its press got out, or was no press at all. Otherwise the
  // key stays set, and until the next keypress every report that goes out types it once.
  lemma FailedPressStays(h: HidState, e: Event, later: seq<Action>)
    requires OneKey(h) && e.Keystroke? && IsEvent(e) && AllInterrupts(later)
    ensures var g := Run(h, ActionsOf(e)).0;
            OneKey(g) && (Held(g) == Stroke(0, 0) <==> e.pressed || (e.key == 0 && e.mod == 0))
    ensures !e.pressed ==>
              var reports := Run(Run(h, ActionsOf(e)).0, later).1;
              && AllCarry(reports, Stroke(e.key, e.mod)) && AllWellFormed(reports)
              && HostView(reports) == Shown(Copies(Stroke(e.key, e.mod), |reports|))
  {
    KeypressReports(h, e);
    var g := Run(h, ActionsOf(e)).0;
    SameUntilPressed(g, later);
    if !e.pressed {
      CarriedIsSeen(Run(g, later).1, Stroke(e.key, e.mod));
    }
  }

  // ---- Runs ----

  function RunEvents(h: HidState, events: seq<Event>): (r: (HidState, seq<seq<byte>>))
    requires |h.keys| == 6
    ensures |r.0.keys| == 6
  {
    if events == [] then (h, [])
    else
      var n := |events| - 1;
      var (g, sent) := RunEvents(h, events[..n]);
      var (f, more) := Run(g, ActionsOf(events[n]));
      (f, sent + more)
  }

  function AllActions(events: seq<Event>): seq<Action> {
    if events == [] then [] else AllActions(events[..|events| - 1]) + ActionsOf(events[|events| - 1])
  }

  // So what holds of every run of actions holds of every run of events.
  lemma {:induction false} EventsAreActions(h: HidState, events: seq<Event>)
    requires |h.keys| == 6
    ensures RunEvents(h, events) == Run(h, AllActions(events))
  {
    if events != [] {
      var n := |events| - 1;
      EventsAreActions(h, events[..n]);
      RunAppend(h, AllActions(events[..n]), ActionsOf(events[n]));
    }
  }

  // The USB interface that the layers are written against, moved by the same event.
  function PortStep(h: HidState, p: Port, e: Event): Port
    requires |h.keys| == 6
  {
    match e
    case Keystroke(key, mod, _, pressed, _, _) => Send(p, Stroke(key, mod), WaitingReports(h, e), pressed)
    case Interrupt(a) => Idle(p, |Step(h, a).1|)
  }

  // The interface says what is held in the controller.
  predicate Matches(h: HidState, p: Port) {
    && OneKey(h)
    && (p.held ==> p.log != [] && Held(h) == p.log[|p.log| - 1].stroke)
    && (!p.held ==> Held(h) == Stroke(0, 0))
  }

  // One event at the controller is one at the interface: the host sees what the interface says.
  lemma PortFollows(h: HidState, p: Port, e: Event)
    requires Matches(h, p) && IsEvent(e)
    ensures var (g, reports) := Run(h, ActionsOf(e));
            var p' := PortStep(h, p, e);
            && Matches(g, p') && AllWellFormed(reports)
            && Shown(SeenOf(p'.log)) == Shown(SeenOf(p.log)) + HostView(reports)
  {
    match e {
      case Keystroke(key, mod, _, pressed, _, _) => PortFollowsKeypress(h, p, e);
      case Interrupt(a) =>
        RunOne(h, a);
        SameUntilPressed(h, [a]);
        var reports := Step(h, a).1;
        CarriedIsSeen(reports, Held(h));
        SeenAfterIdle(p, |reports|);
        ShownAppend(SeenOf(p.log), Copies(Held(h), |reports|));
        if !p.held {
          NothingShown(|reports|);
        }
    }
  }

  lemma PortFollowsKeypress(h: HidState, p: Port, e: Event)
    requires Matches(h, p) && IsEvent(e) && e.Keystroke?
    ensures var (g, reports) := Run(h, ActionsOf(e));
            var p' := PortStep(h, p, e);
            && Matches(g, p') && AllWellFormed(reports)
            && Shown(SeenOf(p'.log)) == Shown(SeenOf(p.log)) + HostView(reports)
  {
    var s, n := Stroke(e.key, e.mod), WaitingReports(h, e) + if e.pressed then 1 else 0;
    KeypressReports(h, e);
    HostSeesCopies(Run(h, ActionsOf(e)).1, s, n);
    SeenAfterSend(p, s, WaitingReports(h, e), e.pressed);
    ShownAppend(SeenOf(p.log), Copies(s, n));
  }

  lemma HostSeesCopies(reports: seq<seq<byte>>, s: Stroke, n: nat)
    requires n <= |reports| && AllCarry(reports[..n], s) && AllCarry(reports[n..], Stroke(0, 0))
    ensures AllWellFormed(reports) && HostView(reports) == Shown(Copies(s, n))
  {
    CarriedIsSeen(reports[..n], s);
    CarriedIsSeen(reports[n..], Stroke(0, 0));
    NothingShown(|reports| - n);
    HostViewAppend(reports[..n], reports[n..]);
    assert reports == reports[..n] + reports[n..];
  }

  function PortOf(h: HidState, events: seq<Event>): Port
    requires |h.keys| == 6
  {
    if events == [] then Port([], false)
    else
      var n := |events| - 1;
      PortStep(RunEvents(h, events[..n]).0, PortOf(h, events[..n]), events[n])
  }

  // Over any run of keypresses, successful or not, and interrupts: the host sees the interface's log.
  lemma {:induction false} HostSeesLog(h: HidState, events: seq<Event>)
    requires OneKey(h) && Held(h) == Stroke(0, 0) && forall e :: e in events ==> IsEvent(e)
    ensures var (g, reports) := RunEvents(h, events);
            var p := PortOf(h, events);
            Matches(g, p) && AllWellFormed(reports) && HostView(reports) == Shown(SeenOf(p.log))
  {
    if events != [] {
      var n := |events| - 1;
      HostSeesLog(h, events[..n]);
      var (g, sent) := RunEvents(h, events[..n]);
      PortFollows(g, PortOf(h, events[..n]), events[n]);
      HostViewAppend(sent, Run(g, ActionsOf(events[n])).1);
    }
  }

  // ---- When the host sees exactly the strokes sent ----

  function Sent(events: seq<Event>): seq<Stroke> {
    if events == [] then []
    else
      var last := events[|events| - 1];
      Sent(events[..|events| - 1]) + if last.Keystroke? then [Stroke(last.key, last.mod)] else []
  }

  // While the press of a visible stroke waits there are enough eligible frames for an idle report.
  predicate Doubles(h: HidState, e: Event) {
    && e.Keystroke? && Stroke(e.key, e.mod) != Stroke(0, 0)
    && !Silent(h.idleConfig, h.idleCount, h.configuration, e.first)
  }

  lemma DoublesExactly(h: HidState, e: Event)
    requires |h.keys| == 6 && IsEvent(e) && e.Keystroke?
    ensures Doubles(h, e) <==> Stroke(e.key, e.mod) != Stroke(0, 0) && WaitingReports(h, e) > 0
  {
    SilentExactly(Pressed(h, e.key, e.mod), e.first);
  }

  predicate NeverDoubles(h: HidState, events: seq<Event>)
    requires |h.keys| == 6
  {
    events != [] ==>
      var n := |events| - 1;
      NeverDoubles(h, events[..n]) && !Doubles(RunEvents(h, events[..n]).0, events[n])
  }

  predicate VisibleOnce(log: seq<Typing>) {
    forall i :: 0 <= i < |log| ==> log[i].stroke == Stroke(0, 0) || log[i].copies == 1
  }

  predicate AllOut(log: seq<Typing>) {
    forall i :: 0 <= i < |log| ==> log[i].copies >= 1
  }

  lemma {:induction false} AllShown(s: Stroke, n: nat)
    requires s != Stroke(0, 0)
    ensures Shown(Copies(s, n)) == Copies(s, n)
  {
    if n > 0 {
      AllShown(s, n - 1);
      assert Copies(s, n)[1..] == Copies(s, n - 1) && Copies(s, n) == [s] + Copies(s, n - 1);
    }
  }

  lemma ShownTyping(t: Typing)
    ensures |Shown(Copies(t.stroke, t.copies))| == if t.stroke == Stroke(0, 0) then 0 else t.copies
    ensures t.copies == 1 || t.stroke == Stroke(0, 0) ==> Shown(Copies(t.stroke, t.copies)) == Shown([t.stroke])
    ensures |Shown([t.stroke])| == if t.stroke == Stroke(0, 0) then 0 else 1
  {
    assert Copies(t.stroke, 1) == [t.stroke];
    if t.stroke == Stroke(0, 0) {
      NothingShown(t.copies);
      NothingShown(1);
    } else {
      AllShown(t.stroke, t.copies);
      AllShown(t.stroke, 1);
    }
  }

  // Strokes that all got out are seen as they were sent exactly if no visible one was seen twice.
  lemma {:induction false} SeenExactly(log: seq<Typing>)
    requires AllOut(log)
    ensures VisibleOnce(log) ==> Shown(SeenOf(log)) == Shown(StrokesOf(log))
    ensures |Shown(SeenOf(log))| >= |Shown(StrokesOf(log))| + if VisibleOnce(log) then 0 else 1
  {
    if log != [] {
      var n := |log| - 1;
      SeenExactly(log[..n]);
      ShownTyping(log[n]);
      ShownAppend(SeenOf(log[..n]), Copies(log[n].stroke, log[n].copies));
      assert StrokesOf(log) == StrokesOf(log[..n]) + [log[n].stroke];
      ShownAppend(StrokesOf(log[..n]), [log[n].stroke]);
      assert VisibleOnce(log) <==>
        VisibleOnce(log[..n]) && (log[n].stroke == Stroke(0, 0) || log[n].copies == 1);
    }
  }

  lemma {:induction false} SuccessesAreOut(h: HidState, events: seq<Event>)
    requires |h.keys| == 6 && forall e :: e in events ==> IsEvent(e) && Succeeds(e)
    ensures var p := PortOf(h, events);
            && !p.held && AllOut(p.log) && StrokesOf(p.log) == Sent(events)
            && (VisibleOnce(p.log) <==> NeverDoubles(h, events))
  {
    if events != [] {
      var n := |events| - 1;
      SuccessesAreOut(h, events[..n]);
      var log, e := PortOf(h, events[..n]).log, events[n];
      assert IsEvent(e) && Succeeds(e);
      if e.Keystroke? {
        DoublesExactly(RunEvents(h, events[..n]).0, e);
        var t := Typing(Stroke(e.key, e.mod), WaitingReports(RunEvents(h, events[..n]).0, e) + 1);
        assert PortOf(h, events) == Port(log + [t], false) && Sent(events) == Sent(events[..n]) + [t.stroke];
        LongerLog(log, t);
      }
    }
  }

  lemma LongerLog(log: seq<Typing>, t: Typing)
    requires t.copies >= 1 && AllOut(log)
    ensures AllOut(log + [t]) && StrokesOf(log + [t]) == StrokesOf(log) + [t.stroke]
    ensures VisibleOnce(log + [t]) <==> VisibleOnce(log) && (t.stroke == Stroke(0, 0) || t.copies == 1)
  {
    assert forall i :: 0 <= i < |log| ==> (log + [t])[i] == log[i];
    assert (log + [t])[|log|] == t;
  }

  // Over any run of successful keypresses and interrupts, every key is released in between; and the
  // host sees the strokes sent and nothing else exactly if the press of no visible stroke waits long
  // enough for an idle report.
  lemma HostSeesStrokes(h: HidState, events: seq<Event>)
    requires OneKey(h) && Held(h) == Stroke(0, 0) && forall e :: e in events ==> IsEvent(e) && Succeeds(e)
    ensures var (g, reports) := RunEvents(h, events);
            && OneKey(g) && Held(g) == Stroke(0, 0) && AllWellFormed(reports)
            && (HostView(reports) == Shown(Sent(events)) <==> NeverDoubles(h, events))
  {
    HostSeesLog(h, events);
    SuccessesAreOut(h, events);
    SeenExactly(PortOf(h, events).log);
  }

  // Such a report doubles the stroke: with an idle rate of one frame, one eligible frame is enough.
  lemma IdleReportDoubles(key: byte, mod: byte)
    requires key != 0 || mod != 0
    ensures var h := INITIAL.(configuration := 1, idleConfig := 1);
            var e := Keystroke(key, mod, [Frame(true, false, true)], true, [], true);
            var reports := RunEvents(h, [e]).1;
            AllWellFormed(reports) && HostView(reports) == [Stroke(key, mod), Stroke(key, mod)]
  {
    var h, s := INITIAL.(configuration := 1, idleConfig := 1), Stroke(key, mod);
    var e := Keystroke(key, mod, [Frame(true, false, true)], true, [], true);
    HostSeesLog(h, [e]);
    RunOne(Pressed(h, key, mod), Frame(true, false, true));
    assert [e][..0] == [];
    assert PortOf(h, [e]).log == [Typing(s, 2)];
    assert [Typing(s, 2)][..0] == [] && SeenOf([Typing(s, 2)]) == [] + Copies(s, 2);
    AllShown(s, 2);
    assert Copies(s, 2) == [s, s];
  }
}
