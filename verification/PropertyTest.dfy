// The property test of the suite, for all keypress sequences instead of sampled ones: the whole
// firmware stack is driven next to the reference model and compared after every keypress. And the
// firmware on its own, whatever its external EEPROMs and its USB port do.
module PropertyTest {
  import opened Bytes
  import opened Types
  import opened Layout
  import opened Devices
  import opened Keycodes
  import opened Leds
  import opened Reference
  import opened WrittenReference
  import opened Comparison
  import opened ReferenceMachine
  import opened Storage
  import opened Layers

  // The events that took effect.
  function Kept(keys: seq<Keypress>, kept: seq<bool>): (heard: seq<Keypress>)
    requires |keys| == |kept|
    ensures |heard| <= |keys|
  {
    if keys == [] then []
    else
      var n := |keys| - 1;
      Kept(keys[..n], kept[..n]) + if kept[n] then [keys[n]] else []
  }

  lemma {:induction false} KeptAll(keys: seq<Keypress>, kept: seq<bool>)
    requires |keys| == |kept| && (forall i :: 0 <= i < |kept| ==> kept[i])
    ensures Kept(keys, kept) == keys
  {
    if keys != [] {
      var n := |keys| - 1;
      KeptAll(keys[..n], kept[..n]);
      assert keys[..n] + [keys[n]] == keys;
    }
  }

  // The board that the step function reaches by those of the first i events that took effect.
  function At(f: Fit, keys: seq<Keypress>, kept: seq<bool>, i: nat): Board
    requires i <= |keys| && i <= |kept|
  {
    After(f, Kept(keys[..i], kept[..i]))
  }

  lemma AtNext(f: Fit, keys: seq<Keypress>, kept: seq<bool>, i: nat)
    requires i < |keys| && i < |kept|
    ensures var before := At(f, keys, kept, i);
            At(f, keys, kept, i + 1) == if kept[i] then Apply(f, before, keys[i]).0 else before
  {
    assert keys[..i + 1][..i] == keys[..i] && kept[..i + 1][..i] == kept[..i];
    var heard := Kept(keys[..i], kept[..i]);
    if kept[i] {
      assert (heard + [keys[i]])[..|heard|] == heard;
    } else {
      assert heard + [] == heard;
    }
  }

  lemma AtStays(f: Fit, keys: seq<Keypress>, kept: seq<bool>, took: bool, i: nat)
    requires i <= |keys| && i <= |kept|
    ensures At(f, keys, kept + [took], i) == At(f, keys, kept, i)
  {
    assert (kept + [took])[..i] == kept[..i];
  }

  // ---- What a run shows ----

  predicate PanelRight(f: Fit, keys: seq<Keypress>, kept: seq<bool>, i: nat, panel: Panel)
    requires i < |keys| && i < |kept|
  {
    var after := At(f, keys, kept, i + 1); Visible(after) ==> panel == Show(after)
  }

  function Out(f: Fit, keys: seq<Keypress>, kept: seq<bool>, i: nat): seq<Stroke>
    requires i < |keys| && i < |kept|
  {
    Apply(f, At(f, keys, kept, i), keys[i]).1
  }

  function Flatten(parts: seq<seq<Stroke>>): seq<Stroke> {
    if parts == [] then [] else Flatten(parts[..|parts| - 1]) + parts[|parts| - 1]
  }

  lemma FlattenNext(parts: seq<seq<Stroke>>, part: seq<Stroke>)
    ensures Flatten(parts + [part]) == Flatten(parts) + part
  {
    assert (parts + [part])[..|parts|] == parts;
  }

  // An account of a run in terms of the step function: which events took effect, and what was left
  // over on the bus before each of them and after the last, up to the first event whose access it
  // misdirects. Only events that access an external EEPROM are lost. The panel is right throughout. Up
  // to the misdirected access each event types a prefix of what its step types. The host sees what is
  // typed, each stroke some number of times. With reliable devices every event takes effect, and what it
  // types is seen as it is typed.
  ghost predicate Account(f: Fit, keys: seq<Keypress>, kept: seq<bool>, buses: seq<Bus>, panels: seq<Panel>,
                          typed: seq<seq<Stroke>>)
  {
    && |kept| == |panels| == |typed| <= |keys| && 0 < |buses| <= |kept| + 1
    && PanelsRight(f, keys, kept, panels)
    && PrefixesTyped(f, keys, kept, |buses| - 1, typed)
    && LostOnlyIfTouched(f, keys, kept)
    && BusesRight(f, keys, kept, buses)
    && Stopped(f, keys, kept, buses)
  }

  // Only events that access an external EEPROM are lost.
  predicate LostOnlyIfTouched(f: Fit, keys: seq<Keypress>, kept: seq<bool>)
    requires |kept| <= |keys|
  {
    forall i :: 0 <= i < |kept| ==> kept[i] || Touched(At(f, keys, kept, i), keys[i]) != Neither
  }

  // Event i finds this left over, which does not misdirect it, and leaves that: nothing if it takes
  // effect on an external EEPROM.
  ghost predicate BusStep(f: Fit, keys: seq<Keypress>, kept: seq<bool>, i: nat, b: Bus, b': Bus)
    requires i < |keys| && i < |kept|
  {
    var m := At(f, keys, kept, i);
    Directed(m, keys[i], b) && Leaves(m, keys[i], kept[i], b, b')
  }

  ghost predicate BusesRight(f: Fit, keys: seq<Keypress>, kept: seq<bool>, buses: seq<Bus>)
    requires 0 < |buses| <= |kept| + 1 <= |keys| + 1
  {
    buses[0] == CLEAR && forall i :: 0 <= i < |buses| - 1 ==> BusStep(f, keys, kept, i, buses[i], buses[i + 1])
  }

  // If the account of what is typed ends early, it does so where it must.
  predicate Stopped(f: Fit, keys: seq<Keypress>, kept: seq<bool>, buses: seq<Bus>)
    requires 0 < |buses| <= |kept| + 1 <= |keys| + 1
  {
    var n := |buses| - 1;
    n < |kept| ==> !Directed(At(f, keys, kept, n), keys[n], buses[n])
  }

  predicate PanelsRight(f: Fit, keys: seq<Keypress>, kept: seq<bool>, panels: seq<Panel>)
    requires |panels| <= |kept| <= |keys|
  {
    forall i :: 0 <= i < |panels| ==> PanelRight(f, keys, kept, i, panels[i])
  }

  predicate PrefixesTyped(f: Fit, keys: seq<Keypress>, kept: seq<bool>, n: nat, typed: seq<seq<Stroke>>)
    requires n <= |typed| <= |kept| <= |keys|
  {
    forall i :: 0 <= i < n ==> typed[i] <= Out(f, keys, kept, i)
  }

  // Every event took effect and typed what its step types.
  predicate Exactly(f: Fit, keys: seq<Keypress>, kept: seq<bool>, typed: seq<seq<Stroke>>) {
    && |kept| == |typed| <= |keys|
    && forall i :: 0 <= i < |kept| ==> kept[i] && typed[i] == Out(f, keys, kept, i)
  }

  ghost predicate Explained(f: Fit, keys: seq<Keypress>, panels: seq<Panel>, typed: seq<seq<Stroke>>,
                            screen: seq<Stroke>, reliable: bool)
  {
    exists kept: seq<bool>, buses: seq<Bus> :: Explains(f, keys, kept, buses, panels, typed, screen, reliable)
  }

  ghost predicate Explains(f: Fit, keys: seq<Keypress>, kept: seq<bool>, buses: seq<Bus>, panels: seq<Panel>,
                           typed: seq<seq<Stroke>>, screen: seq<Stroke>, reliable: bool)
  {
    && Account(f, keys, kept, buses, panels, typed) && |kept| == |keys|
    && Stammers(screen, Flatten(typed))
    && (reliable ==> |buses| == |keys| + 1 && Exactly(f, keys, kept, typed) && screen == Flatten(typed))
  }

  // ---- The firmware, one event at a time ----

  method ErasedStorage(f: Fit, usb: UsbPort, script0: seq<Breakage>, script1: seq<Breakage>)
    returns (storage: StorageController)
    ensures fresh(storage) && fresh(storage.Devices()) && storage.Valid() && storage.usb == usb && storage.Fit() == f
    ensures storage.tables == Tables(seq(256, _ => 0), seq(256, _ => []), seq(BLOB_COUNT, _ => []))
    ensures storage.internal.Reliable() && storage.wire.View() == CLEAR
    ensures storage.ext0.script == script0 && storage.ext1.script == script1
  {
    var internal := new Eeprom.Erased(1024, []);
    var wire := new Wire();
    var ext0 := new ExternalEeprom.Erased(65536, wire, First, true, script0);
    var ext1 := new ExternalEeprom.Erased(65536, wire, Second, f.BothEeproms?, script1);
    ErasedIsEmpty(Image(internal.cells[..], ext0.cells[..], ext1.cells[..]));
    storage := new StorageController(usb, internal, ext0, ext1);
  }

  // A board with erased EEPROMs. The external EEPROMs and the USB port may fail as they like.
  method PowerOn(f: Fit, script0: seq<Breakage>, script1: seq<Breakage>, scriptUsb: seq<Sending>)
    returns (board: LayerController)
    ensures fresh(board) && fresh(board.Objects()) && board.Running()
    ensures board.Abstract() == Initial() && board.usb.log == [] && board.storage.Fit() == f
    ensures board.storage.wire.View() == CLEAR
    ensures script0 == [] && script1 == [] && scriptUsb == [] ==> board.Observe().allReliable
  {
    var usb := new UsbPort(scriptUsb);
    var storage := ErasedStorage(f, usb, script0, script1);
    var led := new LedState();
    board := new LayerController(led, usb, storage);
  }

  // What an event is seen to do, given what could be observed before and after it.
  ghost predicate Told(a: Observation, b: Observation, key: Keypress, took: bool, typed: seq<Stroke>) {
    var (next, out) := Apply(a.fit, a.model, key);
    && b.fit == a.fit && b.typed == a.typed + typed
    && MatchBoard(Sure(a, key), if took then next else a.model, b.model) && (took || Touched(a.model, key) != Neither)
    && (Sure(a, key) ==> typed <= out && Leaves(a.model, key, took, a.bus, b.bus))
    && (a.allReliable ==> b.allReliable && a.bus.left.Quiet() && took && typed == out)
  }

  // What an event that was not misdirected leaves over: nothing, if it took effect on an external EEPROM.
  ghost predicate Leaves(m: Board, key: Keypress, took: bool, before: Bus, after: Bus) {
    BusAfter(m, key, before, after, true) && (took && Touched(m, key) != Neither ==> after.left.Quiet())
  }

  predicate Took(a: Observation, b: Observation, key: Keypress) {
    && MatchBoard(Sure(a, key), Apply(a.fit, a.model, key).0, b.model)
    && (Sure(a, key) && Touched(a.model, key) != Neither ==> b.bus.left.Quiet())
  }

  lemma AllowedIsTold(a: Observation, b: Observation, key: Keypress, ok: bool)
    requires a.internalReliable && a.coherent && StepAllowed(a, b, key, ok)
    requires a.allReliable ==> a.bus.left.Quiet()
    requires b.allReliable ==> b.bus.left.Quiet()
    ensures Told(a, b, key, Took(a, b, key), b.typed[|a.typed|..])
  {
    if a.allReliable {
      QuietIsSure(a, key);
    }
  }

  lemma ReliableIsQuiet(board: LayerController)
    requires board.Valid()
    ensures var a := board.Observe(); a.allReliable ==> a.bus.left.Quiet() && board.usb.Seen() == a.typed
  {
    if board.usb.Reliable() {
      OnceIsSeen(board.usb.log);
    }
  }

  lemma LitIsShown(board: LayerController)
    requires board.Running()
    ensures Visible(board.Abstract()) ==> board.led.Lit() == Show(board.Abstract())
  {}

  method IdleFirst(board: LayerController, idle: nat)
    requires board.Running()
    modifies board.usb`log
    ensures board.Running() && board.Observe() == old(board.Observe())
  {
    board.usb.IdleReports(idle);
  }

  // One event on a coherent board, after any number of idle reports. The output is what the host
  // has seen since; it is meant for ports that keep up.
  method PlayEvent(board: LayerController, key: Keypress, idle: nat)
    returns (panel: Panel, typed: seq<Stroke>, output: seq<Stroke>, ghost took: bool)
    requires board.Running()
    modifies board, board.Objects()
    ensures board.Running() && Told(old(board.Observe()), board.Observe(), key, took, typed)
    ensures Visible(board.Abstract()) ==> panel == Show(board.Abstract())
    ensures old(board.Observe()).allReliable ==> output == typed
  {
    ReliableIsQuiet(board);
    var seen := |board.usb.Seen()|;
    typed, took := HandleAfterIdle(board, key, idle);
    ReliableIsQuiet(board);
    output := Since(board.usb.Seen(), seen);
    panel := board.led.Lit();
    LitIsShown(board);
  }

  function Since(screen: seq<Stroke>, seen: nat): seq<Stroke> {
    if seen <= |screen| then screen[seen..] else []
  }

  method HandleAfterIdle(board: LayerController, key: Keypress, idle: nat)
    returns (typed: seq<Stroke>, ghost took: bool)
    requires board.Running()
    modifies board, board.Objects()
    ensures board.Running() && Told(old(board.Observe()), board.Observe(), key, took, typed)
  {
    IdleFirst(board, idle);
    typed, took := Handle(board, key);
  }

  method Handle(board: LayerController, key: Keypress) returns (typed: seq<Stroke>, ghost took: bool)
    requires board.Running()
    modifies board, board.Objects()
    ensures board.Running() && Told(old(board.Observe()), board.Observe(), key, took, typed)
  {
    ghost var a := board.Observe();
    ReliableIsQuiet(board);
    var sent := |board.usb.Typed()|;
    var ok := board.HandleEvent(key);
    ReliableIsQuiet(board);
    typed := board.usb.Typed()[sent..];
    AllowedIsTold(a, board.Observe(), key, ok);
    took := Took(a, board.Observe(), key);
  }

  // ---- The firmware, along a run ----

  // The board after the events accounted for so far: where the step function is, exactly so while none
  // was misdirected.
  predicate OnAccount(f: Fit, keys: seq<Keypress>, kept: seq<bool>, buses: seq<Bus>, obs: Observation)
    requires 0 < |buses| <= |kept| + 1 <= |keys| + 1
  {
    var exactly := |buses| == |kept| + 1;
    && obs.fit == f
    && MatchBoard(exactly, At(f, keys, kept, |kept|), obs.model)
    && (exactly ==> obs.bus == buses[|kept|])
  }

  // What was said of earlier events still holds.
  lemma PanelsStay(f: Fit, keys: seq<Keypress>, kept: seq<bool>, took: bool, panels: seq<Panel>)
    requires |panels| <= |kept| < |keys| && PanelsRight(f, keys, kept, panels)
    ensures PanelsRight(f, keys, kept + [took], panels)
  {
    forall i: nat | i < |panels| ensures PanelRight(f, keys, kept + [took], i, panels[i]) {
      assert PanelRight(f, keys, kept, i, panels[i]);
      AtStays(f, keys, kept, took, i + 1);
    }
  }

  lemma PrefixesStay(f: Fit, keys: seq<Keypress>, kept: seq<bool>, took: bool, n: nat, typed: seq<seq<Stroke>>,
                     strokes: seq<Stroke>)
    requires n <= |typed| <= |kept| < |keys| && PrefixesTyped(f, keys, kept, n, typed)
    ensures PrefixesTyped(f, keys, kept + [took], n, typed + [strokes])
  {
    forall i: nat | i < n ensures typed[i] <= Out(f, keys, kept + [took], i) {
      AtStays(f, keys, kept, took, i);
      assert typed[i] <= Out(f, keys, kept, i);
    }
  }

  lemma BusesStay(f: Fit, keys: seq<Keypress>, kept: seq<bool>, took: bool, buses: seq<Bus>)
    requires 0 < |buses| <= |kept| + 1 <= |keys| && BusesRight(f, keys, kept, buses)
    ensures BusesRight(f, keys, kept + [took], buses)
  {
    forall i: nat | i < |buses| - 1 ensures BusStep(f, keys, kept + [took], i, buses[i], buses[i + 1]) {
      AtStays(f, keys, kept, took, i);
      assert BusStep(f, keys, kept, i, buses[i], buses[i + 1]);
    }
  }

  // The account of the bus goes on until an event is misdirected.
  function Further(buses: seq<Bus>, i: nat, a: Observation, b: Observation, key: Keypress): (further: seq<Bus>)
    ensures |buses| <= |further| <= |buses| + 1
  {
    if |buses| == i + 1 && Sure(a, key) then buses + [b.bus] else buses
  }

  lemma AlikeTrans(m: Board, m': Board, m'': Board)
    requires Alike(m, m') && Alike(m', m'')
    ensures Alike(m, m'')
  {}

  // Where the step function goes, the board follows.
  lemma Follows(r: Board, exactly: bool, a: Observation, b: Observation, key: Keypress, took: bool, typed: seq<Stroke>)
    requires MatchBoard(exactly, r, a.model) && Told(a, b, key, took, typed)
    ensures MatchBoard(exactly && Sure(a, key), if took then Apply(a.fit, r, key).0 else r, b.model)
  {
    if !(exactly && Sure(a, key)) {
      AlikeStep(a.fit, r, a.model, key);
      AlikeTrans(if took then Apply(a.fit, r, key).0 else r,
                 if took then Apply(a.fit, a.model, key).0 else a.model, b.model);
    }
  }

  // One more event keeps the board on account.
  lemma StaysOnAccount(f: Fit, keys: seq<Keypress>, kept: seq<bool>, buses: seq<Bus>, a: Observation, b: Observation,
                       took: bool, typed: seq<Stroke>)
    requires 0 < |buses| <= |kept| + 1 <= |keys| && OnAccount(f, keys, kept, buses, a)
    requires Told(a, b, keys[|kept|], took, typed)
    ensures OnAccount(f, keys, kept + [took], Further(buses, |kept|, a, b, keys[|kept|]), b)
  {
    var i, now, key := |kept|, kept + [took], keys[|kept|];
    AtStays(f, keys, kept, took, i);
    AtNext(f, keys, now, i);
    Follows(At(f, keys, kept, i), |buses| == i + 1, a, b, key, took, typed);
  }

  // One more event is accounted for.
  lemma Accounted(f: Fit, keys: seq<Keypress>, kept: seq<bool>, buses: seq<Bus>, panels: seq<Panel>,
                  typed: seq<seq<Stroke>>, a: Observation, b: Observation, took: bool, panel: Panel,
                  strokes: seq<Stroke>)
    requires Account(f, keys, kept, buses, panels, typed) && |kept| < |keys| && OnAccount(f, keys, kept, buses, a)
    requires Told(a, b, keys[|kept|], took, strokes)
    requires Alike(At(f, keys, kept + [took], |kept| + 1), b.model) && (Visible(b.model) ==> panel == Show(b.model))
    ensures Account(f, keys, kept + [took], Further(buses, |kept|, a, b, keys[|kept|]), panels + [panel],
                    typed + [strokes])
  {
    PanelsNext(f, keys, kept, took, panels, b.model, panel);
    PrefixesNext(f, keys, kept, took, buses, typed, a, b, strokes);
    LostNext(f, keys, kept, took, a);
    BusesNext(f, keys, kept, took, buses, a, b);
    StopsRightly(f, keys, kept, buses, a, b, took);
  }

  lemma PanelsNext(f: Fit, keys: seq<Keypress>, kept: seq<bool>, took: bool, panels: seq<Panel>, m: Board, panel: Panel)
    requires |panels| == |kept| < |keys| && PanelsRight(f, keys, kept, panels)
    requires Alike(At(f, keys, kept + [took], |kept| + 1), m) && (Visible(m) ==> panel == Show(m))
    ensures PanelsRight(f, keys, kept + [took], panels + [panel])
  {
    PanelsStay(f, keys, kept, took, panels);
    AlikeShow(At(f, keys, kept + [took], |kept| + 1), m);
    assert PanelRight(f, keys, kept + [took], |kept|, panel);
  }

  lemma PrefixesNext(f: Fit, keys: seq<Keypress>, kept: seq<bool>, took: bool, buses: seq<Bus>, typed: seq<seq<Stroke>>,
                     a: Observation, b: Observation, strokes: seq<Stroke>)
    requires 0 < |buses| <= |kept| + 1 <= |keys| && |typed| == |kept|
    requires PrefixesTyped(f, keys, kept, |buses| - 1, typed)
    requires OnAccount(f, keys, kept, buses, a)
    requires Sure(a, keys[|kept|]) ==> strokes <= Apply(f, a.model, keys[|kept|]).1
    ensures PrefixesTyped(f, keys, kept + [took], |Further(buses, |kept|, a, b, keys[|kept|])| - 1, typed + [strokes])
  {
    PrefixesStay(f, keys, kept, took, |buses| - 1, typed, strokes);
    AtStays(f, keys, kept, took, |kept|);
  }

  lemma BusesNext(f: Fit, keys: seq<Keypress>, kept: seq<bool>, took: bool, buses: seq<Bus>, a: Observation,
                  b: Observation)
    requires 0 < |buses| <= |kept| + 1 <= |keys| && BusesRight(f, keys, kept, buses)
    requires OnAccount(f, keys, kept, buses, a)
    requires Sure(a, keys[|kept|]) ==> Leaves(a.model, keys[|kept|], took, a.bus, b.bus)
    ensures BusesRight(f, keys, kept + [took], Further(buses, |kept|, a, b, keys[|kept|]))
  {
    var i, now := |kept|, kept + [took];
    BusesStay(f, keys, kept, took, buses);
    if |buses| == i + 1 && Sure(a, keys[i]) {
      AtStays(f, keys, kept, took, i);
      assert BusStep(f, keys, now, i, buses[i], b.bus);
      BusesGrow(f, keys, now, buses, b.bus);
    }
  }

  lemma LostNext(f: Fit, keys: seq<Keypress>, kept: seq<bool>, took: bool, a: Observation)
    requires |kept| < |keys| && LostOnlyIfTouched(f, keys, kept)
    requires Alike(At(f, keys, kept, |kept|), a.model) && (took || Touched(a.model, keys[|kept|]) != Neither)
    ensures LostOnlyIfTouched(f, keys, kept + [took])
  {
    var now := kept + [took];
    forall i: nat | i < |now| ensures now[i] || Touched(At(f, keys, now, i), keys[i]) != Neither {
      AtStays(f, keys, kept, took, i);
      if i < |kept| {
        assert kept[i] || Touched(At(f, keys, kept, i), keys[i]) != Neither;
      } else {
        AlikeTouched(At(f, keys, kept, i), a.model, keys[i]);
      }
    }
  }

  // Alike boards access the same devices.
  lemma AlikeTouched(m: Board, m': Board, k: Keypress)
    requires Alike(m, m')
    ensures Touched(m', k) == Touched(m, k)
  {}

  lemma BusesGrow(f: Fit, keys: seq<Keypress>, kept: seq<bool>, buses: seq<Bus>, b: Bus)
    requires 0 < |buses| <= |kept| <= |keys| && BusesRight(f, keys, kept, buses)
    requires BusStep(f, keys, kept, |buses| - 1, buses[|buses| - 1], b)
    ensures BusesRight(f, keys, kept, buses + [b])
  {
    var longer := buses + [b];
    forall i: nat | i < |buses| ensures BusStep(f, keys, kept, i, longer[i], longer[i + 1]) {
      assert i < |buses| - 1 ==> BusStep(f, keys, kept, i, buses[i], buses[i + 1]);
    }
  }

  lemma StopsRightly(f: Fit, keys: seq<Keypress>, kept: seq<bool>, buses: seq<Bus>, a: Observation, b: Observation,
                     took: bool)
    requires 0 < |buses| <= |kept| + 1 <= |keys| && OnAccount(f, keys, kept, buses, a) && Stopped(f, keys, kept, buses)
    ensures Stopped(f, keys, kept + [took], Further(buses, |kept|, a, b, keys[|kept|]))
  {
    var n := |buses| - 1;
    AtStays(f, keys, kept, took, n);
    if n == |kept| && !Sure(a, keys[n]) {
      assert !Directed(At(f, keys, kept, n), keys[n], buses[n]);
    }
  }

  lemma ExactlyNext(f: Fit, keys: seq<Keypress>, kept: seq<bool>, buses: seq<Bus>, typed: seq<seq<Stroke>>,
                    a: Observation, b: Observation, took: bool, strokes: seq<Stroke>)
    requires Exactly(f, keys, kept, typed) && |kept| < |keys|
    requires |buses| == |kept| + 1 && OnAccount(f, keys, kept, buses, a)
    requires Told(a, b, keys[|kept|], took, strokes) && a.allReliable
    ensures Exactly(f, keys, kept + [took], typed + [strokes])
    ensures |Further(buses, |kept|, a, b, keys[|kept|])| == |kept| + 2
  {
    var now := kept + [took];
    QuietIsSure(a, keys[|kept|]);
    AtStays(f, keys, kept, took, |kept|);
    forall i: nat | i < |kept| ensures now[i] && (typed + [strokes])[i] == Out(f, keys, now, i) {
      AtStays(f, keys, kept, took, i);
      assert kept[i] && typed[i] == Out(f, keys, kept, i);
    }
  }

  // A run is accounted for so far, and has brought the board here.
  ghost predicate AccountedAt(f: Fit, keys: seq<Keypress>, kept: seq<bool>, buses: seq<Bus>, panels: seq<Panel>,
                              typed: seq<seq<Stroke>>, reliable: bool, obs: Observation)
  {
    && Account(f, keys, kept, buses, panels, typed) && OnAccount(f, keys, kept, buses, obs)
    && obs.typed == Flatten(typed)
    && (reliable ==> obs.allReliable && |buses| == |kept| + 1 && Exactly(f, keys, kept, typed))
  }

  lemma PlaysOn(f: Fit, keys: seq<Keypress>, kept: seq<bool>, buses: seq<Bus>, panels: seq<Panel>,
                typed: seq<seq<Stroke>>, reliable: bool, a: Observation, b: Observation, took: bool, panel: Panel,
                strokes: seq<Stroke>)
    requires AccountedAt(f, keys, kept, buses, panels, typed, reliable, a) && |kept| < |keys|
    requires Told(a, b, keys[|kept|], took, strokes) && (Visible(b.model) ==> panel == Show(b.model))
    ensures AccountedAt(f, keys, kept + [took], Further(buses, |kept|, a, b, keys[|kept|]), panels + [panel],
                        typed + [strokes], reliable, b)
  {
    StaysOnAccount(f, keys, kept, buses, a, b, took, strokes);
    Accounted(f, keys, kept, buses, panels, typed, a, b, took, panel, strokes);
    FlattenNext(typed, strokes);
    if reliable {
      ExactlyNext(f, keys, kept, buses, typed, a, b, took, strokes);
    }
  }

  lemma AllowedPlaysOn(f: Fit, keys: seq<Keypress>, kept: seq<bool>, buses: seq<Bus>, panels: seq<Panel>,
                       typed: seq<seq<Stroke>>, reliable: bool, a: Observation, b: Observation, ok: bool, panel: Panel)
    requires AccountedAt(f, keys, kept, buses, panels, typed, reliable, a) && |kept| < |keys|
    requires a.internalReliable && a.coherent && StepAllowed(a, b, keys[|kept|], ok)
    requires (a.allReliable ==> a.bus.left.Quiet()) && (b.allReliable ==> b.bus.left.Quiet())
    requires Visible(b.model) ==> panel == Show(b.model)
    ensures var key := keys[|kept|];
            AccountedAt(f, keys, kept + [Took(a, b, key)], Further(buses, |kept|, a, b, key), panels + [panel],
                        typed + [b.typed[|a.typed|..]], reliable, b)
  {
    var key := keys[|kept|];
    AllowedIsTold(a, b, key, ok);
    PlaysOn(f, keys, kept, buses, panels, typed, reliable, a, b, Took(a, b, key), panel, b.typed[|a.typed|..]);
  }

  ghost predicate Playing(board: LayerController, f: Fit, keys: seq<Keypress>, kept: seq<bool>, buses: seq<Bus>,
                          panels: seq<Panel>, typed: seq<seq<Stroke>>, reliable: bool)
    reads board, board.dflt, board.r, board.g, board.b, board.led, board.usb, board.storage, board.storage.internal,
          board.storage.internal.cells, board.storage.ext0, board.storage.ext0.cells, board.storage.ext1,
          board.storage.ext1.cells, board.storage.wire
  {
    board.Running() && AccountedAt(f, keys, kept, buses, panels, typed, reliable, board.Observe())
  }

  method PlayOne(board: LayerController, f: Fit, keys: seq<Keypress>, ghost kept: seq<bool>, ghost buses: seq<Bus>,
                 ghost panels: seq<Panel>, ghost typed: seq<seq<Stroke>>, ghost reliable: bool, idle: nat, i: nat)
    returns (panel: Panel, strokes: seq<Stroke>, ghost took: bool, ghost further: seq<Bus>)
    requires i == |kept| < |keys| && Playing(board, f, keys, kept, buses, panels, typed, reliable)
    modifies board, board.Objects()
    ensures Playing(board, f, keys, kept + [took], further, panels + [panel], typed + [strokes], reliable)
  {
    ghost var a := board.Observe();
    var output;
    panel, strokes, output, took := PlayEvent(board, keys[i], idle);
    further := Further(buses, i, a, board.Observe(), keys[i]);
    PlaysOn(f, keys, kept, buses, panels, typed, reliable, a, board.Observe(), took, panel, strokes);
  }

  // The firmware played through a run, observed after every event.
  method Play(f: Fit, keys: seq<Keypress>, idle: seq<nat>, script0: seq<Breakage>, script1: seq<Breakage>,
              scriptUsb: seq<Sending>)
    returns (panels: seq<Panel>, typed: seq<seq<Stroke>>, screen: seq<Stroke>)
    ensures Explained(f, keys, panels, typed, screen, script0 == [] && script1 == [] && scriptUsb == [])
  {
    var board := PowerOn(f, script0, script1, scriptUsb);
    ghost var reliable := script0 == [] && script1 == [] && scriptUsb == [];
    ghost var kept: seq<bool>, buses: seq<Bus> := [], [CLEAR];
    panels, typed := [], [];
    var i := 0;
    while i < |keys|
      invariant 0 <= i == |kept| <= |keys| && fresh(board) && fresh(board.Objects())
      invariant Playing(board, f, keys, kept, buses, panels, typed, reliable)
    {
      ghost var took, further;
      var panel, strokes;
      panel, strokes, took, further := PlayOne(board, f, keys, kept, buses, panels, typed, reliable,
                                               if i < |idle| then idle[i] else 0, i);
      panels, typed := panels + [panel], typed + [strokes];
      kept, buses := kept + [took], further;
      i := i + 1;
    }
    ReliableIsQuiet(board);
    screen := board.usb.Seen();
    PortStammers(board.usb.log);
    assert Explains(f, keys, kept, buses, panels, typed, screen, reliable);
  }

  // ---- The comparison with the suite's reference ----

  // A report as the host handles it: all-zero ones are dropped, others print if they can.
  method PollHost(buffer: string, s: Stroke) returns (longer: string)
    ensures longer == buffer + Printed([s])
  {
    PrintedOne(s);
    longer := buffer;
    if s.mod != 0 || s.key != 0 {
      longer := HandleUsbOutput(buffer, s);
    }
  }

  method HandleUsbOutput(buffer: string, s: Stroke) returns (longer: string)
    ensures longer == buffer + Printed([s])
  {
    PrintedOne(s);
    var c := FromUsbKeycodes(s);
    longer := if Printable(c) then buffer + [c] else buffer;
  }

  method PrintAll(output: seq<Stroke>) returns (text: string)
    ensures text == Printed(output)
  {
    text := [];
    var i := 0;
    while i < |output|
      invariant 0 <= i <= |output| && text == Printed(output[..i])
    {
      assert output[..i] + [output[i]] == output[..i + 1];
      PrintedAppend(output[..i], [output[i]]);
      text := PollHost(text, output[i]);
      i := i + 1;
    }
    assert output[..i] == output;
  }

  // What is read off the device after event i, with devices that do not fail.
  predicate DeviceSays(f: Fit, keys: seq<Keypress>, i: nat, panel: Panel, text: string)
    requires i < |keys|
  {
    var m := After(f, keys[..i + 1]);
    (Visible(m) ==> panel == Show(m)) && text == Printed(Typed(f, keys[..i + 1]))
  }

  // What the reference says about event i.
  predicate ReferenceSays(keys: seq<Keypress>, i: nat, panel: Panel, text: string)
    requires i < |keys|
  {
    var t := AfterText(keys[..i + 1]);
    (VisibleText(t) ==> panel == ShowText(t)) && text == PrintedText(keys[..i + 1])
  }

  predicate AllDeviceSays(f: Fit, keys: seq<Keypress>, panels: seq<Panel>, texts: seq<string>) {
    |panels| == |texts| <= |keys| && forall i :: 0 <= i < |panels| ==> DeviceSays(f, keys, i, panels[i], texts[i])
  }

  predicate AllReferenceSays(keys: seq<Keypress>, panels: seq<Panel>, texts: seq<string>) {
    |panels| == |texts| <= |keys| && forall i :: 0 <= i < |panels| ==> ReferenceSays(keys, i, panels[i], texts[i])
  }

  // A board whose devices do not fail has got here.
  ghost predicate Has(board: LayerController, f: Fit, keys: seq<Keypress>)
    reads board, board.dflt, board.r, board.g, board.b, board.led, board.usb, board.storage, board.storage.internal,
          board.storage.internal.cells, board.storage.ext0, board.storage.ext0.cells, board.storage.ext1,
          board.storage.ext1.cells, board.storage.wire
  {
    && board.Running()
    && board.Observe().fit == f && board.Observe().allReliable && board.Observe().model == After(f, keys)
  }

  method DeviceEvent(f: Fit, keys: seq<Keypress>, i: nat, board: LayerController) returns (panel: Panel, text: string)
    requires i < |keys| && Has(board, f, keys[..i])
    modifies board, board.Objects()
    ensures Has(board, f, keys[..i + 1]) && DeviceSays(f, keys, i, panel, text)
  {
    ghost var a := board.Observe();
    ghost var took;
    var typed, output;
    panel, typed, output, took := PlayEvent(board, keys[i], 0);
    NextFromTold(f, keys, i, a, board.Observe(), took, typed);
    text := PrintAll(output);
  }

  lemma DeviceSaysNext(f: Fit, keys: seq<Keypress>, panels: seq<Panel>, texts: seq<string>, panel: Panel, text: string)
    requires AllDeviceSays(f, keys, panels, texts) && |panels| < |keys| && DeviceSays(f, keys, |panels|, panel, text)
    ensures AllDeviceSays(f, keys, panels + [panel], texts + [text])
  {}

  lemma ReferenceSaysNext(keys: seq<Keypress>, panels: seq<Panel>, texts: seq<string>, m: TextBoard, panel: Panel,
                          text: string)
    requires AllReferenceSays(keys, panels, texts) && |panels| < |keys|
    requires ApplyText(AfterText(keys[..|panels|]), keys[|panels|]) == (m, text)
    requires VisibleText(m) ==> panel == ShowText(m)
    ensures AllReferenceSays(keys, panels + [panel], texts + [text]) && AfterText(keys[..|panels| + 1]) == m
  {
    AfterTextNext(keys, |panels|);
    assert ReferenceSays(keys, |panels|, panel, text);
  }

  method ReliableBoard(f: Fit) returns (board: LayerController)
    ensures fresh(board) && fresh(board.Objects()) && Has(board, f, [])
  {
    board := PowerOn(f, [], [], []);
  }

  method PlayDevice(f: Fit, keys: seq<Keypress>) returns (panels: seq<Panel>, texts: seq<string>)
    ensures |panels| == |keys| && AllDeviceSays(f, keys, panels, texts)
  {
    var board := ReliableBoard(f);
    panels, texts := [], [];
    var i := 0;
    while i < |keys|
      invariant 0 <= i == |panels| <= |keys|
      invariant fresh(board) && fresh(board.Objects()) && Has(board, f, keys[..i])
      invariant AllDeviceSays(f, keys, panels, texts)
    {
      var panel, text := DeviceEvent(f, keys, i, board);
      DeviceSaysNext(f, keys, panels, texts, panel, text);
      panels, texts := panels + [panel], texts + [text];
      i := i + 1;
    }
  }

  lemma NextFromTold(f: Fit, keys: seq<Keypress>, i: nat, a: Observation, b: Observation, took: bool,
                     typed: seq<Stroke>)
    requires i < |keys| && a.fit == f && a.allReliable && a.model == After(f, keys[..i])
    requires Told(a, b, keys[i], took, typed)
    ensures b.fit == f && b.allReliable && b.model == After(f, keys[..i + 1]) && typed == Typed(f, keys[..i + 1])
  {
    AfterNext(f, keys, i);
  }

  method TellEvent(model: ThreeboardModel, key: Keypress) returns (panel: Panel, text: string)
    requires model.Ready()
    modifies model, model.dflt, model.r, model.g, model.b
    ensures model.Ready() && ApplyText(old(model.View()), key) == (model.View(), text)
    ensures VisibleText(model.View()) ==> panel == ShowText(model.View())
  {
    model.Apply(key);
    panel, text := model.GetStateSnapshot();
  }

  method PlayReference(keys: seq<Keypress>) returns (panels: seq<Panel>, texts: seq<string>)
    ensures |panels| == |keys| && AllReferenceSays(keys, panels, texts)
  {
    var model := new ThreeboardModel();
    panels, texts := [], [];
    var i := 0;
    while i < |keys|
      invariant 0 <= i == |panels| <= |keys| && AllReferenceSays(keys, panels, texts)
      invariant fresh(model) && fresh(model.dflt) && fresh(model.r) && fresh(model.g) && fresh(model.b)
      invariant model.Ready() && model.View() == AfterText(keys[..i])
    {
      var panel, text := TellEvent(model, keys[i]);
      ReferenceSaysNext(keys, panels, texts, model.View(), panel, text);
      panels, texts := panels + [panel], texts + [text];
      i := i + 1;
    }
  }

  // The test of the suite: device and reference are compared after every keypress.
  method DeviceStateProperty(f: Fit, keys: seq<Keypress>) returns (same: bool)
    requires AlwaysVisible(keys)
    ensures same <==> TestPasses(f, keys)
    ensures same <==> NeverNoticed(f, keys)
    ensures NeverParts(f, keys) ==> same
  {
    var devicePanels, deviceTexts := PlayDevice(f, keys);
    var modelPanels, modelTexts := PlayReference(keys);
    same := Compare(f, keys, devicePanels, deviceTexts, modelPanels, modelTexts);
    PassesExactly(f, keys);
    if NeverParts(f, keys) {
      NeverPartsPasses(f, keys);
    }
  }

  method Compare(ghost f: Fit, keys: seq<Keypress>, panels: seq<Panel>, texts: seq<string>,
                 panels': seq<Panel>, texts': seq<string>)
    returns (same: bool)
    requires AlwaysVisible(keys) && |panels| == |panels'| == |keys|
    requires AllDeviceSays(f, keys, panels, texts) && AllReferenceSays(keys, panels', texts')
    ensures same <==> TestPasses(f, keys)
  {
    same := true;
    for i := 0 to |keys|
      invariant same <==> SameBefore(f, keys, i)
    {
      ComparedNext(f, keys, i, panels, texts, panels', texts');
      same := same && panels[i] == panels'[i] && texts[i] == texts'[i];
    }
  }

  lemma ComparedNext(f: Fit, keys: seq<Keypress>, i: nat, panels: seq<Panel>, texts: seq<string>,
                     panels': seq<Panel>, texts': seq<string>)
    requires AlwaysVisible(keys) && i < |panels| == |panels'| == |keys|
    requires AllDeviceSays(f, keys, panels, texts) && AllReferenceSays(keys, panels', texts')
    ensures SameBefore(f, keys, i + 1) <==>
              SameBefore(f, keys, i) && panels[i] == panels'[i] && texts[i] == texts'[i]
  {
    assert DeviceSays(f, keys, i, panels[i], texts[i]) && ReferenceSays(keys, i, panels'[i], texts'[i]);
    VisiblePrefix(keys, i + 1);
    Compared(f, keys, i, panels[i], texts[i], panels'[i], texts'[i]);
    SameNext(f, keys, i);
  }

  lemma Compared(f: Fit, keys: seq<Keypress>, i: nat, panel: Panel, text: string, panel': Panel, text': string)
    requires i < |keys| && VisibleText(AfterText(keys[..i + 1]))
    requires DeviceSays(f, keys, i, panel, text) && ReferenceSays(keys, i, panel', text')
    ensures Same(f, keys, i) <==> panel == panel' && text == text'
  {
    ModesAgree(f, keys[..i + 1]);
  }
}
