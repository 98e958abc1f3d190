// The four layers and the controller that routes keypresses to the current one. Their joint
// abstraction is a board of the step function; one event of the firmware is one step of it.
module Layers {
  import opened Bytes
  import opened Types
  import opened Layout
  import opened Devices
  import opened Leds
  import opened Manual
  import opened Reference
  import opened Storage

  // What can be seen of the firmware between two events.
  datatype Observation = Observation(
    model: Board, fit: Fit, typed: seq<Stroke>, coherent: bool, internalReliable: bool, allReliable: bool,
    bus: Bus)

  predicate MatchG(exactly: bool, m: GModel, m': GModel) {
    if exactly then m' == m else AlikeG(m, m')
  }

  predicate MatchB(exactly: bool, m: BModel, m': BModel) {
    if exactly then m' == m else AlikeB(m, m')
  }

  predicate MatchBoard(exactly: bool, m: Board, m': Board) {
    if exactly then m' == m else Alike(m, m')
  }

  predicate CanDo(m: GModel, k: Keypress)
    requires |m.words| == 256
  {
    k == Z ==> if m.prog then |m.words[m.id]| < MAX_WORD else m.words[m.id] != []
  }

  // The firmware accepts an event unless it sends an empty word, appends to a full one, or ends on
  // a blob id that has no slot.
  predicate Accepted(f: Fit, m: Board, k: Keypress) {
    && Visible(Apply(f, m, k).0)
    && (m.current == G ==> CanDo(m.g, k))
  }

  // The event's first access to an external EEPROM, if any, reaches the cell it names.
  predicate Directed(m: Board, k: Keypress, b: Bus) {
    var d := Touched(m, k);
    d == Neither || LeftIn(b, d).Right(Aim(m, k))
  }

  predicate Sure(a: Observation, k: Keypress) {
    Directed(a.model, k, a.bus)
  }

  // What may be left over after an event: nothing, if it accessed an external EEPROM, or what a write
  // leaves that broke off, if it was to program one and was lost.
  ghost predicate BusAfter(m: Board, k: Keypress, before: Bus, after: Bus, lost: bool) {
    var d := Touched(m, k);
    if d == Neither then after == before
    else after == CLEAR || (lost && InProg(m) && BrokenBy(m.current, before, after, d, Aim(m, k)))
  }

  ghost predicate BrokenBy(layer: LayerId, before: Bus, after: Bus, d: Device, aim: nat) {
    if layer == B then PairBrokenOff(before, after, d, aim) else BrokenOff(before, after, d, aim)
  }

  // One event. Whatever the external EEPROMs and the USB port do, the event is the step or, if it accesses
  // an external EEPROM, it may be lost, up to what is stored there; and it leaves the panel and the caches
  // coherent. Exactly so, and typing a prefix of what the step types, unless what an earlier failure
  // has left over misdirects its access. With every device reliable it is the step.
  ghost predicate StepAllowed(a: Observation, b: Observation, k: Keypress, ok: bool) {
    var (next, out) := Apply(a.fit, a.model, k);
    && b.fit == a.fit && a.typed <= b.typed
    && (a.internalReliable ==> b.internalReliable)
    && (a.allReliable ==> b.allReliable)
    && (a.internalReliable && a.coherent ==>
          && b.coherent
          && (|| MatchBoard(Sure(a, k), next, b.model)
              || (Touched(a.model, k) != Neither && MatchBoard(Sure(a, k), a.model, b.model)))
          && (Sure(a, k) ==> b.typed <= a.typed + out && BusAfter(a.model, k, a.bus, b.bus, b.model == a.model)))
    && (a.allReliable && a.coherent ==>
          b.model == next && b.typed == a.typed + out && ok == Accepted(a.fit, a.model, k))
  }

  // So, key by key, an event that accesses no external EEPROM does what the manual says of it, typing a
  // prefix of what it says; and with reliable devices every event does.
  ghost predicate DoesAsSaid(a: Observation, b: Observation, k: Keypress) {
    && (a.internalReliable && a.coherent && Touched(a.model, k) == Neither ==>
          exists out :: Does(a.fit, a.model, k, b.model, out) && b.typed <= a.typed + out)
    && (a.allReliable && a.coherent ==>
          a.typed <= b.typed && Does(a.fit, a.model, k, b.model, b.typed[|a.typed|..]))
  }

  lemma AllowedDoes(a: Observation, b: Observation, k: Keypress, ok: bool)
    requires StepAllowed(a, b, k, ok)
    ensures DoesAsSaid(a, b, k)
  {
    var out := Apply(a.fit, a.model, k).1;
    KeyDoes(a.fit, a.model, k);
    assert (a.typed + out)[|a.typed|..] == out;
  }

  // What holds of the devices after an event in any layer.
  predicate Kept(a: Observation, b: Observation) {
    && b.fit == a.fit && a.typed <= b.typed
    && (a.internalReliable ==> b.internalReliable && (a.coherent ==> b.coherent))
    && (a.allReliable ==> a.internalReliable && a.bus.left.Quiet() && b.allReliable)
  }

  lemma QuietIsSure(a: Observation, k: Keypress)
    requires a.bus.left.Quiet()
    ensures Sure(a, k)
  {
    if Touched(a.model, k) != Neither {
      LandsRight(NOTHING, Aim(a.model, k));
    }
  }

  // A key, or the first half of a pair, whose write broke off can be programmed again unless the byte
  // itself had arrived.
  lemma RetryIsDirected(m: Board, k: Keypress, b: Bus, arrived: nat)
    requires Touched(m, k) != Neither && b.left.Quiet()
    ensures Directed(m, k, BrokenBus(b, Touched(m, k), Aim(m, k), arrived)) <==> arrived <= 3
  {
    RetryLands(b, Touched(m, k), Aim(m, k), arrived);
  }

  // A step of layer R alone is a step of the board.
  lemma StepOfR(a: Observation, b: Observation, k: Keypress, ok: bool)
    requires a.model.current == R && Kept(a, b) && b.bus == a.bus
    requires b.model == a.model.(current := b.model.current, r := b.model.r)
    requires a.internalReliable && a.coherent ==>
               var x := ApplyR(a.model.r, k);
               && b.model.current == (if x.leave then G else R) && b.model.r == x.next
               && b.typed <= a.typed + x.out
               && (a.allReliable ==> b.typed == a.typed + x.out && ok == Visible(b.model))
    ensures StepAllowed(a, b, k, ok)
  {}

  // A step of layer G alone is a step of the board.
  lemma StepOfG(a: Observation, b: Observation, k: Keypress, did: bool, ok: bool)
    requires a.model.current == G && Kept(a, b)
    requires b.model == a.model.(current := b.model.current, g := b.model.g, b := b.model.b)
    requires MatchB(Sure(a, k), a.model.b, b.model.b)
    requires a.internalReliable ==>
               var x := ApplyG(a.model.g, k);
               && b.model.current == (if x.leave then B else G) && (x.leave ==> did)
               && MatchG(Sure(a, k), if did then x.next else a.model.g, b.model.g)
               && (TouchedByG(a.model.g, k) == Neither ==> b.model.g == x.next)
               && (Sure(a, k) ==>
                     && b.typed <= a.typed + x.out
                     && BusAfterG(a.model.g, k, a.bus, b.bus, !x.leave && b.model.g == a.model.g))
               && (a.allReliable && a.coherent ==>
                     && b.model.g == x.next && b.typed == a.typed + x.out
                     && ok == if x.leave then Visible(b.model) else CanDo(a.model.g, k))
    ensures StepAllowed(a, b, k, ok)
  {}

  ghost predicate BusAfterG(m: GModel, k: Keypress, before: Bus, after: Bus, lost: bool)
    requires |m.words| == 256
  {
    if TouchedByG(m, k) == Neither then after == before
    else after == CLEAR || (lost && m.prog && BrokenOff(before, after, First, AimOfG(m)))
  }

  // A step of layer B alone is a step of the board.
  lemma StepOfB(a: Observation, b: Observation, k: Keypress, ok: bool)
    requires a.model.current == B && Kept(a, b)
    requires b.model == a.model.(current := b.model.current, g := b.model.g, b := b.model.b)
    requires MatchG(Sure(a, k), a.model.g, b.model.g)
    requires a.internalReliable ==>
               var x := ApplyB(a.fit, a.model.b, k);
               && b.model.current == (if x.leave then DFLT else B)
               && (|| MatchB(Sure(a, k), x.next, b.model.b)
                   || (TouchedByB(a.model.b, k) != Neither && MatchB(Sure(a, k), a.model.b, b.model.b)))
               && (Sure(a, k) ==>
                     && b.typed <= a.typed + x.out
                     && BusAfterB(a.model.b, k, a.bus, b.bus, !x.leave && b.model.b == a.model.b))
               && (a.allReliable && a.coherent ==>
                     b.model.b == x.next && b.typed == a.typed + x.out && ok == Visible(b.model))
    ensures StepAllowed(a, b, k, ok)
  {}

  ghost predicate BusAfterB(m: BModel, k: Keypress, before: Bus, after: Bus, lost: bool)
    requires |m.blobs| == BLOB_COUNT
  {
    var d := TouchedByB(m, k);
    if d == Neither then after == before
    else after == CLEAR || (lost && m.prog && PairBrokenOff(before, after, d, AimOfB(m)))
  }

  method UpdateLedState(led: LedState, layer: LayerId, prog: bool, bank0: byte, bank1: byte)
    modifies led
    ensures led.Shows(Panel(bank0, bank1, layer == R, layer == G, layer == B, prog))
    ensures led.err == old(led.err) && led.status == old(led.status)
  {
    led.r, led.g, led.b := Set(OFF), Set(OFF), Set(OFF);
    match layer {
      case DFLT =>
      case R => led.r := Set(ON);
      case G => led.g := Set(ON);
      case B => led.b := Set(ON);
    }
    led.bank0 := bank0;
    led.bank1 := bank1;
    led.prog := Set(if prog then ON else OFF);
  }

  // ERR tells whether the keypress got through.
  method SendToHost(led: LedState, usb: UsbPort, key: byte, mod: byte) returns (ghost success: bool)
    modifies led`err, usb
    ensures SendEffect(old(usb.View()), usb.View(), Stroke(key, mod), success)
    ensures led.err == Set(if success then OFF else ON)
    ensures usb.Typed() == old(usb.Typed()) + [Stroke(key, mod)]
    ensures old(usb.Reliable()) ==> usb.Reliable() && success
  {
    var sent := usb.SendKeypress(key, mod);
    success := sent;
    led.err := Set(if sent then OFF else ON);
  }

  // Each layer handles an event in two parts: Act is the chain of key cases, and Refresh brings
  // the panel up to date afterwards. Act reports failure, or that the board should move on.

  class DefaultLayer {
    var bank0: byte
    var bank1: byte

    constructor ()
      ensures bank0 == bank1 == 0
    {
      bank0, bank1 := 0, 0;
    }

    ghost function Abstract(): DfltModel
      reads this
    {
      DfltModel(bank0, bank1)
    }

    method Act(keypress: Keypress, led: LedState, usb: UsbPort) returns (leave: bool)
      modifies this, led`err, usb
      ensures var out := old(DfltSends(Abstract(), keypress));
              && DfltKeys(old(Abstract()), keypress, Abstract(), leave)
              && old(usb.Typed()) <= usb.Typed() <= old(usb.Typed()) + out
              && (old(usb.Reliable()) ==> usb.Reliable() && usb.Typed() == old(usb.Typed()) + out)
    {
      leave := false;
      match keypress {
        case X => bank0 := Inc(bank0);
        case Y => bank1 := Inc(bank1);
        case Z => var _ := SendToHost(led, usb, bank0, bank1);
        case XZ => bank0 := 0;
        case YZ => bank1 := 0;
        case XYZ => leave := true;
        case _ =>
      }
    }

    method HandleEvent(keypress: Keypress, board: LayerController) returns (ok: bool)
      requires board.Valid() && board.dflt == this && board.current == DFLT
      modifies this, board`current, board.led, board.usb, board.storage.internal
      ensures board.Valid() && board.StepInDflt(keypress, ok)
    {
      ghost var before := Abstract();
      var leave := Act(keypress, board.led, board.usb);
      DfltStepKeys(before, keypress, Abstract(), leave);
      if leave {
        ok := board.SwitchToLayer(R);
      } else {
        UpdateLedState(board.led, DFLT, false, bank0, bank1);
        ok := true;
      }
    }

    method TransitionedToLayer(led: LedState) returns (ok: bool)
      modifies led
      ensures ok && led.Shows(Panel(bank0, bank1, false, false, false, false))
    {
      UpdateLedState(led, DFLT, false, bank0, bank1);
      ok := true;
    }
  }

  class LayerR {
    var shortcutId: byte
    var modcode: byte
    var currentProgChar: byte
    var prog: bool

    constructor ()
      ensures shortcutId == modcode == currentProgChar == 0 && !prog
    {
      shortcutId, modcode, currentProgChar, prog := 0, 0, 0, false;
    }

    ghost function Abstract(chars: seq<byte>): RModel
      reads this
    {
      RModel(shortcutId, modcode, prog, chars)
    }

    // The character that is sent under the current id and mod code.
    method SendCurrent(led: LedState, usb: UsbPort, storage: StorageController) returns (ok: bool)
      requires storage.Valid()
      modifies led`err, usb, storage.internal
      ensures old(usb.Typed()) <= usb.Typed()
      ensures old(storage.internal.Reliable()) ==>
                var out := [Stroke(storage.tables.chars[shortcutId], modcode)];
                && ok && storage.internal.Reliable() && usb.Typed() == old(usb.Typed()) + out
      ensures old(usb.Reliable()) ==> usb.Reliable()
    {
      var character: byte;
      ok, character := storage.GetCharacterShortcut(shortcutId);
      if ok {
        var _ := SendToHost(led, usb, character, modcode);
      }
    }

    // Incrementing stores the cached character plus one, so it is the step only while
    // the cache is the stored character.
    method Act(keypress: Keypress, led: LedState, usb: UsbPort, storage: StorageController)
      returns (ok: bool, leave: bool)
      requires storage.Valid()
      modifies this, led`err, usb, storage`tables, storage.internal, storage.internal.cells
      ensures storage.Valid() && storage.tables == old(storage.tables).(chars := storage.tables.chars)
      ensures old(usb.Typed()) <= usb.Typed()
      ensures old(storage.internal.Reliable())
              && (old(prog) ==> old(currentProgChar) == old(storage.tables).chars[old(shortcutId)]) ==>
                var before := old(Abstract(storage.tables.chars));
                && storage.internal.Reliable() && ok
                && RKeys(before, keypress, Abstract(storage.tables.chars), leave)
                && old(usb.Typed()) <= usb.Typed() <= old(usb.Typed()) + RSends(before, keypress)
                && (old(usb.Reliable()) ==> usb.Typed() == old(usb.Typed()) + RSends(before, keypress))
      ensures old(storage.internal.Reliable()) ==> storage.internal.Reliable()
      ensures old(usb.Reliable()) ==> usb.Reliable()
    {
      if prog {
        ok := ActInProg(keypress, storage);
        leave := false;
      } else {
        ok, leave := ActInDflt(keypress, led, usb, storage);
      }
    }

    // The key cases in program mode.
    method ActInProg(keypress: Keypress, storage: StorageController) returns (ok: bool)
      requires storage.Valid() && prog
      modifies this, storage`tables, storage.internal, storage.internal.cells
      ensures storage.Valid() && storage.tables == old(storage.tables).(chars := storage.tables.chars)
      ensures old(storage.internal.Reliable() && currentProgChar == storage.tables.chars[shortcutId]) ==>
                ok && RKeys(old(Abstract(storage.tables.chars)), keypress, Abstract(storage.tables.chars), false)
      ensures old(storage.internal.Reliable()) ==> storage.internal.Reliable()
    {
      ok := true;
      match keypress {
        case X =>
          ok := storage.SetCharacterShortcut(shortcutId, Inc(currentProgChar));
          if ok {
            currentProgChar := Inc(currentProgChar);
          }
        case Y => shortcutId := Inc(shortcutId);
        case XZ => ok := storage.SetCharacterShortcut(shortcutId, 0);
        case YZ => shortcutId := 0;
        case XYZ => prog := false;
        case _ =>
      }
    }

    // The key cases outside program mode.
    method ActInDflt(keypress: Keypress, led: LedState, usb: UsbPort, storage: StorageController)
      returns (ok: bool, leave: bool)
      requires storage.Valid() && !prog
      modifies this, led`err, usb, storage.internal
      ensures old(usb.Typed()) <= usb.Typed()
      ensures old(storage.internal.Reliable()) ==>
                var before := old(Abstract(storage.tables.chars));
                && storage.internal.Reliable() && ok
                && RKeys(before, keypress, Abstract(storage.tables.chars), leave)
                && usb.Typed() == old(usb.Typed()) + RSends(before, keypress)
      ensures old(usb.Reliable()) ==> usb.Reliable()
    {
      ok, leave := true, false;
      match keypress {
        case X => shortcutId := Inc(shortcutId);
        case Y => modcode := Inc(modcode);
        case Z => ok := SendCurrent(led, usb, storage);
        case XY => prog := true;
        case XZ => shortcutId := 0;
        case YZ => modcode := 0;
        case XYZ => leave := true;
        case _ =>
      }
    }

    method Refresh(led: LedState, storage: StorageController) returns (ok: bool)
      requires storage.Valid()
      modifies this`currentProgChar, led, storage.internal
      ensures old(storage.internal.Reliable()) ==>
                && storage.internal.Reliable() && ok
                && (prog ==> currentProgChar == storage.tables.chars[shortcutId])
                && led.Shows(ShowR(Abstract(storage.tables.chars)))
    {
      if prog {
        var character: byte;
        ok, character := storage.GetCharacterShortcut(shortcutId);
        if !ok {
          return;
        }
        currentProgChar := character;
        UpdateLedState(led, R, prog, currentProgChar, shortcutId);
      } else {
        UpdateLedState(led, R, prog, shortcutId, modcode);
      }
      ok := true;
    }

    method HandleEvent(keypress: Keypress, board: LayerController) returns (ok: bool)
      requires board.Valid() && board.r == this && board.current == R
      modifies this, board`current, board.led, board.usb,
               board.storage`tables, board.storage.internal, board.storage.internal.cells
      ensures board.Valid() && board.StepInR(keypress, ok)
    {
      var leave: bool;
      ghost var before := Abstract(board.storage.tables.chars);
      ok, leave := Act(keypress, board.led, board.usb, board.storage);
      RStepKeys(before, keypress, Abstract(board.storage.tables.chars), leave);
      if !ok {
        return;
      }
      ok := Settle(leave, board);
    }

    // The end of an event: the switch to the next layer, or the panel.
    method Settle(leave: bool, board: LayerController) returns (ok: bool)
      requires board.Valid() && board.r == this && board.current == R
      modifies this`currentProgChar, board`current, board.led, board.storage.internal
      ensures board.Valid()
      ensures old(board.storage.internal.Reliable()) ==>
                && board.storage.internal.Reliable()
                && (if leave then board.Arrived(G, ok) && unchanged(`currentProgChar)
                    else ok && board.current == R && board.led.Shows(ShowR(Abstract(board.storage.tables.chars)))
                         && (prog ==> currentProgChar == board.storage.tables.chars[shortcutId]))
    {
      if leave {
        ok := board.SwitchToLayer(G);
      } else {
        ok := Refresh(board.led, board.storage);
      }
    }

    method TransitionedToLayer(led: LedState) returns (ok: bool)
      modifies led
      ensures ok && led.Shows(Panel(shortcutId, modcode, true, false, false, prog))
    {
      UpdateLedState(led, R, prog, shortcutId, modcode);
      ok := true;
    }
  }

  class LayerG {
    var shortcutId: byte
    var wordModCode: byte
    var keyCode: byte
    var prog: bool

    constructor ()
      ensures shortcutId == wordModCode == keyCode == 0 && !prog
    {
      shortcutId, wordModCode, keyCode, prog := 0, 0, 0, false;
    }

    ghost function Abstract(words: seq<seq<byte>>): GModel
      reads this
    {
      GModel(shortcutId, wordModCode, keyCode, prog, words)
    }

    // The event's first access to the external EEPROM, if any, reaches the cell it names.
    ghost predicate Exact(keypress: Keypress, storage: StorageController)
      requires |storage.tables.words| == 256
      reads this, storage, storage.wire
    {
      var m := Abstract(storage.tables.words);
      TouchedByG(m, keypress) == Neither || LeftIn(storage.wire.View(), First).Right(AimOfG(m))
    }

    // Fails, with nothing changed, on sending an empty word or appending to a full one.
    method Act(keypress: Keypress, usb: UsbPort, storage: StorageController) returns (ok: bool, leave: bool)
      requires storage.Valid() && storage.usb == usb
      modifies this, usb, storage`tables, storage.internal, storage.internal.cells, storage.ext0, storage.ext0.cells,
               storage.wire
      ensures storage.Valid() && old(usb.Typed()) <= usb.Typed()
      ensures var exactly := old(Exact(keypress, storage));
              Match(exactly, old(storage.tables).(words := storage.tables.words), storage.tables)
      ensures old(storage.internal.Reliable()) ==>
                var before, after := old(Abstract(storage.tables.words)), Abstract(storage.tables.words);
                var a, exactly := ApplyG(before, keypress), old(Exact(keypress, storage));
                && storage.internal.Reliable() && leave == a.leave && (leave ==> ok)
                && MatchG(exactly, if ok then a.next else before, after)
                && (TouchedByG(before, keypress) == Neither ==> after == a.next)
                && (exactly ==>
                      && usb.Typed() <= old(usb.Typed()) + a.out && (ok ==> usb.Typed() == old(usb.Typed()) + a.out)
                      && BusAfterG(before, keypress, old(storage.wire.View()), storage.wire.View(), after == before))
      ensures old(storage.Reliable()) && old(usb.Reliable()) ==>
                var before := old(Abstract(storage.tables.words));
                var a := ApplyG(before, keypress);
                && storage.Reliable()
                && Abstract(storage.tables.words) == a.next && usb.Typed() == old(usb.Typed()) + a.out
                && (ok <==> CanDo(before, keypress))
      ensures old(usb.Reliable()) ==> usb.Reliable()
    {
      ok, leave := true, false;
      match keypress {
        case X =>
          if prog {
            keyCode := Inc(keyCode);
          } else {
            shortcutId := Inc(shortcutId);
          }
        case Y =>
          if !prog {
            wordModCode := Inc(wordModCode);
          }
        case Z =>
          if prog {
            ok := storage.AppendToWordShortcut(shortcutId, keyCode);
          } else {
            ok := storage.SendWordShortcut(shortcutId, wordModCode);
          }
        case XY =>
          if !prog {
            prog := true;
          }
        case XZ =>
          if prog {
            keyCode := 0;
          } else {
            shortcutId := 0;
          }
        case YZ =>
          if prog {
            ok := storage.ClearWordShortcut(shortcutId);
          } else {
            wordModCode := 0;
          }
        case XYZ =>
          if !prog {
            leave := true;
          } else {
            prog := false;
          }
        case _ =>
      }
    }

    method Refresh(led: LedState, storage: StorageController) returns (ok: bool)
      requires storage.Valid()
      modifies led, storage.internal
      ensures old(storage.internal.Reliable()) ==>
                storage.internal.Reliable() && ok && led.Shows(ShowG(Abstract(storage.tables.words)))
    {
      var length: byte;
      ok, length := storage.GetWordShortcutLength(shortcutId);
      if !ok {
        return;
      }
      if prog {
        UpdateLedState(led, G, prog, keyCode, Low8(length * 16));
      } else {
        UpdateLedState(led, G, prog, shortcutId, PackBank(length, wordModCode));
      }
    }

    method HandleEvent(keypress: Keypress, board: LayerController) returns (ok: bool)
      requires board.Valid() && board.g == this && board.current == G
      modifies this, board`current, board.led, board.usb, board.storage`tables,
               board.storage.internal, board.storage.internal.cells, board.storage.ext0, board.storage.ext0.cells,
               board.storage.wire
      ensures board.Valid() && board.StepInG(keypress, ok)
    {
      var leave: bool;
      ok, leave := Act(keypress, board.usb, board.storage);
      if !ok {
        return;
      }
      if leave {
        ok := board.SwitchToLayer(B);
      } else {
        ok := Refresh(board.led, board.storage);
      }
    }

    method TransitionedToLayer(led: LedState, storage: StorageController) returns (ok: bool)
      requires storage.Valid()
      modifies led, storage.internal
      ensures old(storage.internal.Reliable()) ==> ok && storage.internal.Reliable()
      ensures ok ==> led.Shows(Panel(shortcutId, PackBank(|storage.tables.words[shortcutId]|, wordModCode),
                                     false, true, false, prog))
    {
      var length: byte;
      ok, length := storage.GetWordShortcutLength(shortcutId);
      if !ok {
        return;
      }
      UpdateLedState(led, G, prog, shortcutId, PackBank(length, wordModCode));
    }
  }

  class LayerB {
    var shortcutId: byte
    var keyCode: byte
    var modcode: byte
    var prog: bool

    constructor ()
      ensures shortcutId == keyCode == modcode == 0 && !prog
    {
      shortcutId, keyCode, modcode, prog := 0, 0, 0, false;
    }

    ghost function Abstract(blobs: seq<seq<Stroke>>): BModel
      reads this
    {
      BModel(shortcutId, keyCode, modcode, prog, blobs)
    }

    ghost predicate Exact(keypress: Keypress, storage: StorageController)
      requires |storage.tables.blobs| == BLOB_COUNT
      reads this, storage, storage.wire
    {
      var m := Abstract(storage.tables.blobs);
      var d := TouchedByB(m, keypress);
      d == Neither || LeftIn(storage.wire.View(), d).Right(AimOfB(m))
    }

    // Z in either mode. The results of the storage operations are ignored here.
    method Commit(usb: UsbPort, storage: StorageController)
      requires storage.Valid() && storage.usb == usb
      modifies usb, storage`tables, storage.internal, storage.internal.cells,
               storage.ExtOf(shortcutId), storage.ExtOf(shortcutId).cells, storage.wire
      ensures storage.Valid() && old(usb.Typed()) <= usb.Typed()
      ensures Match(old(Exact(Z, storage)), old(storage.tables).(blobs := storage.tables.blobs), storage.tables)
      ensures old(storage.internal.Reliable()) ==>
                var before, after := old(Abstract(storage.tables.blobs)), Abstract(storage.tables.blobs);
                var a, exactly := ApplyB(storage.Fit(), before, Z), old(Exact(Z, storage));
                && storage.internal.Reliable()
                && (|| MatchB(exactly, a.next, after)
                    || (TouchedByB(before, Z) != Neither && MatchB(exactly, before, after)))
                && (exactly ==>
                      && usb.Typed() <= old(usb.Typed()) + a.out
                      && BusAfterB(before, Z, old(storage.wire.View()), storage.wire.View(), after == before))
      ensures old(storage.Reliable()) && old(usb.Reliable()) ==>
                var before := old(Abstract(storage.tables.blobs));
                var a := ApplyB(storage.Fit(), before, Z);
                && storage.Reliable()
                && Abstract(storage.tables.blobs) == a.next && usb.Typed() == old(usb.Typed()) + a.out
      ensures old(usb.Reliable()) ==> usb.Reliable()
    {
      if prog {
        var _ := storage.AppendToBlobShortcut(shortcutId, keyCode, modcode);
      } else {
        var _ := storage.SendBlobShortcut(shortcutId);
      }
    }

    method Act(keypress: Keypress, usb: UsbPort, storage: StorageController) returns (leave: bool)
      requires storage.Valid() && storage.usb == usb
      modifies this, usb, storage`tables, storage.internal, storage.internal.cells,
               storage.ext0, storage.ext0.cells, storage.ext1, storage.ext1.cells, storage.wire
      ensures storage.Valid() && old(usb.Typed()) <= usb.Typed()
      ensures var exactly := old(Exact(keypress, storage));
              Match(exactly, old(storage.tables).(blobs := storage.tables.blobs), storage.tables)
      ensures old(storage.internal.Reliable()) ==>
                var before, after := old(Abstract(storage.tables.blobs)), Abstract(storage.tables.blobs);
                var a, exactly := ApplyB(storage.Fit(), before, keypress), old(Exact(keypress, storage));
                && storage.internal.Reliable() && leave == a.leave
                && (|| MatchB(exactly, a.next, after)
                    || (TouchedByB(before, keypress) != Neither && MatchB(exactly, before, after)))
                && (exactly ==>
                      && usb.Typed() <= old(usb.Typed()) + a.out
                      && BusAfterB(before, keypress, old(storage.wire.View()), storage.wire.View(), after == before))
      ensures old(storage.Reliable()) && old(usb.Reliable()) ==>
                var before := old(Abstract(storage.tables.blobs));
                var a := ApplyB(storage.Fit(), before, keypress);
                && storage.Reliable()
                && Abstract(storage.tables.blobs) == a.next && usb.Typed() == old(usb.Typed()) + a.out
      ensures old(usb.Reliable()) ==> usb.Reliable()
    {
      leave := false;
      match keypress {
        case X =>
          if prog {
            keyCode := Inc(keyCode);
          } else {
            shortcutId := Inc(shortcutId);
          }
        case Y =>
          if prog {
            modcode := Inc(modcode);
          }
        case Z =>
          Commit(usb, storage);
        case XY =>
          if prog {
            var _ := storage.ClearBlobShortcut(shortcutId);
          } else {
            prog := true;
          }
        case XZ =>
          if prog {
            keyCode := 0;
          } else {
            shortcutId := 0;
          }
        case YZ =>
          if prog {
            modcode := 0;
          }
        case XYZ =>
          if prog {
            prog := false;
          } else {
            leave := true;
          }
        case _ =>
      }
    }

    method Refresh(led: LedState, storage: StorageController) returns (ok: bool)
      requires storage.Valid()
      modifies led, storage.internal
      ensures old(storage.internal.Reliable()) ==>
                var m := Abstract(storage.tables.blobs);
                storage.internal.Reliable() && ok == VisibleB(m) && (ok ==> led.Shows(ShowB(m)))
    {
      if prog {
        UpdateLedState(led, B, prog, keyCode, modcode);
        ok := true;
      } else {
        ok := TransitionedToLayer(led, storage);
      }
    }

    method HandleEvent(keypress: Keypress, board: LayerController) returns (ok: bool)
      requires board.Valid() && board.b == this && board.current == B
      modifies this, board`current, board.led, board.usb, board.storage`tables,
               board.storage.internal, board.storage.internal.cells, board.storage.ext0, board.storage.ext0.cells,
               board.storage.ext1, board.storage.ext1.cells, board.storage.wire
      ensures board.Valid() && board.StepInB(keypress, ok)
    {
      var leave := Act(keypress, board.usb, board.storage);
      if leave {
        ok := board.SwitchToLayer(DFLT);
      } else {
        ok := Refresh(board.led, board.storage);
      }
    }

    method TransitionedToLayer(led: LedState, storage: StorageController) returns (ok: bool)
      requires storage.Valid()
      modifies led, storage.internal
      ensures old(storage.internal.Reliable()) ==> storage.internal.Reliable() && ok == (shortcutId < BLOB_COUNT)
      ensures ok ==> shortcutId < BLOB_COUNT
                     && led.Shows(Panel(shortcutId, |storage.tables.blobs[shortcutId]|, false, false, true, prog))
    {
      var length: byte;
      ok, length := storage.GetBlobShortcutLength(shortcutId);
      if !ok {
        return;
      }
      UpdateLedState(led, B, prog, shortcutId, length);
    }
  }

  class LayerController {
    const dflt: DefaultLayer
    const r: LayerR
    const g: LayerG
    const b: LayerB
    const led: LedState
    const usb: UsbPort
    const storage: StorageController
    var current: LayerId

    constructor (led: LedState, usb: UsbPort, storage: StorageController)
      requires storage.Valid() && storage.usb == usb
      ensures Valid() && current == DFLT
      ensures dflt.Abstract() == DfltModel(0, 0)
      ensures r.Abstract(storage.tables.chars) == RModel(0, 0, false, storage.tables.chars)
      ensures g.Abstract(storage.tables.words) == GModel(0, 0, 0, false, storage.tables.words)
      ensures b.Abstract(storage.tables.blobs) == BModel(0, 0, 0, false, storage.tables.blobs)
      ensures this.led == led && this.usb == usb && this.storage == storage
      ensures fresh(dflt) && fresh(r) && fresh(g) && fresh(b)
    {
      this.led, this.usb, this.storage := led, usb, storage;
      dflt := new DefaultLayer();
      r := new LayerR();
      g := new LayerG();
      b := new LayerB();
      current := DFLT;
    }

    ghost function Objects(): set<object> {
      {dflt, r, g, b, led, usb, storage, storage.internal, storage.internal.cells,
       storage.ext0, storage.ext0.cells, storage.ext1, storage.ext1.cells, storage.wire}
    }

    ghost predicate Valid()
      reads storage, storage.internal.cells, storage.ext0.cells, storage.ext1.cells, storage.wire
    {
      storage.Valid() && storage.usb == usb
    }

    ghost function Abstract(): Board
      reads this, dflt, r, g, b, led, usb, storage, storage.internal, storage.internal.cells,
            storage.ext0, storage.ext0.cells, storage.ext1, storage.ext1.cells, storage.wire
      requires Valid()
    {
      Model(current, dflt.Abstract(), r.Abstract(storage.tables.chars),
            g.Abstract(storage.tables.words), b.Abstract(storage.tables.blobs))
    }

    // The cached character of layer R, the program-mode discipline, and the panel.
    ghost predicate Coherent()
      reads this, dflt, r, g, b, led, usb, storage, storage.internal, storage.internal.cells,
            storage.ext0, storage.ext0.cells, storage.ext1, storage.ext1.cells, storage.wire
      requires Valid()
    {
      && (r.prog ==> r.currentProgChar == storage.tables.chars[r.shortcutId])
      && OnlyCurrentInProg(Abstract())
      && (Visible(Abstract()) ==> led.Shows(Show(Abstract())))
    }

    // The state between events of a board whose internal EEPROM works.
    ghost predicate Running()
      reads this, dflt, r, g, b, led, usb, storage, storage.internal, storage.internal.cells,
            storage.ext0, storage.ext0.cells, storage.ext1, storage.ext1.cells, storage.wire
    {
      Valid() && Coherent() && storage.internal.Reliable()
    }

    ghost function Observe(): Observation
      reads this, dflt, r, g, b, led, usb, storage, storage.internal, storage.internal.cells,
            storage.ext0, storage.ext0.cells, storage.ext1, storage.ext1.cells, storage.wire
      requires Valid()
    {
      Observation(Abstract(), storage.Fit(), usb.Typed(), Coherent(), storage.internal.Reliable(),
                  storage.Reliable() && usb.Reliable(), storage.wire.View())
    }

    // The board has switched to a layer, and shows it unless it has nothing to show.
    ghost predicate Arrived(layer: LayerId, ok: bool)
      reads this, dflt, r, g, b, led, usb, storage, storage.internal, storage.internal.cells,
            storage.ext0, storage.ext0.cells, storage.ext1, storage.ext1.cells, storage.wire
      requires Valid()
    {
      && current == layer
      && (!r.prog && !g.prog && !b.prog ==> ok == Visible(Abstract()) && (ok ==> led.Shows(Show(Abstract()))))
    }

    twostate predicate StepInG(k: Keypress, ok: bool)
      reads this, dflt, r, g, b, led, usb, storage, storage.internal, storage.internal.cells,
            storage.ext0, storage.ext0.cells, storage.ext1, storage.ext1.cells, storage.wire
      requires old(Valid()) && Valid()
    {
      var before, after := old(g.Abstract(storage.tables.words)), g.Abstract(storage.tables.words);
      var a, exactly := ApplyG(before, k), old(g.Exact(k, storage));
      && Match(exactly, old(storage.tables).(words := storage.tables.words), storage.tables)
      && old(usb.Typed()) <= usb.Typed()
      && (old(storage.internal.Reliable()) ==>
            && storage.internal.Reliable()
            && (if a.leave then after == a.next && Arrived(B, ok)
                else unchanged(`current) && MatchG(exactly, if ok then a.next else before, after)
                     && (if ok then led.Shows(ShowG(after)) else unchanged(led)))
            && (TouchedByG(before, k) == Neither ==> after == a.next)
            && (exactly ==>
                  && usb.Typed() <= old(usb.Typed()) + a.out
                  && BusAfterG(before, k, old(storage.wire.View()), storage.wire.View(), !a.leave && after == before)))
      && (old(storage.Reliable() && usb.Reliable()) ==>
            && storage.Reliable() && usb.Reliable()
            && after == a.next && usb.Typed() == old(usb.Typed()) + a.out
            && (!a.leave ==> ok == CanDo(before, k)))
    }

    twostate predicate StepInDflt(k: Keypress, ok: bool)
      reads this, dflt, r, g, b, led, usb, storage, storage.internal, storage.internal.cells,
            storage.ext0, storage.ext0.cells, storage.ext1, storage.ext1.cells, storage.wire
      requires old(Valid()) && Valid()
    {
      var a := ApplyDflt(old(dflt.Abstract()), k);
      && (old(storage.internal.Reliable()) ==>
            storage.internal.Reliable() && dflt.Abstract() == a.next
            && (if a.leave then Arrived(R, ok) else ok && unchanged(`current) && led.Shows(ShowDflt(a.next))))
      && old(usb.Typed()) <= usb.Typed() <= old(usb.Typed()) + a.out
      && (old(usb.Reliable()) ==> usb.Reliable() && usb.Typed() == old(usb.Typed()) + a.out)
    }

    twostate predicate StepInR(k: Keypress, ok: bool)
      reads this, dflt, r, g, b, led, usb, storage, storage.internal, storage.internal.cells,
            storage.ext0, storage.ext0.cells, storage.ext1, storage.ext1.cells, storage.wire
      requires old(Valid()) && Valid()
    {
      var before := old(r.Abstract(storage.tables.chars));
      var after := r.Abstract(storage.tables.chars);
      var a := ApplyR(before, k);
      && storage.tables == old(storage.tables).(chars := storage.tables.chars) && old(usb.Typed()) <= usb.Typed()
      && (old(storage.internal.Reliable()) ==> storage.internal.Reliable())
      && (old(usb.Reliable()) ==> usb.Reliable())
      && (old(storage.internal.Reliable()) && (before.prog ==> old(r.currentProgChar) == before.chars[before.id]) ==>
            && after == a.next
            && (if a.leave then Arrived(G, ok) else ok && unchanged(`current) && led.Shows(ShowR(after)))
            && (after.prog ==> r.currentProgChar == after.chars[after.id])
            && old(usb.Typed()) <= usb.Typed() <= old(usb.Typed()) + a.out
            && (old(usb.Reliable()) ==> usb.Typed() == old(usb.Typed()) + a.out))
    }

    twostate predicate StepInB(k: Keypress, ok: bool)
      reads this, dflt, r, g, b, led, usb, storage, storage.internal, storage.internal.cells,
            storage.ext0, storage.ext0.cells, storage.ext1, storage.ext1.cells, storage.wire
      requires old(Valid()) && Valid()
    {
      var before, after := old(b.Abstract(storage.tables.blobs)), b.Abstract(storage.tables.blobs);
      var a, exactly := ApplyB(storage.Fit(), before, k), old(b.Exact(k, storage));
      && Match(exactly, old(storage.tables).(blobs := storage.tables.blobs), storage.tables)
      && old(usb.Typed()) <= usb.Typed()
      && (old(storage.internal.Reliable()) ==>
            && storage.internal.Reliable()
            && (|| MatchB(exactly, a.next, after)
                || (TouchedByB(before, k) != Neither && MatchB(exactly, before, after)))
            && (if a.leave then Arrived(DFLT, ok)
                else unchanged(`current) && ok == VisibleB(after) && (ok ==> led.Shows(ShowB(after))))
            && (exactly ==>
                  && usb.Typed() <= old(usb.Typed()) + a.out
                  && BusAfterB(before, k, old(storage.wire.View()), storage.wire.View(), !a.leave && after == before)))
      && (old(storage.Reliable() && usb.Reliable()) ==>
            storage.Reliable() && usb.Reliable() && after == a.next && usb.Typed() == old(usb.Typed()) + a.out)
    }

    method SwitchToLayer(layer: LayerId) returns (ok: bool)
      requires Valid()
      modifies this`current, led, storage.internal
      ensures Valid() && current == layer
      ensures old(storage.internal.Reliable()) ==> storage.internal.Reliable()
      ensures old(storage.internal.Reliable()) ==> Arrived(layer, ok)
    {
      current := layer;
      match layer {
        case DFLT => ok := dflt.TransitionedToLayer(led);
        case R => ok := r.TransitionedToLayer(led);
        case G => ok := g.TransitionedToLayer(led, storage);
        case B => ok := b.TransitionedToLayer(led, storage);
      }
    }

    method HandleInDflt(keypress: Keypress) returns (ok: bool)
      requires Valid() && current == DFLT
      modifies this`current, dflt, led, usb, storage.internal
      ensures Valid() && StepAllowed(old(Observe()), Observe(), keypress, ok)
    {
      ok := dflt.HandleEvent(keypress, this);
    }

    method StepR(keypress: Keypress) returns (ok: bool)
      requires Valid() && current == R
      modifies this`current, r, led, usb, storage`tables, storage.internal, storage.internal.cells
      ensures Valid() && StepInR(keypress, ok)
      ensures old(Coherent()) && old(storage.internal.Reliable()) ==> Coherent()
    {
      ok := r.HandleEvent(keypress, this);
    }

    method HandleInR(keypress: Keypress) returns (ok: bool)
      requires Valid() && current == R
      modifies this`current, r, led, usb, storage`tables, storage.internal, storage.internal.cells
      ensures Valid() && StepAllowed(old(Observe()), Observe(), keypress, ok)
    {
      ghost var a := Observe();
      ok := StepR(keypress);
      StepOfR(a, Observe(), keypress, ok);
    }

    method StepG(keypress: Keypress) returns (ok: bool)
      requires Valid() && current == G
      modifies this`current, g, led, usb, storage`tables, storage.internal, storage.internal.cells,
               storage.ext0, storage.ext0.cells, storage.wire
      ensures Valid() && StepInG(keypress, ok)
      ensures old(Coherent()) && old(storage.internal.Reliable()) ==> Coherent()
    {
      ok := g.HandleEvent(keypress, this);
    }

    method HandleInG(keypress: Keypress) returns (ok: bool)
      requires Valid() && current == G
      modifies this`current, g, led, usb, storage`tables, storage.internal, storage.internal.cells,
               storage.ext0, storage.ext0.cells, storage.wire
      ensures Valid() && StepAllowed(old(Observe()), Observe(), keypress, ok)
    {
      ghost var a := Observe();
      ok := StepG(keypress);
      ghost var leave := ApplyG(a.model.g, keypress).leave;
      StepOfG(a, Observe(), keypress, ok || leave, ok);
    }

    method StepB(keypress: Keypress) returns (ok: bool)
      requires Valid() && current == B
      modifies this`current, b, led, usb, storage`tables, storage.internal, storage.internal.cells,
               storage.ext0, storage.ext0.cells, storage.ext1, storage.ext1.cells, storage.wire
      ensures Valid() && StepInB(keypress, ok)
      ensures old(Coherent()) && old(storage.internal.Reliable()) ==> Coherent()
    {
      ok := b.HandleEvent(keypress, this);
    }

    method HandleInB(keypress: Keypress) returns (ok: bool)
      requires Valid() && current == B
      modifies this`current, b, led, usb, storage`tables, storage.internal, storage.internal.cells,
               storage.ext0, storage.ext0.cells, storage.ext1, storage.ext1.cells, storage.wire
      ensures Valid() && StepAllowed(old(Observe()), Observe(), keypress, ok)
    {
      ghost var a := Observe();
      ok := StepB(keypress);
      StepOfB(a, Observe(), keypress, ok);
    }

    method HandleEvent(keypress: Keypress) returns (ok: bool)
      requires Valid()
      modifies this`current, dflt, r, g, b, led, usb, storage`tables, storage.internal, storage.internal.cells,
               storage.ext0, storage.ext0.cells, storage.ext1, storage.ext1.cells, storage.wire
      ensures Valid() && StepAllowed(old(Observe()), Observe(), keypress, ok)
      ensures DoesAsSaid(old(Observe()), Observe(), keypress)
    {
      ghost var a := Observe();
      ok := HandleInLayer(keypress);
      AllowedDoes(a, Observe(), keypress, ok);
    }

    method HandleInLayer(keypress: Keypress) returns (ok: bool)
      requires Valid()
      modifies this`current, dflt, r, g, b, led, usb, storage`tables, storage.internal, storage.internal.cells,
               storage.ext0, storage.ext0.cells, storage.ext1, storage.ext1.cells, storage.wire
      ensures Valid() && StepAllowed(old(Observe()), Observe(), keypress, ok)
    {
      match current {
        case DFLT => ok := HandleInDflt(keypress);
        case R => ok := HandleInR(keypress);
        case G => ok := HandleInG(keypress);
        case B => ok := HandleInB(keypress);
      }
    }
  }
}
