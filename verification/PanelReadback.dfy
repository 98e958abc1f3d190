// The layers, the LED multiplexing and the decoder together: after an event and one refresh of the
// panel, what is read off the pins is what the reference shows.
module PanelReadback {
  import opened Types
  import opened Leds
  import opened LedScan
  import opened Reference
  import opened Layers
  import PropertyTest

  function PanelOf(d: Decoded): Panel
    requires d.high0 < 16 && d.low0 < 16 && d.high1 < 16 && d.low1 < 16
  {
    Panel(d.high0 * 16 + d.low0, d.high1 * 16 + d.low1, d.r, d.g, d.b, d.prog)
  }

  function Plainly(on: bool): Led { Set(if on then ON else OFF) }

  // The LED state plainly shows a panel.
  predicate ShowsPlainly(v: LedView, p: Panel) {
    v == v.(bank0 := p.bank0, bank1 := p.bank1, r := Plainly(p.r), g := Plainly(p.g), b := Plainly(p.b),
            prog := Plainly(p.prog))
  }

  lemma PlainImage(v: LedView, p: Panel, blinkOn: bool)
    requires ShowsPlainly(v, p)
    ensures var d := Image(v, blinkOn);
            d.high0 < 16 && d.low0 < 16 && d.high1 < 16 && d.low1 < 16 && PanelOf(d) == p
  {}

  // Scanning does not wear a plain panel off.
  lemma PlainScan(v: LedView, p: Panel, row: Row, blinkOn: bool)
    requires ShowsPlainly(v, p)
    ensures ShowsPlainly(ScanLeds(v, row, blinkOn), p)
  {}

  lemma {:induction false} PlainStays(v: LedView, p: Panel, next: Row, n: nat, blinkOn: bool)
    requires ShowsPlainly(v, p)
    ensures ShowsPlainly(Scanned(v, next, n, blinkOn), p)
  {
    if n > 0 {
      PlainStays(v, p, next, n - 1, blinkOn);
      PlainScan(Scanned(v, next, n - 1, blinkOn), p, RowAfter(next, n - 1), blinkOn);
    }
  }

  // One scan in the timer interrupt changes nothing that the layers can see.
  method Scan(board: LayerController, leds: LedController)
    requires board.Running() && leds.Valid() && leds.state == board.led
    modifies leds`nextScanLine, leds.pins, leds.pins.simulator, board.led
    ensures board.Running() && leds.Valid() && board.Observe() == old(board.Observe())
  {
    ghost var v, m := leds.state.View(), board.Abstract();
    ghost var row, blinkOn := RowAt(leds.nextScanLine), BlinkOn(leds.blinkStatus);
    leds.ScanNextLine();
    assert board.Abstract() == m;
    if Visible(m) {
      PlainScan(v, Show(m), row, blinkOn);
    }
  }

  // What the pins show, read through the decoder after a full refresh.
  ghost predicate Reads(board: LayerController, decoded: Decoded)
    requires board.Valid()
    reads board, board.dflt, board.r, board.g, board.b, board.led, board.usb, board.storage, board.storage.internal,
          board.storage.internal.cells, board.storage.ext0, board.storage.ext0.cells, board.storage.ext1,
          board.storage.ext1.cells, board.storage.wire
  {
    Visible(board.Abstract()) ==>
      && decoded.high0 < 16 && decoded.low0 < 16 && decoded.high1 < 16 && decoded.low1 < 16
      && PanelOf(decoded) == Show(board.Abstract())
  }

  // One event of the property test, with the panel read off the pins: it is what the board shows, be
  // the event the step or lost, whatever the external EEPROMs and the USB port do.
  method PressAndRead(board: LayerController, leds: LedController, key: Keypress)
    returns (decoded: Decoded, ghost typed: seq<Stroke>, ghost took: bool)
    requires board.Running() && leds.Valid() && leds.state == board.led
    modifies board, board.Objects(), leds, leds.pins, leds.pins.simulator
    ensures board.Running() && leds.Valid()
    ensures PropertyTest.Told(old(board.Observe()), board.Observe(), key, took, typed)
    ensures Reads(board, decoded)
  {
    typed, took := Press(board, leds, key);
    decoded := ReadPanel(board, leds);
  }

  // Handling an event leaves the scan alone.
  method Press(board: LayerController, leds: LedController, key: Keypress)
    returns (ghost typed: seq<Stroke>, ghost took: bool)
    requires board.Running() && leds.Valid() && leds.state == board.led
    modifies board, board.Objects()
    ensures board.Running() && leds.Valid()
    ensures PropertyTest.Told(old(board.Observe()), board.Observe(), key, took, typed)
  {
    var strokes;
    strokes, took := PropertyTest.Handle(board, key);
    typed := strokes;
    assert unchanged(leds) && unchanged(leds.pins) && unchanged(leds.pins.simulator);
  }

  method ReadPanel(board: LayerController, leds: LedController) returns (decoded: Decoded)
    requires board.Running() && leds.Valid() && leds.state == board.led
    modifies leds, leds.pins, leds.pins.simulator, board.led
    ensures board.Running() && leds.Valid() && board.Observe() == old(board.Observe()) && Reads(board, decoded)
  {
    ghost var v, m, blinkOn := leds.state.View(), board.Abstract(), BlinkOn(leds.blinkStatus);
    Refresh(board, leds);
    decoded := leds.pins.simulator.View();
    if Visible(m) {
      PlainImage(v, Show(m), blinkOn);
    }
  }

  method Refresh(board: LayerController, leds: LedController)
    requires board.Running() && leds.Valid() && leds.state == board.led
    modifies leds, leds.pins, leds.pins.simulator, board.led
    ensures board.Running() && leds.Valid() && board.Observe() == old(board.Observe())
    ensures leds.pins.simulator.View() == Image(old(leds.state.View()), BlinkOn(old(leds.blinkStatus)))
  {
    ghost var v, m := leds.state.View(), board.Abstract();
    ghost var first, blinkOn := RowAt(leds.nextScanLine), BlinkOn(leds.blinkStatus);
    RefreshPanel(leds);
    assert board.Abstract() == m;
    if Visible(m) {
      PlainStays(v, Show(m), first, 5, blinkOn);
    }
  }
}
