// LED multiplexing: the controller drives one of five rows per scan, and the simulator's decoder
// reads the panel back from the pin writes it observes.
module LedScan {
  import opened Bytes
  import opened Leds

  // The pins of the panel, by port. A port value is the set of its pins that are high, and a mask
  // is a set of pins.
  datatype Pin = PB4 | PB5 | PB6 | PC6 | PD4 | PD6 | PD7 | PF0 | PF1 | PF4 | PF5

  // The rows in scan order, by the pin that powers them.
  datatype Row = Row0 | Row1 | Row2 | Row3 | Row4 {
    function Pin(): Pin {
      match this case Row0 => PD7 case Row1 => PB4 case Row2 => PD6 case Row3 => PD4 case Row4 => PB5
    }

    function Next(): Row {
      match this case Row0 => Row1 case Row1 => Row2 case Row2 => Row3 case Row3 => Row4 case Row4 => Row0
    }
  }

  function RowAt(line: nat): Row
    requires line < 5
  {
    if line == 0 then Row0 else if line == 1 then Row1 else if line == 2 then Row2 else if line == 3 then Row3 else Row4
  }

  // The pins that power the rows, in the order in which they are scanned.
  lemma RowsInOrder(line: nat)
    requires line < 5
    ensures RowAt(line).Pin() == [PD7, PB4, PD6, PD4, PB5][line] && RowAt((line + 1) % 5) == RowAt(line).Next()
  {}

  predicate RowsLow(p: set<Pin>) {
    PD7 !in p && PB4 !in p && PD6 !in p && PD4 !in p && PB5 !in p
  }

  // At most this row is lit.
  predicate OnlyRow(p: set<Pin>, row: Row) {
    && (PD7 in p ==> row == Row0) && (PB4 in p ==> row == Row1) && (PD6 in p ==> row == Row2)
    && (PD4 in p ==> row == Row3) && (PB5 in p ==> row == Row4)
  }

  // No two rows are lit at once, nor STATUS (PB6) and ERR (PC6), which share a pair of pins.
  predicate NoGhost(p: set<Pin>) {
    && (OnlyRow(p, Row0) || OnlyRow(p, Row1) || OnlyRow(p, Row2) || OnlyRow(p, Row3) || OnlyRow(p, Row4))
    && (PB6 !in p || PC6 !in p)
  }

  lemma NoGhostMeansOneRow(p: set<Pin>, i: Row, j: Row)
    requires NoGhost(p) && i.Pin() in p && j.Pin() in p
    ensures i == j
  {}

  predicate SameRows(p: set<Pin>, q: set<Pin>) {
    && (PD7 in p <==> PD7 in q) && (PB4 in p <==> PB4 in q) && (PD6 in p <==> PD6 in q)
    && (PD4 in p <==> PD4 in q) && (PB5 in p <==> PB5 in q)
  }

  predicate SameColumns(p: set<Pin>, q: set<Pin>) {
    (PF0 in p <==> PF0 in q) && (PF1 in p <==> PF1 in q) && (PF4 in p <==> PF4 in q) && (PF5 in p <==> PF5 in q)
  }

  predicate SameStatus(p: set<Pin>, q: set<Pin>) {
    (PB6 in p <==> PB6 in q) && (PC6 in p <==> PC6 in q)
  }

  // The columns of a row that is lit are never touched.
  predicate SafeStep(p: set<Pin>, q: set<Pin>) {
    (RowsLow(p) && RowsLow(q)) || SameColumns(p, q)
  }

  predicate ColumnsReleased(p: set<Pin>) {
    PF0 in p && PF1 in p && PF4 in p && PF5 in p
  }

  // ---- One LED over time ----

  // The blink phase is bit 7 of the blink status.
  predicate BlinkOn(blinkStatus: byte) { TestBit(blinkStatus, 128) }

  // One scan of an LED's row: its next state, and whether it is lit.
  function Tick(led: Led, blinkOn: bool): (r: (Led, bool)) {
    match led.mode
    case OFF => (led, false)
    case ON => (led, true)
    case BLINK => (led, blinkOn)
    case PULSE =>
      var timer := (led.timer + 1) % 64;
      if timer == 0 then (Led(OFF, 0), false) else (Led(PULSE, timer), true)
  }

  function Ticks(led: Led, blinks: seq<bool>): Led {
    if blinks == [] then led else Tick(Ticks(led, blinks[..|blinks| - 1]), blinks[|blinks| - 1]).0
  }

  // An LED set to PULSE and left alone is lit for exactly 63 scans and off for ever after.
  lemma {:induction false} PulseDuration(blinks: seq<bool>, blinkOn: bool)
    ensures Ticks(Set(PULSE), blinks) == if |blinks| < 64 then Led(PULSE, |blinks|) else Led(OFF, 0)
    ensures Tick(Ticks(Set(PULSE), blinks), blinkOn).1 <==> |blinks| < 63
  {
    if blinks != [] {
      PulseDuration(blinks[..|blinks| - 1], blinkOn);
    }
  }

  function BlinkStep(s: byte): byte {
    var t := Inc(s);
    if TestBit(t, 64) then ((t - 64) + 128) % 256 else t
  }

  function BlinkAfter(n: nat): byte {
    if n == 0 then 0 else BlinkStep(BlinkAfter(n - 1))
  }

  // Six bits of counter and one of phase.
  lemma BlinkNext(count: nat, phase: nat)
    requires count < 64 && phase < 2
    ensures BlinkStep(count + 128 * phase) as int ==
              if count < 63 then count + 1 + 128 * phase else 128 * (1 - phase)
    ensures BlinkOn(count + 128 * phase) <==> phase == 1
  {}

  lemma CountsTo64(n: nat)
    ensures (n + 1) % 64 == (if n % 64 < 63 then n % 64 + 1 else 0)
    ensures ((n + 1) / 64) % 2 == (if n % 64 < 63 then (n / 64) % 2 else 1 - (n / 64) % 2)
  {
    assert n == 64 * (n / 64) + n % 64;
  }

  lemma {:induction false} BlinkClosedForm(n: nat)
    ensures BlinkAfter(n) as int == n % 64 + 128 * ((n / 64) % 2)
  {
    if n > 0 {
      BlinkClosedForm(n - 1);
      BlinkNext((n - 1) % 64, ((n - 1) / 64) % 2);
      CountsTo64(n - 1);
    }
  }

  // An LED set to BLINK stays so; it is dark for 64 updates, lit for the next 64, and so on.
  lemma BlinkLit(n: nat, timer: Timer)
    ensures Tick(Led(BLINK, timer), BlinkOn(BlinkAfter(n))) == (Led(BLINK, timer), (n / 64) % 2 == 1)
  {
    BlinkClosedForm(n);
    BlinkNext(n % 64, (n / 64) % 2);
  }

  // What one scan does to the LEDs, and what it shows of them.
  function ScanLeds(v: LedView, row: Row, blinkOn: bool): LedView {
    match row
    case Row0 => v.(status := Tick(v.status, blinkOn).0)
    case Row1 => v.(err := Tick(v.err, blinkOn).0)
    case Row4 => v.(r := Tick(v.r, blinkOn).0, g := Tick(v.g, blinkOn).0,
                    b := Tick(v.b, blinkOn).0, prog := Tick(v.prog, blinkOn).0)
    case _ => v
  }

  function Paint(d: Decoded, v: LedView, row: Row, blinkOn: bool): Decoded {
    match row
    case Row0 => d.(high0 := v.bank0 / 16, status := Tick(v.status, blinkOn).1)
    case Row1 => d.(low0 := v.bank0 % 16, err := Tick(v.err, blinkOn).1)
    case Row2 => d.(high1 := v.bank1 / 16)
    case Row3 => d.(low1 := v.bank1 % 16)
    case Row4 =>
      d.(r := Tick(v.r, blinkOn).1, g := Tick(v.g, blinkOn).1, b := Tick(v.b, blinkOn).1,
         prog := Tick(v.prog, blinkOn).1)
  }

  // The whole panel as it should be read back.
  function Image(v: LedView, blinkOn: bool): Decoded {
    Decoded(v.bank0 / 16, v.bank0 % 16, v.bank1 / 16, v.bank1 % 16,
            Tick(v.r, blinkOn).1, Tick(v.g, blinkOn).1, Tick(v.b, blinkOn).1, Tick(v.prog, blinkOn).1,
            Tick(v.err, blinkOn).1, Tick(v.status, blinkOn).1)
  }

  function RowAfter(row: Row, n: nat): Row {
    if n == 0 then row else RowAfter(row, n - 1).Next()
  }

  // Scanning rows in turn, from whichever row is next.
  function Painted(d: Decoded, v: LedView, next: Row, n: nat, blinkOn: bool): Decoded {
    if n == 0 then d else Paint(Painted(d, v, next, n - 1, blinkOn), v, RowAfter(next, n - 1), blinkOn)
  }

  // One row's part of the panel has been read back.
  predicate Holds(d: Decoded, v: LedView, row: Row, blinkOn: bool) {
    match row
    case Row0 => d.high0 == v.bank0 / 16 && d.status == Tick(v.status, blinkOn).1
    case Row1 => d.low0 == v.bank0 % 16 && d.err == Tick(v.err, blinkOn).1
    case Row2 => d.high1 == v.bank1 / 16
    case Row3 => d.low1 == v.bank1 % 16
    case Row4 =>
      && d.r == Tick(v.r, blinkOn).1 && d.g == Tick(v.g, blinkOn).1
      && d.b == Tick(v.b, blinkOn).1 && d.prog == Tick(v.prog, blinkOn).1
  }

  lemma PaintHolds(d: Decoded, v: LedView, row: Row, other: Row, blinkOn: bool)
    requires other == row || Holds(d, v, other, blinkOn)
    ensures Holds(Paint(d, v, row, blinkOn), v, other, blinkOn)
  {}

  lemma {:induction false} ScansHold(d: Decoded, v: LedView, next: Row, n: nat, i: nat, blinkOn: bool)
    requires i < n
    ensures Holds(Painted(d, v, next, n, blinkOn), v, RowAfter(next, i), blinkOn)
  {
    if i < n - 1 {
      ScansHold(d, v, next, n - 1, i, blinkOn);
    }
    PaintHolds(Painted(d, v, next, n - 1, blinkOn), v, RowAfter(next, n - 1), RowAfter(next, i), blinkOn);
  }

  // Every row is among any five in turn.
  lemma FiveRows(next: Row, row: Row) returns (i: nat)
    ensures i < 5 && RowAfter(next, i) == row
  {
    assert RowAfter(next, 1) == next.Next() && RowAfter(next, 3) == next.Next().Next().Next();
    i := if row == next then 0 else if row == next.Next() then 1 else if row == next.Next().Next() then 2
         else if row == next.Next().Next().Next() then 3 else 4;
  }

  // Whichever row comes first, five scans read the whole panel back.
  lemma FiveScansShowAll(d: Decoded, v: LedView, next: Row, blinkOn: bool)
    ensures Painted(d, v, next, 5, blinkOn) == Image(v, blinkOn)
  {
    var p := Painted(d, v, next, 5, blinkOn);
    forall row: Row ensures Holds(p, v, row, blinkOn) {
      var i := FiveRows(next, row);
      ScansHold(d, v, next, 5, i, blinkOn);
    }
    assert Holds(p, v, Row0, blinkOn) && Holds(p, v, Row1, blinkOn) && Holds(p, v, Row2, blinkOn)
           && Holds(p, v, Row3, blinkOn) && Holds(p, v, Row4, blinkOn);
  }

  // The LEDs after n scans.
  function Scanned(v: LedView, next: Row, n: nat, blinkOn: bool): LedView {
    if n == 0 then v else ScanLeds(Scanned(v, next, n - 1, blinkOn), RowAfter(next, n - 1), blinkOn)
  }

  // A row that has not been scanned yet is painted from the LEDs as they were to begin with.
  lemma {:induction false} NotYetScanned(d: Decoded, v: LedView, next: Row, n: nat, row: Row, blinkOn: bool)
    requires forall i :: 0 <= i < n ==> RowAfter(next, i) != row
    ensures Paint(d, Scanned(v, next, n, blinkOn), row, blinkOn) == Paint(d, v, row, blinkOn)
  {
    if n > 0 {
      NotYetScanned(d, v, next, n - 1, row, blinkOn);
      assert RowAfter(next, n - 1) != row;
      OtherRowScanned(d, Scanned(v, next, n - 1, blinkOn), RowAfter(next, n - 1), row, blinkOn);
    }
  }

  lemma OtherRowScanned(d: Decoded, v: LedView, scanned: Row, row: Row, blinkOn: bool)
    requires scanned != row
    ensures Paint(d, ScanLeds(v, scanned, blinkOn), row, blinkOn) == Paint(d, v, row, blinkOn)
  {}

  lemma RowsDiffer(next: Row, i: nat, j: nat)
    requires i < j < 5
    ensures RowAfter(next, i) != RowAfter(next, j)
  {
    var r1, r2 := RowAfter(next, 1), RowAfter(next, 2);
    var r3, r4 := RowAfter(next, 3), RowAfter(next, 4);
    assert r1 == next.Next() && r2 == r1.Next() && r3 == r2.Next() && r4 == r3.Next();
  }

  // ---- The decoder ----

  datatype Decoded = Decoded(high0: nat, low0: nat, high1: nat, low1: nat, r: bool, g: bool, b: bool, prog: bool,
                             err: bool, status: bool)

  function Weight(isSet: bool, weight: nat): nat { if isSet then weight else 0 }

  // The columns are active low; PF0 is the most significant.
  function ColumnValue(p: set<Pin>): (v: nat)
    ensures v < 16
  {
    Weight(PF0 !in p, 8) + Weight(PF1 !in p, 4) + Weight(PF4 !in p, 2) + Weight(PF5 !in p, 1)
  }

  predicate ShowsNibble(p: set<Pin>, vals: byte) {
    && (PF0 !in p <==> TestBit(vals, 8)) && (PF1 !in p <==> TestBit(vals, 4))
    && (PF4 !in p <==> TestBit(vals, 2)) && (PF5 !in p <==> TestBit(vals, 1))
  }

  lemma NibbleValue(p: set<Pin>, vals: byte)
    requires ShowsNibble(p, vals)
    ensures ColumnValue(p) == vals % 16
  {
    var a1, a2, a3, a4 := vals / 2, vals / 4, vals / 8, vals / 16;
    assert vals == 2 * a1 + vals % 2 && a1 == 2 * a2 + a1 % 2 && a2 == 2 * a3 + a2 % 2 && a3 == 2 * a4 + a3 % 2;
  }

  function DecodeRow(v: Decoded, row: Row, p: set<Pin>): Decoded {
    var cols := ColumnValue(p);
    match row
    case Row0 => v.(high0 := cols, status := PB6 in p && PC6 !in p)
    case Row1 => v.(low0 := cols, err := PC6 in p && PB6 !in p)
    case Row2 => v.(high1 := cols)
    case Row3 => v.(low1 := cols)
    case Row4 => v.(r := PF0 !in p, g := PF1 !in p, b := PF4 !in p, prog := PF5 !in p)
  }

  function DecodeWrite(v: Decoded, port: Port, p: set<Pin>): Decoded {
    match port
    case PORTB => if PB5 in p then DecodeRow(v, Row4, p) else if PB4 in p then DecodeRow(v, Row1, p) else v
    case PORTD => if PD7 in p then DecodeRow(v, Row0, p)
                  else if PD6 in p then DecodeRow(v, Row2, p)
                  else if PD4 in p then DecodeRow(v, Row3, p)
                  else v
  }

  datatype Port = PORTB | PORTD

  function SetHigh(bank: byte, n: nat): (r: byte)
    requires n < 16
    ensures r / 16 == n && r % 16 == bank % 16
  {
    bank % 16 + n * 16
  }

  function SetLow(bank: byte, n: nat): (r: byte)
    requires n < 16
    ensures r / 16 == bank / 16 && r % 16 == n
  {
    (bank / 16) * 16 + n
  }

  class Simulator {
    var bank0: byte
    var bank1: byte
    var r: bool
    var g: bool
    var b: bool
    var prog: bool
    var err: bool
    var status: bool

    constructor ()
      ensures View() == Decoded(0, 0, 0, 0, false, false, false, false, false, false)
    {
      bank0, bank1 := 0, 0;
      r, g, b, prog, err, status := false, false, false, false, false, false;
    }

    function View(): Decoded
      reads this
    {
      Decoded(bank0 / 16, bank0 % 16, bank1 / 16, bank1 % 16, r, g, b, prog, err, status)
    }

    method UpdateLedState(row: nat, p: set<Pin>)
      requires row < 5
      modifies this
      ensures View() == DecodeRow(old(View()), RowAt(row), p)
    {
      var pf0, pf1, pf4, pf5 := PF0 !in p, PF1 !in p, PF4 !in p, PF5 !in p;
      var cols := ColumnValue(p);
      if row == 0 {
        bank0 := SetHigh(bank0, cols);
        status := PB6 in p && PC6 !in p;
      } else if row == 1 {
        bank0 := SetLow(bank0, cols);
        err := PC6 in p && PB6 !in p;
      } else if row == 2 {
        bank1 := SetHigh(bank1, cols);
      } else if row == 3 {
        bank1 := SetLow(bank1, cols);
      } else {
        r, g, b, prog := pf0, pf1, pf4, pf5;
      }
    }

    // Called on every write to port B or D, whatever the write changed.
    method HandlePortWrite(port: Port, p: set<Pin>)
      modifies this
      ensures View() == DecodeWrite(old(View()), port, p)
    {
      if port == PORTB {
        if PB5 in p {
          UpdateLedState(4, p);
        } else if PB4 in p {
          UpdateLedState(1, p);
        }
      } else {
        if PD7 in p {
          UpdateLedState(0, p);
        } else if PD6 in p {
          UpdateLedState(2, p);
        } else if PD4 in p {
          UpdateLedState(3, p);
        }
      }
    }
  }

  // ---- The pins ----

  // The output ports, observed by the simulator on every write to port B or D.
  class Pins {
    const simulator: Simulator
    var high: set<Pin>

    // A monitor: no write so far has shown a ghost or touched the columns of a lit row.
    ghost var clean: bool

    constructor (simulator: Simulator)
      ensures this.simulator == simulator && high == {} && clean
    {
      this.simulator := simulator;
      high := {};
      clean := true;
    }

    method EnablePORTB(val: set<Pin>)
      modifies this, simulator
      ensures high == old(high) + val && clean == (old(clean) && NoGhost(high) && SafeStep(old(high), high))
      ensures simulator.View() == DecodeWrite(old(simulator.View()), PORTB, high)
    {
      high := high + val;
      clean := clean && NoGhost(high) && SafeStep(old(high), high);
      simulator.HandlePortWrite(PORTB, high);
    }

    method DisablePORTB(val: set<Pin>)
      modifies this, simulator
      ensures high == old(high) - val && clean == (old(clean) && NoGhost(high) && SafeStep(old(high), high))
      ensures simulator.View() == DecodeWrite(old(simulator.View()), PORTB, high)
    {
      high := high - val;
      clean := clean && NoGhost(high) && SafeStep(old(high), high);
      simulator.HandlePortWrite(PORTB, high);
    }

    method EnablePORTC(val: set<Pin>)
      modifies this
      ensures high == old(high) + val && clean == (old(clean) && NoGhost(high) && SafeStep(old(high), high))
    {
      high := high + val;
      clean := clean && NoGhost(high) && SafeStep(old(high), high);
    }

    method DisablePORTC(val: set<Pin>)
      modifies this
      ensures high == old(high) - val && clean == (old(clean) && NoGhost(high) && SafeStep(old(high), high))
    {
      high := high - val;
      clean := clean && NoGhost(high) && SafeStep(old(high), high);
    }

    method EnablePORTD(val: set<Pin>)
      modifies this, simulator
      ensures high == old(high) + val && clean == (old(clean) && NoGhost(high) && SafeStep(old(high), high))
      ensures simulator.View() == DecodeWrite(old(simulator.View()), PORTD, high)
    {
      high := high + val;
      clean := clean && NoGhost(high) && SafeStep(old(high), high);
      simulator.HandlePortWrite(PORTD, high);
    }

    method DisablePORTD(val: set<Pin>)
      modifies this, simulator
      ensures high == old(high) - val && clean == (old(clean) && NoGhost(high) && SafeStep(old(high), high))
      ensures simulator.View() == DecodeWrite(old(simulator.View()), PORTD, high)
    {
      high := high - val;
      clean := clean && NoGhost(high) && SafeStep(old(high), high);
      simulator.HandlePortWrite(PORTD, high);
    }

    method EnablePORTF(val: set<Pin>)
      modifies this
      ensures high == old(high) + val && clean == (old(clean) && NoGhost(high) && SafeStep(old(high), high))
    {
      high := high + val;
      clean := clean && NoGhost(high) && SafeStep(old(high), high);
    }

    method DisablePORTF(val: set<Pin>)
      modifies this
      ensures high == old(high) - val && clean == (old(clean) && NoGhost(high) && SafeStep(old(high), high))
    {
      high := high - val;
      clean := clean && NoGhost(high) && SafeStep(old(high), high);
    }
  }

  // The columns of a row carry the row's part of the LED state.
  predicate ColumnsShow(p: set<Pin>, v: LedView, row: Row, blinkOn: bool) {
    match row
    case Row0 => ColumnValue(p) == v.bank0 / 16
    case Row1 => ColumnValue(p) == v.bank0 % 16
    case Row2 => ColumnValue(p) == v.bank1 / 16
    case Row3 => ColumnValue(p) == v.bank1 % 16
    case Row4 => (PF0 !in p <==> Tick(v.r, blinkOn).1) && (PF1 !in p <==> Tick(v.g, blinkOn).1)
                 && (PF4 !in p <==> Tick(v.b, blinkOn).1) && (PF5 !in p <==> Tick(v.prog, blinkOn).1)
  }

  // Decoding a row that is written like this is painting it.
  lemma DecodeIsPaint(d: Decoded, v: LedView, w: LedView, row: Row, p: set<Pin>, q: set<Pin>, blinkOn: bool)
    requires w == v.(err := w.err, status := w.status) && ColumnsShow(p, w, row, blinkOn) && SameColumns(p, q)
    requires PB6 in q <==> row == Row0 && Tick(v.status, blinkOn).1
    requires PC6 in q <==> row == Row1 && Tick(v.err, blinkOn).1
    ensures DecodeRow(d, row, q) == Paint(d, v, row, blinkOn)
  {}

  // Where the pins are just before a row is scanned: only the previous row is lit, or none before
  // the first scan, and STATUS and ERR are only lit for the row after their own.
  predicate Position(p: set<Pin>, next: Row) {
    match next
    case Row0 => OnlyRow(p, Row4) && PB6 !in p && PC6 !in p
    case Row1 => OnlyRow(p, Row0) && PC6 !in p
    case Row2 => OnlyRow(p, Row1) && PB6 !in p
    case Row3 => OnlyRow(p, Row2) && PB6 !in p && PC6 !in p
    case Row4 => OnlyRow(p, Row3) && PB6 !in p && PC6 !in p
  }

  // The decoder agrees with the columns of row 4 while that row is lit, so that writes which still
  // carry its pin decode to what is already known.
  predicate InStep(v: Decoded, p: set<Pin>) {
    PB5 in p ==> DecodeRow(v, Row4, p) == v
  }

  class LedController {
    const pins: Pins
    const state: LedState
    var nextScanLine: byte
    var blinkStatus: byte

    constructor (pins: Pins, state: LedState)
      requires pins.high == {} && pins.clean
      ensures this.pins == pins && this.state == state && Valid() && nextScanLine == blinkStatus == 0
    {
      this.pins, this.state := pins, state;
      nextScanLine, blinkStatus := 0, 0;
    }

    // The pins and the decoder are as they should be before this row is scanned.
    ghost predicate Ready(row: Row)
      reads pins, pins.simulator
    {
      && pins.clean
      && Position(pins.high, row)
      && InStep(pins.simulator.View(), pins.high)
    }

    ghost predicate Valid()
      reads this, pins, pins.simulator
    {
      nextScanLine < 5 && Ready(RowAt(nextScanLine))
    }

    method UpdateBlinkStatus()
      modifies this`blinkStatus
      ensures blinkStatus == BlinkStep(old(blinkStatus))
    {
      blinkStatus := Inc(blinkStatus);
      if TestBit(blinkStatus, 64) {
        blinkStatus := blinkStatus - 64;
        blinkStatus := (blinkStatus + 128) % 256;
      }
    }

    // One LED of the row being scanned; returns its next state and whether to drive its pin.
    method ApplyLedState(led: Led) returns (next: Led, drive: bool)
      ensures (next, drive) == Tick(led, BlinkOn(blinkStatus))
    {
      next := led;
      drive := led.mode == ON || (led.mode == BLINK && BlinkOn(blinkStatus));
      if led.mode == PULSE {
        next := led.(timer := (led.timer + 1) % 64);
        if next.timer == 0 {
          next := next.(mode := OFF);
        } else {
          drive := true;
        }
      }
    }

    // The rows that ERR and STATUS are tied to.
    method WriteStatusPins(row: nat)
      requires row < 5 && Ready(RowAt(row))
      modifies pins, pins.simulator, state`err, state`status
      ensures pins.clean && pins.simulator.View() == old(pins.simulator.View())
      ensures SameRows(old(pins.high), pins.high) && SameColumns(old(pins.high), pins.high)
      ensures PB6 in pins.high <==> row == 0 && Tick(old(state.status), BlinkOn(blinkStatus)).1
      ensures PC6 in pins.high <==> row == 1 && Tick(old(state.err), BlinkOn(blinkStatus)).1
      ensures state.status == (if row == 0 then Tick(old(state.status), BlinkOn(blinkStatus)).0 else old(state.status))
      ensures state.err == (if row == 1 then Tick(old(state.err), BlinkOn(blinkStatus)).0 else old(state.err))
    {
      if row == 0 {
        var drive;
        state.status, drive := ApplyLedState(state.status);
        if drive {
          pins.EnablePORTB({PB6});
        }
      } else if row == 1 {
        pins.DisablePORTB({PB6});
        var drive;
        state.err, drive := ApplyLedState(state.err);
        if drive {
          pins.EnablePORTC({PC6});
        }
      } else if row == 2 {
        pins.DisablePORTC({PC6});
      }
    }

    // All rows off and all columns released, from the previous row or the start.
    method ClearPins()
      requires pins.clean && NoGhost(pins.high)
      modifies pins, pins.simulator
      ensures pins.clean && RowsLow(pins.high)
      ensures ColumnsReleased(pins.high) && SameStatus(old(pins.high), pins.high)
      ensures pins.simulator.View() == old(pins.simulator.View())
    {
      pins.DisablePORTB({PB4, PB5});
      pins.DisablePORTD({PD4, PD6, PD7});
      pins.EnablePORTF({PF0, PF1, PF4, PF5});
    }

    method WriteColumns(vals: byte)
      requires pins.clean && NoGhost(pins.high) && RowsLow(pins.high)
      requires ColumnsReleased(pins.high)
      modifies pins
      ensures pins.clean && ShowsNibble(pins.high, vals)
      ensures SameRows(old(pins.high), pins.high) && SameStatus(old(pins.high), pins.high)
    {
      if TestBit(vals, 8) {
        pins.DisablePORTF({PF0});
      }
      if TestBit(vals, 4) {
        pins.DisablePORTF({PF1});
      }
      if TestBit(vals, 2) {
        pins.DisablePORTF({PF4});
      }
      if TestBit(vals, 1) {
        pins.DisablePORTF({PF5});
      }
    }

    // The row pin itself, once the columns are set.
    method LightRow(row: nat)
      requires row < 5 && pins.clean && NoGhost(pins.high) && RowsLow(pins.high)
      modifies pins, pins.simulator
      ensures pins.clean && OnlyRow(pins.high, RowAt(row))
      ensures SameColumns(old(pins.high), pins.high) && SameStatus(old(pins.high), pins.high)
      ensures pins.simulator.View() == DecodeRow(old(pins.simulator.View()), RowAt(row), pins.high)
    {
      if row == 0 {
        pins.EnablePORTD({PD7});
      } else if row == 1 {
        pins.EnablePORTB({PB4});
      } else if row == 2 {
        pins.EnablePORTD({PD6});
      } else if row == 3 {
        pins.EnablePORTD({PD4});
      } else {
        pins.EnablePORTB({PB5});
      }
    }

    // The column of one LED of row 4.
    method WriteLedColumn(led: Led, pin: Pin) returns (next: Led)
      requires pin in {PF0, PF1, PF4, PF5}
      requires pins.clean && NoGhost(pins.high) && RowsLow(pins.high)
      modifies pins
      ensures pins.clean && NoGhost(pins.high) && RowsLow(pins.high) && SameStatus(old(pins.high), pins.high)
      ensures next == Tick(led, BlinkOn(blinkStatus)).0
      ensures forall p :: p in pins.high <==>
                p in old(pins.high) && !(p == pin && Tick(led, BlinkOn(blinkStatus)).1)
    {
      var drive;
      next, drive := ApplyLedState(led);
      if drive {
        pins.DisablePORTF({pin});
      }
    }

    // Row 4: R, G, B and PROG, with full LED states.
    method WriteLedColumns()
      requires pins.clean && NoGhost(pins.high) && RowsLow(pins.high) && ColumnsReleased(pins.high)
      modifies pins, state`r, state`g, state`b, state`prog
      ensures pins.clean && NoGhost(pins.high) && RowsLow(pins.high) && SameStatus(old(pins.high), pins.high)
      ensures state.View() == ScanLeds(old(state.View()), Row4, BlinkOn(blinkStatus))
      ensures var v, blinkOn := old(state.View()), BlinkOn(blinkStatus);
              && (PF0 !in pins.high <==> Tick(v.r, blinkOn).1) && (PF1 !in pins.high <==> Tick(v.g, blinkOn).1)
              && (PF4 !in pins.high <==> Tick(v.b, blinkOn).1) && (PF5 !in pins.high <==> Tick(v.prog, blinkOn).1)
    {
      state.r := WriteLedColumn(state.r, PF0);
      state.g := WriteLedColumn(state.g, PF1);
      state.b := WriteLedColumn(state.b, PF4);
      state.prog := WriteLedColumn(state.prog, PF5);
    }

    // The columns of a row.
    method WriteRowColumns(row: nat)
      requires row < 5 && pins.clean && NoGhost(pins.high) && RowsLow(pins.high) && ColumnsReleased(pins.high)
      modifies pins, state`r, state`g, state`b, state`prog
      ensures pins.clean && NoGhost(pins.high) && RowsLow(pins.high) && SameStatus(old(pins.high), pins.high)
      ensures ColumnsShow(pins.high, old(state.View()), RowAt(row), BlinkOn(blinkStatus))
      ensures state.View() ==
                if row == 4 then ScanLeds(old(state.View()), Row4, BlinkOn(blinkStatus)) else old(state.View())
    {
      if row == 0 {
        WriteColumns(state.bank0 / 16);
        NibbleValue(pins.high, state.bank0 / 16);
      } else if row == 1 {
        WriteColumns(state.bank0);
        NibbleValue(pins.high, state.bank0);
      } else if row == 2 {
        WriteColumns(state.bank1 / 16);
        NibbleValue(pins.high, state.bank1 / 16);
      } else if row == 3 {
        WriteColumns(state.bank1);
        NibbleValue(pins.high, state.bank1);
      } else {
        WriteLedColumns();
      }
    }

    method WriteStateToPins(row: nat)
      requires row < 5 && Ready(RowAt(row))
      modifies pins, pins.simulator, state
      ensures Ready(RowAt(row).Next())
      ensures state.View() == ScanLeds(old(state.View()), RowAt(row), BlinkOn(blinkStatus))
      ensures pins.simulator.View() ==
                Paint(old(pins.simulator.View()), old(state.View()), RowAt(row), BlinkOn(blinkStatus))
    {
      ghost var v := state.View();
      WriteStatusPins(row);
      ClearPins();
      ghost var w := state.View();
      WriteRowColumns(row);
      ghost var p := pins.high;
      LightRow(row);
      DecodeIsPaint(old(pins.simulator.View()), v, w, RowAt(row), p, pins.high, BlinkOn(blinkStatus));
    }

    method ScanNextLine()
      requires Valid()
      modifies this`nextScanLine, pins, pins.simulator, state
      ensures Valid() && nextScanLine as int == (old(nextScanLine) + 1) % 5
      ensures var row := RowAt(old(nextScanLine));
              && RowAt(nextScanLine) == row.Next()
              && state.View() == ScanLeds(old(state.View()), row, BlinkOn(blinkStatus))
              && pins.simulator.View() ==
                   Paint(old(pins.simulator.View()), old(state.View()), row, BlinkOn(blinkStatus))
    {
      var scanLine := nextScanLine;
      nextScanLine := Inc(nextScanLine);
      nextScanLine := nextScanLine % 5;
      WriteStateToPins(scanLine);
    }
  }

  // From any scan position, five scans make the decoder read back exactly the LEDs as they were,
  // and advance every LED by one tick.
  method RefreshPanel(leds: LedController)
    requires leds.Valid()
    modifies leds`nextScanLine, leds.pins, leds.pins.simulator, leds.state
    ensures leds.Valid()
    ensures leds.pins.simulator.View() == Image(old(leds.state.View()), BlinkOn(leds.blinkStatus))
    ensures leds.state.View() ==
              Scanned(old(leds.state.View()), RowAt(old(leds.nextScanLine)), 5, BlinkOn(leds.blinkStatus))
  {
    ghost var first, v, d := RowAt(leds.nextScanLine), leds.state.View(), leds.pins.simulator.View();
    ghost var blinkOn := BlinkOn(leds.blinkStatus);
    for i := 0 to 5
      invariant leds.Valid() && RowAt(leds.nextScanLine) == RowAfter(first, i)
      invariant leds.state.View() == Scanned(v, first, i, blinkOn)
      invariant leds.pins.simulator.View() == Painted(d, v, first, i, blinkOn)
    {
      forall j | 0 <= j < i ensures RowAfter(first, j) != RowAfter(first, i) {
        RowsDiffer(first, j, i);
      }
      NotYetScanned(leds.pins.simulator.View(), v, first, i, RowAfter(first, i), blinkOn);
      leds.ScanNextLine();
    }
    FiveScansShowAll(d, v, first, blinkOn);
  }
}
