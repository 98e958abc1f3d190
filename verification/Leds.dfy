// The LED state: two banks shown in binary and six LEDs with a mode and a pulse timer each.
module Leds {
  import opened Bytes
  import opened Types

  datatype LedMode = OFF | ON | BLINK | PULSE

  // The packed per-LED byte: a two-bit mode and a six-bit pulse timer.
  datatype Led = Led(mode: LedMode, timer: Timer)

  type Timer = t: nat | t < 64

  datatype LedView = LedView(bank0: byte, bank1: byte, r: Led, g: Led, b: Led, prog: Led, err: Led, status: Led)

  function Set(mode: LedMode): Led { Led(mode, 0) }

  class LedState {
    var bank0: byte
    var bank1: byte
    var r: Led
    var g: Led
    var b: Led
    var prog: Led
    var err: Led
    var status: Led

    constructor ()
      ensures bank0 == bank1 == 0
      ensures r == g == b == prog == err == status == Set(OFF)
    {
      bank0, bank1 := 0, 0;
      r, g, b, prog, err, status := Set(OFF), Set(OFF), Set(OFF), Set(OFF), Set(OFF), Set(OFF);
    }

    function View(): LedView
      reads this
    {
      LedView(bank0, bank1, r, g, b, prog, err, status)
    }

    function Lit(): Panel
      reads this
    {
      Panel(bank0, bank1, r.mode == ON, g.mode == ON, b.mode == ON, prog.mode == ON)
    }

    // The panel shows p steadily: every layer LED is plainly on or plainly off.
    ghost predicate Shows(p: Panel)
      reads this
    {
      && bank0 == p.bank0 && bank1 == p.bank1
      && r == Set(if p.r then ON else OFF) && g == Set(if p.g then ON else OFF)
      && b == Set(if p.b then ON else OFF) && prog == Set(if p.prog then ON else OFF)
    }
  }
}
