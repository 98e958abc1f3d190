// The device interfaces that the storage stack and the layers are written against, with scripted
// failures: whatever a device does in a run is what some script makes it do, and an empty script is
// a device that never fails.
module Devices {
  import opened Bits
  import opened Bytes
  import opened Types

  // What an EEPROM promises of a write: the addressed cell, in the minus-one encoding, is the only
  // one that may change, and it has changed if success is reported.
  ghost predicate WritePost(before: seq<byte>, after: seq<byte>, offset: nat, data: byte, ok: bool)
    requires offset < |before|
  {
    after == before[offset := Dec(data)] || (!ok && after == before)
  }

  // What an EEPROM promises of a read.
  ghost predicate ReadPost(cells: seq<byte>, offset: nat, data: byte, ok: bool)
    requires offset < |cells|
  {
    ok ==> data == Inc(cells[offset])
  }

  // ---- An EEPROM on its own: nothing is left of an operation that fails ----

  // A lost operation has no effect; one whose acknowledgement is lost has taken effect but is
  // reported as failed.
  datatype Outcome = Done | Lost | Unacknowledged

  class Eeprom {
    const cells: array<byte>
    var script: seq<Outcome>

    constructor Erased(size: nat, script: seq<Outcome>)
      ensures fresh(this.cells) && this.cells.Length == size && this.script == script
      ensures forall i :: 0 <= i < size ==> this.cells[i] == ERASED
    {
      this.script := script;
      cells := new byte[size](_ => ERASED);
    }

    ghost predicate Reliable()
      reads this
    {
      script == []
    }

    method NextOutcome() returns (outcome: Outcome)
      modifies this
      ensures old(Reliable()) ==> outcome == Done && Reliable()
    {
      if script == [] {
        outcome := Done;
      } else {
        outcome, script := script[0], script[1..];
      }
    }

    method ReadByte(offset: nat) returns (ok: bool, data: byte)
      requires offset < cells.Length
      modifies this
      ensures ReadPost(cells[..], offset, data, ok)
      ensures old(Reliable()) ==> ok && Reliable()
    {
      var outcome := NextOutcome();
      ok := outcome == Done;
      data := if ok then Inc(cells[offset]) else 0;
    }

    method WriteByte(offset: nat, data: byte) returns (ok: bool)
      requires offset < cells.Length
      modifies this, cells
      ensures WritePost(old(cells[..]), cells[..], offset, data, ok)
      ensures old(Reliable()) ==> ok && Reliable()
    {
      var outcome := NextOutcome();
      if outcome != Lost {
        cells[offset] := Dec(data);
      }
      ok := outcome == Done;
    }
  }

  // The MCU's own EEPROM, whose two operations cannot fail.
  class InternalEeprom {
    const native: array<byte>

    constructor (native: array<byte>)
      ensures this.native == native
    {
      this.native := native;
    }

    method ReadByte(offset: nat) returns (ok: bool, data: byte)
      requires offset < native.Length
      ensures ReadPost(native[..], offset, data, ok) && ok
    {
      data := Inc(native[offset]);
      ok := true;
    }

    method WriteByte(offset: nat, data: byte) returns (ok: bool)
      requires offset < native.Length
      modifies native
      ensures WritePost(old(native[..]), native[..], offset, data, ok) && ok
    {
      native[offset] := Dec(data);
      ok := true;
    }
  }

  // ---- EEPROMs on a bus: a write that breaks off leaves an address in its device ----

  // What is left in a device of an operation that was broken off.
  datatype Leftover = Leftover(address: nat, counter: byte) {
    predicate Quiet() {
      this == NOTHING
    }

    // An access to this offset reaches the cell it names.
    predicate Right(offset: nat) {
      counter == 0 && Or(address, offset) == offset
    }
  }

  const NOTHING := Leftover(0, 0)

  datatype Memory = Memory(cells: seq<byte>, left: Leftover)

  // The cell that an access to this offset reaches: the device ors the offset into its leftover.
  function Landing(left: Leftover, offset: nat): nat { Or(left.address, offset) + left.counter }

  function Put(cells: seq<byte>, cell: nat, raw: byte): (put: seq<byte>)
    ensures |put| == |cells|
  {
    if cell < |cells| then cells[cell := raw] else cells
  }

  // After a write that breaks off when this many of its bytes have arrived: the control byte, the high
  // and the low byte of the address, and the data.
  function BrokenLeft(left: Leftover, offset: nat, arrived: nat): Leftover {
    if arrived <= 1 then left
    else if arrived == 2 then left.(address := Or(left.address, (offset / 256) * 256))
    else if arrived == 3 then left.(address := Or(left.address, offset))
    else Leftover(Or(left.address, offset), Inc(left.counter))
  }

  function BrokenCells(d: Memory, offset: nat, raw: byte, arrived: nat): (cells: seq<byte>)
    ensures |cells| == |d.cells|
  {
    if arrived >= 4 then Put(d.cells, Landing(d.left, offset), raw) else d.cells
  }

  function BrokenWrite(d: Memory, offset: nat, raw: byte, arrived: nat): Memory {
    Memory(BrokenCells(d, offset, raw, arrived), BrokenLeft(d.left, offset, arrived))
  }

  function WholeWrite(d: Memory, offset: nat, raw: byte): Memory {
    Memory(Put(d.cells, Landing(d.left, offset), raw), NOTHING)
  }

  // An access reaches the cell it names exactly if the leftover has no bit outside the address and
  // nothing has been counted on; always, if nothing is left over.
  lemma LandsRight(left: Leftover, offset: nat)
    ensures Landing(left, offset) == offset <==> left.Right(offset)
    ensures left.Quiet() ==> left.Right(offset)
  {
    OrBits(left.address, offset);
  }

  // Only the device that was addressed last can have something left over: a start resets the others.
  datatype Bus = Bus(owner: Device, left: Leftover)

  function LeftIn(b: Bus, d: Device): Leftover {
    if b.owner == d then b.left else NOTHING
  }

  const CLEAR := Bus(Neither, NOTHING)

  function BrokenBus(b: Bus, d: Device, offset: nat, arrived: nat): Bus {
    if arrived == 0 then b else Bus(d, BrokenLeft(LeftIn(b, d), offset, arrived))
  }

  // With nothing left over before, a broken write can be tried again unless its data byte had arrived.
  lemma RetryLands(b: Bus, d: Device, offset: nat, arrived: nat)
    requires b.left.Quiet() && d != Neither
    ensures LeftIn(BrokenBus(b, d, offset, arrived), d).Right(offset) <==> arrived <= 3
  {
    assert Pow2(4) == 16 && Pow2(8) == 256;
    OrHighBits(offset / 256, offset % 256, 256, 8);
    OrSame(offset);
  }

  ghost predicate BrokenOff(b: Bus, b': Bus, d: Device, offset: nat) {
    exists arrived: nat :: b' == BrokenBus(b, d, offset, arrived)
  }

  // How an operation goes: as a whole, or broken off when some of its bytes have arrived.
  datatype Breakage = Whole | BrokenAfter(bytes: nat)

  // A write to a device of which these are the cells.
  ghost predicate Wrote(cells: seq<byte>, b: Bus, cells': seq<byte>, b': Bus, d: Device, offset: nat, raw: byte,
                        how: Breakage)
  {
    var before := Memory(cells, LeftIn(b, d));
    match how
    case Whole => cells' == WholeWrite(before, offset, raw).cells && b' == CLEAR
    case BrokenAfter(arrived) =>
      cells' == BrokenCells(before, offset, raw, arrived) && b' == BrokenBus(b, d, offset, arrived)
  }

  // A read ends with a stop in any case, which leaves nothing over. The byte of a cell that is not there
  // is undefined.
  ghost predicate Read(cells: seq<byte>, b: Bus, b': Bus, d: Device, offset: nat, data: byte, how: Breakage) {
    var cell := Landing(LeftIn(b, d), offset);
    b' == CLEAR && (how == Whole && cell < |cells| ==> data == Inc(cells[cell]))
  }

  // A device that is not there never acknowledges its control byte.
  function Limited(present: bool, how: Breakage): Breakage {
    if present then how else BrokenAfter(if how.BrokenAfter? && how.bytes == 0 then 0 else 1)
  }

  function NextBreakage(script: seq<Breakage>): Breakage { if script == [] then Whole else script[0] }

  function LaterBreakages(script: seq<Breakage>): seq<Breakage> { if script == [] then [] else script[1..] }

  class Wire {
    var owner: Device
    var left: Leftover

    constructor ()
      ensures View() == CLEAR
    {
      owner, left := Neither, NOTHING;
    }

    function View(): Bus
      reads this
    {
      Bus(owner, left)
    }

    method Become(b: Bus)
      modifies this
      ensures View() == b
    {
      owner, left := b.owner, b.left;
    }
  }

  class ExternalEeprom {
    const cells: array<byte>
    const wire: Wire
    const device: Device
    const present: bool
    var script: seq<Breakage>

    constructor Erased(size: nat, wire: Wire, device: Device, present: bool, script: seq<Breakage>)
      ensures fresh(this.cells) && this.cells.Length == size && this.wire == wire
      ensures this.device == device && this.present == present && this.script == script
      ensures forall i :: 0 <= i < size ==> this.cells[i] == ERASED
    {
      this.wire, this.device, this.present, this.script := wire, device, present, script;
      cells := new byte[size](_ => ERASED);
    }

    function Left(): Leftover
      reads wire
    {
      LeftIn(wire.View(), device)
    }

    predicate Right(offset: nat)
      reads wire
    {
      Left().Right(offset)
    }

    lemma RightWhenClear(offset: nat)
      ensures wire.View() == CLEAR ==> Right(offset)
    {
      LandsRight(NOTHING, offset);
    }

    ghost predicate Reliable()
      reads this, wire
    {
      script == [] && wire.left.Quiet()
    }

    method TakeBreakage() returns (how: Breakage)
      modifies this`script
      ensures how == Limited(present, NextBreakage(old(script)))
      ensures script == LaterBreakages(old(script))
    {
      how := Whole;
      if script != [] {
        how, script := script[0], script[1..];
      }
      how := Limited(present, how);
    }

    method ReadByte(offset: nat) returns (ok: bool, data: byte)
      modifies this`script, wire
      ensures var how := Limited(present, NextBreakage(old(script)));
              ok == (how == Whole) && Read(cells[..], old(wire.View()), wire.View(), device, offset, data, how)
      ensures (ok ==> present) && script == LaterBreakages(old(script))
      ensures wire.View() == CLEAR
      ensures old(Right(offset)) && offset < cells.Length ==> ReadPost(cells[..], offset, data, ok)
      ensures old(Reliable()) ==> ok == present && Reliable()
    {
      LandsRight(Left(), offset);
      var how := TakeBreakage();
      ok := how == Whole;
      var cell := Landing(Left(), offset);
      data := if ok && cell < cells.Length then Inc(cells[cell]) else 0;
      wire.Become(CLEAR);
    }

    method WriteByte(offset: nat, data: byte) returns (ok: bool)
      modifies this`script, cells, wire
      ensures var how := Limited(present, NextBreakage(old(script)));
              && ok == (how == Whole)
              && Wrote(old(cells[..]), old(wire.View()), cells[..], wire.View(), device, offset, Dec(data), how)
      ensures (ok ==> present && wire.View() == CLEAR) && script == LaterBreakages(old(script))
      ensures !ok ==> BrokenOff(old(wire.View()), wire.View(), device, offset)
      ensures old(Right(offset)) && offset < cells.Length ==> WritePost(old(cells[..]), cells[..], offset, data, ok)
      ensures old(Reliable()) ==> ok == present && Reliable()
    {
      ghost var before, bus := cells[..], wire.View();
      LandsRight(Left(), offset);
      var how := TakeBreakage();
      ok := how == Whole;
      if ok || how.bytes >= 4 {
        var cell := Landing(Left(), offset);
        if cell < cells.Length {
          cells[cell] := Dec(data);
        }
      }
      wire.Become(if ok then CLEAR else BrokenBus(wire.View(), device, offset, how.bytes));
    }
  }

  // ---- The USB interface ----

  // A stroke that the firmware has typed, and how many reports have carried it to the host.
  datatype Typing = Typing(stroke: Stroke, copies: nat)

  function StrokesOf(log: seq<Typing>): (strokes: seq<Stroke>)
    ensures |strokes| == |log|
  {
    seq(|log|, i requires 0 <= i < |log| => log[i].stroke)
  }

  // What the host has seen.
  function SeenOf(log: seq<Typing>): seq<Stroke> {
    if log == [] then []
    else var n := |log| - 1; SeenOf(log[..n]) + Copies(log[n].stroke, log[n].copies)
  }

  // What the host saw is the strokes, each any number of times.
  ghost predicate Stammers(seen: seq<Stroke>, strokes: seq<Stroke>) {
    exists log :: StrokesOf(log) == strokes && SeenOf(log) == seen
  }

  predicate Once(log: seq<Typing>) {
    forall i :: 0 <= i < |log| ==> log[i].copies == 1
  }

  lemma {:induction false} OnceIsSeen(log: seq<Typing>)
    requires Once(log)
    ensures SeenOf(log) == StrokesOf(log)
  {
    if log != [] {
      OnceIsSeen(log[..|log| - 1]);
    }
  }

  // A press that did not get out stays in the report, and idle reports carry it until the next one.
  datatype Port = Port(log: seq<Typing>, held: bool)

  function Idle(p: Port, reports: nat): (after: Port)
    ensures StrokesOf(after.log) == StrokesOf(p.log)
  {
    if p.held && p.log != [] then
      var n := |p.log| - 1;
      p.(log := p.log[..n] + [p.log[n].(copies := p.log[n].copies + reports)])
    else p
  }

  // A keypress, with the idle reports that go out while its press is waiting.
  function Send(p: Port, s: Stroke, waiting: nat, pressed: bool): (after: Port)
    ensures StrokesOf(after.log) == StrokesOf(p.log) + [s]
  {
    Port(p.log + [Typing(s, waiting + if pressed then 1 else 0)], !pressed)
  }

  lemma SeenAfterIdle(p: Port, reports: nat)
    ensures SeenOf(Idle(p, reports).log) ==
              SeenOf(p.log) + if p.held && p.log != [] then Copies(p.log[|p.log| - 1].stroke, reports) else []
  {
    if p.held && p.log != [] {
      var n := |p.log| - 1;
      assert Idle(p, reports).log[..n] == p.log[..n];
      assert Copies(p.log[n].stroke, p.log[n].copies) + Copies(p.log[n].stroke, reports)
          == Copies(p.log[n].stroke, p.log[n].copies + reports);
    }
  }

  lemma SeenAfterSend(p: Port, s: Stroke, waiting: nat, pressed: bool)
    ensures SeenOf(Send(p, s, waiting, pressed).log) == SeenOf(p.log) + Copies(s, waiting + if pressed then 1 else 0)
  {
    assert Send(p, s, waiting, pressed).log[..|p.log|] == p.log;
  }

  // What becomes of one keypress: the idle reports before it and while its press waits, and whether
  // its press and its release get out.
  datatype Sending = Sending(before: nat, waiting: nat, pressed: bool, released: bool)

  ghost predicate SendEffect(p: Port, after: Port, s: Stroke, ok: bool) {
    exists o: Sending :: after == Send(Idle(p, o.before), s, o.waiting, o.pressed) && ok == (o.pressed && o.released)
  }

  class UsbPort {
    var log: seq<Typing>
    var held: bool
    var script: seq<Sending>

    constructor (script: seq<Sending>)
      ensures log == [] && !held && this.script == script
    {
      log, held := [], false;
      this.script := script;
    }

    function View(): Port
      reads this
    {
      Port(log, held)
    }

    // The strokes that the firmware has typed, in order.
    function Typed(): seq<Stroke>
      reads this
    {
      StrokesOf(log)
    }

    function Seen(): seq<Stroke>
      reads this
    {
      SeenOf(log)
    }

    // Each stroke has been and will be seen once.
    ghost predicate Reliable()
      reads this
    {
      script == [] && !held && Once(log)
    }

    method SendKeypress(key: byte, mod: byte) returns (ok: bool)
      modifies this
      ensures SendEffect(old(View()), View(), Stroke(key, mod), ok)
      ensures Typed() == old(Typed()) + [Stroke(key, mod)] && old(Seen()) <= Seen()
      ensures old(Reliable()) ==> ok && Reliable()
    {
      var o := Sending(0, 0, true, true);
      if script != [] {
        o, script := script[0], script[1..];
      }
      ghost var p := View();
      SeenAfterIdle(p, o.before);
      SeenAfterSend(Idle(p, o.before), Stroke(key, mod), o.waiting, o.pressed);
      IdleReports(o.before);
      log := log + [Typing(Stroke(key, mod), o.waiting + if o.pressed then 1 else 0)];
      held := !o.pressed;
      ok := o.pressed && o.released;
      assert View() == Send(Idle(p, o.before), Stroke(key, mod), o.waiting, o.pressed);
    }

    method IdleReports(reports: nat)
      modifies this`log
      ensures View() == Idle(old(View()), reports)
      ensures Typed() == old(Typed()) && old(Seen()) <= Seen()
      ensures old(Reliable()) ==> Reliable() && log == old(log)
    {
      SeenAfterIdle(View(), reports);
      if held && log != [] {
        var n := |log| - 1;
        log := log[..n] + [log[n].(copies := log[n].copies + reports)];
      }
    }
  }

  // However the port fails, the host sees the strokes that were typed, each some number of times.
  lemma PortStammers(log: seq<Typing>)
    ensures Stammers(SeenOf(log), StrokesOf(log))
  {}
}
