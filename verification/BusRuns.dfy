// The storage stack is written against the device interface, whose failures are scripts of breakages.
// Whatever disturbances hit the bus, a run of operations through the drivers does what the interface
// does under some scripts; with an undisturbed bus, what devices do that do not fail.
module BusRuns {
  import opened Bytes
  import opened Types
  import opened Devices
  import opened I2c
  import opened I2cDevices

  datatype Operation = WriteOp(device: Device, offset: nat, data: byte) | ReadOp(device: Device, offset: nat)

  predicate Proper(op: Operation) { op.device != Neither && op.offset < 0x10000 }

  predicate AllProper(ops: seq<Operation>) { forall i :: 0 <= i < |ops| ==> Proper(ops[i]) }

  // The byte is that of a read.
  datatype Result = Result(ok: bool, data: byte)

  // The cells of the two devices, and what is left over in one of them.
  datatype State = State(first: seq<byte>, second: seq<byte>, bus: Bus)

  function CellsOf(s: State, d: Device): seq<byte> { if d == First then s.first else s.second }

  function Stored(s: State, d: Device, cells: seq<byte>, bus: Bus): State {
    if d == First then State(cells, s.second, bus) else State(s.first, cells, bus)
  }

  predicate Fitted(both: bool, d: Device) { d == First || both }

  // ---- A run of the interface under given breakages ----

  function Next(s: State, op: Operation, how: Breakage): State {
    match op
    case ReadOp(_, _) => s.(bus := CLEAR)
    case WriteOp(d, offset, data) =>
      var m := Memory(CellsOf(s, d), LeftIn(s.bus, d));
      match how
      case Whole => Stored(s, d, WholeWrite(m, offset, Dec(data)).cells, CLEAR)
      case BrokenAfter(n) => Stored(s, d, BrokenCells(m, offset, Dec(data), n), BrokenBus(s.bus, d, offset, n))
  }

  // A read that succeeds answers with the cell it reaches, if that is there.
  predicate Answers(s: State, op: Operation, how: Breakage, r: Result) {
    && r.ok == (how == Whole)
    && (op.ReadOp? && r.ok ==>
          var cells, cell := CellsOf(s, op.device), Landing(LeftIn(s.bus, op.device), op.offset);
          cell < |cells| ==> r.data == Inc(cells[cell]))
  }

  function AfterAll(s: State, ops: seq<Operation>, hows: seq<Breakage>): State
    requires |ops| == |hows|
  {
    if ops == [] then s
    else var n := |ops| - 1; Next(AfterAll(s, ops[..n], hows[..n]), ops[n], hows[n])
  }

  // How operation i goes is possible for its device, and what comes back is right.
  predicate Gives(both: bool, s: State, ops: seq<Operation>, hows: seq<Breakage>, results: seq<Result>, i: nat)
    requires i < |ops| == |hows| && i < |results|
  {
    && hows[i] == Limited(Fitted(both, ops[i].device), hows[i])
    && Answers(AfterAll(s, ops[..i], hows[..i]), ops[i], hows[i], results[i])
  }

  predicate GivesAll(both: bool, s: State, ops: seq<Operation>, hows: seq<Breakage>, results: seq<Result>) {
    |ops| == |hows| == |results| && forall i :: 0 <= i < |ops| ==> Gives(both, s, ops, hows, results, i)
  }

  lemma AfterOneMore(s: State, ops: seq<Operation>, hows: seq<Breakage>, op: Operation, how: Breakage)
    requires |ops| == |hows|
    ensures AfterAll(s, ops + [op], hows + [how]) == Next(AfterAll(s, ops, hows), op, how)
  {
    assert (ops + [op])[..|ops|] == ops && (hows + [how])[..|ops|] == hows;
  }

  lemma GivesOneMore(both: bool, s: State, ops: seq<Operation>, hows: seq<Breakage>, results: seq<Result>,
                     op: Operation, how: Breakage, r: Result)
    requires GivesAll(both, s, ops, hows, results) && how == Limited(Fitted(both, op.device), how)
    requires Answers(AfterAll(s, ops, hows), op, how, r)
    ensures GivesAll(both, s, ops + [op], hows + [how], results + [r])
  {
    var n := |ops|;
    forall i: nat | i <= n ensures Gives(both, s, ops + [op], hows + [how], results + [r], i) {
      assert (ops + [op])[..i] == ops[..i] && (hows + [how])[..i] == hows[..i];
      if i < n {
        assert Gives(both, s, ops, hows, results, i);
      } else {
        assert ops[..n] == ops && hows[..n] == hows;
      }
    }
  }

  // ---- The drivers ----

  // Two drivers on one bus. The first device is there; the second is, or another slave is in its place.
  ghost predicate OnOneBus(driver0: I2cEeprom, driver1: I2cEeprom, both: bool)
    reads driver0.bus.Objects()
  {
    var bus := driver0.bus;
    && driver1.bus == bus && bus.Valid() && driver0.device % 8 == bus.slave0.id
    && driver1.device % 8 != bus.slave0.id && both == (driver1.device % 8 == bus.slave1.id)
  }

  // The slaves hold what the interface says, cells and leftovers.
  ghost predicate Corresponds(s: State, driver0: I2cEeprom, driver1: I2cEeprom, both: bool)
    reads driver0.bus.Objects()
  {
    && OnOneBus(driver0, driver1, both)
    && driver0.bus.slave0.View().Memory() == Memory(s.first, LeftIn(s.bus, First))
    && if both then driver0.bus.slave1.View().Memory() == Memory(s.second, LeftIn(s.bus, Second))
       else LeftIn(s.bus, Second) == NOTHING
  }

  method WriteOnBus(driver0: I2cEeprom, driver1: I2cEeprom, d: Device, offset: nat, data: byte, ghost s: State,
                    ghost both: bool)
    returns (ok: bool, ghost how: Breakage)
    requires Corresponds(s, driver0, driver1, both) && d != Neither && offset < 0x10000
    modifies driver0.bus.Objects()
    ensures ok == (how == Whole) && how == Limited(Fitted(both, d), how)
    ensures Corresponds(Next(s, WriteOp(d, offset, data), how), driver0, driver1, both)
    ensures old(driver0.bus.Undisturbed()) ==> driver0.bus.Undisturbed() && how == Limited(Fitted(both, d), Whole)
  {
    if d == First {
      ok := driver0.WriteByte(offset, data);
    } else {
      ok := driver1.WriteByte(offset, data);
    }
    how := if ok then Whole else BrokenAfter(|driver0.bus.log|);
  }

  method ReadOnBus(driver0: I2cEeprom, driver1: I2cEeprom, d: Device, offset: nat, ghost s: State, ghost both: bool)
    returns (ok: bool, data: byte, ghost how: Breakage)
    requires Corresponds(s, driver0, driver1, both) && d != Neither && offset < 0x10000
    modifies driver0.bus.Objects()
    ensures how == Limited(Fitted(both, d), how) && Answers(s, ReadOp(d, offset), how, Result(ok, data))
    ensures Corresponds(Next(s, ReadOp(d, offset), how), driver0, driver1, both)
    ensures old(driver0.bus.Undisturbed()) ==> driver0.bus.Undisturbed() && how == Limited(Fitted(both, d), Whole)
  {
    if d == First {
      ok, data := driver0.ReadByte(offset);
    } else {
      ok, data := driver1.ReadByte(offset);
    }
    how := if ok then Whole else BrokenAfter(1);
  }

  method DoOnBus(driver0: I2cEeprom, driver1: I2cEeprom, op: Operation, ghost s: State, ghost both: bool)
    returns (r: Result, ghost how: Breakage)
    requires Corresponds(s, driver0, driver1, both) && Proper(op)
    modifies driver0.bus.Objects()
    ensures how == Limited(Fitted(both, op.device), how) && Answers(s, op, how, r)
    ensures Corresponds(Next(s, op, how), driver0, driver1, both)
    ensures old(driver0.bus.Undisturbed()) ==>
              driver0.bus.Undisturbed() && how == Limited(Fitted(both, op.device), Whole)
  {
    match op {
      case WriteOp(d, offset, data) =>
        var ok;
        ok, how := WriteOnBus(driver0, driver1, d, offset, data, s, both);
        r := Result(ok, 0);
      case ReadOp(d, offset) =>
        var ok, data;
        ok, data, how := ReadOnBus(driver0, driver1, d, offset, s, both);
        r := Result(ok, data);
    }
  }

  // No operation of these failed, unless its device is not there.
  predicate AllWhole(both: bool, ops: seq<Operation>, hows: seq<Breakage>)
    requires |ops| == |hows|
  {
    forall i :: 0 <= i < |ops| ==> hows[i] == Limited(Fitted(both, ops[i].device), Whole)
  }

  // Any operations through the drivers, under any disturbances and from any leftovers, are a run of the
  // interface under some breakages.
  method RunOnBus(driver0: I2cEeprom, driver1: I2cEeprom, ops: seq<Operation>, ghost s: State, ghost both: bool)
    returns (results: seq<Result>, ghost hows: seq<Breakage>)
    requires Corresponds(s, driver0, driver1, both) && AllProper(ops)
    modifies driver0.bus.Objects()
    ensures GivesAll(both, s, ops, hows, results)
    ensures Corresponds(AfterAll(s, ops, hows), driver0, driver1, both)
    ensures old(driver0.bus.Undisturbed()) ==> AllWhole(both, ops, hows)
  {
    results, hows := [], [];
    var i := 0;
    while i < |ops|
      invariant 0 <= i <= |ops| && GivesAll(both, s, ops[..i], hows, results)
      invariant Corresponds(AfterAll(s, ops[..i], hows), driver0, driver1, both)
      invariant old(driver0.bus.Undisturbed()) ==> driver0.bus.Undisturbed() && AllWhole(both, ops[..i], hows)
    {
      ghost var t := AfterAll(s, ops[..i], hows);
      ghost var how;
      var r;
      r, how := DoOnBus(driver0, driver1, ops[i], t, both);
      AfterOneMore(s, ops[..i], hows, ops[i], how);
      GivesOneMore(both, s, ops[..i], hows, results, ops[i], how, r);
      assert ops[..i + 1] == ops[..i] + [ops[i]];
      results, hows := results + [r], hows + [how];
      i := i + 1;
    }
    assert ops[..i] == ops;
  }

  // ---- The interface objects ----

  ghost predicate OnOneWire(ext0: ExternalEeprom, ext1: ExternalEeprom, both: bool) {
    && ext0 != ext1 && ext0.cells != ext1.cells && ext0.wire == ext1.wire
    && ext0.device == First && ext1.device == Second && ext0.present && ext1.present == both
  }

  ghost function ViewOf(ext0: ExternalEeprom, ext1: ExternalEeprom): State
    reads ext0.cells, ext1.cells, ext0.wire
  {
    State(ext0.cells[..], ext1.cells[..], ext0.wire.View())
  }

  // The breakages that concern one of the devices.
  function ScriptOf(ops: seq<Operation>, hows: seq<Breakage>, d: Device): seq<Breakage>
    requires |ops| == |hows|
  {
    if ops == [] then []
    else (if ops[0].device == d then [hows[0]] else []) + ScriptOf(ops[1..], hows[1..], d)
  }

  method DoOnInterface(ext0: ExternalEeprom, ext1: ExternalEeprom, op: Operation, ghost both: bool) returns (r: Result)
    requires OnOneWire(ext0, ext1, both) && Proper(op)
    modifies ext0`script, ext1`script, ext0.cells, ext1.cells, ext0.wire
    ensures var script := if op.device == First then old(ext0.script) else old(ext1.script);
            var how := Limited(Fitted(both, op.device), NextBreakage(script));
            Answers(old(ViewOf(ext0, ext1)), op, how, r) && ViewOf(ext0, ext1) == Next(old(ViewOf(ext0, ext1)), op, how)
    ensures ext0.script == if op.device == First then LaterBreakages(old(ext0.script)) else old(ext0.script)
    ensures ext1.script == if op.device == Second then LaterBreakages(old(ext1.script)) else old(ext1.script)
  {
    var ext := if op.device == First then ext0 else ext1;
    match op {
      case WriteOp(_, offset, data) =>
        var ok := ext.WriteByte(offset, data);
        r := Result(ok, 0);
      case ReadOp(_, offset) =>
        var ok, data := ext.ReadByte(offset);
        r := Result(ok, data);
    }
  }

  lemma ScriptFrom(ops: seq<Operation>, hows: seq<Breakage>, i: nat, d: Device)
    requires i < |ops| == |hows|
    ensures var script, later := ScriptOf(ops[i..], hows[i..], d), ScriptOf(ops[i + 1..], hows[i + 1..], d);
            && script == (if ops[i].device == d then [hows[i]] else []) + later
            && (ops[i].device == d ==> NextBreakage(script) == hows[i] && LaterBreakages(script) == later)
            && (ops[i].device != d ==> script == later)
  {
    assert ops[i..][1..] == ops[i + 1..] && hows[i..][1..] == hows[i + 1..];
  }

  lemma RunGrows(both: bool, s: State, ops: seq<Operation>, hows: seq<Breakage>, results: seq<Result>, i: nat,
                 r: Result)
    requires i < |ops| == |hows| && GivesAll(both, s, ops[..i], hows[..i], results)
    requires hows[i] == Limited(Fitted(both, ops[i].device), hows[i])
    requires Answers(AfterAll(s, ops[..i], hows[..i]), ops[i], hows[i], r)
    ensures GivesAll(both, s, ops[..i + 1], hows[..i + 1], results + [r])
    ensures AfterAll(s, ops[..i + 1], hows[..i + 1]) == Next(AfterAll(s, ops[..i], hows[..i]), ops[i], hows[i])
  {
    AfterOneMore(s, ops[..i], hows[..i], ops[i], hows[i]);
    GivesOneMore(both, s, ops[..i], hows[..i], results, ops[i], hows[i], r);
    assert ops[..i + 1] == ops[..i] + [ops[i]] && hows[..i + 1] == hows[..i] + [hows[i]];
  }

  // The objects have gone through this much of a run, and their scripts hold the rest.
  ghost predicate UnderWay(ext0: ExternalEeprom, ext1: ExternalEeprom, s: State, ops: seq<Operation>,
                           hows: seq<Breakage>, both: bool, results: seq<Result>, i: nat)
    requires i <= |ops| == |hows|
    reads ext0`script, ext1`script, ext0.cells, ext1.cells, ext0.wire
  {
    && GivesAll(both, s, ops[..i], hows[..i], results)
    && ViewOf(ext0, ext1) == AfterAll(s, ops[..i], hows[..i])
    && ext0.script == ScriptOf(ops[i..], hows[i..], First) && ext1.script == ScriptOf(ops[i..], hows[i..], Second)
  }

  method GoOnInterface(ext0: ExternalEeprom, ext1: ExternalEeprom, ghost s: State, ops: seq<Operation>,
                       ghost hows: seq<Breakage>, ghost both: bool, results: seq<Result>, i: nat)
    returns (longer: seq<Result>)
    requires OnOneWire(ext0, ext1, both) && i < |ops| == |hows| && Proper(ops[i])
    requires hows[i] == Limited(Fitted(both, ops[i].device), hows[i])
    requires UnderWay(ext0, ext1, s, ops, hows, both, results, i)
    modifies ext0`script, ext1`script, ext0.cells, ext1.cells, ext0.wire
    ensures UnderWay(ext0, ext1, s, ops, hows, both, longer, i + 1)
  {
    ScriptFrom(ops, hows, i, First);
    ScriptFrom(ops, hows, i, Second);
    var r := DoOnInterface(ext0, ext1, ops[i], both);
    RunGrows(both, s, ops, hows, results, i, r);
    longer := results + [r];
  }

  // The interface objects go through a run whose breakages are in their scripts.
  method RunOnInterface(ext0: ExternalEeprom, ext1: ExternalEeprom, ops: seq<Operation>, ghost hows: seq<Breakage>,
                        ghost both: bool)
    returns (results: seq<Result>)
    requires OnOneWire(ext0, ext1, both) && |ops| == |hows| && AllProper(ops)
    requires forall i :: 0 <= i < |ops| ==> hows[i] == Limited(Fitted(both, ops[i].device), hows[i])
    requires ext0.script == ScriptOf(ops, hows, First) && ext1.script == ScriptOf(ops, hows, Second)
    modifies ext0`script, ext1`script, ext0.cells, ext1.cells, ext0.wire
    ensures GivesAll(both, old(ViewOf(ext0, ext1)), ops, hows, results)
    ensures ViewOf(ext0, ext1) == AfterAll(old(ViewOf(ext0, ext1)), ops, hows)
  {
    ghost var s := ViewOf(ext0, ext1);
    assert ops[0..] == ops && hows[0..] == hows;
    results := [];
    var i := 0;
    while i < |ops|
      invariant 0 <= i <= |ops| && UnderWay(ext0, ext1, s, ops, hows, both, results, i)
    {
      results := GoOnInterface(ext0, ext1, s, ops, hows, both, results, i);
      i := i + 1;
    }
    assert ops[..i] == ops && hows[..i] == hows;
  }

  // ---- Together ----

  // Two runs under the same breakages report the same, and reads of cells that are there answer the same.
  // So does a run of the drivers and the run of the interface objects whose scripts have its breakages.
  lemma SameResults(both: bool, s: State, ops: seq<Operation>, hows: seq<Breakage>, onBus: seq<Result>,
                    onInterface: seq<Result>, i: nat)
    requires i < |ops| && GivesAll(both, s, ops, hows, onBus) && GivesAll(both, s, ops, hows, onInterface)
    ensures onBus[i].ok == onInterface[i].ok
    ensures var t, op := AfterAll(s, ops[..i], hows[..i]), ops[i];
            op.ReadOp? && onBus[i].ok && Landing(LeftIn(t.bus, op.device), op.offset) < |CellsOf(t, op.device)| ==>
              onBus[i].data == onInterface[i].data
  {
    assert Gives(both, s, ops, hows, onBus, i) && Gives(both, s, ops, hows, onInterface, i);
  }
}
