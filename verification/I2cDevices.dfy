// The I2C components as the sources have them: the slave object, the MCU's bus peripheral, and
// the firmware's EEPROM driver, whose two operations keep the promises of the EEPROM interface.
module I2cDevices {
  import opened Bytes
  import opened Bits
  import opened I2c
  import opened Devices

  class Slave {
    const id: byte
    const buffer: array<byte>
    var phase: Phase
    var operationAddress: nat
    var operationAddressCounter: byte

    constructor (id: byte, buffer: array<byte>)
      ensures this.id == id && this.buffer == buffer && View().Idle()
    {
      this.id, this.buffer := id, buffer;
      phase, operationAddress, operationAddressCounter := STOPPED, 0, 0;
    }

    ghost function View(): SlaveState
      reads this, buffer
    {
      SlaveState(phase, operationAddress, operationAddressCounter, buffer[..])
    }

    method ResetState()
      modifies this
      ensures View() == Reset(old(View()))
    {
      phase, operationAddress, operationAddressCounter := STOPPED, 0, 0;
    }

    // Returns whether the message is acknowledged, and the byte that answers a read.
    method HandleI2cMessage(m: Message) returns (acked: bool, answer: byte)
      modifies this, buffer
      ensures View() == Handle(id, old(View()), m)
      ensures acked == Acks(id, m)
      ensures var s := old(View());
              m.Read? && ChipSelect(m.control) == id && Cell(s) < |s.buffer| ==> answer == s.buffer[Cell(s)]
    {
      acked, answer := false, ERASED;
      if ChipSelect(m.control) != id {
        if m.Start? {
          ResetState();
        }
        return;
      }
      match m {
        case Stop(_) => ResetState();
        case Start(control) =>
          if IsControlByte(control) {
            phase := if IsRead(control) then STARTED else ADDRESSING_HIGH;
            acked := true;
          }
        case Write(_, data) =>
          if phase == ADDRESSING_HIGH {
            operationAddress := Or(operationAddress, data * 256);
            phase := ADDRESSING_LOW;
          } else if phase == ADDRESSING_LOW {
            operationAddress := Or(operationAddress, data);
            phase := STARTED;
          } else if phase == STARTED {
            if operationAddress + operationAddressCounter < buffer.Length {
              buffer[operationAddress + operationAddressCounter] := data;
            }
            operationAddressCounter := Inc(operationAddressCounter);
          }
          acked := true;
        case Read(_) =>
          if operationAddress + operationAddressCounter < buffer.Length {
            answer := buffer[operationAddress + operationAddressCounter];
          }
          operationAddressCounter := Inc(operationAddressCounter);
      }
    }
  }

  // What can go wrong with one step on the wire: it does not take place, or it does but the status
  // register does not say so. Every byte that is acknowledged and not disturbed is assumed to yield a
  // status that the driver accepts.
  datatype Disturbance = Clean | NotSent | BadStatus

  function NextOf(script: seq<Disturbance>): Disturbance { if script == [] then Clean else script[0] }

  function RestOf(script: seq<Disturbance>): seq<Disturbance> { if script == [] then [] else script[1..] }

  // How many of the next n bytes arrive if the driver stops at the first that fails.
  function Arriving(script: seq<Disturbance>, n: nat): nat {
    if n == 0 || NextOf(script) == NotSent then 0
    else if NextOf(script) == BadStatus then 1
    else 1 + Arriving(RestOf(script), n - 1)
  }

  predicate Through(script: seq<Disturbance>, n: nat) {
    n > 0 ==> NextOf(script) == Clean && Through(RestOf(script), n - 1)
  }

  // What is still to come when it has stopped.
  function Left(script: seq<Disturbance>, n: nat): seq<Disturbance> {
    if n == 0 then script else if NextOf(script) != Clean then RestOf(script) else Left(RestOf(script), n - 1)
  }

  lemma {:induction false} OneMoreByte(script: seq<Disturbance>, n: nat)
    ensures Through(script, n + 1) <==> Through(script, n) && NextOf(Left(script, n)) == Clean
    ensures Arriving(script, n + 1) ==
              if Through(script, n) then n + (if NextOf(Left(script, n)) == NotSent then 0 else 1)
              else Arriving(script, n)
    ensures Left(script, n + 1) == if Through(script, n) then RestOf(Left(script, n)) else Left(script, n)
  {
    if n > 0 {
      OneMoreByte(RestOf(script), n - 1);
    }
  }

  datatype BusPhase = AwaitingControl | Transferring

  // The MCU's two-wire peripheral with the board's two slaves on its bus.
  class TwiBus {
    const slave0: Slave
    const slave1: Slave
    var twdr: byte
    var accepted: bool
    var phase: BusPhase
    var peer: byte
    var script: seq<Disturbance>

    // What has gone over the wire since the transaction began, and what it met.
    ghost var base0: SlaveState
    ghost var base1: SlaveState
    ghost var log: seq<Message>

    constructor (slave0: Slave, slave1: Slave, script: seq<Disturbance>)
      requires slave0 != slave1 && slave0.buffer != slave1.buffer && slave0.id != slave1.id
      requires slave0.View().Idle() && slave1.View().Idle()
      ensures Valid() && Quiet() && this.slave0 == slave0 && this.slave1 == slave1 && this.script == script
    {
      this.slave0, this.slave1, this.script := slave0, slave1, script;
      twdr, accepted, phase, peer := 0, true, AwaitingControl, 0;
      base0, base1, log := slave0.View(), slave1.View(), [];
    }

    ghost predicate Logged()
      reads this, slave0, slave0.buffer, slave1, slave1.buffer
    {
      && slave0 != slave1 && slave0.buffer != slave1.buffer && slave0.id != slave1.id
      && slave0.View() == Feed(slave0.id, base0, log)
      && slave1.View() == Feed(slave1.id, base1, log)
    }

    // Only the device that was addressed last may have something left over.
    ghost predicate Valid()
      reads this, slave0, slave0.buffer, slave1, slave1.buffer
    {
      && Logged()
      && (slave0.View().Idle() || ChipSelect(peer) == slave0.id)
      && (slave1.View().Idle() || ChipSelect(peer) == slave1.id)
    }

    // Both slaves are between transactions.
    ghost predicate Quiet()
      reads slave0, slave0.buffer, slave1, slave1.buffer
    {
      slave0.View().Idle() && slave1.View().Idle()
    }

    ghost predicate Undisturbed()
      reads this
    {
      script == []
    }

    predicate Present(device: byte) {
      device % 8 == slave0.id || device % 8 == slave1.id
    }

    ghost function Objects(): set<object> {
      {this, slave0, slave0.buffer, slave1, slave1.buffer}
    }

    ghost function SlaveOf(device: byte): Slave
      requires Present(device)
    {
      if device % 8 == slave0.id then slave0 else slave1
    }

    ghost function CellsBeside(device: byte): seq<byte>
      requires Present(device)
      reads slave0.buffer, slave1.buffer
    {
      if device % 8 == slave0.id then slave1.buffer[..] else slave0.buffer[..]
    }

    // What a device keeps from one transaction to the next.
    ghost function MemoryOf(device: byte): Memory
      requires Present(device)
      reads slave0, slave0.buffer, slave1, slave1.buffer
    {
      SlaveOf(device).View().Memory()
    }

    ghost predicate Acked(m: Message) {
      Acks(slave0.id, m) || Acks(slave1.id, m)
    }

    ghost method BeginTransaction()
      requires Valid()
      modifies this`base0, this`base1, this`log
      ensures Valid() && log == [] && base0 == slave0.View() && base1 == slave1.View()
    {
      base0, base1, log := slave0.View(), slave1.View(), [];
    }

    // One message to every slave on the bus.
    method Deliver(m: Message) returns (acked: bool, answer: byte)
      requires Logged()
      modifies this`log, slave0, slave0.buffer, slave1, slave1.buffer
      ensures Logged() && log == old(log) + [m] && acked == Acked(m)
      ensures slave0.View() == Handle(slave0.id, old(slave0.View()), m)
      ensures slave1.View() == Handle(slave1.id, old(slave1.View()), m)
      ensures m.Read? ==>
                var s0, s1 := old(slave0.View()), old(slave1.View());
                && (ChipSelect(m.control) == slave0.id && Cell(s0) < |s0.buffer| ==> answer == s0.buffer[Cell(s0)])
                && (ChipSelect(m.control) == slave1.id && Cell(s1) < |s1.buffer| ==> answer == s1.buffer[Cell(s1)])
    {
      FeedSnoc(slave0.id, base0, log, m);
      FeedSnoc(slave1.id, base1, log, m);
      var acked0, answer0 := slave0.HandleI2cMessage(m);
      var acked1, answer1 := slave1.HandleI2cMessage(m);
      acked := acked0 || acked1;
      answer := if ChipSelect(m.control) == slave0.id then answer0 else answer1;
      log := log + [m];
    }

    method NextDisturbance() returns (d: Disturbance)
      modifies this`script
      ensures d == NextOf(old(script)) && script == RestOf(old(script))
    {
      d := Clean;
      if script != [] {
        d, script := script[0], script[1..];
      }
    }

    // TWCR with TWINT and TWSTA: a start, or a repeated start.
    method SendStart()
      modifies this`script, this`phase, this`accepted
      ensures phase == AwaitingControl && script == RestOf(old(script)) && accepted == (NextOf(old(script)) == Clean)
    {
      var d := NextDisturbance();
      phase := AwaitingControl;
      accepted := d == Clean;
    }

    // TWCR with TWINT: the byte in TWDR goes out, as the control byte after a start.
    method SendByte()
      requires Valid()
      modifies this, slave0, slave0.buffer, slave1, slave1.buffer
      ensures Valid() && base0 == old(base0) && base1 == old(base1)
      ensures twdr == old(twdr) && phase == Transferring && script == RestOf(old(script))
      ensures var m := if old(phase) == AwaitingControl then Start(twdr) else Write(old(peer), twdr);
              var d := NextOf(old(script));
              && log == old(log) + (if d == NotSent then [] else [m])
              && peer == (if d == NotSent then old(peer) else m.control)
              && accepted == (d == Clean && Acked(m))
    {
      var d := NextDisturbance();
      var m := if phase == AwaitingControl then Start(twdr) else Write(peer, twdr);
      phase, accepted := Transferring, false;
      if d == NotSent {
        assert log + [] == log;
        return;
      }
      var acked := PutOnWire(m);
      accepted := acked && d == Clean;
    }

    // A start makes its device the peer and resets the others; a write goes to the peer.
    method PutOnWire(m: Message) returns (acked: bool)
      requires Valid() && (m.Start? || (m.Write? && m.control == peer))
      modifies this`peer, this`log, slave0, slave0.buffer, slave1, slave1.buffer
      ensures Valid() && log == old(log) + [m] && peer == m.control && acked == Acked(m)
    {
      var answer;
      acked, answer := Deliver(m);
      peer := m.control;
    }

    // TWCR with TWINT while reading: the addressed slave's byte arrives in TWDR.
    method ReceiveByte()
      requires Valid()
      modifies this`log, this`twdr, slave0, slave0.buffer, slave1, slave1.buffer
      ensures Valid() && log == old(log) + [Read(peer)]
      ensures var s0, s1 := old(slave0.View()), old(slave1.View());
              && (ChipSelect(peer) == slave0.id && Cell(s0) < |s0.buffer| ==> twdr == s0.buffer[Cell(s0)])
              && (ChipSelect(peer) == slave1.id && Cell(s1) < |s1.buffer| ==> twdr == s1.buffer[Cell(s1)])
    {
      var acked, answer := Deliver(Read(peer));
      twdr := answer;
    }

    // TWCR with TWSTO: nothing is left over in any slave.
    method SendStop()
      requires Valid()
      modifies this`log, slave0, slave0.buffer, slave1, slave1.buffer
      ensures Valid() && Quiet() && log == old(log) + [Stop(peer)]
      ensures slave0.View() == Reset(old(slave0.View())) && slave1.View() == Reset(old(slave1.View()))
    {
      var _, _ := Deliver(Stop(peer));
    }
  }

  // ---- The driver ----

  // What a write leaves on the wire: all of it on success, otherwise some first part without a stop.
  ghost predicate WriteLog(device: byte, offset: nat, raw: byte, ms: seq<Message>, ok: bool)
    requires offset < 0x10000
  {
    if ok then ms == WriteMessages(device, offset, raw) else ms <= WriteBytes(device, offset, raw)
  }

  // What a slave has been through when a write was tried: its own device's broken or whole write; for
  // any other device's, a reset unless nothing arrived.
  ghost predicate WriteServed(id: byte, device: byte, before: SlaveState, after: SlaveState, offset: nat, data: byte,
                              ms: seq<Message>, ok: bool)
  {
    if id != device % 8 then after == if ms == [] then before else Reset(before)
    else
      after.Memory() ==
        if ok then WholeWrite(before.Memory(), offset, Dec(data))
        else BrokenWrite(before.Memory(), offset, Dec(data), |ms|)
  }

  lemma WriteOutcome(id: byte, s: SlaveState, device: byte, offset: nat, data: byte, ms: seq<Message>, ok: bool)
    requires offset < 0x10000 && WriteLog(device, offset, Dec(data), ms, ok)
    ensures WriteServed(id, device, s, Feed(id, s, ms), offset, data, ms, ok)
    ensures ok ==> Feed(id, s, ms).Idle()
  {
    if ok {
      WriteLands(id, s, device, offset, Dec(data));
    } else {
      BrokenWriteLands(id, s, device, offset, Dec(data), ms);
    }
  }

  // The firmware's driver for one device.
  class I2cEeprom {
    const bus: TwiBus
    const device: byte

    constructor (bus: TwiBus, device: byte)
      ensures this.bus == bus && this.device == device
    {
      this.bus, this.device := bus, device;
    }

    method WriteByteAndAck(data: byte) returns (ok: bool)
      requires bus.Valid()
      modifies bus, bus.slave0, bus.slave0.buffer, bus.slave1, bus.slave1.buffer
      ensures bus.Valid() && bus.base0 == old(bus.base0) && bus.base1 == old(bus.base1)
      ensures bus.phase == Transferring && bus.script == RestOf(old(bus.script))
      ensures var m := if old(bus.phase) == AwaitingControl then I2c.Start(data) else Write(old(bus.peer), data);
              var d := NextOf(old(bus.script));
              && bus.log == old(bus.log) + (if d == NotSent then [] else [m])
              && bus.peer == (if d == NotSent then old(bus.peer) else m.control)
              && ok == (d == Clean && bus.Acked(m))
    {
      bus.twdr := data;
      bus.SendByte();
      ok := bus.accepted;
    }

    method Start(read: bool) returns (ok: bool)
      requires bus.Valid()
      modifies bus, bus.slave0, bus.slave0.buffer, bus.slave1, bus.slave1.buffer
      ensures bus.Valid() && bus.base0 == old(bus.base0) && bus.base1 == old(bus.base1)
      ensures var m, rest := I2c.Start(ControlByte(device, read)), RestOf(old(bus.script));
              var sent := NextOf(old(bus.script)) == Clean && NextOf(rest) != NotSent;
              && bus.log == old(bus.log) + (if sent then [m] else [])
              && bus.peer == (if sent then m.control else old(bus.peer))
              && ok == (NextOf(old(bus.script)) == Clean && NextOf(rest) == Clean && bus.Present(device))
              && bus.script == (if NextOf(old(bus.script)) == Clean then RestOf(rest) else rest)
              && (ok ==> bus.phase == Transferring)
      ensures old(bus.Undisturbed()) ==> bus.Undisturbed()
    {
      ControlByteParses(device, read);
      bus.SendStart();
      if !bus.accepted {
        return false;
      }
      ok := WriteByteAndAck(ControlByte(device, read));
    }

    // The two address bytes, once the device has answered its control byte.
    method SendAddress(offset: nat) returns (ok: bool)
      requires bus.Valid() && offset < 0x10000 && bus.Present(device)
      requires bus.phase == Transferring && bus.peer == ControlByte(device, false) && bus.log == [I2c.Start(bus.peer)]
      modifies bus, bus.slave0, bus.slave0.buffer, bus.slave1, bus.slave1.buffer
      ensures bus.Valid() && bus.base0 == old(bus.base0) && bus.base1 == old(bus.base1)
      ensures bus.log <= Addressing(device, offset) && bus.peer == old(bus.peer) && bus.phase == Transferring
      ensures ok == Through(old(bus.script), 2) && |bus.log| == 1 + Arriving(old(bus.script), 2)
      ensures bus.script == Left(old(bus.script), 2) && (ok ==> bus.log == Addressing(device, offset))
      ensures old(bus.Undisturbed()) ==> bus.Undisturbed()
    {
      ControlByteParses(device, false);
      OneMoreByte(bus.script, 0);
      OneMoreByte(bus.script, 1);
      ok := WriteByteAndAck(offset / 256);
      if !ok {
        return;
      }
      ok := WriteByteAndAck(offset % 256);
    }

    // The three bytes that address a device, with what the disturbances make of them.
    method Address(offset: nat) returns (ok: bool)
      requires bus.Valid() && offset < 0x10000 && bus.log == []
      modifies bus, bus.slave0, bus.slave0.buffer, bus.slave1, bus.slave1.buffer
      ensures bus.Valid() && bus.base0 == old(bus.base0) && bus.base1 == old(bus.base1)
      ensures bus.log <= Addressing(device, offset)
      ensures (bus.log != [] ==> bus.peer == ControlByte(device, false)) && (!bus.Present(device) ==> |bus.log| <= 1)
      ensures var start, rest := NextOf(old(bus.script)), RestOf(old(bus.script));
              && ok == (start == Clean && Through(rest, 3) && bus.Present(device))
              && (ok ==> bus.log == Addressing(device, offset) && bus.phase == Transferring)
              && (bus.Present(device) ==>
                    && |bus.log| == (if start == Clean then Arriving(rest, 3) else 0)
                    && bus.script == (if start == Clean then Left(rest, 3) else rest))
      ensures old(bus.Undisturbed()) ==> bus.Undisturbed() && bus.log != []
    {
      ControlByteParses(device, false);
      ok := Start(false);
      if !ok {
        return;
      }
      ok := SendAddress(offset);
    }

    method StartAndAddress(read: bool, offset: nat) returns (ok: bool)
      requires bus.Valid() && offset < 0x10000 && bus.log == []
      modifies bus, bus.slave0, bus.slave0.buffer, bus.slave1, bus.slave1.buffer
      ensures bus.Valid() && bus.base0 == old(bus.base0) && bus.base1 == old(bus.base1)
      ensures var full := Addressing(device, offset) + if read then [I2c.Start(ControlByte(device, true))] else [];
              && bus.log <= full
              && (ok ==> bus.log == full && bus.phase == Transferring && bus.peer == ControlByte(device, read))
              && (ok ==> bus.Present(device))
      ensures bus.log != [] ==> bus.peer in {ControlByte(device, true), ControlByte(device, false)}
      ensures !bus.Present(device) ==> |bus.log| <= 1
      ensures !read ==>
                var start, rest := NextOf(old(bus.script)), RestOf(old(bus.script));
                && ok == (start == Clean && Through(rest, 3) && bus.Present(device))
                && (bus.Present(device) ==>
                      && |bus.log| == (if start == Clean then Arriving(rest, 3) else 0)
                      && bus.script == (if start == Clean then Left(rest, 3) else rest))
      ensures old(bus.Undisturbed()) ==> bus.Undisturbed() && ok == bus.Present(device) && bus.log != []
    {
      UndisturbedGetsThrough(3);
      ok := Address(offset);
      if !ok {
        return;
      }
      if read {
        ok := Start(true);
      }
    }

    // The body of a write. Stop is not sent when the addressing or the data byte fails.
    method Transmit(offset: nat, data: byte) returns (ok: bool)
      requires bus.Valid() && offset < 0x10000
      modifies bus, bus.slave0, bus.slave0.buffer, bus.slave1, bus.slave1.buffer
      ensures bus.Valid() && bus.base0 == old(bus.slave0.View()) && bus.base1 == old(bus.slave1.View())
      ensures WriteLog(device, offset, Dec(data), bus.log, ok) && (ok ==> bus.Quiet())
      ensures !bus.Present(device) ==> |bus.log| <= 1
      ensures var start, rest := NextOf(old(bus.script)), RestOf(old(bus.script));
              && ok == (start == Clean && Through(rest, 4) && bus.Present(device))
              && (!ok && bus.Present(device) ==> |bus.log| == if start == Clean then Arriving(rest, 4) else 0)
              && (bus.Present(device) ==> bus.script == if start == Clean then Left(rest, 4) else rest)
      ensures old(bus.Undisturbed()) ==> bus.Undisturbed() && bus.log != []
    {
      OneMoreByte(RestOf(bus.script), 3);
      bus.BeginTransaction();
      ok := StartAndAddress(false, offset);
      if !ok {
        return;
      }
      ok := SendData(offset, data);
    }

    // The data byte and the stop, once the device has been addressed.
    method SendData(offset: nat, data: byte) returns (ok: bool)
      requires bus.Valid() && offset < 0x10000 && bus.Present(device)
      requires bus.phase == Transferring && bus.peer == ControlByte(device, false)
      requires bus.log == Addressing(device, offset)
      modifies bus, bus.slave0, bus.slave0.buffer, bus.slave1, bus.slave1.buffer
      ensures bus.Valid() && bus.base0 == old(bus.base0) && bus.base1 == old(bus.base1)
      ensures WriteLog(device, offset, Dec(data), bus.log, ok) && (ok ==> bus.Quiet())
      ensures ok == (NextOf(old(bus.script)) == Clean) && bus.script == RestOf(old(bus.script))
      ensures !ok ==> |bus.log| == if NextOf(old(bus.script)) == NotSent then 3 else 4
      ensures bus.log != []
    {
      ControlByteParses(device, false);
      ok := WriteByteAndAck(Dec(data));
      if !ok {
        return;
      }
      bus.SendStop();
      assert bus.log == WriteBytes(device, offset, Dec(data)) + [Stop(bus.peer)];
    }

    // Whatever the bus does: the device's own memory has had a whole or a broken write, the other's
    // cells are as they were, and nothing is left over in any slave after a success or if nothing was
    // disturbed, be the device there or not.
    method WriteByte(offset: nat, data: byte) returns (ok: bool)
      requires bus.Valid() && offset < 0x10000
      modifies bus, bus.slave0, bus.slave0.buffer, bus.slave1, bus.slave1.buffer
      ensures bus.Valid() && (ok ==> bus.Present(device) && bus.Quiet())
      ensures WriteServed(bus.slave0.id, device, old(bus.slave0.View()), bus.slave0.View(), offset, data, bus.log, ok)
      ensures WriteServed(bus.slave1.id, device, old(bus.slave1.View()), bus.slave1.View(), offset, data, bus.log, ok)
      ensures var start, rest := NextOf(old(bus.script)), RestOf(old(bus.script));
              && ok == (start == Clean && Through(rest, 4) && bus.Present(device))
              && (!ok && bus.Present(device) ==> |bus.log| == if start == Clean then Arriving(rest, 4) else 0)
              && (bus.Present(device) ==> bus.script == if start == Clean then Left(rest, 4) else rest)
      ensures !bus.Present(device) ==> |bus.log| <= 1
      ensures old(bus.Undisturbed()) ==>
                bus.Undisturbed() && ok == bus.Present(device) && bus.Quiet() && bus.log != []
    {
      UndisturbedGetsThrough(4);
      ok := Transmit(offset, data);
      WriteOutcome(bus.slave0.id, bus.base0, device, offset, data, bus.log, ok);
      WriteOutcome(bus.slave1.id, bus.base1, device, offset, data, bus.log, ok);
    }

    // What a read leaves on the wire: a failed one stops as well, after some part of the addressing.
    ghost predicate ReadLog(offset: nat, ms: seq<Message>, ok: bool)
      requires offset < 0x10000
    {
      if ok then ms == ReadMessages(device, offset)
      else
        && ms != [] && ms[|ms| - 1].Stop?
        && ms[..|ms| - 1] <= Addressing(device, offset) + [I2c.Start(ControlByte(device, true))]
    }

    // The body of a read. Stop is sent whether or not the addressing succeeds.
    method Fetch(offset: nat) returns (ok: bool, data: byte)
      requires bus.Valid() && offset < 0x10000
      modifies bus, bus.slave0, bus.slave0.buffer, bus.slave1, bus.slave1.buffer
      ensures bus.Valid() && bus.base0 == old(bus.slave0.View()) && bus.base1 == old(bus.slave1.View())
      ensures ReadLog(offset, bus.log, ok) && bus.Quiet() && (ok ==> bus.Present(device))
      ensures old(bus.Undisturbed()) ==> bus.Undisturbed() && ok == bus.Present(device)
      ensures ok ==>
                Answered(bus.slave0.id, bus.base0, offset, data) && Answered(bus.slave1.id, bus.base1, offset, data)
    {
      data := 0;
      bus.BeginTransaction();
      ok := StartAndAddress(true, offset);
      if !ok {
        ghost var sent := bus.log;
        bus.SendStop();
        assert bus.log[..|bus.log| - 1] == sent;
        return;
      }
      data := ReceiveFinalByte(offset);
    }

    // The rest of a read, once the device has been addressed for it.
    method ReceiveFinalByte(offset: nat) returns (data: byte)
      requires bus.Valid() && offset < 0x10000 && bus.peer == ControlByte(device, true)
      requires bus.log == Addressing(device, offset) + [I2c.Start(bus.peer)]
      modifies bus`log, bus`twdr, bus.slave0, bus.slave0.buffer, bus.slave1, bus.slave1.buffer
      ensures bus.Valid() && bus.Quiet() && bus.log == ReadMessages(device, offset)
      ensures Answered(bus.slave0.id, bus.base0, offset, data) && Answered(bus.slave1.id, bus.base1, offset, data)
    {
      ControlByteParses(device, true);
      ReadLands(bus.slave0.id, bus.base0, device, offset);
      ReadLands(bus.slave1.id, bus.base1, device, offset);
      bus.ReceiveByte();
      data := Inc(bus.twdr);
      bus.SendStop();
      assert bus.log == Addressing(device, offset) + [I2c.Start(bus.peer)] + [Read(bus.peer)] + [Stop(bus.peer)];
    }

    // The byte that came back is the one in the cell that the transaction reached.
    ghost predicate Answered(id: byte, s: SlaveState, offset: nat, data: byte) {
      var cell := Landing(s.Memory().left, offset);
      id == device % 8 && cell < |s.buffer| ==> data == Inc(s.buffer[cell])
    }

    // What a slave has been through when a read was tried.
    ghost predicate ReadServed(id: byte, before: SlaveState, after: SlaveState, offset: nat, data: byte, ok: bool) {
      after == Reset(before) && (ok ==> Answered(id, before, offset, data))
    }

    lemma ReadOutcome(id: byte, before: SlaveState, after: SlaveState, offset: nat, data: byte, ms: seq<Message>,
                      ok: bool)
      requires offset < 0x10000 && ReadLog(offset, ms, ok) && after == Feed(id, before, ms) && after.Idle()
      requires ok ==> Answered(id, before, offset, data)
      ensures ReadServed(id, before, after, offset, data, ok)
    {
      if ok {
        ReadLands(id, before, device, offset);
      } else {
        var n := |ms| - 1;
        PartialAddressing(id, before, device, offset, ms[..n]);
        assert Feed(id, before, ms) == Handle(id, Feed(id, before, ms[..n]), ms[n]);
      }
    }

    // Whatever the bus does and whatever was left over: no cell changes, nothing is left over
    // afterwards, and a byte that comes back is the one in the cell that was reached.
    method ReadByte(offset: nat) returns (ok: bool, data: byte)
      requires bus.Valid() && offset < 0x10000
      modifies bus, bus.slave0, bus.slave0.buffer, bus.slave1, bus.slave1.buffer
      ensures bus.Valid() && bus.Quiet() && (ok ==> bus.Present(device))
      ensures ReadServed(bus.slave0.id, old(bus.slave0.View()), bus.slave0.View(), offset, data, ok)
      ensures ReadServed(bus.slave1.id, old(bus.slave1.View()), bus.slave1.View(), offset, data, ok)
      ensures old(bus.Undisturbed()) ==> bus.Undisturbed() && ok == bus.Present(device)
    {
      ok, data := Fetch(offset);
      ReadOutcome(bus.slave0.id, bus.base0, bus.slave0.View(), offset, data, bus.log, ok);
      ReadOutcome(bus.slave1.id, bus.base1, bus.slave1.View(), offset, data, bus.log, ok);
    }
  }

  lemma {:induction false} UndisturbedGetsThrough(n: nat)
    ensures Through([], n)
  {
    if n > 0 {
      UndisturbedGetsThrough(n - 1);
    }
  }

  // A byte that is written comes back from the cell it was written to, if both operations get through; no
  // other cell has changed.
  method WriteAndReadBack(driver: I2cEeprom, offset: nat, data: byte) returns (ok: bool, back: byte)
    requires driver.bus.Valid() && driver.bus.Quiet() && driver.bus.Present(driver.device)
    requires offset < 0x10000 && offset < |driver.bus.MemoryOf(driver.device).cells|
    modifies driver.bus.Objects()
    ensures driver.bus.Valid() && driver.bus.Quiet()
    ensures ok ==> back == data
    ensures ok ==> forall i :: 0 <= i < |old(driver.bus.MemoryOf(driver.device).cells)| && i != offset ==>
              driver.bus.MemoryOf(driver.device).cells[i] == old(driver.bus.MemoryOf(driver.device).cells[i])
    ensures driver.bus.CellsBeside(driver.device) == old(driver.bus.CellsBeside(driver.device))
    ensures old(driver.bus.Undisturbed()) ==> ok
  {
    LandsRight(driver.bus.MemoryOf(driver.device).left, offset);
    var written := driver.WriteByte(offset, data);
    LandsRight(driver.bus.MemoryOf(driver.device).left, offset);
    ok, back := driver.ReadByte(offset);
    ok := written && ok;
    WrapsAround(data);
  }

  // ---- Accesses after a failed write, through the driver ----

  // How many bytes of a write arrive under these disturbances.
  function Arrived(script: seq<Disturbance>): nat {
    if NextOf(script) == Clean then Arriving(RestOf(script), 4) else 0
  }

  predicate GetsThrough(script: seq<Disturbance>) {
    NextOf(script) == Clean && Through(RestOf(script), 4)
  }

  function Remaining(script: seq<Disturbance>): seq<Disturbance> {
    if NextOf(script) == Clean then Left(RestOf(script), 4) else RestOf(script)
  }

  // What a failed write makes of its device.
  ghost function AfterBrokenWrite(bus: TwiBus, device: byte, offset: nat, data: byte): Memory
    requires bus.Present(device)
    reads bus, bus.slave0, bus.slave0.buffer, bus.slave1, bus.slave1.buffer
  {
    BrokenWrite(bus.MemoryOf(device), offset, Dec(data), Arrived(bus.script))
  }

  // A write after a failed write: it reaches the cell it names exactly if it is forgiven.
  method WriteTwice(driver: I2cEeprom, o1: nat, d1: byte, o2: nat, d2: byte) returns (ok1: bool, ok2: bool)
    requires driver.bus.Valid() && driver.bus.Quiet() && driver.bus.Present(driver.device)
    requires o1 < 0x10000 && o2 < 0x10000
    modifies driver.bus.Objects()
    ensures driver.bus.Valid()
    ensures driver.bus.CellsBeside(driver.device) == old(driver.bus.CellsBeside(driver.device))
    ensures ok1 == GetsThrough(old(driver.bus.script)) && ok2 == GetsThrough(Remaining(old(driver.bus.script)))
    ensures !ok1 && ok2 ==>
              var d := old(AfterBrokenWrite(driver.bus, driver.device, o1, d1));
              driver.bus.MemoryOf(driver.device).cells == Put(d.cells, Landing(d.left, o2), Dec(d2))
    ensures Landing(old(AfterBrokenWrite(driver.bus, driver.device, o1, d1)).left, o2) == o2 <==>
              Forgiven(o1, Arrived(old(driver.bus.script)), o2)
  {
    NextAccessLands(driver.bus.MemoryOf(driver.device), o1, Dec(d1), Arrived(driver.bus.script), o2);
    ok1 := driver.WriteByte(o1, d1);
    ok2 := driver.WriteByte(o2, d2);
  }

  // A read after a failed write: the byte is that of the cell it names exactly if it is forgiven.
  method WriteThenRead(driver: I2cEeprom, o1: nat, d1: byte, o2: nat) returns (ok1: bool, ok2: bool, data: byte)
    requires driver.bus.Valid() && driver.bus.Quiet() && driver.bus.Present(driver.device)
    requires o1 < 0x10000 && o2 < 0x10000
    modifies driver.bus.Objects()
    ensures driver.bus.Valid() && driver.bus.Quiet()
    ensures !ok1 && ok2 ==>
              var d := old(AfterBrokenWrite(driver.bus, driver.device, o1, d1));
              Landing(d.left, o2) < |d.cells| ==> data == Inc(d.cells[Landing(d.left, o2)])
    ensures Landing(old(AfterBrokenWrite(driver.bus, driver.device, o1, d1)).left, o2) == o2 <==>
              Forgiven(o1, Arrived(old(driver.bus.script)), o2)
  {
    NextAccessLands(driver.bus.MemoryOf(driver.device), o1, Dec(d1), Arrived(driver.bus.script), o2);
    ok1 := driver.WriteByte(o1, d1);
    ok2, data := driver.ReadByte(o2);
  }

  // A read of any cell, whether or not it succeeds, puts an end to it.
  method WriteReadWrite(driver: I2cEeprom, o1: nat, d1: byte, o: nat, o2: nat, d2: byte) returns (ok1: bool, ok2: bool)
    requires driver.bus.Valid() && driver.bus.Quiet() && driver.bus.Present(driver.device)
    requires o1 < 0x10000 && o < 0x10000 && o2 < 0x10000
    modifies driver.bus.Objects()
    ensures driver.bus.Valid()
    ensures !ok1 && ok2 ==>
              driver.bus.MemoryOf(driver.device).cells ==
                Put(old(AfterBrokenWrite(driver.bus, driver.device, o1, d1)).cells, o2, Dec(d2))
  {
    ok1 := driver.WriteByte(o1, d1);
    var _, _ := driver.ReadByte(o);
    LandsRight(driver.bus.MemoryOf(driver.device).left, o2);
    ok2 := driver.WriteByte(o2, d2);
  }

  // So does a start for another device: here, of a write of which anything arrives.
  method WriteElsewhereBetween(driver: I2cEeprom, o1: nat, d1: byte, other: I2cEeprom, o: nat, d: byte, o2: nat,
                               d2: byte)
    returns (ok1: bool, ok2: bool, ghost arrived: bool)
    requires driver.bus.Valid() && driver.bus.Quiet() && driver.bus.Present(driver.device)
    requires other.bus == driver.bus && other.device % 8 != driver.device % 8
    requires o1 < 0x10000 && o < 0x10000 && o2 < 0x10000
    modifies driver.bus.Objects()
    ensures driver.bus.Valid()
    ensures !ok1 && ok2 && arrived ==>
              driver.bus.MemoryOf(driver.device).cells ==
                Put(old(AfterBrokenWrite(driver.bus, driver.device, o1, d1)).cells, o2, Dec(d2))
  {
    ok1 := driver.WriteByte(o1, d1);
    var _ := other.WriteByte(o, d);
    arrived := driver.bus.log != [];
    LandsRight(driver.bus.MemoryOf(driver.device).left, o2);
    ok2 := driver.WriteByte(o2, d2);
  }

  // A write to 0x100 whose high address byte gets no good status fails, and since no stop is sent the
  // next write, to 0x200, succeeds and stores at 0x300.
  method FailedWriteMisdirectsTheNext(buffer0: array<byte>, buffer1: array<byte>, data: byte)
    returns (ok1: bool, ok2: bool)
    requires buffer0 != buffer1 && buffer0.Length == buffer1.Length == 65535
    modifies buffer0, buffer1
    ensures !ok1 && ok2 && buffer0[..] == old(buffer0[..])[0x300 := Dec(data)] && buffer1[..] == old(buffer1[..])
  {
    var slave0 := new Slave(0, buffer0);
    var slave1 := new Slave(3, buffer1);
    var bus := new TwiBus(slave0, slave1, HIGH_BYTE_FAILS);
    var driver := new I2cEeprom(bus, 0);
    HighByteFails();
    assert bus.MemoryOf(0) == Memory(old(buffer0[..]), NOTHING);
    ok1, ok2 := WriteTwice(driver, 0x100, data, 0x200, data);
  }

  const HIGH_BYTE_FAILS := [Clean, Clean, BadStatus]

  lemma HighByteFails()
    ensures var script := HIGH_BYTE_FAILS;
            Arrived(script) == 2 && !GetsThrough(script) && GetsThrough(Remaining(script))
    ensures forall cells, raw :: BrokenWrite(Memory(cells, NOTHING), 0x100, raw, 2) == Memory(cells, Leftover(0x100, 0))
    ensures Or(0x100, 0x200) == 0x300
  {
    assert RestOf(HIGH_BYTE_FAILS) == [Clean, BadStatus] && RestOf([Clean, BadStatus]) == [BadStatus];
    assert RestOf([BadStatus]) == [];
    assert Arriving([BadStatus], 3) == 1 && Left([BadStatus], 3) == [];
    assert !Through([BadStatus], 3);
    UndisturbedGetsThrough(4);
    OrOfTwoAndOne();
    assert Or(0, 0x100) == 0x100;
  }
}
