// The external EEPROMs over I2C: the slave's message state machine, the bus with any number of
// slaves, and the firmware's master. Composed, a device behaves as a byte array.
module I2c {
  import opened Bytes
  import opened Bits
  import opened Devices

  datatype Phase = STOPPED | ADDRESSING_HIGH | ADDRESSING_LOW | STARTED

  // A message as the bus delivers it, with the control byte of the transaction it belongs to.
  datatype Message =
    | Start(control: byte)
    | Write(control: byte, data: byte)
    | Read(control: byte)
    | Stop(control: byte)

  datatype SlaveState = SlaveState(phase: Phase, address: nat, counter: byte, buffer: seq<byte>) {
    // As Reset leaves it: the next address is taken as it is sent.
    predicate Idle() {
      phase == STOPPED && address == 0 && counter == 0
    }

    // What the slave keeps from one transaction to the next.
    function Memory(): Memory { Devices.Memory(buffer, Leftover(address, counter)) }
  }

  // ---- Control bytes ----

  // The control code, three chip select bits and the read flag.
  function ControlByte(device: byte, read: bool): byte {
    0xA0 + (device % 8) * 2 + if read then 1 else 0
  }

  predicate IsControlByte(control: byte) {
    TestBit(control, 0x80) || TestBit(control, 0x20)
  }

  function ChipSelect(control: byte): byte { (control / 2) % 8 }

  predicate IsRead(control: byte) { control % 2 == 1 }

  lemma ControlByteParses(device: byte, read: bool)
    ensures var c := ControlByte(device, read);
            IsControlByte(c) && ChipSelect(c) == device % 8 && IsRead(c) == read && c / 16 == 0xA
  {}

  // The slave's check takes one bit of the control code for the whole of it.
  lemma ControlBytesAre(control: byte)
    ensures IsControlByte(control) <==> control >= 0x80 || control % 0x40 >= 0x20
  {}

  // ---- The slave ----

  function Reset(s: SlaveState): SlaveState {
    s.(phase := STOPPED, address := 0, counter := 0)
  }

  function Cell(s: SlaveState): nat { s.address + s.counter }

  // One message at the slave with chip select id. Accesses outside the buffer, which the source
  // leaves undefined, are taken to have no effect.
  function Handle(id: byte, s: SlaveState, m: Message): SlaveState {
    if ChipSelect(m.control) != id then
      if m.Start? then Reset(s) else s
    else
      match m
      case Stop(_) => Reset(s)
      case Start(c) => if IsControlByte(c) then s.(phase := if IsRead(c) then STARTED else ADDRESSING_HIGH) else s
      case Write(_, data) =>
        (match s.phase
         case ADDRESSING_HIGH => s.(address := Or(s.address, data * 256), phase := ADDRESSING_LOW)
         case ADDRESSING_LOW => s.(address := Or(s.address, data), phase := STARTED)
         case STARTED => s.(buffer := if Cell(s) < |s.buffer| then s.buffer[Cell(s) := data] else s.buffer,
                            counter := Inc(s.counter))
         case STOPPED => s)
      case Read(_) => s.(counter := Inc(s.counter))
  }

  predicate Acks(id: byte, m: Message) {
    ChipSelect(m.control) == id && ((m.Start? && IsControlByte(m.control)) || m.Write?)
  }

  function Feed(id: byte, s: SlaveState, ms: seq<Message>): SlaveState {
    if ms == [] then s else Handle(id, Feed(id, s, ms[..|ms| - 1]), ms[|ms| - 1])
  }

  lemma FeedSnoc(id: byte, s: SlaveState, ms: seq<Message>, m: Message)
    ensures Feed(id, s, ms + [m]) == Handle(id, Feed(id, s, ms), m)
  {
    assert (ms + [m])[..|ms|] == ms;
  }

  lemma {:induction false} FeedAppend(id: byte, s: SlaveState, a: seq<Message>, b: seq<Message>)
    ensures Feed(id, s, a + b) == Feed(id, Feed(id, s, a), b)
  {
    if b == [] {
      assert a + b == a;
    } else {
      var n := |b| - 1;
      FeedAppend(id, s, a, b[..n]);
      FeedSnoc(id, s, a + b[..n], b[n]);
      assert a + b == a + b[..n] + [b[n]];
    }
  }

  // ---- Addresses on the wire ----

  lemma AddressIsSent(stale: nat, offset: nat)
    requires offset < 0x10000
    ensures Or(Or(stale, (offset / 256) * 256), offset % 256) == Or(stale, offset)
  {
    assert Pow2(4) == 16 && Pow2(8) == 256;
    OrDisjoint(offset / 256, offset % 256, 256, 8);
    OrAssociates(stale, (offset / 256) * 256, offset % 256);
  }

  // ---- Transactions ----

  function Addressing(device: byte, offset: nat): seq<Message>
    requires offset < 0x10000
  {
    var c := ControlByte(device, false);
    [Start(c), Write(c, offset / 256), Write(c, offset % 256)]
  }

  function WriteMessages(device: byte, offset: nat, raw: byte): seq<Message>
    requires offset < 0x10000
  {
    var c := ControlByte(device, false);
    Addressing(device, offset) + [Write(c, raw), Stop(c)]
  }

  function ReadMessages(device: byte, offset: nat): seq<Message>
    requires offset < 0x10000
  {
    var c := ControlByte(device, true);
    Addressing(device, offset) + [Start(c), Read(c), Stop(c)]
  }

  // ---- What a transaction does to a slave, from any state the slave may be in ----

  lemma AddressingLands(id: byte, s: SlaveState, device: byte, offset: nat)
    requires offset < 0x10000
    ensures Feed(id, s, Addressing(device, offset)) ==
              if device % 8 == id then s.(phase := STARTED, address := Or(s.address, offset)) else Reset(s)
  {
    var c := ControlByte(device, false);
    var m1, m2, m3 := Start(c), Write(c, offset / 256), Write(c, offset % 256);
    ControlByteParses(device, false);
    FeedSnoc(id, s, [], m1);
    FeedSnoc(id, s, [m1], m2);
    FeedSnoc(id, s, [m1, m2], m3);
    assert Addressing(device, offset) == [m1, m2] + [m3] && [m1, m2] == [m1] + [m2] && [m1] == [] + [m1];
    AddressIsSent(s.address, offset);
  }

  // The bytes of a write up to and including the data.
  function WriteBytes(device: byte, offset: nat, raw: byte): seq<Message>
    requires offset < 0x10000
  {
    Addressing(device, offset) + [Write(ControlByte(device, false), raw)]
  }

  // A write that breaks off leaves its slave as the device interface says, and has reset the others
  // unless nothing of it arrived.
  lemma BrokenWriteLands(id: byte, s: SlaveState, device: byte, offset: nat, raw: byte, ms: seq<Message>)
    requires offset < 0x10000 && ms <= WriteBytes(device, offset, raw)
    ensures device % 8 == id ==> Feed(id, s, ms).Memory() == BrokenWrite(s.Memory(), offset, raw, |ms|)
    ensures device % 8 != id ==> Feed(id, s, ms) == if ms == [] then s else Reset(s)
  {
    var c := ControlByte(device, false);
    var all := WriteBytes(device, offset, raw);
    ControlByteParses(device, false);
    AddressingLands(id, s, device, offset);
    FeedSnoc(id, s, [], all[0]);
    FeedSnoc(id, s, [all[0]], all[1]);
    FeedSnoc(id, s, Addressing(device, offset), all[3]);
    assert [] + [all[0]] == [all[0]] && [all[0]] + [all[1]] == [all[0], all[1]];
    assert ms == all[..|ms|];
    assert all[..1] == [all[0]] && all[..2] == [all[0], all[1]] && all[..3] == Addressing(device, offset);
    assert all[..4] == Addressing(device, offset) + [all[3]];
  }

  lemma WriteLands(id: byte, s: SlaveState, device: byte, offset: nat, raw: byte)
    requires offset < 0x10000
    ensures var t := Feed(id, s, WriteMessages(device, offset, raw));
            && t.phase == STOPPED
            && t.Memory() ==
                 if device % 8 == id then WholeWrite(s.Memory(), offset, raw) else s.Memory().(left := NOTHING)
  {
    var c := ControlByte(device, false);
    ControlByteParses(device, false);
    BrokenWriteLands(id, s, device, offset, raw, WriteBytes(device, offset, raw));
    FeedSnoc(id, s, WriteBytes(device, offset, raw), Stop(c));
    assert WriteMessages(device, offset, raw) == WriteBytes(device, offset, raw) + [Stop(c)];
  }

  lemma ReadLands(id: byte, s: SlaveState, device: byte, offset: nat)
    requires offset < 0x10000
    ensures Feed(id, s, ReadMessages(device, offset)) == Reset(s)
    ensures device % 8 == id ==>
              var t := Feed(id, s, Addressing(device, offset) + [Start(ControlByte(device, true))]);
              Cell(t) == Landing(s.Memory().left, offset) && t.buffer == s.buffer
  {
    var c := ControlByte(device, true);
    var ms := Addressing(device, offset);
    ControlByteParses(device, true);
    AddressingLands(id, s, device, offset);
    FeedSnoc(id, s, ms, Start(c));
    FeedSnoc(id, s, ms + [Start(c)], Read(c));
    FeedSnoc(id, s, ms + [Start(c)] + [Read(c)], Stop(c));
    assert ReadMessages(device, offset) == ms + [Start(c)] + [Read(c)] + [Stop(c)];
  }

  // However far the addressing for a read gets, no cell has changed, and the other slaves have been
  // reset unless nothing of it arrived.
  lemma PartialAddressing(id: byte, s: SlaveState, device: byte, offset: nat, ms: seq<Message>)
    requires offset < 0x10000
    requires ms <= Addressing(device, offset) + [Start(ControlByte(device, true))]
    ensures Feed(id, s, ms).buffer == s.buffer
    ensures device % 8 != id ==> Feed(id, s, ms) == if ms == [] then s else Reset(s)
  {
    var c := ControlByte(device, true);
    ControlByteParses(device, true);
    if |ms| <= 3 {
      assert ms == (Addressing(device, offset) + [Start(c)])[..|ms|] == WriteBytes(device, offset, 0)[..|ms|];
      BrokenWriteLands(id, s, device, offset, 0, ms);
    } else {
      AddressingLands(id, s, device, offset);
      FeedSnoc(id, s, Addressing(device, offset), Start(c));
      assert ms == Addressing(device, offset) + [Start(c)];
    }
  }

  // ---- What a failed write does to the next access ----

  // After a write at o1 that broke off when some of its bytes had arrived, the device is reached
  // rightly at o2 if only the control byte had arrived; or the address, or its high byte, and these
  // have no bit that o2 lacks; and never if the data had arrived.
  predicate Forgiven(o1: nat, arrived: nat, o2: nat) {
    || arrived <= 1
    || (arrived == 2 && Or((o1 / 256) * 256, o2) == o2)
    || (arrived == 3 && Or(o1, o2) == o2)
  }

  lemma NextAccessLands(d: Memory, o1: nat, raw: byte, arrived: nat, o2: nat)
    requires d.left.Quiet()
    ensures Landing(BrokenWrite(d, o1, raw, arrived).left, o2) == o2 <==> Forgiven(o1, arrived, o2)
  {
    var high := (o1 / 256) * 256;
    var left := if arrived <= 1 then NOTHING else if arrived == 2 then Leftover(high, 0)
                else Leftover(o1, if arrived == 3 then 0 else 1);
    assert BrokenWrite(d, o1, raw, arrived).left == left;
    LandsRight(left, o2);
  }

  lemma OrOfTwoAndOne()
    ensures Or(0x0100, 0x0200) == 0x0300
  {
    assert Pow2(9) == 512;
    OrDisjoint(1, 0x0100, 512, 9);
    OrCommutes(0x0100, 0x0200);
  }

  // ---- Runs of transactions ----

  datatype Access = WriteAt(device: byte, offset: nat, raw: byte) | ReadAt(device: byte, offset: nat)

  function MessagesOf(a: Access): seq<Message>
    requires a.offset < 0x10000
  {
    match a
    case WriteAt(d, o, raw) => WriteMessages(d, o, raw)
    case ReadAt(d, o) => ReadMessages(d, o)
  }

  function AllMessages(run: seq<Access>): seq<Message>
    requires forall a :: a in run ==> a.offset < 0x10000
  {
    if run == [] then [] else AllMessages(run[..|run| - 1]) + MessagesOf(run[|run| - 1])
  }

  // The same accesses on a plain byte array that only listens to its own device number.
  function Array(id: byte, cells: seq<byte>, run: seq<Access>): (after: seq<byte>)
    ensures |after| == |cells|
  {
    if run == [] then cells
    else
      var before, a := Array(id, cells, run[..|run| - 1]), run[|run| - 1];
      if a.WriteAt? && a.device % 8 == id && a.offset < |before| then before[a.offset := a.raw] else before
  }

  // Any run of complete transactions, whatever devices they address, leaves an idle slave idle and
  // its buffer as the plain array would be.
  lemma {:induction false} RunIsByteArray(id: byte, s: SlaveState, run: seq<Access>)
    requires s.Idle() && (forall a :: a in run ==> a.offset < 0x10000)
    ensures Feed(id, s, AllMessages(run)) == s.(buffer := Array(id, s.buffer, run))
  {
    if run != [] {
      var n := |run| - 1;
      var a := run[n];
      RunIsByteArray(id, s, run[..n]);
      FeedAppend(id, s, AllMessages(run[..n]), MessagesOf(a));
      var t := Feed(id, s, AllMessages(run[..n]));
      LandsRight(t.Memory().left, a.offset);
      match a {
        case WriteAt(d, o, raw) => WriteLands(id, t, d, o, raw);
        case ReadAt(d, o) => ReadLands(id, t, d, o);
      }
    }
  }

  // So a read that comes after such a run answers with the cell of the plain array that it names: what
  // is fed to the slave here is the read up to the point where it asks for the byte.
  lemma ReadsAreByteArray(id: byte, s: SlaveState, run: seq<Access>, device: byte, offset: nat)
    requires s.Idle() && (forall a :: a in run ==> a.offset < 0x10000)
    requires device % 8 == id && offset < |s.buffer| && offset < 0x10000
    ensures var asked := Addressing(device, offset) + [Start(ControlByte(device, true))];
            var t := Feed(id, s, AllMessages(run) + asked);
            Cell(t) == offset && offset < |t.buffer| && t.buffer[offset] == Array(id, s.buffer, run)[offset]
  {
    var asked := Addressing(device, offset) + [Start(ControlByte(device, true))];
    RunIsByteArray(id, s, run);
    FeedAppend(id, s, AllMessages(run), asked);
    var t := Feed(id, s, AllMessages(run));
    ReadLands(id, t, device, offset);
    LandsRight(t.Memory().left, offset);
  }
}
