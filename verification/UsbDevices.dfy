// The USB controller and the descriptor request, as the sources have them.
module UsbDevices {
  import opened Bytes
  import opened Usb

  // An IN endpoint: bytes are pushed into its bank, and handing the bank over sends them.
  class Endpoint {
    var bank: seq<byte>
    var sent: seq<seq<byte>>

    constructor ()
      ensures bank == [] && sent == []
    {
      bank, sent := [], [];
    }

    method SetUEDATX(b: byte)
      modifies this`bank
      ensures bank == old(bank) + [b]
    {
      bank := bank + [b];
    }

    method HandOver()
      modifies this
      ensures bank == [] && sent == old(sent) + [old(bank)]
    {
      sent := sent + [bank];
      bank := [];
    }
  }

  lemma {:induction false} AwaitTakesInterrupts(h: HidState, initial: byte, looks: seq<Look>)
    requires |h.keys| == 6 && forall l :: l in looks ==> AllInterrupts(l.interrupts)
    ensures AllInterrupts(Await(h, initial, looks).1)
    decreases looks
  {
    if looks != [] {
      AwaitTakesInterrupts(Run(h, looks[0].interrupts).0, initial, looks[1..]);
    }
  }

  class UsbController {
    const endpoint: Endpoint
    var configuration: byte
    var modifierKeys: byte
    var keyboardKeys: seq<byte>
    var idleConfig: byte
    var idleCount: byte

    constructor ()
      ensures View() == INITIAL && endpoint.bank == [] && endpoint.sent == [] && fresh(endpoint)
    {
      endpoint := new Endpoint();
      configuration, modifierKeys, keyboardKeys := 0, 0, [0, 0, 0, 0, 0, 0];
      idleConfig, idleCount := 125, 0;
    }

    function View(): HidState
      reads this
    {
      HidState(configuration, modifierKeys, keyboardKeys, idleConfig, idleCount)
    }

    ghost predicate Valid()
      reads this, endpoint
    {
      |keyboardKeys| == 6 && endpoint.bank == []
    }

    // The controller has done what these actions do, from that state on.
    ghost predicate Did(h: HidState, sent: seq<seq<byte>>, actions: seq<Action>)
      requires |h.keys| == 6
      reads this, endpoint
    {
      (View(), endpoint.sent) == (Run(h, actions).0, sent + Run(h, actions).1)
    }

    lemma DidMore(h: HidState, sent: seq<seq<byte>>, a: seq<Action>, g: HidState, sent': seq<seq<byte>>, b: seq<Action>)
      requires |h.keys| == 6 && (g, sent') == (Run(h, a).0, sent + Run(h, a).1) && Did(g, sent', b)
      ensures Did(h, sent, a + b)
    {
      RunAppend(h, a, b);
      assert sent + Run(h, a).1 + Run(g, b).1 == sent + (Run(h, a).1 + Run(g, b).1);
    }

    method SendHidState()
      requires Valid()
      modifies this`idleCount, endpoint
      ensures Valid() && View() == old(View()).(idleCount := 0)
      ensures endpoint.sent == old(endpoint.sent) + [Report(old(View()))]
      ensures Did(old(View()), old(endpoint.sent), [Transmit])
    {
      RunOne(View(), Transmit);
      idleCount := 0;
      endpoint.SetUEDATX(modifierKeys);
      endpoint.SetUEDATX(0);
      for i := 0 to 6
        invariant idleCount == 0
        invariant endpoint.bank == [modifierKeys, 0] + keyboardKeys[..i] && endpoint.sent == old(endpoint.sent)
      {
        endpoint.SetUEDATX(keyboardKeys[i]);
      }
      assert keyboardKeys[..6] == keyboardKeys;
      endpoint.HandOver();
    }

    method SetKeys(key: byte, mod: byte)
      requires Valid()
      modifies this`modifierKeys, this`keyboardKeys
      ensures Valid() && Did(old(View()), endpoint.sent, [Press(key, mod)])
    {
      RunOne(View(), Press(key, mod));
      modifierKeys := mod;
      keyboardKeys := keyboardKeys[0 := key];
      assert endpoint.sent + [] == endpoint.sent;
    }

    method HandleInterrupt(a: Action)
      requires Valid() && IsInterrupt(a)
      modifies this, endpoint
      ensures Valid() && Did(old(View()), old(endpoint.sent), [a])
    {
      match a {
        case SetIdle(config) => HandleSetIdle(config * 256);
        case SetConfiguration(value) => HandleSetConfiguration(value);
        case Frame(startOfFrame, frameError, writable) => HandleStartOfFrame(startOfFrame, frameError, writable);
      }
    }

    method HandleInterrupts(actions: seq<Action>)
      requires Valid() && AllInterrupts(actions)
      modifies this, endpoint
      ensures Valid() && Did(old(View()), old(endpoint.sent), actions)
    {
      assert endpoint.sent + [] == endpoint.sent;
      var i := 0;
      while i < |actions|
        invariant 0 <= i <= |actions| && Valid() && Did(old(View()), old(endpoint.sent), actions[..i])
      {
        ghost var h, sent := View(), endpoint.sent;
        HandleInterrupt(actions[i]);
        DidMore(old(View()), old(endpoint.sent), actions[..i], h, sent, [actions[i]]);
        assert actions[..i] + [actions[i]] == actions[..i + 1];
        i := i + 1;
      }
      assert actions[..i] == actions;
    }

    // Polls the endpoint until it may be written, with interrupts between the looks at it. The looks
    // are what the hardware shows; if they run out, the polling has not ended.
    method AwaitEndpoint(initial: byte, looks: seq<Look>) returns (wait: Wait)
      requires Valid() && forall l :: l in looks ==> AllInterrupts(l.interrupts)
      modifies this, endpoint
      ensures var (w, taken) := Await(old(View()), initial, looks);
              Valid() && wait == w && AllInterrupts(taken) && Did(old(View()), old(endpoint.sent), taken)
    {
      wait := Waiting;
      ghost var taken := [];
      AwaitTakesInterrupts(View(), initial, looks);
      assert endpoint.sent + [] == endpoint.sent && looks[0..] == looks;
      assert [] + Await(View(), initial, looks).1 == Await(View(), initial, looks).1;
      var i := 0;
      while i < |looks|
        invariant 0 <= i <= |looks| && wait == Waiting && Valid()
        invariant AllInterrupts(taken) && Did(old(View()), old(endpoint.sent), taken)
        invariant var (w, more) := Await(View(), initial, looks[i..]);
                  Await(old(View()), initial, looks) == (w, taken + more)
      {
        ghost var h, sent := View(), endpoint.sent;
        HandleInterrupts(looks[i].interrupts);
        DidMore(old(View()), old(endpoint.sent), taken, h, sent, looks[i].interrupts);
        NextLook(h, initial, looks, i, taken);
        taken := taken + looks[i].interrupts;
        if looks[i].writable {
          return Ready;
        }
        if configuration == 0 {
          return Unconfigured;
        }
        if looks[i].frame - initial >= 50 {
          return TimedOut;
        }
        i := i + 1;
      }
      assert taken + [] == taken;
    }

    lemma NextLook(h: HidState, initial: byte, looks: seq<Look>, i: nat, taken: seq<Action>)
      requires |h.keys| == 6 && i < |looks|
      ensures var (w, more) := Await(h, initial, looks[i..]);
              var l, g := looks[i], Run(h, looks[i].interrupts).0;
              if l.writable || g.configuration == 0 || l.frame - initial >= 50
              then taken + more == taken + l.interrupts
                   && w == if l.writable then Ready else if g.configuration == 0 then Unconfigured else TimedOut
              else var (w', more') := Await(g, initial, looks[i + 1..]);
                   w == w' && taken + more == taken + l.interrupts + more'
    {
      assert looks[i..][1..] == looks[i + 1..];
    }

    // One half of a keypress: the keys are set and their report is waited for and sent.
    method SendKeys(key: byte, mod: byte, initial: byte, looks: seq<Look>) returns (wait: Wait)
      requires Valid() && forall l :: l in looks ==> AllInterrupts(l.interrupts)
      modifies this, endpoint
      ensures var (w, taken) := Await(Pressed(old(View()), key, mod), initial, looks);
              && Valid() && wait == w && AllInterrupts(taken)
              && Did(old(View()), old(endpoint.sent), [Press(key, mod)] + taken + if w == Ready then [Transmit] else [])
    {
      ghost var h0, sent0 := View(), endpoint.sent;
      RunOne(h0, Press(key, mod));
      SetKeys(key, mod);
      ghost var h1, sent1 := View(), endpoint.sent;
      wait := AwaitEndpoint(initial, looks);
      ghost var taken := Await(h1, initial, looks).1;
      DidMore(h0, sent0, [Press(key, mod)], h1, sent1, taken);
      ghost var h2, sent2 := View(), endpoint.sent;
      if wait == Ready {
        SendHidState();
        DidMore(h0, sent0, [Press(key, mod)] + taken, h2, sent2, [Transmit]);
      } else {
        assert [Press(key, mod)] + taken + [] == [Press(key, mod)] + taken;
      }
    }

    // The keypress as an event of the USB machine.
    ghost function EventOf(h: HidState, key: byte, mod: byte, initial1: byte, looks1: seq<Look>, initial2: byte,
                           looks2: seq<Look>): (e: Event)
      requires |h.keys| == 6
    {
      var (wait1, taken1) := Await(Pressed(h, key, mod), initial1, looks1);
      var g := Run(h, [Press(key, mod)] + taken1 + [Transmit]).0;
      var (wait2, taken2) := Await(Pressed(g, 0, 0), initial2, looks2);
      Keystroke(key, mod, taken1, wait1 == Ready, taken2, wait2 == Ready)
    }

    lemma EventIsEvent(h: HidState, key: byte, mod: byte, initial1: byte, looks1: seq<Look>, initial2: byte,
                       looks2: seq<Look>)
      requires |h.keys| == 6 && forall l :: l in looks1 || l in looks2 ==> AllInterrupts(l.interrupts)
      ensures IsEvent(EventOf(h, key, mod, initial1, looks1, initial2, looks2))
    {
      AwaitTakesInterrupts(Pressed(h, key, mod), initial1, looks1);
      var g := Run(h, [Press(key, mod)] + Await(Pressed(h, key, mod), initial1, looks1).1 + [Transmit]).0;
      AwaitTakesInterrupts(Pressed(g, 0, 0), initial2, looks2);
    }

    method SendKeypress(key: byte, mod: byte, initial1: byte, looks1: seq<Look>, initial2: byte, looks2: seq<Look>)
      returns (ok: bool)
      requires Valid()
      requires forall l :: l in looks1 || l in looks2 ==> AllInterrupts(l.interrupts)
      modifies this, endpoint
      ensures var e := EventOf(old(View()), key, mod, initial1, looks1, initial2, looks2);
              && Valid() && ok == (e.pressed && e.released)
              && IsEvent(e) && Did(old(View()), old(endpoint.sent), ActionsOf(e))
    {
      ghost var h, sent := View(), endpoint.sent;
      ghost var e := EventOf(h, key, mod, initial1, looks1, initial2, looks2);
      EventIsEvent(h, key, mod, initial1, looks1, initial2, looks2);
      var wait := SendKeys(key, mod, initial1, looks1);
      if wait != Ready {
        assert ActionsOf(e) == [Press(key, mod)] + e.first + [];
        return false;
      }
      ok := SendRelease(h, sent, e, initial2, looks2);
    }

    // The second half, after a press that got out.
    method SendRelease(ghost h: HidState, ghost sent: seq<seq<byte>>, ghost e: Event, initial: byte, looks: seq<Look>)
      returns (ok: bool)
      requires Valid() && forall l :: l in looks ==> AllInterrupts(l.interrupts)
      requires |h.keys| == 6 && e.Keystroke? && e.pressed
      requires Did(h, sent, [Press(e.key, e.mod)] + e.first + [Transmit])
      requires var (wait, taken) := Await(Pressed(View(), 0, 0), initial, looks);
               e.second == taken && e.released == (wait == Ready)
      modifies this, endpoint
      ensures Valid() && ok == e.released && Did(h, sent, ActionsOf(e))
    {
      ghost var g, sent' := View(), endpoint.sent;
      var wait := SendKeys(0, 0, initial, looks);
      ok := wait == Ready;
      DidMore(h, sent, [Press(e.key, e.mod)] + e.first + [Transmit], g, sent', ReleaseActions(e));
      assert ActionsOf(e) == [Press(e.key, e.mod)] + e.first + [Transmit] + ReleaseActions(e);
    }

    // The idle part of the general interrupt.
    method HandleStartOfFrame(startOfFrame: bool, frameError: bool, writable: bool)
      requires Valid()
      modifies this`idleCount, endpoint
      ensures Valid() && Did(old(View()), old(endpoint.sent), [Frame(startOfFrame, frameError, writable)])
    {
      RunOne(View(), Frame(startOfFrame, frameError, writable));
      assert endpoint.sent + [] == endpoint.sent;
      if startOfFrame && !frameError && configuration != 0 && idleConfig != 0 {
        if writable {
          idleCount := Inc(idleCount);
          if idleCount == idleConfig {
            SendHidState();
          }
        }
      }
    }

    method HandleSetIdle(wValue: nat)
      requires Valid() && wValue < 0x10000
      modifies this`idleConfig, this`idleCount
      ensures Valid() && Did(old(View()), endpoint.sent, [SetIdle(wValue / 256)])
    {
      RunOne(View(), SetIdle(wValue / 256));
      idleConfig := wValue / 256;
      idleCount := 0;
      assert endpoint.sent + [] == endpoint.sent;
    }

    method HandleSetConfiguration(wValue: nat)
      requires Valid() && wValue < 0x10000
      modifies this`configuration
      ensures Valid() && Did(old(View()), endpoint.sent, [SetConfiguration(Low8(wValue))])
    {
      RunOne(View(), SetConfiguration(Low8(wValue)));
      configuration := Low8(wValue);
      assert endpoint.sent + [] == endpoint.sent;
    }
  }

  // ---- Descriptors ----

  datatype Container = Container(id: nat, data: seq<byte>)

  // Splitting into 32-byte packets. A transfer ends with a packet that is not full, empty if need be.
  function Packets(data: seq<byte>): seq<seq<byte>> {
    if |data| < 32 then [data] else [data[..32]] + Packets(data[32..])
  }

  function Flatten(frames: seq<seq<byte>>): seq<byte> {
    if frames == [] then [] else frames[0] + Flatten(frames[1..])
  }

  lemma {:induction false} PacketsAreExact(data: seq<byte>)
    ensures var ps := Packets(data);
            && Flatten(ps) == data
            && |ps| == |data| / 32 + 1
            && (forall i :: 0 <= i < |ps| - 1 ==> |ps[i]| == 32)
            && |ps[|ps| - 1]| == |data| % 32
  {
    var ps := Packets(data);
    if |data| < 32 {
      assert ps[1..] == [];
    } else {
      PacketsAreExact(data[32..]);
      assert ps[1..] == Packets(data[32..]);
      assert data[..32] + data[32..] == data;
      assert forall i :: 1 <= i < |ps| ==> ps[i] == ps[1..][i - 1];
    }
  }

  lemma Slices<T>(s: seq<T>, n: nat, p: nat, c: nat)
    requires p + c <= n <= |s|
    ensures s[..n][p..][..c] == s[p..p + c] && s[..n][p..][c..] == s[..n][p + c..]
  {}

  function Min(a: nat, b: nat): (least: nat)
    ensures least <= a && least <= b && (least == a || least == b)
  {
    if a < b then a else b
  }

  // These packets carry the first n bytes of the data: none for no bytes, otherwise all but the last of
  // 32 bytes, and a shorter one at the end, empty if need be.
  predicate Carry(ps: seq<seq<byte>>, data: seq<byte>, n: nat)
    requires n <= |data|
  {
    && Flatten(ps) == data[..n]
    && |ps| == (if n == 0 then 0 else n / 32 + 1)
    && (forall i :: 0 <= i < |ps| - 1 ==> |ps[i]| == 32)
    && (n > 0 ==> |ps[|ps| - 1]| == n % 32)
  }

  lemma PacketsCarry(data: seq<byte>, n: nat)
    requires n <= |data|
    ensures Carry(if n == 0 then [] else Packets(data[..n]), data, n)
  {
    if n > 0 {
      PacketsAreExact(data[..n]);
    }
  }

  class RequestHandler {
    const endpoint: Endpoint
    const descriptors: seq<Container>
    var stalled: bool

    constructor (descriptors: seq<Container>)
      ensures this.descriptors == descriptors && endpoint.bank == [] && endpoint.sent == [] && !stalled
    {
      this.descriptors := descriptors;
      endpoint := new Endpoint();
      stalled := false;
    }

    method FindMatchingContainer(wValue: nat) returns (found: bool, container: Container)
      ensures found <==> exists i :: 0 <= i < |descriptors| && descriptors[i].id == wValue
      ensures found ==> exists i :: 0 <= i < |descriptors| && container == descriptors[i] && container.id == wValue
                          && forall j :: 0 <= j < i ==> descriptors[j].id != wValue
    {
      var i := 0;
      while i < |descriptors|
        invariant 0 <= i <= |descriptors|
        invariant forall j :: 0 <= j < i ==> descriptors[j].id != wValue
      {
        if descriptors[i].id == wValue {
          return true, descriptors[i];
        }
        i := i + 1;
      }
      return false, Container(0, []);
    }

    // One packet of the data stage.
    method SendPacket(data: seq<byte>, position: nat, count: nat)
      requires position + count <= |data| && endpoint.bank == []
      modifies endpoint
      ensures endpoint.bank == [] && endpoint.sent == old(endpoint.sent) + [data[position..position + count]]
    {
      var i, next := count, position;
      while i > 0
        invariant 0 <= i <= count && next == position + (count - i)
        invariant endpoint.bank == data[position..next] && endpoint.sent == old(endpoint.sent)
      {
        endpoint.SetUEDATX(data[next]);
        next := next + 1;
        i := i - 1;
      }
      endpoint.HandOver();
    }

    // The first min(wLength, 255, length) bytes, in packets of 32 closed by a shorter one.
    method SendDescriptor(data: seq<byte>, wLength: nat)
      requires |data| <= 255 && wLength < 0x10000 && endpoint.bank == []
      modifies endpoint
      ensures endpoint.bank == [] && old(endpoint.sent) <= endpoint.sent
      ensures Carry(endpoint.sent[|old(endpoint.sent)|..], data, Min(Min(wLength, 255), |data|))
    {
      var remaining: nat := Min(Min(wLength, 255), |data|);
      ghost var all := data[..remaining];
      var position: nat, current: nat := 0, 0;
      ghost var done: seq<seq<byte>> := [];
      while remaining > 0 || current == 32
        invariant position + remaining == |all| && endpoint.bank == []
        invariant endpoint.sent == old(endpoint.sent) + done && current <= 32
        invariant remaining > 0 || current == 32 ==> Packets(all) == done + Packets(all[position..])
        invariant remaining == 0 && current != 32 ==> done == if all == [] then [] else Packets(all)
        decreases remaining, current
      {
        current := Min(remaining, 32);
        SendPacket(data, position, current);
        ghost var packet, rest := data[position..position + current], all[position..];
        Slices(data, |all|, position, current);
        ghost var tail := if current == 32 then Packets(rest[32..]) else [];
        assert Packets(rest) == [packet] + tail;
        assert done + ([packet] + tail) == (done + [packet]) + tail;
        position, remaining := position + current, remaining - current;
        done := done + [packet];
      }
      PacketsCarry(data, |all|);
      assert endpoint.sent[|old(endpoint.sent)|..] == done;
    }

    method HandleGetDescriptor(wValue: nat, wLength: nat)
      requires wLength < 0x10000 && endpoint.bank == []
      requires forall c :: c in descriptors ==> |c.data| <= 255
      modifies this`stalled, endpoint
      ensures endpoint.bank == []
      ensures (forall c :: c in descriptors ==> c.id != wValue) ==> stalled && endpoint.sent == old(endpoint.sent)
      ensures forall i :: (0 <= i < |descriptors| && descriptors[i].id == wValue
                           && (forall j :: 0 <= j < i ==> descriptors[j].id != wValue)) ==>
                var data := descriptors[i].data;
                && stalled == old(stalled) && old(endpoint.sent) <= endpoint.sent
                && Carry(endpoint.sent[|old(endpoint.sent)|..], data, Min(Min(wLength, 255), |data|))
    {
      var found, container := FindMatchingContainer(wValue);
      if !found {
        stalled := true;
        return;
      }
      SendDescriptor(container.data, wLength);
    }
  }
}
