// From pin samples to handled events: the key controller and the one-slot event buffer run in the
// timer interrupt, the event loop polls the buffer between interrupts.
module EventLoop {
  import opened Bytes
  import opened Types
  import opened ChordStream

  // What happens at the buffer, in order: a chord arrives, or the event loop looks.
  datatype Happening = Chord(key: Keypress) | Poll

  function ChordsOf(trace: seq<Happening>): seq<Keypress> {
    if trace == [] then []
    else ChordsOf(trace[..|trace| - 1]) + (var last := trace[|trace| - 1]; if last.Chord? then [last.key] else [])
  }

  // A chord is taken exactly if the event loop looks before the next chord arrives.
  predicate TakenAt(trace: seq<Happening>, i: nat) {
    i + 1 < |trace| && trace[i].Chord? && trace[i + 1].Poll?
  }

  // The taken chords, in order.
  function Taken(trace: seq<Happening>): seq<Keypress> {
    if |trace| < 2 then []
    else
      var n := |trace| - 1;
      Taken(trace[..n]) + (if TakenAt(trace, n - 1) then [trace[n - 1].key] else [])
  }

  // The places in the trace of the taken chords.
  function Places(trace: seq<Happening>): seq<nat> {
    if |trace| < 2 then []
    else
      var n := |trace| - 1;
      Places(trace[..n]) + (if TakenAt(trace, n - 1) then [n - 1] else [])
  }

  // The taken chords are a subsequence of those that arrived, each taken once; a chord that is not
  // taken was overwritten by the very next happening, a later chord, or is the last happening.
  lemma {:induction false} TakenIsSubsequence(trace: seq<Happening>)
    ensures var at := Places(trace);
            && |at| == |Taken(trace)|
            && (forall j :: 0 <= j < |at| ==> TakenAt(trace, at[j]) && trace[at[j]].key == Taken(trace)[j])
            && (forall j, k :: 0 <= j < k < |at| ==> at[j] < at[k])
            && (forall i :: 0 <= i < |trace| && trace[i].Chord? ==>
                  i in at || i == |trace| - 1 || trace[i + 1].Chord?)
  {
    if |trace| >= 2 {
      var n := |trace| - 1;
      TakenIsSubsequence(trace[..n]);
      var before, at := Places(trace[..n]), Places(trace);
      forall j | 0 <= j < |before| ensures before[j] < n - 1 && TakenAt(trace, before[j]) {
        assert TakenAt(trace[..n], before[j]);
      }
      forall i | 0 <= i < |trace| && trace[i].Chord? ensures i in at || i == n || trace[i + 1].Chord? {
        if i < n - 1 {
          assert trace[..n][i] == trace[i] && trace[..n][i + 1] == trace[i + 1];
          if i in before {
            var j :| 0 <= j < |before| && before[j] == i;
            assert at[j] == i;
          }
        } else if i == n - 1 && trace[n].Poll? {
          assert at[|at| - 1] == i;
        }
      }
    }
  }

  class EventBuffer {
    var event: Keypress
    var hasKeypress: bool

    // The history of the buffer, and the events that were taken from it.
    ghost var trace: seq<Happening>
    ghost var consumed: seq<Keypress>

    constructor ()
      ensures Valid() && trace == [] && consumed == []
    {
      event, hasKeypress := INACTIVE, false;
      trace, consumed := [], [];
    }

    ghost predicate Valid()
      reads this
    {
      && consumed == Taken(trace)
      && (hasKeypress <==> trace != [] && trace[|trace| - 1].Chord?)
      && (hasKeypress ==> event == trace[|trace| - 1].key)
    }

    method HandleKeypress(keypress: Keypress)
      requires Valid()
      modifies this
      ensures Valid() && trace == old(trace) + [Chord(keypress)] && consumed == old(consumed)
    {
      event := keypress;
      hasKeypress := true;
      trace := trace + [Chord(keypress)];
      assert trace[..|trace| - 1] == old(trace);
    }

    // The event loop's look at the buffer, with interrupts disabled: HasKeypressEvent and, if there
    // is one, GetKeypressEvent.
    method TakeEvent() returns (has: bool, keypress: Keypress)
      requires Valid()
      modifies this
      ensures Valid() && trace == old(trace) + [Poll]
      ensures has == old(hasKeypress) && (has ==> keypress == old(event))
      ensures consumed == old(consumed) + if has then [keypress] else []
    {
      has, keypress := hasKeypress, event;
      hasKeypress := false;
      trace := trace + [Poll];
      assert trace[..|trace| - 1] == old(trace);
      if has {
        consumed := consumed + [keypress];
      }
    }
  }

  class KeyController {
    const buffer: EventBuffer

    // The two three-bit fields of the key mask: the keys that are down, and those that have been
    // released since the mask was last clear.
    var held: set<Key>
    var released: set<Key>

    ghost var samples: seq<set<Key>>

    constructor (buffer: EventBuffer)
      requires buffer.Valid() && buffer.trace == []
      ensures this.buffer == buffer && Valid() && samples == []
    {
      this.buffer := buffer;
      held, released := {}, {};
      samples := [];
    }

    // The chords that have arrived are exactly those of the samples so far, and the mask is what is
    // known of the open block: its union, and which keys are down.
    ghost predicate Valid()
      reads this, buffer
    {
      && buffer.Valid()
      && ChordsOf(buffer.trace) == NamedAll(Chords(samples))
      && released + held == Union(Open(samples))
      && held == if Open(samples) == [] then {} else Open(samples)[|Open(samples)| - 1]
    }

    method UpdateKey(key: Key, pressed: bool)
      modifies this`held, this`released
      ensures held == (if pressed then old(held) + {key} else old(held) - {key})
      ensures released == old(released) + (if !pressed && key in old(held) then {key} else {})
    {
      if pressed {
        held := held + {key};
      } else if key in held {
        held := held - {key};
        released := released + {key};
      }
    }

    method UpdateMask(pinb: bv8)
      modifies this`held, this`released
      ensures held == Pressed(pinb)
      ensures released == old(released) + (old(held) - Pressed(pinb))
    {
      UpdateKey(KX, pinb & 0x04 == 0);
      UpdateKey(KY, pinb & 0x08 == 0);
      UpdateKey(KZ, pinb & 0x02 == 0);
      forall k: Key ensures k in held <==> k in Pressed(pinb) {
        assert k == KX || k == KY || k == KZ;
      }
      forall k: Key ensures k in released <==> k in old(released) + (old(held) - Pressed(pinb)) {
        assert k == KX || k == KY || k == KZ;
      }
    }

    method PollKeyState(pinb: bv8)
      requires Valid()
      modifies this, buffer
      ensures Valid() && samples == old(samples) + [Pressed(pinb)]
      ensures buffer.consumed == old(buffer.consumed)
      ensures var closed := Pressed(pinb) == {} && Open(old(samples)) != [];
              buffer.trace == old(buffer.trace) + (if closed then [Chord(Named(Union(Open(old(samples)))))] else [])
      ensures pinb & 0x0e == 0x0e && Open(old(samples)) != [] ==>
                && |buffer.trace| == |old(buffer.trace)| + 1 && old(buffer.trace) <= buffer.trace
                && var last := buffer.trace[|buffer.trace| - 1];
                   last.Chord? && Code(last.key) < 8 && HasBitsOf(last.key, Open(old(samples)))
      ensures pinb & 0x0e != 0x0e || Open(old(samples)) == [] ==> buffer.trace == old(buffer.trace)
    {
      NamedHasBits(Open(samples));
      UpdateMask(pinb);
      ghost var down := Pressed(pinb);
      SampleEffect(samples, old(released), old(held), down);
      samples := samples + [down];
      if held == {} && released != {} {
        buffer.HandleKeypress(Named(released));
        assert buffer.trace[..|buffer.trace| - 1] == old(buffer.trace);
        released := {};
      }
    }
  }

  // The event that a block of samples becomes has the bit of each key that was down in any of them: 4 for
  // key X, 2 for Y and 1 for Z.
  predicate HasBitsOf(k: Keypress, block: seq<set<Key>>) {
    && (TestBit(Code(k), 4) <==> exists i :: 0 <= i < |block| && KX in block[i])
    && (TestBit(Code(k), 2) <==> exists i :: 0 <= i < |block| && KY in block[i])
    && (TestBit(Code(k), 1) <==> exists i :: 0 <= i < |block| && KZ in block[i])
  }

  lemma {:induction false} InUnion(block: seq<set<Key>>, key: Key)
    ensures key in Union(block) <==> exists i :: 0 <= i < |block| && key in block[i]
  {
    if block != [] {
      InUnion(block[1..], key);
      assert forall i :: 1 <= i < |block| ==> block[i] == block[1..][i - 1];
      assert forall i :: 0 <= i < |block| - 1 ==> block[1..][i] == block[i + 1];
    }
  }

  lemma NamedHasBits(block: seq<set<Key>>)
    ensures HasBitsOf(Named(Union(block)), block) && Code(Named(Union(block))) < 8
  {
    NamedByBits(Union(block));
    InUnion(block, KX);
    InUnion(block, KY);
    InUnion(block, KZ);
  }

  // What a sample does to the chord stream, in terms of the key mask.
  lemma SampleEffect(samples: seq<set<Key>>, released: set<Key>, held: set<Key>, down: set<Key>)
    requires released + held == Union(Open(samples))
    ensures var open, freed := Open(samples), released + (held - down);
            && Open(samples + [down]) == (if down == {} then [] else open + [down])
            && Union(Open(samples + [down])) == (if down == {} then {} else freed + down)
            && (down == {} ==> freed == Union(open) && (freed == {} <==> open == []))
            && NamedAll(Chords(samples + [down])) ==
                 NamedAll(Chords(samples)) + if down == {} && open != [] then [Named(freed)] else []
  {
    var open, freed := Open(samples), released + (held - down);
    assert freed + down == released + held + down;
    ChordsSnoc(samples, down);
    UnionSnoc(open, down);
    OpenIsNonIdle(samples);
    if open != [] {
      UnionNonEmpty(open);
    }
    if down == {} {
      assert freed == Union(open);
    }
  }
}
