// From pin samples to chords: a chord is every key seen between two moments at which no key is down.
module ChordStream {
  import opened Types

  datatype Key = KX | KY | KZ

  // The keys are active low on PB2, PB3 and PB1.
  function Pressed(pinb: bv8): set<Key> {
    (if pinb & 0x04 == 0 then {KX} else {}) + (if pinb & 0x08 == 0 then {KY} else {})
    + (if pinb & 0x02 == 0 then {KZ} else {})
  }

  function Named(keys: set<Key>): Keypress {
    if KX in keys then (if KY in keys then (if KZ in keys then XYZ else XY) else if KZ in keys then XZ else X)
    else if KY in keys then (if KZ in keys then YZ else Y)
    else if KZ in keys then Z else INACTIVE
  }

  // The values of the enumerators: bit 0 is key Z, bit 1 is Y and bit 2 is X.
  function Code(k: Keypress): nat {
    match k
    case INACTIVE => 0 case Z => 1 case Y => 2 case YZ => 3 case X => 4 case XZ => 5 case XY => 6 case XYZ => 7
  }

  // A chord is named by the bits of its keys.
  lemma NamedByBits(keys: set<Key>)
    ensures Code(Named(keys)) ==
              (if KZ in keys then 1 else 0) + (if KY in keys then 2 else 0) + (if KX in keys then 4 else 0)
  {}

  // The pins of one sample as such a code: PB2 is X, PB3 is Y and PB1 is Z, all low when pressed.
  lemma PinsToBits(pinb: bv8)
    ensures Code(Named(Pressed(pinb))) ==
              (if pinb & 0x02 == 0 then 1 else 0) + (if pinb & 0x08 == 0 then 2 else 0)
              + (if pinb & 0x04 == 0 then 4 else 0)
  {
    NamedByBits(Pressed(pinb));
  }

  function NamedAll(chords: seq<set<Key>>): (names: seq<Keypress>)
    ensures |names| == |chords|
  {
    seq(|chords|, i requires 0 <= i < |chords| => Named(chords[i]))
  }

  function Union(samples: seq<set<Key>>): set<Key> {
    if samples == [] then {} else samples[0] + Union(samples[1..])
  }

  // The length of the block of non-idle samples at the front.
  function BlockLength(samples: seq<set<Key>>): (n: nat)
    ensures n <= |samples|
  {
    if samples == [] || samples[0] == {} then 0 else 1 + BlockLength(samples[1..])
  }

  lemma {:induction false} BlockIsMaximal(samples: seq<set<Key>>)
    ensures var n := BlockLength(samples);
            && (forall i :: 0 <= i < n ==> samples[i] != {})
            && (n < |samples| ==> samples[n] == {})
  {
    if samples != [] && samples[0] != {} {
      BlockIsMaximal(samples[1..]);
    }
  }

  // The chords of a sample stream: the union of each maximal block of non-idle samples that an idle
  // sample closes, in order.
  function Chords(samples: seq<set<Key>>): seq<set<Key>>
    decreases |samples|
  {
    var n := BlockLength(samples);
    if n == |samples| then []
    else (if n == 0 then [] else [Union(samples[..n])]) + Chords(samples[n + 1..])
  }

  // The block that is still open at the end.
  function Open(samples: seq<set<Key>>): seq<set<Key>>
    decreases |samples|
  {
    var n := BlockLength(samples);
    if n == |samples| then samples else Open(samples[n + 1..])
  }

  lemma {:induction false} UnionSnoc(samples: seq<set<Key>>, x: set<Key>)
    ensures Union(samples + [x]) == Union(samples) + x
  {
    if samples != [] {
      assert (samples + [x])[1..] == samples[1..] + [x];
      UnionSnoc(samples[1..], x);
    }
  }

  lemma {:induction false} BlockSnoc(samples: seq<set<Key>>, x: set<Key>)
    ensures var n := BlockLength(samples);
            BlockLength(samples + [x]) == if n < |samples| || x == {} then n else n + 1
  {
    if samples != [] && samples[0] != {} {
      assert (samples + [x])[1..] == samples[1..] + [x];
      BlockSnoc(samples[1..], x);
    }
  }

  // The first closed block of a stream, and the rest of it.
  lemma FirstBlock(samples: seq<set<Key>>, n: nat, rest: seq<set<Key>>)
    requires n == BlockLength(samples) < |samples| && rest == samples[n + 1..]
    ensures Chords(samples) == (if n == 0 then [] else [Union(samples[..n])]) + Chords(rest)
    ensures Open(samples) == Open(rest)
  {}

  // A stream that has not closed its first block.
  lemma NoBlock(samples: seq<set<Key>>)
    requires BlockLength(samples) == |samples|
    ensures Chords(samples) == [] && Open(samples) == samples
  {}

  // One more sample extends the open block, or closes it and emits its chord.
  lemma {:induction false} ChordsSnoc(samples: seq<set<Key>>, x: set<Key>)
    ensures var open := Open(samples);
            && Chords(samples + [x]) == Chords(samples) + (if x == {} && open != [] then [Union(open)] else [])
            && Open(samples + [x]) == if x == {} then [] else open + [x]
    decreases |samples|
  {
    var n := BlockLength(samples);
    BlockSnoc(samples, x);
    if n < |samples| {
      LongerStream(samples, x, n, samples[n + 1..]);
      ChordsSnoc(samples[n + 1..], x);
    } else if x == {} {
      NoBlock(samples);
      NoBlock([]);
      assert (samples + [x])[..n] == samples && (samples + [x])[n + 1..] == [];
      FirstBlock(samples + [x], n, []);
    } else {
      NoBlock(samples);
      NoBlock(samples + [x]);
    }
  }

  lemma LongerStream(samples: seq<set<Key>>, x: set<Key>, n: nat, rest: seq<set<Key>>)
    requires n == BlockLength(samples) == BlockLength(samples + [x]) < |samples| && rest == samples[n + 1..]
    ensures var head := if n == 0 then [] else [Union(samples[..n])];
            && Chords(samples) == head + Chords(rest) && Chords(samples + [x]) == head + Chords(rest + [x])
            && Open(samples) == Open(rest) && Open(samples + [x]) == Open(rest + [x])
  {
    assert (samples + [x])[n + 1..] == rest + [x] && (samples + [x])[..n] == samples[..n];
    FirstBlock(samples, n, rest);
    FirstBlock(samples + [x], n, rest + [x]);
  }

  lemma {:induction false} OpenIsNonIdle(samples: seq<set<Key>>)
    ensures forall i :: 0 <= i < |Open(samples)| ==> Open(samples)[i] != {}
    decreases |samples|
  {
    var n := BlockLength(samples);
    BlockIsMaximal(samples);
    if n < |samples| {
      OpenIsNonIdle(samples[n + 1..]);
    }
  }

  lemma {:induction false} UnionNonEmpty(samples: seq<set<Key>>)
    requires samples != [] && samples[0] != {}
    ensures Union(samples) != {}
  {
    var k :| k in samples[0];
    assert k in Union(samples);
  }

  // No chord is empty, so INACTIVE is never emitted.
  lemma {:induction false} NeverInactive(samples: seq<set<Key>>, i: nat)
    requires i < |Chords(samples)|
    ensures Named(Chords(samples)[i]) != INACTIVE
    decreases |samples|
  {
    var n := BlockLength(samples);
    BlockIsMaximal(samples);
    if n > 0 && i == 0 {
      UnionNonEmpty(samples[..n]);
      var k :| k in Union(samples[..n]);
      assert k == KX || k == KY || k == KZ;
    } else {
      NeverInactive(samples[n + 1..], if n == 0 then i else i - 1);
    }
  }
}
