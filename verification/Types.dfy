// Vocabulary shared by the firmware and by its reference model.
module Types {
  import opened Bytes

  // A USB key code with its modifier code.
  datatype Stroke = Stroke(key: byte, mod: byte)

  datatype Keypress = INACTIVE | Z | Y | YZ | X | XZ | XY | XYZ

  datatype LayerId = DFLT | R | G | B

  // The part of the LED panel that the layers drive.
  datatype Panel = Panel(bank0: byte, bank1: byte, r: bool, g: bool, b: bool, prog: bool)

  // One of the two external EEPROMs.
  datatype Device = Neither | First | Second

  const SHIFT: byte := 2

  // What the host's character stream is made of: a report with neither key nor modifier
  // is indistinguishable from a release and is dropped.
  function Shown(strokes: seq<Stroke>): (shown: seq<Stroke>)
    ensures |shown| <= |strokes|
  {
    if strokes == [] then []
    else if strokes[0] == Stroke(0, 0) then Shown(strokes[1..])
    else [strokes[0]] + Shown(strokes[1..])
  }

  lemma ShownOne(s: Stroke)
    ensures Shown([s]) == if s.key == 0 && s.mod == 0 then [] else [s]
  {
    assert [s][1..] == [] && [s] + [] == [s];
  }

  lemma {:induction false} ShownAppend(a: seq<Stroke>, b: seq<Stroke>)
    ensures Shown(a + b) == Shown(a) + Shown(b)
  {
    if a == [] {
      assert a + b == b;
    } else {
      assert (a + b)[1..] == a[1..] + b;
      ShownAppend(a[1..], b);
    }
  }

  function Copies<T>(x: T, n: nat): (copies: seq<T>)
    ensures |copies| == n
  {
    seq(n, _ => x)
  }

  function Plain(keys: seq<byte>): (strokes: seq<Stroke>)
    ensures |strokes| == |keys|
  {
    seq(|keys|, i requires 0 <= i < |keys| => Stroke(keys[i], 0))
  }

  function Shifted(keys: seq<byte>): (strokes: seq<Stroke>)
    ensures |strokes| == |keys|
  {
    seq(|keys|, i requires 0 <= i < |keys| => Stroke(keys[i], SHIFT))
  }

  // The punctuation key that a word mod code appends, or zero.
  function Punctuation(wordMod: byte): byte {
    if wordMod == 3 then 0x37 else if wordMod == 4 then 0x36 else if wordMod == 5 then 0x2d else 0
  }

  // What a stored word types under a word mod code.
  function RenderWord(word: seq<byte>, wordMod: byte): seq<Stroke> {
    if word == [] then []
    else if wordMod == 1 then Shifted(word)
    else if wordMod == 2 then [Stroke(word[0], SHIFT)] + Plain(word[1..])
    else if Punctuation(wordMod) != 0 then Plain(word) + [Stroke(Punctuation(wordMod), 0)]
    else Plain(word)
  }
}
