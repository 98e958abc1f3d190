// The reference model as the test suite has it: objects that a keypress updates in place. Each is
// proved against the step function of its layer.
module ReferenceMachine {
  import opened Bytes
  import opened Types
  import opened Layout
  import opened Keycodes
  import opened Reference
  import opened WrittenReference

  method AppendIfPrintable(buffer: string, c: char) returns (appended: string)
    ensures appended == buffer + Printing([c])
  {
    assert [c][1..] == [] && Printing([c]) == (if Printable(c) then [c] else []) + [];
    appended := if Printable(c) then buffer + [c] else buffer;
  }

  method AppendTo(buffer: string, key: byte, mod: byte) returns (appended: string)
    requires key != 0 || mod != 0
    ensures appended == buffer + PrintedUnlessZero(key, mod)
  {
    appended := AppendIfPrintable(buffer, FromUsbKeycodes(Stroke(key, mod)));
  }

  class DefaultLayerModel {
    var bank0: byte
    var bank1: byte
    var usbBuffer: string

    constructor ()
      ensures View() == DfltModel(0, 0) && usbBuffer == []
    {
      bank0, bank1, usbBuffer := 0, 0, [];
    }

    function View(): DfltModel
      reads this
    {
      DfltModel(bank0, bank1)
    }

    method Apply(keypress: Keypress) returns (leave: bool)
      modifies this
      ensures var a := ApplyDfltText(old(View()), keypress);
              View() == a.next && leave == a.leave && usbBuffer == old(usbBuffer) + a.out
    {
      leave := false;
      match keypress {
        case X => bank0 := Inc(bank0);
        case Y => bank1 := Inc(bank1);
        case Z =>
          if bank0 != 0 || bank1 != 0 {
            usbBuffer := AppendTo(usbBuffer, bank0, bank1);
          }
        case XZ => bank0 := 0;
        case YZ => bank1 := 0;
        case XYZ => leave := true;
        case _ =>
      }
    }
  }

  class LayerRModel {
    var shortcutId: byte
    var modcode: byte
    var prog: bool
    var shortcuts: seq<byte>
    var usbBuffer: string

    constructor ()
      ensures View() == Initial().r && usbBuffer == []
    {
      shortcutId, modcode, prog, usbBuffer := 0, 0, false, [];
      shortcuts := seq(256, _ => 0);
    }

    function View(): RModel
      reads this
    {
      RModel(shortcutId, modcode, prog, shortcuts)
    }

    method Apply(keypress: Keypress) returns (leave: bool)
      requires |shortcuts| == 256
      modifies this
      ensures var a := ApplyRText(old(View()), keypress);
              View() == a.next && leave == a.leave && usbBuffer == old(usbBuffer) + a.out
    {
      leave := false;
      match keypress {
        case X =>
          if prog {
            shortcuts := shortcuts[shortcutId := Inc(shortcuts[shortcutId])];
          } else {
            shortcutId := Inc(shortcutId);
          }
        case Y =>
          if prog {
            shortcutId := Inc(shortcutId);
          } else {
            modcode := Inc(modcode);
          }
        case Z =>
          if !prog && (modcode != 0 || shortcuts[shortcutId] != 0) {
            usbBuffer := AppendTo(usbBuffer, shortcuts[shortcutId], modcode);
          }
        case XY => prog := true;
        case XZ =>
          if prog {
            shortcuts := shortcuts[shortcutId := 0];
          } else {
            shortcutId := 0;
          }
        case YZ =>
          if prog {
            shortcutId := 0;
          } else {
            modcode := 0;
          }
        case XYZ =>
          leave := !prog;
          prog := false;
        case _ =>
      }
    }
  }

  class LayerGModel {
    var shortcutId: byte
    var wordModCode: byte
    var keyCode: byte
    var prog: bool
    var shortcuts: seq<string>
    var usbBuffer: string

    constructor ()
      ensures View() == InTextG(Initial().g) && usbBuffer == []
    {
      shortcutId, wordModCode, keyCode, prog, usbBuffer := 0, 0, 0, false, [];
      shortcuts := seq(256, _ => []);
    }

    function View(): GText
      reads this
    {
      GText(shortcutId, wordModCode, keyCode, prog, shortcuts)
    }

    method Apply(keypress: Keypress) returns (leave: bool)
      requires |shortcuts| == 256
      modifies this
      ensures var a := ApplyGText(old(View()), keypress);
              View() == a.next && leave == a.leave && usbBuffer == old(usbBuffer) + a.out
    {
      leave := false;
      match keypress {
        case X =>
          if prog {
            keyCode := Inc(keyCode);
          } else {
            shortcutId := Inc(shortcutId);
          }
        case Y =>
          if !prog {
            wordModCode := Inc(wordModCode);
          }
        case Z =>
          if prog && |shortcuts[shortcutId]| < 15 {
            shortcuts := shortcuts[shortcutId := shortcuts[shortcutId] + [FromUsbKeycodes(Stroke(keyCode, 0))]];
          } else {
            var text := ApplyModCodeToCurrentShortcut();
            usbBuffer := usbBuffer + text;
          }
        case XY => prog := true;
        case XZ =>
          if prog {
            keyCode := 0;
          } else {
            shortcutId := 0;
          }
        case YZ =>
          if prog {
            shortcuts := shortcuts[shortcutId := []];
          } else {
            wordModCode := 0;
          }
        case XYZ =>
          leave := !prog;
          prog := false;
        case _ =>
      }
    }

    // The loop that renders a word character by character.
    method ApplyModCodeToCurrentShortcut() returns (output: string)
      requires |shortcuts| == 256
      ensures output == ModCoded(shortcuts[shortcutId], wordModCode)
    {
      var word := shortcuts[shortcutId];
      ghost var text := Render(word);
      output := [];
      var i := 0;
      while i < |word|
        invariant 0 <= i <= |word| <= |text| && output == Printing(text[..if i < |word| then i else |text|])
      {
        output := AppendCharacter(word, i, output);
        i := i + 1;
      }
      assert text[..|text|] == text;
    }

    // The rendered word before unprintable characters are dropped.
    ghost function Render(word: string): (text: string)
      reads this
      ensures Printing(text) == ModCoded(word, wordModCode)
      ensures |text| == |word| + if word != [] && PunctuationMark(wordModCode) != NUL then 1 else 0
    {
      if word == [] then []
      else if wordModCode == 1 then Upper(word)
      else if wordModCode == 2 then [ToUpper(word[0])] + word[1..]
      else if PunctuationMark(wordModCode) != NUL then word + [PunctuationMark(wordModCode)]
      else word
    }

    // One character of the word: in upper case, or plain and followed by the mark if it is the last.
    method AppendCharacter(word: string, i: nat, output: string) returns (longer: string)
      requires i < |word| && output == Printing(Render(word)[..i])
      ensures var text := Render(word); longer == Printing(text[..if i + 1 < |word| then i + 1 else |text|])
    {
      ghost var text := Render(word);
      assert text[..|text|] == text && text[..i] + [text[i]] == text[..i + 1];
      PrintingAppend(text[..i], [text[i]]);
      if wordModCode == 1 || (wordModCode == 2 && i == 0) {
        longer := AppendIfPrintable(output, ToUpper(word[i]));
      } else {
        longer := output;
        var c := word[i];
        if i == |word| - 1 {
          var append := NUL;
          if wordModCode == 3 {
            append := '.';
          } else if wordModCode == 4 {
            append := ',';
          } else if wordModCode == 5 {
            append := '-';
          }
          if append as int > 0 {
            longer := AppendIfPrintable(longer, c);
            c := append;
            assert text[..i + 1] + [append] == text;
            PrintingAppend(text[..i + 1], [append]);
          }
        }
        longer := AppendIfPrintable(longer, c);
      }
    }
  }

  class LayerBModel {
    var shortcutId: byte
    var keyCode: byte
    var modCode: byte
    var prog: bool
    var shortcuts: seq<string>
    var usbBuffer: string

    constructor ()
      ensures View() == InTextB(Initial().b) && usbBuffer == []
    {
      shortcutId, keyCode, modCode, prog, usbBuffer := 0, 0, 0, false, [];
      shortcuts := seq(BLOB_COUNT, _ => []);
    }

    function View(): BText
      reads this
    {
      BText(shortcutId, keyCode, modCode, prog, shortcuts)
    }

    // The shortcut array has 248 elements; an event that would index past its end is left undefined
    // by the model and ignored here.
    method Apply(keypress: Keypress) returns (leave: bool)
      requires |shortcuts| == BLOB_COUNT
      modifies this
      ensures var a := ApplyBText(old(View()), keypress);
              View() == a.next && leave == a.leave && usbBuffer == old(usbBuffer) + a.out
    {
      leave := false;
      match keypress {
        case X =>
          if prog {
            keyCode := Inc(keyCode);
          } else {
            shortcutId := Inc(shortcutId);
          }
        case Y =>
          if prog {
            modCode := Inc(modCode);
          }
        case Z =>
          if shortcutId < BLOB_COUNT {
            if prog {
              shortcuts := shortcuts[shortcutId := shortcuts[shortcutId] + [FromUsbKeycodes(Stroke(keyCode, modCode))]];
            } else {
              AppendBlob(shortcuts[shortcutId]);
            }
          }
        case XY =>
          if !prog {
            prog := true;
          } else if shortcutId < BLOB_COUNT {
            shortcuts := shortcuts[shortcutId := []];
          }
        case XZ =>
          if prog {
            keyCode := 0;
          } else {
            shortcutId := 0;
          }
        case YZ =>
          if prog {
            modCode := 0;
          }
        case XYZ =>
          leave := !prog;
          prog := false;
        case _ =>
      }
    }

    method AppendBlob(blob: string)
      modifies this`usbBuffer
      ensures usbBuffer == old(usbBuffer) + Printing(blob)
    {
      var i := 0;
      while i < |blob|
        invariant 0 <= i <= |blob| && usbBuffer == old(usbBuffer) + Printing(blob[..i])
      {
        assert blob[..i] + [blob[i]] == blob[..i + 1];
        PrintingAppend(blob[..i], [blob[i]]);
        usbBuffer := AppendIfPrintable(usbBuffer, blob[i]);
        i := i + 1;
      }
      assert blob[..i] == blob;
    }
  }

  class ThreeboardModel {
    const dflt: DefaultLayerModel
    const r: LayerRModel
    const g: LayerGModel
    const b: LayerBModel
    var current: LayerId

    constructor ()
      ensures Valid() && View() == InText(Initial()) && Collected() && CurrentBuffer() == []
      ensures fresh(dflt) && fresh(r) && fresh(g) && fresh(b)
    {
      dflt := new DefaultLayerModel();
      r := new LayerRModel();
      g := new LayerGModel();
      b := new LayerBModel();
      current := DFLT;
    }

    ghost predicate Valid()
      reads r, g, b
    {
      |r.shortcuts| == 256 && |g.shortcuts| == 256 && |b.shortcuts| == BLOB_COUNT
    }

    ghost function View(): TextBoard
      reads this, dflt, r, g, b
      requires Valid()
    {
      Texts(current, dflt.View(), r.View(), g.View(), b.View())
    }

    // No layer holds output that a snapshot has not collected, except for the current one.
    ghost predicate Collected()
      reads this, dflt, r, g, b
    {
      && (current != DFLT ==> dflt.usbBuffer == []) && (current != R ==> r.usbBuffer == [])
      && (current != G ==> g.usbBuffer == []) && (current != B ==> b.usbBuffer == [])
    }

    // Between two keypresses.
    ghost predicate Ready()
      reads this, dflt, r, g, b
    {
      Valid() && Collected() && CurrentBuffer() == []
    }

    // Leaving a layer types nothing, so all output is in the current layer's buffer.
    method Apply(keypress: Keypress)
      requires Valid() && Collected() && CurrentBuffer() == []
      modifies this, dflt, r, g, b
      ensures Valid() && View() == ApplyText(old(View()), keypress).0
      ensures Collected() && CurrentBuffer() == ApplyText(old(View()), keypress).1
    {
      var leave;
      match current {
        case DFLT => leave := dflt.Apply(keypress);
        case R => leave := r.Apply(keypress);
        case G => leave := g.Apply(keypress);
        case B => leave := b.Apply(keypress);
      }
      if leave {
        current := NextLayer(current);
      }
    }

    ghost function CurrentBuffer(): string
      reads this, dflt, r, g, b
    {
      match current
      case DFLT => dflt.usbBuffer
      case R => r.usbBuffer
      case G => g.usbBuffer
      case B => b.usbBuffer
    }

    // What the device should show now, and what it should have typed since the last snapshot. For a
    // blob id without a slot the model reads past its array; the panel is then left unspecified.
    method GetStateSnapshot() returns (panel: Panel, typed: string)
      requires Valid() && Collected()
      modifies dflt`usbBuffer, r`usbBuffer, g`usbBuffer, b`usbBuffer
      ensures Valid() && View() == old(View()) && Collected() && CurrentBuffer() == [] && typed == old(CurrentBuffer())
      ensures VisibleText(View()) ==> panel == ShowText(View())
    {
      match current {
        case DFLT =>
          panel := Panel(dflt.bank0, dflt.bank1, false, false, false, false);
          typed, dflt.usbBuffer := dflt.usbBuffer, [];
        case R =>
          panel := if r.prog then Panel(r.shortcuts[r.shortcutId], r.shortcutId, true, false, false, true)
                   else Panel(r.shortcutId, r.modcode, true, false, false, false);
          typed, r.usbBuffer := r.usbBuffer, [];
        case G =>
          var length := |g.shortcuts[g.shortcutId]|;
          panel := if g.prog then Panel(g.keyCode, Low8(length * 16), false, true, false, true)
                   else Panel(g.shortcutId, PackBank(length, g.wordModCode), false, true, false, false);
          typed, g.usbBuffer := g.usbBuffer, [];
        case B =>
          var length := if b.shortcutId < BLOB_COUNT then |b.shortcuts[b.shortcutId]| else 0;
          panel := if b.prog then Panel(b.keyCode, b.modCode, false, false, true, true)
                   else Panel(b.shortcutId, Low8(length), false, false, true, false);
          typed, b.usbBuffer := b.usbBuffer, [];
      }
    }
  }
}
