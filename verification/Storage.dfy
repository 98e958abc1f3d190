// The storage controller: the only component that knows the layout. Its abstract state is the
// three tables; every operation is specified on them and proved against the byte devices.
module Storage {
  import opened Bytes
  import opened Types
  import opened Layout
  import opened Devices

  lemma ExtendPrefix<T>(base: seq<T>, sent: seq<T>, now: seq<T>, text: seq<T>, i: nat, end: nat)
    requires i <= end <= |text| && sent == base + text[..i] && sent <= now <= sent + text[i..end]
    ensures base <= now <= base + text
    ensures now == sent + text[i..end] ==> now == base + text[..end]
  {
    assert text[..i] + text[i..end] == text[..end];
    assert sent + text[i..end] == base + text[..end];
    assert base + text[..end] <= base + text;
  }

  // The write of a pair broke off at its first cell, or at the second after the first was whole.
  ghost predicate PairBrokenOff(b: Bus, b': Bus, d: Device, aim: nat) {
    BrokenOff(b, b', d, aim) || BrokenOff(CLEAR, b', d, aim + 1)
  }

  class StorageController {
    const usb: UsbPort
    const internal: Eeprom
    const ext0: ExternalEeprom
    const ext1: ExternalEeprom
    const wire: Wire

    ghost var tables: Tables

    constructor (usb: UsbPort, internal: Eeprom, ext0: ExternalEeprom, ext1: ExternalEeprom)
      requires ext0 != ext1 && ext0.wire == ext1.wire && ext0.device == First && ext1.device == Second && ext0.present
      requires ext0.cells != ext1.cells && internal.cells != ext0.cells && internal.cells != ext1.cells
      requires Sized(Image(internal.cells[..], ext0.cells[..], ext1.cells[..]))
      requires Fits(Decode(Image(internal.cells[..], ext0.cells[..], ext1.cells[..])))
      ensures Valid()
      ensures this.usb == usb && this.internal == internal && this.ext0 == ext0 && this.ext1 == ext1
      ensures wire == ext0.wire
      ensures tables == Decode(Cells())
    {
      this.usb, this.internal, this.ext0, this.ext1, wire := usb, internal, ext0, ext1, ext0.wire;
      tables := Decode(Image(internal.cells[..], ext0.cells[..], ext1.cells[..]));
    }

    ghost function Devices(): set<object> {
      {internal, internal.cells, ext0, ext0.cells, ext1, ext1.cells, wire}
    }

    ghost function Cells(): Image
      reads internal.cells, ext0.cells, ext1.cells
    {
      Image(internal.cells[..], ext0.cells[..], ext1.cells[..])
    }

    ghost predicate Valid()
      reads this, internal.cells, ext0.cells, ext1.cells
    {
      && ext0 != ext1 && ext0.wire == ext1.wire == wire && ext0.device == First && ext1.device == Second && ext0.present
      && ext0.cells != ext1.cells && internal.cells != ext0.cells && internal.cells != ext1.cells
      && Sized(Cells())
      && tables == Decode(Cells())
      && Fits(tables)
    }

    // The devices that there are.
    ghost function Fit(): Fit {
      if ext1.present then BothEeproms else FirstEeprom
    }

    function ExtOf(index: byte): ExternalEeprom {
      if index >= 120 then ext1 else ext0
    }

    // Every device will keep its promises, and nothing is left over in one.
    ghost predicate Reliable()
      reads internal, ext0, ext1, wire
    {
      internal.Reliable() && ext0.script == [] && ext1.script == [] && wire.left.Quiet()
    }

    method SetCharacterShortcut(index: byte, character: byte) returns (ok: bool)
      requires Valid()
      modifies this`tables, internal, internal.cells
      ensures Valid()
      ensures old(internal.Reliable()) ==> ok && internal.Reliable()
      ensures var stored := old(tables).(chars := old(tables).chars[index := character]);
              tables == stored || (!ok && tables == old(tables))
    {
      ghost var m := Cells();
      ok := internal.WriteByte(index, character);
      if Cells() == m {
      } else {
        WriteChar(m, Cells(), index, character);
      }
      tables := Decode(Cells());
    }

    method GetCharacterShortcut(index: byte) returns (ok: bool, character: byte)
      requires Valid()
      modifies internal
      ensures ok ==> character == tables.chars[index]
      ensures old(internal.Reliable()) ==> ok && internal.Reliable()
    {
      ok, character := internal.ReadByte(index);
    }

    // Where the first access reaches another cell than the one it names, the key may go elsewhere on the
    // device; the lengths are right even then.
    method AppendToWordShortcut(index: byte, character: byte) returns (ok: bool)
      requires Valid()
      modifies this`tables, internal, internal.cells, ext0`script, ext0.cells, wire
      ensures Valid()
      ensures var word := old(tables).words[index];
              var right := old(ext0.Right(WordAddress(index, |word|)));
              var grown := old(tables).(words := old(tables).words[index := word + [character]]);
              && (ok ==> |word| < MAX_WORD && Match(right, grown, tables))
              && (!ok ==> || Match(right, old(tables), tables)
                          || (Match(right, grown, tables) && |word| < MAX_WORD && !old(internal.Reliable())))
              && (|word| == MAX_WORD ==> !ok && tables == old(tables) && wire.View() == old(wire.View()))
              && (|word| < MAX_WORD && old(internal.Reliable()) ==>
                    if ok then wire.View() == CLEAR
                    else BrokenOff(old(wire.View()), wire.View(), First, WordAddress(index, |word|)))
              && (old(internal.Reliable()) && old(ext0.Reliable()) && |word| < MAX_WORD ==> ok)
      ensures old(internal.Reliable()) ==> internal.Reliable()
      ensures old(ext0.Reliable()) ==> ext0.Reliable()
    {
      var length: byte;
      ok, length := GetWordShortcutLength(index);
      if !ok {
        return;
      }
      if length == 15 {
        return false;
      }
      ghost var m0, right := Cells(), ext0.Right(WordAddress(index, length));
      ok := ext0.WriteByte(Low16(index * 16 + length), character);
      ghost var m1 := Cells();
      SameInternal(m0, m1);
      if right && m1 != m0 {
        WriteWordCell(m0, m1, index, Dec(character));
      }
      tables := Decode(m1);
      if !ok {
        return;
      }
      ok := PublishKey(index, length, character, m0, right);
    }

    // The length write.
    method PublishKey(index: byte, length: byte, character: byte, ghost m0: Image, ghost right: bool) returns (ok: bool)
      requires Valid() && length < MAX_WORD && length as int == |tables.words[index]|
      requires Sized(m0) && m0.internal == Cells().internal && (right ==> Decode(m0) == tables)
      requires right ==> Cells().ext0[WordAddress(index, length)] == Dec(character)
      modifies this`tables, internal, internal.cells
      ensures Valid()
      ensures var before := Decode(m0);
              var grown := before.(words := before.words[index := before.words[index] + [character]]);
              && (ok ==> Match(right, grown, tables))
              && (!ok ==> Match(right, before, tables) || (Match(right, grown, tables) && !old(internal.Reliable())))
      ensures old(internal.Reliable()) ==> ok && internal.Reliable()
    {
      ghost var m := Cells();
      SameInternal(m0, m);
      ok := internal.WriteByte(WORD_LENGTHS + index, length + 1);
      if Cells() != m {
        LongerWord(m0, Cells(), index, character);
        if right {
          GrowWord(m, Cells(), index, character);
        }
      }
      tables := Decode(Cells());
    }

    method GetWordShortcutLength(index: byte) returns (ok: bool, length: byte)
      requires Valid()
      modifies internal
      ensures ok ==> length as int == |tables.words[index]|
      ensures old(internal.Reliable()) ==> ok && internal.Reliable()
    {
      ok, length := internal.ReadByte(WORD_LENGTHS + index);
    }

    method ClearWordShortcut(index: byte) returns (ok: bool)
      requires Valid()
      modifies this`tables, internal, internal.cells
      ensures Valid()
      ensures var cleared := old(tables).(words := old(tables).words[index := []]);
              tables == cleared || (!ok && tables == old(tables))
      ensures old(internal.Reliable()) ==> ok && internal.Reliable()
    {
      ghost var m := Cells();
      ok := internal.WriteByte(WORD_LENGTHS + index, 0);
      if Cells() != m {
        ClearWord(m, Cells(), index);
      } else if ok {
        ClearWord(m, m, index);
      }
      tables := Decode(Cells());
    }

    // One character of a stored word.
    method ReadWordCharacter(index: byte, i: nat) returns (ok: bool, character: byte)
      requires Valid() && i < |tables.words[index]|
      modifies ext0`script, wire
      ensures wire.View() == CLEAR
      ensures ok && old(ext0.Right(WordAddress(index, i))) ==> character == tables.words[index][i]
      ensures old(ext0.Reliable()) ==> ok && ext0.Reliable()
    {
      ok, character := ext0.ReadByte(Low16(index * 16 + i));
    }

    // Types the i-th character of a word, with whatever its mod code adds there.
    method SendWordCharacter(ghost word: seq<byte>, i: nat, length: byte, character: byte, rawModCode: byte)
      returns (ok: bool)
      requires i < length as int == |word| && character == word[i]
      modifies usb
      ensures var text := RenderWord(word, rawModCode);
              var end := if i + 1 < length then i + 1 else |text|;
              && i <= end <= |text|
              && old(usb.Typed()) <= usb.Typed() <= old(usb.Typed()) + text[i..end]
              && (ok ==> usb.Typed() == old(usb.Typed()) + text[i..end])
      ensures old(usb.Reliable()) ==> ok && usb.Reliable()
    {
      ghost var text := RenderWord(word, rawModCode);
      var mod: byte, append: byte := 0, 0;
      if rawModCode == 1 || (rawModCode == 2 && i == 0) {
        mod := SHIFT;
      } else if i == length - 1 {
        if rawModCode == 3 {
          append := 0x37;
        } else if rawModCode == 4 {
          append := 0x36;
        } else if rawModCode == 5 {
          append := 0x2d;
        }
      }
      assert text[i..if i + 1 < length then i + 1 else |text|] == CharacterStrokes(character, mod, append);
      ok := SendCharacter(character, mod, append);
    }

    ghost function CharacterStrokes(character: byte, mod: byte, append: byte): seq<Stroke> {
      [Stroke(character, mod)] + if append > 0 then [Stroke(append, 0)] else []
    }

    method SendCharacter(character: byte, mod: byte, append: byte) returns (ok: bool)
      modifies usb
      ensures var strokes := CharacterStrokes(character, mod, append);
              && old(usb.Typed()) <= usb.Typed() <= old(usb.Typed()) + strokes
              && (ok ==> usb.Typed() == old(usb.Typed()) + strokes)
      ensures old(usb.Reliable()) ==> ok && usb.Reliable()
    {
      ok := usb.SendKeypress(character, mod);
      if ok && append > 0 {
        ok := usb.SendKeypress(append, 0);
      }
    }

    // Types a prefix of the rendered word, and all of it on success. An empty word is an error. Where the
    // first access reaches another cell than the one it names, the first key is another one.
    method SendWordShortcut(index: byte, rawModCode: byte) returns (ok: bool)
      requires Valid()
      modifies usb, internal, ext0`script, wire
      ensures var text := RenderWord(tables.words[index], rawModCode);
              && (old(ext0.Right(WordAddress(index, 0))) ==>
                    && old(usb.Typed()) <= usb.Typed() <= old(usb.Typed()) + text
                    && (ok ==> usb.Typed() == old(usb.Typed()) + text))
              && (ok ==> text != [])
              && (text == [] ==> usb.Typed() == old(usb.Typed()) && wire.View() == old(wire.View()))
              && (text != [] && old(internal.Reliable()) ==> wire.View() == CLEAR)
              && (old(Reliable()) && old(usb.Reliable()) ==> ok == (text != []))
      ensures old(usb.Typed()) <= usb.Typed()
      ensures old(internal.Reliable()) ==> internal.Reliable()
      ensures old(ext0.Reliable()) ==> ext0.Reliable()
      ensures old(usb.Reliable()) ==> usb.Reliable()
    {
      var length: byte;
      ok, length := GetWordShortcutLength(index);
      if !ok {
        return;
      }
      if length == 0 {
        return false;
      }
      ok := SendWordCharacters(index, length, rawModCode);
    }

    method SendWordCharacters(index: byte, length: byte, rawModCode: byte) returns (ok: bool)
      requires Valid() && 0 < length as int == |tables.words[index]|
      modifies usb, ext0`script, wire
      ensures var text := RenderWord(tables.words[index], rawModCode);
              old(ext0.Right(WordAddress(index, 0))) ==>
                && old(usb.Typed()) <= usb.Typed() <= old(usb.Typed()) + text
                && (ok ==> usb.Typed() == old(usb.Typed()) + text)
      ensures old(usb.Typed()) <= usb.Typed() && wire.View() == CLEAR
      ensures old(ext0.Reliable()) ==> ext0.Reliable()
      ensures old(usb.Reliable()) ==> usb.Reliable()
      ensures old(ext0.Reliable()) && old(usb.Reliable()) ==> ok
    {
      ghost var text, right := RenderWord(tables.words[index], rawModCode), ext0.Right(WordAddress(index, 0));
      ok := true;
      var i := 0;
      while i < length
        invariant 0 <= i <= length as int == |tables.words[index]| <= |text|
        invariant old(usb.Typed()) <= usb.Typed()
        invariant right ==> usb.Typed() == old(usb.Typed()) + text[..if i < length then i else |text|]
        invariant ok && wire.View() == if i == 0 then old(wire.View()) else CLEAR
        invariant old(ext0.Reliable()) ==> ext0.Reliable()
        invariant old(usb.Reliable()) ==> usb.Reliable()
      {
        ghost var end := if i + 1 < length then i + 1 else |text|;
        ghost var sent := usb.Typed();
        ext0.RightWhenClear(WordAddress(index, i));
        ok := ReadAndSend(index, i, length, rawModCode);
        if right {
          ExtendPrefix(old(usb.Typed()), sent, usb.Typed(), text, i, end);
        }
        if !ok {
          return;
        }
        i := i + 1;
      }
    }

    method ReadAndSend(index: byte, i: nat, length: byte, rawModCode: byte) returns (ok: bool)
      requires Valid() && i < length as int == |tables.words[index]|
      modifies usb, ext0`script, wire
      ensures wire.View() == CLEAR && old(usb.Typed()) <= usb.Typed()
      ensures old(ext0.Right(WordAddress(index, i))) ==>
                var text := RenderWord(tables.words[index], rawModCode);
                var end := if i + 1 < length then i + 1 else |text|;
                && i <= end <= |text|
                && old(usb.Typed()) <= usb.Typed() <= old(usb.Typed()) + text[i..end]
                && (ok ==> usb.Typed() == old(usb.Typed()) + text[i..end])
      ensures old(ext0.Reliable()) ==> ext0.Reliable()
      ensures old(usb.Reliable()) ==> usb.Reliable()
      ensures old(ext0.Reliable()) && old(usb.Reliable()) ==> ok
    {
      ghost var word, right := tables.words[index], ext0.Right(WordAddress(index, i));
      var character: byte;
      ok, character := ReadWordCharacter(index, i);
      if !ok {
        assert right ==> i <= |RenderWord(word, rawModCode)|;
        return;
      }
      assert right ==> word[i := character] == word;
      ok := SendWordCharacter(word[i := character], i, length, character, rawModCode);
    }

    // The write of one of the two cells of a blob element, to the device that holds the blob.
    method WriteBlobCellOn(index: byte, length: byte, half: nat, data: byte) returns (ok: bool)
      requires Valid() && index < BLOB_COUNT && length < MAX_BLOB && half < 2
      modifies ExtOf(index)`script, ExtOf(index).cells, wire
      ensures var aim := BlobAddress(index, length) + half;
              var right, cells := old(ExtOf(index).Right(aim)), old(ExtOf(index).cells[..]);
              && (right ==> && aim < |cells|
                            && (ExtOf(index).cells[..] == cells[aim := Dec(data)]
                                || (!ok && ExtOf(index).cells[..] == cells)))
              && (if ok then wire.View() == CLEAR
                  else BrokenOff(old(wire.View()), wire.View(), BlobDeviceOf(index), aim))
      ensures ok ==> ExtOf(index).present
      ensures old(ExtOf(index).Reliable()) ==> ok == ExtOf(index).present && ExtOf(index).Reliable()
    {
      AddressBound(index, length);
      if index >= 120 {
        ok := ext1.WriteByte(Low16((index - 120) * 512 + length * 2) + half, data);
      } else {
        ok := ext0.WriteByte(Low16(0x1000 + index * 512 + length * 2) + half, data);
      }
    }

    // One of the two data cells of a blob element beyond the stored length: invisible until the
    // length is written.
    method WriteBlobByte(index: byte, length: byte, half: nat, data: byte) returns (ok: bool)
      requires Valid() && index < BLOB_COUNT && length < MAX_BLOB && length as int == |tables.blobs[index]| && half < 2
      modifies this`tables, ExtOf(index)`script, ExtOf(index).cells, wire
      ensures var aim := BlobAddress(index, length) + half;
              var right, cells := old(ExtOf(index).Right(aim)), old(ExtOf(index).cells[..]);
              && Valid() && Match(right, old(tables), tables)
              && Cells().internal == old(Cells()).internal
              && (right ==> && aim < |cells|
                            && (ExtOf(index).cells[..] == cells[aim := Dec(data)]
                                || (!ok && ExtOf(index).cells[..] == cells)))
              && (if ok then wire.View() == CLEAR
                  else BrokenOff(old(wire.View()), wire.View(), BlobDeviceOf(index), aim))
      ensures ok ==> ExtOf(index).present
      ensures old(ExtOf(index).Reliable()) ==> ok == ExtOf(index).present && ExtOf(index).Reliable()
    {
      ghost var m, right := Cells(), ExtOf(index).Right(BlobAddress(index, length) + half);
      ok := WriteBlobCellOn(index, length, half, data);
      SameInternal(m, Cells());
      if right && Cells() != m {
        WriteBlobCell(m, Cells(), index, half, Dec(data));
      }
      tables := Decode(Cells());
    }

    method AppendToBlobShortcut(index: byte, character: byte, modcode: byte) returns (ok: bool)
      requires Valid()
      modifies this`tables, internal, internal.cells, ExtOf(index)`script, ExtOf(index).cells, wire
      ensures Valid()
      ensures index >= BLOB_COUNT ==> !ok && tables == old(tables) && wire.View() == old(wire.View())
      ensures index < BLOB_COUNT ==>
                var blob := old(tables).blobs[index];
                var aim := BlobAddress(index, |blob|);
                var right := old(ExtOf(index).Right(aim));
                var grown := old(tables).(blobs := old(tables).blobs[index := blob + [Stroke(character, modcode)]]);
                && (ok ==> |blob| < MAX_BLOB && Fitted(Fit(), index) && Match(right, grown, tables))
                && (!ok ==> || Match(right, old(tables), tables)
                            || (Match(right, grown, tables) && |blob| < MAX_BLOB && !old(internal.Reliable())))
                && (|blob| == MAX_BLOB ==> !ok && tables == old(tables) && wire.View() == old(wire.View()))
                && (|blob| < MAX_BLOB && old(internal.Reliable()) ==>
                      if ok then wire.View() == CLEAR
                      else PairBrokenOff(old(wire.View()), wire.View(), BlobDeviceOf(index), aim))
                && (old(internal.Reliable()) && old(ExtOf(index).Reliable()) && |blob| < MAX_BLOB ==>
                      ok == Fitted(Fit(), index))
      ensures old(internal.Reliable()) ==> internal.Reliable()
      ensures old(ExtOf(index).Reliable()) ==> ExtOf(index).Reliable()
    {
      if index > 247 {
        return false;
      }
      var length: byte;
      ok, length := GetBlobShortcutLength(index);
      if !ok {
        return;
      }
      if length == 255 {
        return false;
      }
      ok := AppendPair(index, length, character, modcode);
    }

    method AppendPair(index: byte, length: byte, character: byte, modcode: byte) returns (ok: bool)
      requires Valid() && index < BLOB_COUNT && length < MAX_BLOB && length as int == |tables.blobs[index]|
      modifies this`tables, internal, internal.cells, ExtOf(index)`script, ExtOf(index).cells, wire
      ensures var blob, aim := old(tables).blobs[index], BlobAddress(index, length);
              var right := old(ExtOf(index).Right(aim));
              var grown := old(tables).(blobs := old(tables).blobs[index := blob + [Stroke(character, modcode)]]);
              && Valid()
              && (ok ==> Fitted(Fit(), index) && Match(right, grown, tables))
              && (!ok ==> || Match(right, old(tables), tables)
                          || (Match(right, grown, tables) && !old(internal.Reliable())))
              && (old(internal.Reliable()) ==>
                    if ok then wire.View() == CLEAR
                    else PairBrokenOff(old(wire.View()), wire.View(), BlobDeviceOf(index), aim))
              && (old(internal.Reliable()) && old(ExtOf(index).Reliable()) ==> ok == Fitted(Fit(), index))
      ensures old(internal.Reliable()) ==> internal.Reliable()
      ensures old(ExtOf(index).Reliable()) ==> ExtOf(index).Reliable()
    {
      ghost var m0, right := Cells(), ExtOf(index).Right(BlobAddress(index, length));
      ok := WriteBlobByte(index, length, 0, character);
      if !ok {
        return;
      }
      ExtOf(index).RightWhenClear(BlobAddress(index, length) + 1);
      ok := WriteBlobByte(index, length, 1, modcode);
      if !ok {
        return;
      }
      ok := PublishBlobPair(index, length, character, modcode, m0, right);
    }

    // The length write.
    method PublishBlobPair(index: byte, length: byte, character: byte, modcode: byte, ghost m0: Image,
                           ghost right: bool)
      returns (ok: bool)
      requires Valid() && index < BLOB_COUNT && length < MAX_BLOB && length as int == |tables.blobs[index]|
      requires Sized(m0) && m0.internal == Cells().internal && (right ==> Decode(m0) == tables)
      requires right ==> BlobDevice(Cells(), index)[BlobAddress(index, length)] == Dec(character)
      requires right ==> BlobDevice(Cells(), index)[BlobAddress(index, length) + 1] == Dec(modcode)
      modifies this`tables, internal, internal.cells
      ensures Valid()
      ensures var before := Decode(m0);
              var grown := before.(blobs := before.blobs[index := before.blobs[index] + [Stroke(character, modcode)]]);
              && (ok ==> Match(right, grown, tables))
              && (!ok ==> Match(right, before, tables) || (Match(right, grown, tables) && !old(internal.Reliable())))
      ensures old(internal.Reliable()) ==> ok && internal.Reliable()
    {
      ghost var m := Cells();
      SameInternal(m0, m);
      ok := internal.WriteByte(BLOB_LENGTHS + index, length + 1);
      if Cells() != m {
        LongerBlob(m0, Cells(), index, Stroke(character, modcode));
        if right {
          GrowBlob(m, Cells(), index, Stroke(character, modcode));
        }
      }
      tables := Decode(Cells());
    }

    method ClearBlobShortcut(index: byte) returns (ok: bool)
      requires Valid()
      modifies this`tables, internal, internal.cells
      ensures Valid()
      ensures index >= BLOB_COUNT ==> !ok && tables == old(tables)
      ensures index < BLOB_COUNT ==>
                var cleared := old(tables).(blobs := old(tables).blobs[index := []]);
                tables == cleared || (!ok && tables == old(tables))
      ensures old(internal.Reliable()) ==> internal.Reliable() && ok == (index < BLOB_COUNT)
    {
      if index > 247 {
        return false;
      }
      ghost var m := Cells();
      ok := internal.WriteByte(BLOB_LENGTHS + index, 0);
      if Cells() != m {
        ClearBlob(m, Cells(), index);
      } else if ok {
        ClearBlob(m, m, index);
      }
      tables := Decode(Cells());
    }

    method GetBlobShortcutLength(index: byte) returns (ok: bool, length: byte)
      requires Valid()
      modifies internal
      ensures ok ==> index < BLOB_COUNT && length as int == |tables.blobs[index]|
      ensures old(internal.Reliable()) ==> internal.Reliable() && ok == (index < BLOB_COUNT)
    {
      if index > 247 {
        return false, 0;
      }
      ok, length := internal.ReadByte(BLOB_LENGTHS + index);
    }

    // One of the two cells of an element of a stored blob.
    method ReadBlobByte(index: byte, i: nat, half: nat) returns (ok: bool, data: byte)
      requires Valid() && index < BLOB_COUNT && i < |tables.blobs[index]| && half < 2
      modifies ExtOf(index)`script, wire
      ensures wire.View() == CLEAR && (ok ==> Fitted(Fit(), index))
      ensures ok && old(ExtOf(index).Right(BlobAddress(index, i) + half)) ==>
                var s := tables.blobs[index][i]; data == if half == 0 then s.key else s.mod
      ensures old(ExtOf(index).Reliable()) ==> ok == Fitted(Fit(), index) && ExtOf(index).Reliable()
    {
      AddressBound(index, i);
      if index >= 120 {
        ok, data := ext1.ReadByte(Low16((index - 120) * 512 + i * 2) + half);
      } else {
        ok, data := ext0.ReadByte(Low16(0x1000 + index * 512 + i * 2) + half);
      }
    }

    // One element of a stored blob.
    method ReadBlobPair(index: byte, i: nat) returns (ok: bool, character: byte, modcode: byte)
      requires Valid() && index < BLOB_COUNT && i < |tables.blobs[index]|
      modifies ExtOf(index)`script, wire
      ensures wire.View() == CLEAR && (ok ==> Fitted(Fit(), index))
      ensures ok && old(ExtOf(index).Right(BlobAddress(index, i))) ==>
                Stroke(character, modcode) == tables.blobs[index][i]
      ensures old(ExtOf(index).Reliable()) ==> ok == Fitted(Fit(), index) && ExtOf(index).Reliable()
    {
      modcode := 0;
      ok, character := ReadBlobByte(index, i, 0);
      if !ok {
        return;
      }
      ExtOf(index).RightWhenClear(BlobAddress(index, i) + 1);
      ok, modcode := ReadBlobByte(index, i, 1);
    }

    // Types a prefix of the blob, and all of it on success. An empty blob is an error, and so is one
    // on a missing device.
    method SendBlobShortcut(index: byte) returns (ok: bool)
      requires Valid()
      modifies usb, internal, ExtOf(index)`script, wire
      ensures index >= BLOB_COUNT ==> !ok && usb.Typed() == old(usb.Typed()) && wire.View() == old(wire.View())
      ensures index < BLOB_COUNT ==>
                var blob := tables.blobs[index];
                && (old(ExtOf(index).Right(BlobAddress(index, 0))) ==>
                      && old(usb.Typed()) <= usb.Typed() <= old(usb.Typed()) + blob
                      && (ok ==> usb.Typed() == old(usb.Typed()) + blob))
                && (ok ==> blob != [] && Fitted(Fit(), index))
                && (blob == [] || !Fitted(Fit(), index) ==> usb.Typed() == old(usb.Typed()))
                && (blob == [] ==> wire.View() == old(wire.View()))
                && (blob != [] && old(internal.Reliable()) ==> wire.View() == CLEAR)
                && (old(Reliable()) && old(usb.Reliable()) ==> ok == (blob != [] && Fitted(Fit(), index)))
      ensures old(usb.Typed()) <= usb.Typed()
      ensures old(internal.Reliable()) ==> internal.Reliable()
      ensures old(ExtOf(index).Reliable()) ==> ExtOf(index).Reliable()
      ensures old(usb.Reliable()) ==> usb.Reliable()
    {
      if index > 247 {
        return false;
      }
      var length: byte;
      ok, length := GetBlobShortcutLength(index);
      if !ok {
        return;
      }
      if length == 0 {
        return false;
      }
      ok := SendBlobPairs(index, length);
    }

    static lemma PrefixGrows(typed: seq<Stroke>, blob: seq<Stroke>, i: nat)
      requires i < |blob|
      ensures typed + blob[..i] + [blob[i]] == typed + blob[..i + 1]
      ensures typed + blob[..i] <= typed + blob && typed + blob[..i + 1] <= typed + blob
    {
      assert blob[..i] + [blob[i]] == blob[..i + 1];
    }

    method SendBlobPairs(index: byte, length: byte) returns (ok: bool)
      requires Valid() && index < BLOB_COUNT && 0 < length as int == |tables.blobs[index]|
      modifies usb, ExtOf(index)`script, wire
      ensures var blob := tables.blobs[index];
              && (old(ExtOf(index).Right(BlobAddress(index, 0))) ==>
                    && old(usb.Typed()) <= usb.Typed() <= old(usb.Typed()) + blob
                    && (ok ==> usb.Typed() == old(usb.Typed()) + blob))
              && (!Fitted(Fit(), index) ==> !ok && usb.Typed() == old(usb.Typed()))
              && (old(ExtOf(index).Reliable()) && old(usb.Reliable()) ==> ok == Fitted(Fit(), index))
      ensures old(usb.Typed()) <= usb.Typed() && wire.View() == CLEAR
      ensures old(ExtOf(index).Reliable()) ==> ExtOf(index).Reliable()
      ensures old(usb.Reliable()) ==> usb.Reliable()
    {
      ghost var blob, right := tables.blobs[index], ExtOf(index).Right(BlobAddress(index, 0));
      ok := true;
      var i := 0;
      while i < length
        invariant 0 <= i <= length as int == |blob|
        invariant old(usb.Typed()) <= usb.Typed() && (i == 0 ==> usb.Typed() == old(usb.Typed()))
        invariant right ==> usb.Typed() == old(usb.Typed()) + blob[..i]
        invariant ok && (i > 0 ==> Fitted(Fit(), index)) && wire.View() == if i == 0 then old(wire.View()) else CLEAR
        invariant old(ExtOf(index).Reliable()) ==> ExtOf(index).Reliable()
        invariant old(usb.Reliable()) ==> usb.Reliable()
      {
        ExtOf(index).RightWhenClear(BlobAddress(index, i));
        ok := SendBlobPair(index, i);
        PrefixGrows(old(usb.Typed()), blob, i);
        if !ok {
          return;
        }
        i := i + 1;
      }
      assert blob[..i] == blob;
    }

    method SendBlobPair(index: byte, i: nat) returns (ok: bool)
      requires Valid() && index < BLOB_COUNT && i < |tables.blobs[index]|
      modifies usb, ExtOf(index)`script, wire
      ensures wire.View() == CLEAR && old(usb.Typed()) <= usb.Typed()
      ensures old(ExtOf(index).Right(BlobAddress(index, i))) ==>
                var typed := old(usb.Typed()) + [tables.blobs[index][i]];
                usb.Typed() == typed || (!ok && usb.Typed() == old(usb.Typed()))
      ensures !Fitted(Fit(), index) ==> !ok && usb.Typed() == old(usb.Typed())
      ensures old(ExtOf(index).Reliable()) ==> ExtOf(index).Reliable()
      ensures old(usb.Reliable()) ==> usb.Reliable()
      ensures old(ExtOf(index).Reliable()) && old(usb.Reliable()) ==> ok == Fitted(Fit(), index)
    {
      var character: byte;
      var modcode: byte;
      ok, character, modcode := ReadBlobPair(index, i);
      if !ok {
        return;
      }
      ok := usb.SendKeypress(character, modcode);
    }
  }
}
