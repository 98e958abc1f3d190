// Preloading the EEPROMs from a shortcut file: a second, independently written copy of the layout,
// which must agree with the one in the storage controller.
module StateStorage {
  import opened Bytes
  import opened Types
  import opened Layout
  import opened Keycodes

  datatype Entry = Entry(index: nat, text: string)

  // The three sections of the file, in file order.
  datatype Shortcuts = Shortcuts(chars: seq<Entry>, words: seq<Entry>, blobs: seq<Entry>)

  predicate EntriesValid(entries: seq<Entry>, maxIndex: nat, maxLength: nat) {
    forall i :: 0 <= i < |entries| ==> entries[i].index <= maxIndex && |entries[i].text| <= maxLength
  }

  // What the simulator checks of a file; it lets blob index 248 through.
  predicate Validated(s: Shortcuts) {
    EntriesValid(s.chars, 255, 1) && EntriesValid(s.words, 255, 15) && EntriesValid(s.blobs, 248, 255)
  }

  // The text that a section gives to a slot: the last entry counts, and no entry means no text.
  function Lookup(entries: seq<Entry>, i: nat): string {
    if entries == [] then ""
    else if entries[|entries| - 1].index == i then entries[|entries| - 1].text
    else Lookup(entries[..|entries| - 1], i)
  }

  lemma {:induction false} LookupLength(entries: seq<Entry>, i: nat, maxIndex: nat, maxLength: nat)
    requires EntriesValid(entries, maxIndex, maxLength)
    ensures |Lookup(entries, i)| <= maxLength
  {
    if entries != [] {
      LookupLength(entries[..|entries| - 1], i, maxIndex, maxLength);
    }
  }

  function Keys(text: string): seq<byte> {
    seq(|text|, j requires 0 <= j < |text| => ToUsbKeycodes(text[j]).key)
  }

  function StrokesFor(text: string): (strokes: seq<Stroke>)
    ensures |strokes| == |text|
  {
    seq(|text|, j requires 0 <= j < |text| => ToUsbKeycodes(text[j]))
  }

  // The tables that a file describes.
  function TablesOf(s: Shortcuts): Tables {
    Tables(seq(256, i requires 0 <= i => var t := Lookup(s.chars, i); if t == "" then 0 else ToUsbKeycodes(t[0]).key),
           seq(256, i requires 0 <= i => Keys(Lookup(s.words, i))),
           seq(BLOB_COUNT, i requires 0 <= i => StrokesFor(Lookup(s.blobs, i))))
  }

  // ---- What the three images must hold ----

  predicate CharsHold(cells: seq<byte>, entries: seq<Entry>)
    requires |cells| == 1024
  {
    forall i :: 0 <= i < 256 ==>
      var text := Lookup(entries, i);
      Inc(cells[i]) == if text == "" then 0 else ToUsbKeycodes(text[0]).key
  }

  predicate LengthsHold(cells: seq<byte>, base: nat, slots: nat, entries: seq<Entry>)
    requires base + slots <= |cells| == 1024
  {
    forall i :: 0 <= i < slots ==> Inc(cells[base + i]) as int == |Lookup(entries, i)|
  }

  predicate WordsHold(cells: seq<byte>, entries: seq<Entry>)
    requires |cells| == 65535
  {
    forall i, j :: 0 <= i < 256 && 0 <= j < 15 && j < |Lookup(entries, i)| ==>
      cells[WordAddress(i, j)] == Dec(ToUsbKeycodes(Lookup(entries, i)[j]).key)
  }

  // The blobs from one slot on, on the device that holds them.
  predicate BlobsHold(cells: seq<byte>, first: nat, last: nat, entries: seq<Entry>)
    requires |cells| == 65535 && first <= last <= BLOB_COUNT
  {
    forall i, j :: first <= i < last && 0 <= j < 255 && j < |Lookup(entries, i)| ==>
      var s := ToUsbKeycodes(Lookup(entries, i)[j]);
      BlobAddress(i, j) + 1 < 65535
      && cells[BlobAddress(i, j)] == Dec(s.key) && cells[BlobAddress(i, j) + 1] == Dec(s.mod)
  }

  lemma ImageDecodes(m: Image, s: Shortcuts)
    requires |m.internal| == 1024 && |m.ext0| == |m.ext1| == 65535 && Validated(s)
    requires CharsHold(m.internal, s.chars)
    requires LengthsHold(m.internal, 256, 256, s.words) && LengthsHold(m.internal, 512, BLOB_COUNT, s.blobs)
    requires WordsHold(m.ext0, s.words)
    requires BlobsHold(m.ext0, 0, FIRST_BLOB_ON_EXT1, s.blobs)
    requires BlobsHold(m.ext1, FIRST_BLOB_ON_EXT1, BLOB_COUNT, s.blobs)
    ensures Decode(m) == TablesOf(s)
  {
    var t, u := Decode(m), TablesOf(s);
    assert t.chars == u.chars;
    forall i: byte ensures t.words[i] == u.words[i] {
      LookupLength(s.words, i, 255, 15);
      assert |WordAt(m, i)| == |Lookup(s.words, i)|;
      assert WordAt(m, i) == Keys(Lookup(s.words, i));
    }
    forall i: byte | i < BLOB_COUNT ensures t.blobs[i] == u.blobs[i] {
      LookupLength(s.blobs, i, 248, 255);
      assert |BlobAt(m, i)| == |Lookup(s.blobs, i)|;
      assert BlobAt(m, i) == StrokesFor(Lookup(s.blobs, i));
    }
  }

  // ---- One more entry ----

  lemma LookupSnoc(entries: seq<Entry>, k: nat, i: nat)
    requires k < |entries|
    ensures Lookup(entries[..k + 1], i) == if entries[k].index == i then entries[k].text else Lookup(entries[..k], i)
  {
    assert entries[..k + 1][..k] == entries[..k];
  }

  lemma LengthsHoldNext(before: seq<byte>, after: seq<byte>, base: nat, slots: nat, entries: seq<Entry>, k: nat)
    requires |before| == 1024 && base + 256 <= 1024 && slots <= 256 && k < |entries| && EntriesValid(entries, 255, 255)
    requires LengthsHold(before, base, slots, entries[..k])
    requires after == before[base + entries[k].index := Dec(|entries[k].text|)]
    ensures LengthsHold(after, base, slots, entries[..k + 1])
  {
    var longer := entries[..k + 1];
    forall i | 0 <= i < slots ensures Inc(after[base + i]) as int == |Lookup(longer, i)| {
      LookupSnoc(entries, k, i);
      assert Inc(before[base + i]) as int == |Lookup(entries[..k], i)|;
    }
  }

  // The keys of one word written over its cells.
  predicate WordWritten(before: seq<byte>, after: seq<byte>, e: Entry, n: nat)
    requires |before| == |after| == 65535 && e.index < 256 && n <= |e.text| <= 15
  {
    && (forall j :: 0 <= j < n ==> after[WordAddress(e.index, j)] == Dec(ToUsbKeycodes(e.text[j]).key))
    && (forall a :: 0 <= a < 65535 && !(WordAddress(e.index, 0) <= a < WordAddress(e.index, n)) ==>
          after[a] == before[a])
  }

  lemma WordsHoldNext(before: seq<byte>, after: seq<byte>, entries: seq<Entry>, k: nat)
    requires |before| == |after| == 65535 && k < |entries| && EntriesValid(entries, 255, 15)
    requires WordsHold(before, entries[..k]) && WordWritten(before, after, entries[k], |entries[k].text|)
    ensures WordsHold(after, entries[..k + 1])
  {
    forall i, j | 0 <= i < 256 && 0 <= j < 15 && j < |Lookup(entries[..k + 1], i)|
      ensures after[WordAddress(i, j)] == Dec(ToUsbKeycodes(Lookup(entries[..k + 1], i)[j]).key)
    {
      LookupSnoc(entries, k, i);
    }
  }

  // The strokes of one blob written over its cells.
  predicate BlobWritten(before: seq<byte>, after: seq<byte>, e: Entry, n: nat)
    requires |before| == |after| == 65535 && e.index < BLOB_COUNT && n <= |e.text| <= 255
  {
    && (forall j :: 0 <= j < n ==>
          BlobAddress(e.index, j) + 1 < 65535
          && after[BlobAddress(e.index, j)] == Dec(ToUsbKeycodes(e.text[j]).key)
          && after[BlobAddress(e.index, j) + 1] == Dec(ToUsbKeycodes(e.text[j]).mod))
    && (forall a :: 0 <= a < 65535 && !(BlobAddress(e.index, 0) <= a < BlobAddress(e.index, n)) ==>
          after[a] == before[a])
  }

  lemma BlobWrittenNext(before: seq<byte>, mid: seq<byte>, after: seq<byte>, e: Entry, n: nat)
    requires |before| == |mid| == 65535 && e.index < BLOB_COUNT && n < |e.text| <= 255
    requires BlobWritten(before, mid, e, n)
    requires BlobAddress(e.index, n) + 1 < 65535
    requires var s := ToUsbKeycodes(e.text[n]);
             after == mid[BlobAddress(e.index, n) := Dec(s.key)][BlobAddress(e.index, n) + 1 := Dec(s.mod)]
    ensures BlobWritten(before, after, e, n + 1)
  {
    var base := BlobAddress(e.index, 0);
    assert forall j :: 0 <= j <= n + 1 ==> BlobAddress(e.index, j) == base + 2 * j;
  }

  lemma BlobsHoldNext(before: seq<byte>, after: seq<byte>, first: nat, last: nat, entries: seq<Entry>, k: nat)
    requires |before| == |after| == 65535 && k < |entries| && EntriesValid(entries, 248, 255)
    requires (first == 0 && last == FIRST_BLOB_ON_EXT1) || (first == FIRST_BLOB_ON_EXT1 && last == BLOB_COUNT)
    requires BlobsHold(before, first, last, entries[..k])
    requires if first <= entries[k].index < last then BlobWritten(before, after, entries[k], |entries[k].text|)
             else after == before
    ensures BlobsHold(after, first, last, entries[..k + 1])
  {
    forall i, j | first <= i < last && 0 <= j < 255 && j < |Lookup(entries[..k + 1], i)|
      ensures var s := ToUsbKeycodes(Lookup(entries[..k + 1], i)[j]);
              BlobAddress(i, j) + 1 < 65535
              && after[BlobAddress(i, j)] == Dec(s.key) && after[BlobAddress(i, j) + 1] == Dec(s.mod)
    {
      LookupSnoc(entries, k, i);
    }
  }

  // ---- The builder ----

  class StateStorageImpl {
    const json: Shortcuts
    const internal: array<byte>
    const eeprom0: array<byte>
    const eeprom1: array<byte>

    constructor (json: Shortcuts)
      ensures this.json == json && internal.Length == 1024 && eeprom0.Length == eeprom1.Length == 65535
      ensures fresh(internal) && fresh(eeprom0) && fresh(eeprom1) && eeprom0 != eeprom1
    {
      this.json := json;
      internal, eeprom0, eeprom1 := new byte[1024], new byte[65535], new byte[65535];
    }

    method ConfigureInternalEeprom()
      requires internal.Length == 1024 && Validated(json)
      modifies internal
      ensures CharsHold(internal[..], json.chars)
      ensures LengthsHold(internal[..], 256, 256, json.words) && LengthsHold(internal[..], 512, BLOB_COUNT, json.blobs)
    {
      Fill(internal);
      var k := 0;
      while k < |json.chars|
        invariant 0 <= k <= |json.chars| && CharsHold(internal[..], json.chars[..k])
        invariant forall a :: 256 <= a < 1024 ==> internal[a] == ERASED
      {
        var e := json.chars[k];
        forall i ensures Lookup(json.chars[..k + 1], i) == if e.index == i then e.text else Lookup(json.chars[..k], i) {
          LookupSnoc(json.chars, k, i);
        }
        internal[e.index] := Dec(if e.text == "" then 0 else ToUsbKeycodes(e.text[0]).key);
        k := k + 1;
      }
      assert json.chars[..k] == json.chars;
      ConfigureLengths(256, 256, json.words);
      ConfigureLengths(512, BLOB_COUNT, json.blobs);
    }

    // The length bytes of one section. An index beyond the slots falls on an unused cell.
    method ConfigureLengths(base: nat, slots: nat, entries: seq<Entry>)
      requires internal.Length == 1024 && base + slots <= 1024 && base > 0
      requires EntriesValid(entries, 255, 255) && base + 256 <= 1024 && slots <= 256
      requires forall a :: base <= a < 1024 ==> internal[a] == ERASED
      modifies internal
      ensures LengthsHold(internal[..], base, slots, entries)
      ensures forall a :: 0 <= a < base ==> internal[a] == old(internal[a])
      ensures forall a :: base + 256 <= a < 1024 ==> internal[a] == ERASED
    {
      var k := 0;
      while k < |entries|
        invariant 0 <= k <= |entries| && LengthsHold(internal[..], base, slots, entries[..k])
        invariant forall a :: 0 <= a < base ==> internal[a] == old(internal[a])
        invariant forall a :: base + 256 <= a < 1024 ==> internal[a] == ERASED
      {
        var e := entries[k];
        ghost var before := internal[..];
        internal[base + e.index] := Dec(|e.text|);
        LengthsHoldNext(before, internal[..], base, slots, entries, k);
        k := k + 1;
      }
      assert entries[..k] == entries;
    }

    method ConfigureEeprom0()
      requires eeprom0.Length == 65535 && Validated(json)
      modifies eeprom0
      ensures WordsHold(eeprom0[..], json.words) && BlobsHold(eeprom0[..], 0, FIRST_BLOB_ON_EXT1, json.blobs)
    {
      Fill(eeprom0);
      var k := 0;
      while k < |json.words|
        invariant 0 <= k <= |json.words| && WordsHold(eeprom0[..], json.words[..k])
      {
        ghost var before := eeprom0[..];
        WriteWord(json.words[k]);
        WordsHoldNext(before, eeprom0[..], json.words, k);
        k := k + 1;
      }
      assert json.words[..k] == json.words;
      k := 0;
      while k < |json.blobs|
        invariant 0 <= k <= |json.blobs| && WordsHold(eeprom0[..], json.words)
        invariant BlobsHold(eeprom0[..], 0, FIRST_BLOB_ON_EXT1, json.blobs[..k])
      {
        ghost var before := eeprom0[..];
        if json.blobs[k].index < 120 {
          var ok := WriteBlob(eeprom0, json.blobs[k]);
        }
        BlobsHoldNext(before, eeprom0[..], 0, FIRST_BLOB_ON_EXT1, json.blobs, k);
        k := k + 1;
      }
      assert json.blobs[..k] == json.blobs;
    }

    method WriteWord(e: Entry)
      requires eeprom0.Length == 65535 && e.index < 256 && |e.text| <= 15
      modifies eeprom0
      ensures WordWritten(old(eeprom0[..]), eeprom0[..], e, |e.text|)
    {
      var i := 0;
      while i < |e.text|
        invariant 0 <= i <= |e.text| && WordWritten(old(eeprom0[..]), eeprom0[..], e, i)
      {
        eeprom0[e.index * 16 + i] := Dec(ToUsbKeycodes(e.text[i]).key);
        i := i + 1;
      }
    }

    // Returns false where the source's bounds-checked access throws.
    method ConfigureEeprom1() returns (ok: bool)
      requires eeprom1.Length == 65535 && Validated(json)
      modifies eeprom1
      ensures ok <==>
                forall i :: 0 <= i < |json.blobs| && json.blobs[i].index == BLOB_COUNT ==> json.blobs[i].text == ""
      ensures ok ==> BlobsHold(eeprom1[..], FIRST_BLOB_ON_EXT1, BLOB_COUNT, json.blobs)
    {
      Fill(eeprom1);
      ok := true;
      var k := 0;
      while k < |json.blobs|
        invariant 0 <= k <= |json.blobs| && BlobsHold(eeprom1[..], FIRST_BLOB_ON_EXT1, BLOB_COUNT, json.blobs[..k])
        invariant ok && forall i :: 0 <= i < k && json.blobs[i].index == BLOB_COUNT ==> json.blobs[i].text == ""
      {
        ghost var before := eeprom1[..];
        if json.blobs[k].index >= 120 {
          ok := WriteBlob(eeprom1, json.blobs[k]);
          if !ok {
            return;
          }
        }
        BlobsHoldNext(before, eeprom1[..], FIRST_BLOB_ON_EXT1, BLOB_COUNT, json.blobs, k);
        k := k + 1;
      }
      assert json.blobs[..k] == json.blobs;
    }
  }

  // The bytes of one blob, at the address its index has on its device.
  method WriteBlob(cells: array<byte>, e: Entry) returns (ok: bool)
    requires cells.Length == 65535 && e.index <= BLOB_COUNT && |e.text| <= 255
    modifies cells
    ensures ok <==> e.index < BLOB_COUNT || e.text == ""
    ensures e.index < BLOB_COUNT ==> BlobWritten(old(cells[..]), cells[..], e, |e.text|)
    ensures e.index == BLOB_COUNT ==> cells[..] == old(cells[..])
  {
    ok := true;
    var i := 0;
    while i < |e.text|
      invariant 0 <= i <= |e.text| && ok
      invariant e.index < BLOB_COUNT ==> BlobWritten(old(cells[..]), cells[..], e, i)
      invariant e.index == BLOB_COUNT ==> i == 0 && cells[..] == old(cells[..])
    {
      var stroke := ToUsbKeycodes(e.text[i]);
      var address := (if e.index >= 120 then (e.index - 120) * 512 else 0x1000 + e.index * 512) + i * 2;
      if address + 1 >= 65535 {
        return false;
      }
      ghost var before := cells[..];
      cells[address] := Dec(stroke.key);
      cells[address + 1] := Dec(stroke.mod);
      BlobWrittenNext(old(cells[..]), before, cells[..], e, i);
      i := i + 1;
    }
  }

  method Fill(cells: array<byte>)
    modifies cells
    ensures forall a :: 0 <= a < cells.Length ==> cells[a] == ERASED
  {
    for i := 0 to cells.Length
      invariant forall a :: 0 <= a < i ==> cells[a] == ERASED
    {
      cells[i] := ERASED;
    }
  }

  // ---- The two layouts agree ----

  // Every validated file builds images that the storage controller reads back as exactly that file,
  // unless it puts text at blob index 248, which has no place.
  method Build(json: Shortcuts) returns (ok: bool, storage: StateStorageImpl)
    requires Validated(json)
    ensures ok <==> forall i :: 0 <= i < |json.blobs| && json.blobs[i].index == BLOB_COUNT ==> json.blobs[i].text == ""
    ensures ok ==> var m := Image(storage.internal[..], storage.eeprom0[..], storage.eeprom1[..]);
                   Sized(m) && Decode(m) == TablesOf(json) && Fits(Decode(m))
  {
    storage := new StateStorageImpl(json);
    storage.ConfigureInternalEeprom();
    storage.ConfigureEeprom0();
    ok := storage.ConfigureEeprom1();
    if ok {
      ImageDecodes(Image(storage.internal[..], storage.eeprom0[..], storage.eeprom1[..]), json);
      TablesFit(json);
    }
  }

  lemma TablesFit(s: Shortcuts)
    requires Validated(s)
    ensures Fits(TablesOf(s))
  {
    forall i | 0 <= i < 256 ensures |TablesOf(s).words[i]| <= MAX_WORD {
      LookupLength(s.words, i, 255, 15);
    }
    forall i | 0 <= i < BLOB_COUNT ensures |TablesOf(s).blobs[i]| <= MAX_BLOB {
      LookupLength(s.blobs, i, 248, 255);
    }
  }

  // Blob text comes back as it was written exactly if each of its characters survives the key codes.
  lemma BlobTextReturns(s: Shortcuts, i: nat)
    requires i < BLOB_COUNT
    ensures Text(TablesOf(s).blobs[i]) == Lookup(s.blobs, i) <==>
              forall j :: 0 <= j < |Lookup(s.blobs, i)| ==> Preserved(Lookup(s.blobs, i)[j])
  {
    var text := Lookup(s.blobs, i);
    var back := Text(TablesOf(s).blobs[i]);
    forall j | 0 <= j < |text| ensures back[j] == text[j] <==> Preserved(text[j]) {
      RoundTripExactly(text[j]);
    }
  }

  // A character shortcut types its character's lower case exactly if the key alone does, and one without
  // text has no key.
  lemma CharReturns(s: Shortcuts, i: nat)
    requires i < 256
    ensures var text, key := Lookup(s.chars, i), TablesOf(s).chars[i];
            && (text == "" ==> key == 0 && FromUsbKeycodes(Stroke(key, 0)) == NUL)
            && (text != "" ==>
                  (FromUsbKeycodes(Stroke(key, 0)) == ToLower(text[0]) <==> PreservedWithoutShift(text[0])))
  {
    var text := Lookup(s.chars, i);
    if text != "" {
      KeyAloneExactly(text[0]);
    }
  }

  // A word types its text in lower case exactly if each of its keys alone does.
  lemma WordReturns(s: Shortcuts, i: nat)
    requires i < 256
    ensures var text, back := Lookup(s.words, i), Text(Plain(TablesOf(s).words[i]));
            && |back| == |text|
            && ((forall j :: 0 <= j < |text| ==> back[j] == ToLower(text[j])) <==>
                  forall j :: 0 <= j < |text| ==> PreservedWithoutShift(text[j]))
  {
    var text, back := Lookup(s.words, i), Text(Plain(TablesOf(s).words[i]));
    forall j | 0 <= j < |text| ensures back[j] == ToLower(text[j]) <==> PreservedWithoutShift(text[j]) {
      KeyAloneExactly(text[j]);
    }
  }

  // What a file gives to a slot is the text of the last entry with its index.
  lemma {:induction false} LookupIsLast(entries: seq<Entry>, i: nat)
    ensures (forall k :: 0 <= k < |entries| ==> entries[k].index != i) ==> Lookup(entries, i) == ""
    ensures forall k :: 0 <= k < |entries| && entries[k].index == i
                        && (forall l :: k < l < |entries| ==> entries[l].index != i) ==>
              Lookup(entries, i) == entries[k].text
  {
    if entries != [] && entries[|entries| - 1].index != i {
      LookupIsLast(entries[..|entries| - 1], i);
    }
  }
}
