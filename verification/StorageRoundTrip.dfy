// Whole programming sessions on the storage controller: what is programmed is what is typed.
module StorageRoundTrip {
  import opened Bytes
  import opened Types
  import opened Layout
  import opened Devices
  import opened Storage

  // Clearing a word slot, appending n keys and sending it types exactly those keys under the mod
  // code, and leaves every other slot alone.
  method ProgramWord(storage: StorageController, index: byte, keys: seq<byte>, modCode: byte) returns (ok: bool)
    requires storage.Valid() && storage.Reliable() && storage.usb.Reliable() && 0 < |keys| <= MAX_WORD
    modifies storage, storage.usb, storage.Devices()
    ensures storage.Valid() && ok
    ensures storage.tables == old(storage.tables).(words := old(storage.tables).words[index := keys])
    ensures storage.usb.Seen() == old(storage.usb.Seen()) + RenderWord(keys, modCode)
  {
    OnceIsSeen(storage.usb.log);
    ok := storage.ClearWordShortcut(index);
    var i := 0;
    while i < |keys|
      invariant 0 <= i <= |keys| && ok
      invariant storage.Valid() && storage.Reliable() && storage.usb.Reliable()
      invariant storage.tables == old(storage.tables).(words := old(storage.tables).words[index := keys[..i]])
      invariant storage.usb.Typed() == old(storage.usb.Typed())
    {
      ok := storage.AppendToWordShortcut(index, keys[i]);
      assert keys[..i] + [keys[i]] == keys[..i + 1];
      i := i + 1;
    }
    assert keys[..i] == keys;
    ok := storage.SendWordShortcut(index, modCode);
    OnceIsSeen(storage.usb.log);
  }

  // The same for a blob.
  method ProgramBlob(storage: StorageController, index: byte, strokes: seq<Stroke>) returns (ok: bool)
    requires storage.Valid() && storage.Reliable() && storage.usb.Reliable()
    requires index < BLOB_COUNT && Fitted(storage.Fit(), index) && 0 < |strokes| <= MAX_BLOB
    modifies storage, storage.usb, storage.Devices()
    ensures storage.Valid() && ok
    ensures storage.tables == old(storage.tables).(blobs := old(storage.tables).blobs[index := strokes])
    ensures storage.usb.Seen() == old(storage.usb.Seen()) + strokes
  {
    OnceIsSeen(storage.usb.log);
    ok := storage.ClearBlobShortcut(index);
    var i := 0;
    while i < |strokes|
      invariant 0 <= i <= |strokes| && ok
      invariant storage.Valid() && storage.Reliable() && storage.usb.Reliable()
      invariant storage.tables == old(storage.tables).(blobs := old(storage.tables).blobs[index := strokes[..i]])
      invariant storage.usb.Typed() == old(storage.usb.Typed())
    {
      ok := storage.AppendToBlobShortcut(index, strokes[i].key, strokes[i].mod);
      assert strokes[..i] + [strokes[i]] == strokes[..i + 1];
      i := i + 1;
    }
    assert strokes[..i] == strokes;
    ok := storage.SendBlobShortcut(index);
    OnceIsSeen(storage.usb.log);
  }
}
