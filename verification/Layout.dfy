// The storage layout: how the characters, words and blobs of the three programmable layers are
// spread over the internal EEPROM and the two external ones, and which slot each cell belongs to.
module Layout {
  import opened Bytes
  import opened Types

  const WORD_LENGTHS := 0x100
  const BLOB_LENGTHS := 0x200
  const BLOBS_ON_EXT0 := 0x1000
  const FIRST_BLOB_ON_EXT1 := 120
  const BLOB_COUNT := 248
  const MAX_WORD := 15
  const MAX_BLOB := 255

  // The number of cells that the layout uses on each device.
  const INTERNAL_USED := 760
  const EXTERNAL_USED := 65534

  // The external EEPROMs that are there. The board has both; the simulator has the first only.
  datatype Fit = BothEeproms | FirstEeprom

  predicate Fitted(f: Fit, blobId: byte) {
    blobId < FIRST_BLOB_ON_EXT1 || f.BothEeproms?
  }

  function BlobDeviceOf(id: byte): Device {
    if id >= FIRST_BLOB_ON_EXT1 then Second else First
  }

  // The raw cells of the three devices.
  datatype Image = Image(internal: seq<byte>, ext0: seq<byte>, ext1: seq<byte>)

  // What the cells mean.
  datatype Tables = Tables(chars: seq<byte>, words: seq<seq<byte>>, blobs: seq<seq<Stroke>>)

  predicate Sized(m: Image) {
    |m.internal| >= INTERNAL_USED && |m.ext0| >= EXTERNAL_USED && |m.ext1| >= EXTERNAL_USED
  }

  predicate Shaped(t: Tables) {
    |t.chars| == 256 && |t.words| == 256 && |t.blobs| == BLOB_COUNT
  }

  // Capacity: the firmware keeps every word within its sixteen-cell slot.
  predicate Fits(t: Tables) {
    && Shaped(t)
    && (forall i :: 0 <= i < 256 ==> |t.words[i]| <= MAX_WORD)
    && (forall i :: 0 <= i < BLOB_COUNT ==> |t.blobs[i]| <= MAX_BLOB)
  }

  function WordAddress(i: byte, j: nat): nat { i * 16 + j }

  function BlobAddress(i: byte, j: nat): nat {
    (if i >= FIRST_BLOB_ON_EXT1 then (i - FIRST_BLOB_ON_EXT1) * 512 else BLOBS_ON_EXT0 + i * 512) + j * 2
  }

  function BlobDevice(m: Image, i: byte): seq<byte> {
    if i >= FIRST_BLOB_ON_EXT1 then m.ext1 else m.ext0
  }

  function WordLength(m: Image, i: byte): byte
    requires Sized(m)
  {
    Inc(m.internal[WORD_LENGTHS + i])
  }

  function BlobLength(m: Image, i: byte): byte
    requires Sized(m) && i < BLOB_COUNT
  {
    Inc(m.internal[BLOB_LENGTHS + i])
  }

  function WordAt(m: Image, i: byte): (word: seq<byte>)
    requires Sized(m)
    ensures |word| == WordLength(m, i)
  {
    seq(WordLength(m, i), j requires 0 <= j < 255 => Inc(m.ext0[WordAddress(i, j)]))
  }

  function BlobAt(m: Image, i: byte): (blob: seq<Stroke>)
    requires Sized(m) && i < BLOB_COUNT
    ensures |blob| == BlobLength(m, i)
  {
    seq(BlobLength(m, i), j requires 0 <= j < 255 =>
      Stroke(Inc(BlobDevice(m, i)[BlobAddress(i, j)]), Inc(BlobDevice(m, i)[BlobAddress(i, j) + 1])))
  }

  function Decode(m: Image): (t: Tables)
    requires Sized(m)
    ensures Shaped(t)
  {
    Tables(seq(256, i requires 0 <= i < 256 => Inc(m.internal[i])),
           seq(256, i requires 0 <= i < 256 => WordAt(m, i)),
           seq(BLOB_COUNT, i requires 0 <= i < BLOB_COUNT => BlobAt(m, i)))
  }

  // The layout in numbers.
  lemma LayoutAsDocumented(m: Image, i: byte, j: byte)
    requires Sized(m)
    ensures Decode(m).chars[i] == Inc(m.internal[i])
    ensures |Decode(m).words[i]| == Inc(m.internal[0x100 + i])
    ensures j < |Decode(m).words[i]| ==> Decode(m).words[i][j] == Inc(m.ext0[16 * i + j])
    ensures i < 248 ==> |Decode(m).blobs[i]| == Inc(m.internal[0x200 + i])
    ensures i < 248 && j < |Decode(m).blobs[i]| ==>
              var cells := if i < 120 then m.ext0 else m.ext1;
              var at := 2 * j + if i < 120 then 0x1000 + 512 * i else 512 * (i - 120);
              Decode(m).blobs[i][j] == Stroke(Inc(cells[at]), Inc(cells[at + 1]))
  {}

  // The largest external address the layout can produce; address arithmetic never wraps.
  lemma AddressBound(i: byte, j: byte)
    ensures j < MAX_WORD ==> WordAddress(i, j) < BLOBS_ON_EXT0
    ensures i < BLOB_COUNT && j < MAX_BLOB ==> BlobAddress(i, j) + 1 <= 65533
    ensures i < FIRST_BLOB_ON_EXT1 ==> BlobAddress(i, j) >= BLOBS_ON_EXT0
  {}

  // No two elements of the stored tables share a cell.
  lemma CellsDisjoint(i: byte, j: nat, i': byte, j': nat)
    requires i < BLOB_COUNT && i' < BLOB_COUNT && j < MAX_BLOB && j' < MAX_BLOB && (i, j) != (i', j')
    requires (i < FIRST_BLOB_ON_EXT1) == (i' < FIRST_BLOB_ON_EXT1)
    ensures BlobAddress(i, j) != BlobAddress(i', j') && BlobAddress(i, j) + 1 != BlobAddress(i', j')
  {}

  // ---- What one cell write does to the decoded tables ----

  lemma WriteChar(m: Image, m': Image, i: byte, c: byte)
    requires Sized(m) && m' == m.(internal := m.internal[i := Dec(c)])
    ensures Sized(m') && Decode(m') == Decode(m).(chars := Decode(m).chars[i := c])
  {
    assert Decode(m').chars == Decode(m).chars[i := c];
    SameSlots(m, m');
  }

  lemma SameSlots(m: Image, m': Image)
    requires Sized(m) && Sized(m')
    requires forall i: byte :: WordAt(m', i) == WordAt(m, i)
    requires forall i: byte :: i < BLOB_COUNT ==> BlobAt(m', i) == BlobAt(m, i)
    ensures Decode(m').words == Decode(m).words && Decode(m').blobs == Decode(m).blobs
  {}

  // A word's data cell beyond its stored length belongs to no table entry.
  lemma WriteWordCell(m: Image, m': Image, i: byte, raw: byte)
    requires Sized(m) && Fits(Decode(m)) && WordLength(m, i) < MAX_WORD
    requires m' == m.(ext0 := m.ext0[WordAddress(i, WordLength(m, i)) := raw])
    ensures Sized(m') && Decode(m') == Decode(m)
  {
    forall k: byte ensures WordAt(m', k) == WordAt(m, k) {
      assert |Decode(m).words[k]| == WordLength(m, k) <= MAX_WORD;
    }
    SameSlots(m, m');
    assert Decode(m').chars == Decode(m).chars;
  }

  lemma ClearWord(m: Image, m': Image, i: byte)
    requires Sized(m) && m' == m.(internal := m.internal[WORD_LENGTHS + i := Dec(0)])
    ensures Sized(m') && Decode(m') == Decode(m).(words := Decode(m).words[i := []])
  {
    var t, t' := Decode(m), Decode(m');
    assert t'.chars == t.chars;
    assert t'.words == t.words[i := []];
    assert forall k: byte :: k < BLOB_COUNT ==> BlobAt(m', k) == BlobAt(m, k);
  }

  // The length write publishes the cell written before it.
  lemma GrowWord(m: Image, m': Image, i: byte, c: byte)
    requires Sized(m) && WordLength(m, i) < MAX_WORD
    requires m.ext0[WordAddress(i, WordLength(m, i))] == Dec(c)
    requires m' == m.(internal := m.internal[WORD_LENGTHS + i := Dec(WordLength(m, i) + 1)])
    ensures Sized(m') && Decode(m') == Decode(m).(words := Decode(m).words[i := Decode(m).words[i] + [c]])
  {
    var t, t' := Decode(m), Decode(m');
    assert t'.chars == t.chars;
    assert t'.words == t.words[i := t.words[i] + [c]] by {
      assert WordAt(m', i) == WordAt(m, i) + [c];
      assert forall k: byte :: k != i ==> WordAt(m', k) == WordAt(m, k);
    }
    assert forall k: byte :: k < BLOB_COUNT ==> BlobAt(m', k) == BlobAt(m, k);
  }

  function SetBlobDevice(m: Image, i: byte, cells: seq<byte>): Image {
    if i >= FIRST_BLOB_ON_EXT1 then m.(ext1 := cells) else m.(ext0 := cells)
  }

  // A blob's two data cells beyond its stored length belong to no table entry.
  lemma WriteBlobCell(m: Image, m': Image, i: byte, half: nat, raw: byte)
    requires Sized(m) && Fits(Decode(m)) && i < BLOB_COUNT && BlobLength(m, i) < MAX_BLOB && half < 2
    requires m' == SetBlobDevice(m, i, BlobDevice(m, i)[BlobAddress(i, BlobLength(m, i)) + half := raw])
    ensures Sized(m') && Decode(m') == Decode(m)
  {
    forall k: byte ensures WordAt(m', k) == WordAt(m, k) {
      assert |Decode(m).words[k]| == WordLength(m, k) <= MAX_WORD;
    }
    forall k: byte | k < BLOB_COUNT ensures BlobAt(m', k) == BlobAt(m, k) {
      BlobCellIsFree(m, m', i, half, k);
    }
    SameSlots(m, m');
    assert Decode(m').chars == Decode(m).chars;
  }

  lemma BlobCellIsFree(m: Image, m': Image, i: byte, half: nat, k: byte)
    requires Sized(m) && i < BLOB_COUNT && k < BLOB_COUNT && BlobLength(m, i) < MAX_BLOB && half < 2
    requires Sized(m') && m'.internal == m.internal
    requires |BlobDevice(m', k)| == |BlobDevice(m, k)|
    requires forall a :: 0 <= a < |BlobDevice(m, k)| && BlobDevice(m', k)[a] != BlobDevice(m, k)[a]
               ==> (i < FIRST_BLOB_ON_EXT1) == (k < FIRST_BLOB_ON_EXT1) && a == BlobAddress(i, BlobLength(m, i)) + half
    ensures BlobAt(m', k) == BlobAt(m, k)
  {
    forall j: nat | j < BlobLength(m, k) ensures BlobAt(m', k)[j] == BlobAt(m, k)[j] {
      AddressBound(k, j);
      var a := BlobAddress(k, j);
      if (i < FIRST_BLOB_ON_EXT1) == (k < FIRST_BLOB_ON_EXT1) {
        CellsDisjoint(i, BlobLength(m, i), k, j);
      }
      assert BlobDevice(m', k)[a] == BlobDevice(m, k)[a] && BlobDevice(m', k)[a + 1] == BlobDevice(m, k)[a + 1];
    }
  }

  lemma ClearBlob(m: Image, m': Image, i: byte)
    requires Sized(m) && i < BLOB_COUNT && m' == m.(internal := m.internal[BLOB_LENGTHS + i := Dec(0)])
    ensures Sized(m') && Decode(m') == Decode(m).(blobs := Decode(m).blobs[i := []])
  {
    var t, t' := Decode(m), Decode(m');
    assert t'.chars == t.chars;
    assert t'.words == t.words;
    assert t'.blobs == t.blobs[i := []] by {
      assert BlobAt(m', i) == [];
      assert forall k: byte :: k < BLOB_COUNT && k != i ==> BlobAt(m', k) == BlobAt(m, k);
    }
  }

  lemma GrowBlob(m: Image, m': Image, i: byte, s: Stroke)
    requires Sized(m) && i < BLOB_COUNT && BlobLength(m, i) < MAX_BLOB
    requires BlobDevice(m, i)[BlobAddress(i, BlobLength(m, i))] == Dec(s.key)
    requires BlobDevice(m, i)[BlobAddress(i, BlobLength(m, i)) + 1] == Dec(s.mod)
    requires m' == m.(internal := m.internal[BLOB_LENGTHS + i := Dec(BlobLength(m, i) + 1)])
    ensures Sized(m') && Decode(m') == Decode(m).(blobs := Decode(m).blobs[i := Decode(m).blobs[i] + [s]])
  {
    var t, t' := Decode(m), Decode(m');
    assert t'.chars == t.chars;
    assert t'.words == t.words;
    assert t'.blobs == t.blobs[i := t.blobs[i] + [s]] by {
      assert BlobAt(m', i) == BlobAt(m, i) + [s];
      assert forall k: byte :: k < BLOB_COUNT && k != i ==> BlobAt(m', k) == BlobAt(m, k);
    }
  }

  // Freshly erased devices hold empty tables.
  lemma ErasedIsEmpty(m: Image)
    requires Sized(m) && (forall a :: 0 <= a < |m.internal| ==> m.internal[a] == ERASED)
    ensures Decode(m) == Tables(seq(256, _ => 0), seq(256, _ => []), seq(BLOB_COUNT, _ => []))
    ensures Fits(Decode(m))
  {}

  // ---- Tables that look alike ----

  // Everything that the internal EEPROM holds: the characters, and the lengths of words and blobs.
  predicate AlikeTables(t: Tables, t': Tables) {
    && Shaped(t) && Shaped(t') && t'.chars == t.chars
    && (forall i :: 0 <= i < 256 ==> |t'.words[i]| == |t.words[i]|)
    && (forall i :: 0 <= i < BLOB_COUNT ==> |t'.blobs[i]| == |t.blobs[i]|)
  }

  predicate Match(exactly: bool, t: Tables, t': Tables) {
    if exactly then t' == t else AlikeTables(t, t')
  }

  // Whatever happens to the external cells, the tables stay alike.
  lemma SameInternal(m: Image, m': Image)
    requires Sized(m) && Sized(m') && m'.internal == m.internal
    ensures AlikeTables(Decode(m), Decode(m')) && (Fits(Decode(m)) ==> Fits(Decode(m')))
  {
    assert Decode(m').chars == Decode(m).chars;
    assert forall i: byte :: |Decode(m').words[i]| == WordLength(m', i) == WordLength(m, i) == |Decode(m).words[i]|;
    assert forall i: byte :: i < BLOB_COUNT ==>
      |Decode(m').blobs[i]| == BlobLength(m', i) == BlobLength(m, i) == |Decode(m).blobs[i]|;
  }

  lemma LongerWord(m: Image, m': Image, i: byte, c: byte)
    requires Sized(m) && Sized(m') && WordLength(m, i) < MAX_WORD
    requires m'.internal == m.internal[WORD_LENGTHS + i := Dec(WordLength(m, i) + 1)]
    ensures AlikeTables(Decode(m).(words := Decode(m).words[i := Decode(m).words[i] + [c]]), Decode(m'))
    ensures Fits(Decode(m)) ==> Fits(Decode(m'))
  {
    assert Decode(m').chars == Decode(m).chars;
    assert forall k: byte :: |Decode(m').words[k]| == WordLength(m', k) == WordLength(m, k) + if k == i then 1 else 0;
    assert forall k: byte :: k < BLOB_COUNT ==>
      |Decode(m').blobs[k]| == BlobLength(m', k) == BlobLength(m, k) == |Decode(m).blobs[k]|;
  }

  lemma LongerBlob(m: Image, m': Image, i: byte, s: Stroke)
    requires Sized(m) && Sized(m') && i < BLOB_COUNT && BlobLength(m, i) < MAX_BLOB
    requires m'.internal == m.internal[BLOB_LENGTHS + i := Dec(BlobLength(m, i) + 1)]
    ensures AlikeTables(Decode(m).(blobs := Decode(m).blobs[i := Decode(m).blobs[i] + [s]]), Decode(m'))
    ensures Fits(Decode(m)) ==> Fits(Decode(m'))
  {
    assert Decode(m').chars == Decode(m).chars;
    assert forall k: byte :: |Decode(m').words[k]| == WordLength(m', k) == WordLength(m, k) == |Decode(m).words[k]|;
    assert forall k: byte :: k < BLOB_COUNT ==>
      |Decode(m').blobs[k]| == BlobLength(m', k) == BlobLength(m, k) + if k == i then 1 else 0;
  }
}
