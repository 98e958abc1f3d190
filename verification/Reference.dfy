// The firmware in its simplest form: four layer machines over plain tables of key codes, one of
// them current. The firmware's objects are proved to follow this step function, and the reference
// model of the test suite is compared with it.
module Reference {
  import opened Bits
  import opened Bytes
  import opened Types
  import opened Layout

  datatype DfltModel = DfltModel(bank0: byte, bank1: byte)
  datatype RModel = RModel(id: byte, mod: byte, prog: bool, chars: seq<byte>)
  datatype GModel = GModel(id: byte, wordMod: byte, key: byte, prog: bool, words: seq<seq<byte>>)
  datatype BModel = BModel(id: byte, key: byte, mod: byte, prog: bool, blobs: seq<seq<Stroke>>)

  datatype Model = Model(current: LayerId, dflt: DfltModel, r: RModel, g: GModel, b: BModel) {
    predicate Valid() {
      |r.chars| == 256 && |g.words| == 256 && |b.blobs| == BLOB_COUNT
    }
  }

  type Board = m: Model | m.Valid() witness Initial()

  function Initial(): Model {
    Model(DFLT, DfltModel(0, 0), RModel(0, 0, false, seq(256, _ => 0)),
          GModel(0, 0, 0, false, seq(256, _ => [])), BModel(0, 0, 0, false, seq(BLOB_COUNT, _ => [])))
  }

  // One layer's answer to a keypress: its next state, what it types, and whether the board moves
  // on to the next layer.
  datatype Reply<M, O> = Reply(next: M, out: seq<O>, leave: bool)

  function ApplyDflt(m: DfltModel, k: Keypress): Reply<DfltModel, Stroke> {
    match k
    case X => Reply(m.(bank0 := Inc(m.bank0)), [], false)
    case Y => Reply(m.(bank1 := Inc(m.bank1)), [], false)
    case Z => Reply(m, [Stroke(m.bank0, m.bank1)], false)
    case XZ => Reply(m.(bank0 := 0), [], false)
    case YZ => Reply(m.(bank1 := 0), [], false)
    case XYZ => Reply(m, [], true)
    case _ => Reply(m, [], false)
  }

  function ApplyR(m: RModel, k: Keypress): Reply<RModel, Stroke>
    requires |m.chars| == 256
  {
    match k
    case X => if m.prog then Reply(m.(chars := m.chars[m.id := Inc(m.chars[m.id])]), [], false)
              else Reply(m.(id := Inc(m.id)), [], false)
    case Y => if m.prog then Reply(m.(id := Inc(m.id)), [], false)
              else Reply(m.(mod := Inc(m.mod)), [], false)
    case Z => Reply(m, if m.prog then [] else [Stroke(m.chars[m.id], m.mod)], false)
    case XY => Reply(m.(prog := true), [], false)
    case XZ => if m.prog then Reply(m.(chars := m.chars[m.id := 0]), [], false)
               else Reply(m.(id := 0), [], false)
    case YZ => if m.prog then Reply(m.(id := 0), [], false) else Reply(m.(mod := 0), [], false)
    case XYZ => if m.prog then Reply(m.(prog := false), [], false) else Reply(m, [], true)
    case _ => Reply(m, [], false)
  }

  // Appending to a full word does nothing.
  function ApplyG(m: GModel, k: Keypress): Reply<GModel, Stroke>
    requires |m.words| == 256
  {
    match k
    case X => if m.prog then Reply(m.(key := Inc(m.key)), [], false) else Reply(m.(id := Inc(m.id)), [], false)
    case Y => if m.prog then Reply(m, [], false) else Reply(m.(wordMod := Inc(m.wordMod)), [], false)
    case Z => if m.prog && |m.words[m.id]| < MAX_WORD
              then Reply(m.(words := m.words[m.id := m.words[m.id] + [m.key]]), [], false)
              else Reply(m, if m.prog then [] else RenderWord(m.words[m.id], m.wordMod), false)
    case XY => Reply(m.(prog := true), [], false)
    case XZ => if m.prog then Reply(m.(key := 0), [], false) else Reply(m.(id := 0), [], false)
    case YZ => if m.prog then Reply(m.(words := m.words[m.id := []]), [], false)
               else Reply(m.(wordMod := 0), [], false)
    case XYZ => if m.prog then Reply(m.(prog := false), [], false) else Reply(m, [], true)
    case _ => Reply(m, [], false)
  }

  // There are no slots for the last eight ids, and a slot on a missing device cannot be appended to
  // or read; a full blob cannot be appended to. Clearing only takes the internal EEPROM.
  function ApplyB(f: Fit, m: BModel, k: Keypress): Reply<BModel, Stroke>
    requires |m.blobs| == BLOB_COUNT
  {
    var slot := m.id < BLOB_COUNT;
    match k
    case X => if m.prog then Reply(m.(key := Inc(m.key)), [], false) else Reply(m.(id := Inc(m.id)), [], false)
    case Y => if m.prog then Reply(m.(mod := Inc(m.mod)), [], false) else Reply(m, [], false)
    case Z => if !slot || !Fitted(f, m.id) then Reply(m, [], false)
              else if !m.prog then Reply(m, m.blobs[m.id], false)
              else if |m.blobs[m.id]| >= MAX_BLOB then Reply(m, [], false)
              else Reply(m.(blobs := m.blobs[m.id := m.blobs[m.id] + [Stroke(m.key, m.mod)]]), [], false)
    case XY => if !m.prog then Reply(m.(prog := true), [], false)
               else Reply(if slot then m.(blobs := m.blobs[m.id := []]) else m, [], false)
    case XZ => if m.prog then Reply(m.(key := 0), [], false) else Reply(m.(id := 0), [], false)
    case YZ => if m.prog then Reply(m.(mod := 0), [], false) else Reply(m, [], false)
    case XYZ => if m.prog then Reply(m.(prog := false), [], false) else Reply(m, [], true)
    case _ => Reply(m, [], false)
  }

  function NextLayer(l: LayerId): LayerId {
    match l case DFLT => R case R => G case G => B case B => DFLT
  }

  function Leave(m: Model, leave: bool): Model {
    if leave then m.(current := NextLayer(m.current)) else m
  }

  // One keypress on the whole board.
  function Apply(f: Fit, m: Board, k: Keypress): (r: (Board, seq<Stroke>)) {
    match m.current
    case DFLT => var a := ApplyDflt(m.dflt, k); (Leave(m.(dflt := a.next), a.leave), a.out)
    case R => var a := ApplyR(m.r, k); (Leave(m.(r := a.next), a.leave), a.out)
    case G => var a := ApplyG(m.g, k); (Leave(m.(g := a.next), a.leave), a.out)
    case B => var a := ApplyB(f, m.b, k); (Leave(m.(b := a.next), a.leave), a.out)
  }

  // The word layer packs the word length and the word mod code into one bank.
  function PackBank(length: nat, wordMod: byte): byte {
    assert Pow2(4) == 16 && Pow2(8) == 256;
    OrBelow(Low8(length * 16), wordMod, 8);
    Or(Low8(length * 16), wordMod)
  }

  // The low digit of that bank is the low digit of the mod code. Its high digit is the length exactly
  // if the mod code's high digit has no bit that the length lacks, as for every code below 16.
  lemma BankDigits(length: nat, wordMod: byte)
    requires length <= MAX_WORD
    ensures PackBank(length, wordMod) % 16 == wordMod % 16
    ensures PackBank(length, wordMod) / 16 == Or(length, wordMod / 16)
    ensures PackBank(length, wordMod) / 16 == length <==> Or(length, wordMod / 16) == length
    ensures wordMod < 16 ==> PackBank(length, wordMod) / 16 == length
  {
    assert Low8(length * 16) == 16 * length;
    OrHexDigits(length, wordMod);
    assert PackBank(length, wordMod) == 16 * Or(length, wordMod / 16) + wordMod % 16;
  }

  // The mod code is a whole byte, and 32 makes a word of one key look like one of three.
  lemma BankShowsAnotherLength()
    ensures PackBank(1, 0x20) / 16 == 3
  {
    BankDigits(1, 0x20);
    OrCommutes(1, 2);
    OrDouble(1, 1);
  }

  // The panel a board should show. Undefined exactly where Visible is false: the blob layer has no
  // length to show for an id without a slot.
  predicate VisibleB(m: BModel) {
    m.prog || m.id < BLOB_COUNT
  }

  predicate Visible(m: Board) {
    m.current == B ==> VisibleB(m.b)
  }

  function ShowDflt(m: DfltModel): Panel {
    Panel(m.bank0, m.bank1, false, false, false, false)
  }

  function ShowR(m: RModel): Panel
    requires |m.chars| == 256
  {
    if m.prog then Panel(m.chars[m.id], m.id, true, false, false, true)
    else Panel(m.id, m.mod, true, false, false, false)
  }

  function ShowG(m: GModel): Panel
    requires |m.words| == 256
  {
    if m.prog then Panel(m.key, Low8(|m.words[m.id]| * 16), false, true, false, true)
    else Panel(m.id, PackBank(|m.words[m.id]|, m.wordMod), false, true, false, false)
  }

  function ShowB(m: BModel): Panel
    requires |m.blobs| == BLOB_COUNT && VisibleB(m)
  {
    if m.prog then Panel(m.key, m.mod, false, false, true, true)
    else Panel(m.id, Low8(|m.blobs[m.id]|), false, false, true, false)
  }

  function Show(m: Board): Panel
    requires Visible(m)
  {
    match m.current
    case DFLT => ShowDflt(m.dflt)
    case R => ShowR(m.r)
    case G => ShowG(m.g)
    case B => ShowB(m.b)
  }

  // ---- Runs ----

  function After(f: Fit, keys: seq<Keypress>): Board {
    if keys == [] then Initial() else Apply(f, After(f, keys[..|keys| - 1]), keys[|keys| - 1]).0
  }

  // What the last event of a run types.
  function Typed(f: Fit, keys: seq<Keypress>): seq<Stroke>
    requires keys != []
  {
    Apply(f, After(f, keys[..|keys| - 1]), keys[|keys| - 1]).1
  }

  lemma AfterNext(f: Fit, keys: seq<Keypress>, i: nat)
    requires i < |keys|
    ensures Apply(f, After(f, keys[..i]), keys[i]) == (After(f, keys[..i + 1]), Typed(f, keys[..i + 1]))
  {
    var longer := keys[..i + 1];
    assert longer[..i] == keys[..i] && longer[i] == keys[i] && |longer| - 1 == i;
  }

  // Everything a run types, in order.
  function AllTyped(f: Fit, keys: seq<Keypress>): seq<Stroke> {
    if keys == [] then []
    else
      var n := |keys| - 1;
      AllTyped(f, keys[..n]) + Apply(f, After(f, keys[..n]), keys[n]).1
  }

  predicate OnlyCurrentInProg(m: Board) {
    && (m.r.prog ==> m.current == R)
    && (m.g.prog ==> m.current == G)
    && (m.b.prog ==> m.current == B)
  }

  predicate Capped(m: Board) {
    && (forall i :: 0 <= i < 256 ==> |m.g.words[i]| <= MAX_WORD)
    && (forall i :: 0 <= i < BLOB_COUNT ==> |m.b.blobs[i]| <= MAX_BLOB)
  }

  // Nothing has been stored on a device that is not there.
  predicate OnlyFittedUsed(f: Fit, m: Board) {
    forall i: byte :: i < BLOB_COUNT && !Fitted(f, i) ==> m.b.blobs[i] == []
  }

  lemma StepKeepsCaps(f: Fit, m: Board, k: Keypress)
    requires Capped(m) && OnlyFittedUsed(f, m)
    ensures Capped(Apply(f, m, k).0) && OnlyFittedUsed(f, Apply(f, m, k).0)
  {}

  lemma {:induction false} RunInvariant(f: Fit, keys: seq<Keypress>)
    ensures OnlyCurrentInProg(After(f, keys)) && Capped(After(f, keys)) && OnlyFittedUsed(f, After(f, keys))
  {
    if keys != [] {
      var before := keys[..|keys| - 1];
      RunInvariant(f, before);
      StepKeepsCaps(f, After(f, before), keys[|keys| - 1]);
    }
  }

  // ---- Boards that look alike ----

  // The same board up to the keys and pairs stored on the external EEPROMs: the lengths, which the
  // internal EEPROM holds, are the same.
  predicate AlikeG(m: GModel, m': GModel) {
    && m' == m.(words := m'.words) && |m.words| == |m'.words|
    && forall i :: 0 <= i < |m.words| ==> |m.words[i]| == |m'.words[i]|
  }

  predicate AlikeB(m: BModel, m': BModel) {
    && m' == m.(blobs := m'.blobs) && |m.blobs| == |m'.blobs|
    && forall i :: 0 <= i < |m.blobs| ==> |m.blobs[i]| == |m'.blobs[i]|
  }

  predicate Alike(m: Board, m': Board) {
    m'.current == m.current && m'.dflt == m.dflt && m'.r == m.r && AlikeG(m.g, m'.g) && AlikeB(m.b, m'.b)
  }

  // Alike boards stay alike, and show the same.
  lemma AlikeStep(f: Fit, m: Board, m': Board, k: Keypress)
    requires Alike(m, m')
    ensures Alike(Apply(f, m, k).0, Apply(f, m', k).0)
  {
    AlikeStepG(m.g, m'.g, k);
    AlikeStepB(f, m.b, m'.b, k);
  }

  lemma AlikeShow(m: Board, m': Board)
    requires Alike(m, m')
    ensures Visible(m') == Visible(m) && (Visible(m) ==> Show(m') == Show(m))
  {}

  lemma AlikeStepG(m: GModel, m': GModel, k: Keypress)
    requires |m.words| == |m'.words| == 256 && AlikeG(m, m')
    ensures var a, a' := ApplyG(m, k), ApplyG(m', k); AlikeG(a.next, a'.next) && a.leave == a'.leave
  {}

  lemma AlikeStepB(f: Fit, m: BModel, m': BModel, k: Keypress)
    requires |m.blobs| == |m'.blobs| == BLOB_COUNT && AlikeB(m, m')
    ensures var a, a' := ApplyB(f, m, k), ApplyB(f, m', k); AlikeB(a.next, a'.next) && a.leave == a'.leave
  {}

  function TouchedByG(m: GModel, k: Keypress): Device
    requires |m.words| == 256
  {
    if k == Z && (if m.prog then |m.words[m.id]| < MAX_WORD else m.words[m.id] != []) then First else Neither
  }

  function TouchedByB(m: BModel, k: Keypress): Device
    requires |m.blobs| == BLOB_COUNT
  {
    if k == Z && m.id < BLOB_COUNT && (if m.prog then |m.blobs[m.id]| < MAX_BLOB else m.blobs[m.id] != [])
    then BlobDeviceOf(m.id) else Neither
  }

  // The external EEPROM that an event accesses. It is a write in program mode, and a read otherwise.
  function Touched(m: Board, k: Keypress): Device {
    match m.current
    case DFLT => Neither
    case R => Neither
    case G => TouchedByG(m.g, k)
    case B => TouchedByB(m.b, k)
  }

  // The address of its first access there: the end of the word or blob in program mode, its start
  // otherwise.
  function AimOfG(m: GModel): nat
    requires |m.words| == 256
  {
    WordAddress(m.id, if m.prog then |m.words[m.id]| else 0)
  }

  function AimOfB(m: BModel): nat
    requires |m.blobs| == BLOB_COUNT && m.id < BLOB_COUNT
  {
    BlobAddress(m.id, if m.prog then |m.blobs[m.id]| else 0)
  }

  function Aim(m: Board, k: Keypress): nat
    requires Touched(m, k) != Neither
  {
    if m.current == G then AimOfG(m.g) else AimOfB(m.b)
  }

  predicate InProg(m: Board) {
    m.r.prog || m.g.prog || m.b.prog
  }
}
