// The reference model of the test suite as it is written: it prints characters where the firmware types
// strokes, words and blobs are texts, there is no cap on blobs and no missing device. It is compared with
// the firmware's step function, and the two agree on exactly the runs that avoid four things.
module WrittenReference {
  import opened Bytes
  import opened Types
  import opened Layout
  import opened Keycodes
  import opened Reference

  datatype GText = GText(id: byte, wordMod: byte, key: byte, prog: bool, words: seq<string>)
  datatype BText = BText(id: byte, key: byte, mod: byte, prog: bool, blobs: seq<string>)

  datatype Texts = Texts(current: LayerId, dflt: DfltModel, r: RModel, g: GText, b: BText) {
    predicate Valid() {
      |r.chars| == 256 && |g.words| == 256 && |b.blobs| == BLOB_COUNT
    }
  }

  type TextBoard = m: Texts | m.Valid() witness InText(Initial())

  function PunctuationMark(wordMod: byte): char {
    if wordMod == 3 then '.' else if wordMod == 4 then ',' else if wordMod == 5 then '-' else NUL
  }

  function Upper(text: string): (upper: string)
    ensures |upper| == |text|
  {
    seq(|text|, i requires 0 <= i < |text| => ToUpper(text[i]))
  }

  // What a word prints under a word mod code.
  function ModCoded(word: string, wordMod: byte): string {
    Printing(if word == [] then []
             else if wordMod == 1 then Upper(word)
             else if wordMod == 2 then [ToUpper(word[0])] + word[1..]
             else if PunctuationMark(wordMod) != NUL then word + [PunctuationMark(wordMod)]
             else word)
  }

  // What one stroke prints, unless it is a release.
  function PrintedUnlessZero(key: byte, mod: byte): string {
    if key == 0 && mod == 0 then [] else Printing([FromUsbKeycodes(Stroke(key, mod))])
  }

  function ApplyDfltText(m: DfltModel, k: Keypress): Reply<DfltModel, char> {
    match k
    case INACTIVE => Reply(m, [], false)
    case X => Reply(DfltModel(Low8(m.bank0 + 1), m.bank1), [], false)
    case Y => Reply(DfltModel(m.bank0, Low8(m.bank1 + 1)), [], false)
    case Z => Reply(m, PrintedUnlessZero(m.bank0, m.bank1), false)
    case XY => Reply(m, [], false)
    case XZ => Reply(DfltModel(0, m.bank1), [], false)
    case YZ => Reply(DfltModel(m.bank0, 0), [], false)
    case XYZ => Reply(m, [], true)
  }

  function ApplyRText(m: RModel, k: Keypress): Reply<RModel, char>
    requires |m.chars| == 256
  {
    if m.prog then
      match k
      case X => var c: nat := m.chars[m.id]; Reply(m.(chars := m.chars[m.id := Low8(c + 1)]), [], false)
      case Y => Reply(m.(id := Low8(m.id + 1)), [], false)
      case XZ => Reply(m.(chars := m.chars[m.id := 0]), [], false)
      case YZ => Reply(m.(id := 0), [], false)
      case XYZ => Reply(m.(prog := false), [], false)
      case _ => Reply(m, [], false)
    else
      match k
      case X => Reply(m.(id := Low8(m.id + 1)), [], false)
      case Y => Reply(m.(mod := Low8(m.mod + 1)), [], false)
      case Z => Reply(m, PrintedUnlessZero(m.chars[m.id], m.mod), false)
      case XY => Reply(m.(prog := true), [], false)
      case XZ => Reply(m.(id := 0), [], false)
      case YZ => Reply(m.(mod := 0), [], false)
      case XYZ => Reply(m, [], true)
      case INACTIVE => Reply(m, [], false)
  }

  function ApplyGText(m: GText, k: Keypress): Reply<GText, char>
    requires |m.words| == 256
  {
    match k
    case X => if m.prog then Reply(m.(key := Inc(m.key)), [], false) else Reply(m.(id := Inc(m.id)), [], false)
    case Y => if m.prog then Reply(m, [], false) else Reply(m.(wordMod := Inc(m.wordMod)), [], false)
    case Z => if m.prog && |m.words[m.id]| < MAX_WORD
              then Reply(m.(words := m.words[m.id := m.words[m.id] + [FromUsbKeycodes(Stroke(m.key, 0))]]), [], false)
              else Reply(m, ModCoded(m.words[m.id], m.wordMod), false)
    case XY => Reply(m.(prog := true), [], false)
    case XZ => if m.prog then Reply(m.(key := 0), [], false) else Reply(m.(id := 0), [], false)
    case YZ => if m.prog then Reply(m.(words := m.words[m.id := []]), [], false)
               else Reply(m.(wordMod := 0), [], false)
    case XYZ => if m.prog then Reply(m.(prog := false), [], false) else Reply(m, [], true)
    case _ => Reply(m, [], false)
  }

  // The shortcut array ends at 248; what an access beyond it does is undefined, and nothing here.
  function ApplyBText(m: BText, k: Keypress): Reply<BText, char>
    requires |m.blobs| == BLOB_COUNT
  {
    var slot := m.id < BLOB_COUNT;
    match k
    case X => if m.prog then Reply(m.(key := Inc(m.key)), [], false) else Reply(m.(id := Inc(m.id)), [], false)
    case Y => if m.prog then Reply(m.(mod := Inc(m.mod)), [], false) else Reply(m, [], false)
    case Z => if !slot then Reply(m, [], false)
              else if !m.prog then Reply(m, Printing(m.blobs[m.id]), false)
              else
                Reply(m.(blobs := m.blobs[m.id := m.blobs[m.id] + [FromUsbKeycodes(Stroke(m.key, m.mod))]]), [], false)
    case XY => if !m.prog then Reply(m.(prog := true), [], false)
               else Reply(if slot then m.(blobs := m.blobs[m.id := []]) else m, [], false)
    case XZ => if m.prog then Reply(m.(key := 0), [], false) else Reply(m.(id := 0), [], false)
    case YZ => if m.prog then Reply(m.(mod := 0), [], false) else Reply(m, [], false)
    case XYZ => if m.prog then Reply(m.(prog := false), [], false) else Reply(m, [], true)
    case _ => Reply(m, [], false)
  }

  function LeaveText(m: Texts, leave: bool): Texts {
    if leave then m.(current := NextLayer(m.current)) else m
  }

  function ApplyText(m: TextBoard, k: Keypress): (r: (TextBoard, string)) {
    match m.current
    case DFLT => var a := ApplyDfltText(m.dflt, k); (LeaveText(m.(dflt := a.next), a.leave), a.out)
    case R => var a := ApplyRText(m.r, k); (LeaveText(m.(r := a.next), a.leave), a.out)
    case G => var a := ApplyGText(m.g, k); (LeaveText(m.(g := a.next), a.leave), a.out)
    case B => var a := ApplyBText(m.b, k); (LeaveText(m.(b := a.next), a.leave), a.out)
  }

  // What the reference shows. It has nothing to show for a blob id beyond its array.
  predicate VisibleText(m: TextBoard) {
    m.current == B ==> m.b.prog || m.b.id < BLOB_COUNT
  }

  function ShowText(m: TextBoard): Panel
    requires VisibleText(m)
  {
    match m.current
    case DFLT => Panel(m.dflt.bank0, m.dflt.bank1, false, false, false, false)
    case R => if m.r.prog then Panel(m.r.chars[m.r.id], m.r.id, true, false, false, true)
              else Panel(m.r.id, m.r.mod, true, false, false, false)
    case G => if m.g.prog then Panel(m.g.key, Low8(|m.g.words[m.g.id]| * 16), false, true, false, true)
              else Panel(m.g.id, PackBank(|m.g.words[m.g.id]|, m.g.wordMod), false, true, false, false)
    case B => if m.b.prog then Panel(m.b.key, m.b.mod, false, false, true, true)
              else Panel(m.b.id, Low8(|m.b.blobs[m.b.id]|), false, false, true, false)
  }

  // ---- The firmware's board in the reference's terms ----

  function WordText(word: seq<byte>): (text: string)
    ensures |text| == |word|
  {
    Text(Plain(word))
  }

  function InTextG(m: GModel): (t: GText)
    ensures |t.words| == |m.words|
  {
    GText(m.id, m.wordMod, m.key, m.prog, seq(|m.words|, i requires 0 <= i < |m.words| => WordText(m.words[i])))
  }

  function InTextB(m: BModel): (t: BText)
    ensures |t.blobs| == |m.blobs|
  {
    BText(m.id, m.key, m.mod, m.prog, seq(|m.blobs|, i requires 0 <= i < |m.blobs| => Text(m.blobs[i])))
  }

  function InText(m: Model): (t: Texts)
    ensures m.Valid() ==> t.Valid()
  {
    Texts(m.current, m.dflt, m.r, InTextG(m.g), InTextB(m.b))
  }

  lemma InTextShows(m: Board)
    ensures VisibleText(InText(m)) == Visible(m) && (Visible(m) ==> ShowText(InText(m)) == Show(m))
  {}

  // ---- Typing words ----

  // The reference's upper case is not what the host prints with shift.
  predicate Misread(word: seq<byte>, wordMod: byte) {
    || (wordMod == 1 && exists i :: 0 <= i < |word| && ShiftMatters(word[i]))
    || (wordMod == 2 && word != [] && ShiftMatters(word[0]))
  }

  lemma UpperIsShifted(word: seq<byte>)
    ensures Printed(Shifted(word)) == Printing(Upper(WordText(word))) <==>
              forall i :: 0 <= i < |word| ==> !ShiftMatters(word[i])
  {
    var a, b := Text(Shifted(word)), Upper(WordText(word));
    forall i | 0 <= i < |word|
      ensures Printable(a[i]) == Printable(b[i]) && (Printable(a[i]) || a[i] == b[i])
      ensures a[i] == b[i] <==> !ShiftMatters(word[i])
    {
      ShiftExactly(word[i]);
    }
    PrintingIsFaithful(a, b);
  }

  lemma CapitalIsShifted(word: seq<byte>)
    requires word != []
    ensures Printed(RenderWord(word, 2)) == ModCoded(WordText(word), 2) <==> !ShiftMatters(word[0])
  {
    var a, b := Text(RenderWord(word, 2)), [ToUpper(WordText(word)[0])] + WordText(word)[1..];
    ShiftExactly(word[0]);
    assert forall i :: 1 <= i < |word| ==> a[i] == b[i];
    PrintingIsFaithful(a, b);
  }

  // What a word prints and what the reference says it prints are the same exactly if no shifted key
  // is a digit, '-' or '='.
  lemma RenderAgrees(word: seq<byte>, wordMod: byte)
    ensures Printed(RenderWord(word, wordMod)) == ModCoded(WordText(word), wordMod) <==> !Misread(word, wordMod)
  {
    if word != [] && wordMod == 1 {
      UpperIsShifted(word);
    } else if word != [] && wordMod == 2 {
      CapitalIsShifted(word);
    } else if word != [] && 3 <= wordMod <= 5 {
      assert Text(RenderWord(word, wordMod)) == WordText(word) + [PunctuationMark(wordMod)];
    }
  }

  // A hyphen in upper case stays a hyphen in the reference and is an underscore on the screen.
  lemma ShiftedHyphen()
    ensures Printed(RenderWord([0x2d], 1)) == "_" && ModCoded(WordText([0x2d]), 1) == "-"
  {
    PrintedOne(Stroke(0x2d, SHIFT));
    assert RenderWord([0x2d], 1) == [Stroke(0x2d, SHIFT)];
    PrintedOne(Stroke(0x2d, 0));
    assert Plain([0x2d]) == [Stroke(0x2d, 0)] && Upper(WordText([0x2d])) == WordText([0x2d]);
  }

  predicate AnyPrintable(text: string) {
    exists i :: 0 <= i < |text| && Printable(text[i])
  }

  lemma {:induction false} PrintingSomething(text: string)
    ensures Printing(text) != [] <==> AnyPrintable(text)
  {
    if text != [] {
      PrintingSomething(text[1..]);
      assert forall i :: 1 <= i < |text| ==> text[i] == text[1..][i - 1];
    }
  }

  lemma SomethingEither(a: string, b: string)
    requires |a| == |b| && forall i :: 0 <= i < |a| ==> Printable(a[i]) == Printable(b[i])
    ensures (Printing(a) != []) == (Printing(b) != [])
  {
    PrintingSomething(a);
    PrintingSomething(b);
  }

  // Typing this word prints something.
  predicate Noticeable(word: seq<byte>, wordMod: byte) {
    word != [] && (3 <= wordMod <= 5 || AnyPrintable(WordText(word)))
  }

  lemma NoticeableIsPrinted(word: seq<byte>, wordMod: byte)
    ensures ModCoded(WordText(word), wordMod) != [] <==> Noticeable(word, wordMod)
  {
    var text := WordText(word);
    PrintingSomething(text);
    if word != [] {
      forall i | 0 <= i < |word| ensures Printable(ToUpper(text[i])) == Printable(text[i]) {
        ShiftExactly(word[i]);
      }
      if wordMod == 1 {
        SomethingEither(text, Upper(text));
      } else if wordMod == 2 {
        SomethingEither(text, [ToUpper(text[0])] + text[1..]);
      } else if 3 <= wordMod <= 5 {
        var marked := text + [PunctuationMark(wordMod)];
        PrintingSomething(marked);
        assert marked[|word|] == PunctuationMark(wordMod);
      }
    }
  }

  // ---- Where the reference and the firmware part ----

  // The firmware refuses a key for a full word, and the reference types the word instead; or the
  // reference's upper case goes wrong.
  predicate PartsG(m: GModel, k: Keypress)
    requires |m.words| == 256
  {
    var word := m.words[m.id];
    k == Z && if m.prog then |word| >= MAX_WORD && Noticeable(word, m.wordMod) else Misread(word, m.wordMod)
  }

  // The firmware refuses a pair for a full blob, or for one on a missing device.
  predicate PartsB(f: Fit, m: BModel, k: Keypress)
    requires |m.blobs| == BLOB_COUNT
  {
    k == Z && m.prog && m.id < BLOB_COUNT && (|m.blobs[m.id]| >= MAX_BLOB || !Fitted(f, m.id))
  }

  predicate Parts(f: Fit, m: Board, k: Keypress) {
    (m.current == G && PartsG(m.g, k)) || (m.current == B && PartsB(f, m.b, k))
  }

  // In the first two layers they never part.
  lemma StepAgreesDflt(m: DfltModel, k: Keypress)
    ensures var a := ApplyDflt(m, k); ApplyDfltText(m, k) == Reply(a.next, Printed(a.out), a.leave)
  {
    PrintsOneStroke(m.bank0, m.bank1);
  }

  lemma StepAgreesR(m: RModel, k: Keypress)
    requires |m.chars| == 256
    ensures var a := ApplyR(m, k); ApplyRText(m, k) == Reply(a.next, Printed(a.out), a.leave)
  {
    PrintsOneStroke(m.chars[m.id], m.mod);
  }

  lemma PrintsOneStroke(key: byte, mod: byte)
    ensures Printed([Stroke(key, mod)]) == PrintedUnlessZero(key, mod) && Printed([]) == []
  {
    PrintedOne(Stroke(key, mod));
    assert Text([Stroke(key, mod)]) == [FromUsbKeycodes(Stroke(key, mod))];
  }

  lemma StepAgreesG(m: GModel, k: Keypress)
    requires |m.words| == 256
    ensures var a := ApplyG(m, k);
            ApplyGText(InTextG(m), k) == Reply(InTextG(a.next), Printed(a.out), a.leave) <==> !PartsG(m, k)
  {
    var word := m.words[m.id];
    var t, a := InTextG(m), ApplyG(m, k);
    assert Printed([]) == [];
    if k == Z {
      if !m.prog {
        RenderAgrees(word, m.wordMod);
      } else if |word| >= MAX_WORD {
        NoticeableIsPrinted(word, m.wordMod);
      } else {
        assert WordText(word + [m.key]) == WordText(word) + [FromUsbKeycodes(Stroke(m.key, 0))];
        assert InTextG(a.next).words == t.words[m.id := WordText(word + [m.key])];
      }
    } else if k == YZ && m.prog {
      assert InTextG(a.next).words == t.words[m.id := []];
    }
  }

  lemma StepAgreesB(f: Fit, m: BModel, k: Keypress)
    requires |m.blobs| == BLOB_COUNT
    requires m.id < BLOB_COUNT && !Fitted(f, m.id) ==> m.blobs[m.id] == []
    ensures var a := ApplyB(f, m, k);
            ApplyBText(InTextB(m), k) == Reply(InTextB(a.next), Printed(a.out), a.leave) <==> !PartsB(f, m, k)
  {
    var t, a := InTextB(m), ApplyB(f, m, k);
    assert Printed([]) == [];
    if m.id < BLOB_COUNT {
      var blob := m.blobs[m.id];
      var longer := blob + [Stroke(m.key, m.mod)];
      assert Text(longer) == Text(blob) + [FromUsbKeycodes(Stroke(m.key, m.mod))];
      assert InTextB(m.(blobs := m.blobs[m.id := longer])).blobs == t.blobs[m.id := Text(longer)];
      assert InTextB(m.(blobs := m.blobs[m.id := []])).blobs == t.blobs[m.id := []];
      if PartsB(f, m, k) {
        assert |ApplyBText(InTextB(m), k).next.blobs[m.id]| == |blob| + 1;
      }
    }
  }

  // Ids, codes and modes move alike whatever is stored.
  lemma ModesStayG(m: GModel, t: GText, k: Keypress)
    requires |m.words| == |t.words| == 256
    requires GModel(t.id, t.wordMod, t.key, t.prog, m.words) == m
    ensures var a, a' := ApplyG(m, k), ApplyGText(t, k);
            var n, n' := a.next, a'.next;
            GModel(n'.id, n'.wordMod, n'.key, n'.prog, n.words) == n && a.leave == a'.leave
  {}

  lemma ModesStayB(f: Fit, m: BModel, t: BText, k: Keypress)
    requires |m.blobs| == |t.blobs| == BLOB_COUNT
    requires BModel(t.id, t.key, t.mod, t.prog, m.blobs) == m
    ensures var a, a' := ApplyB(f, m, k), ApplyBText(t, k);
            var n, n' := a.next, a'.next;
            BModel(n'.id, n'.key, n'.mod, n'.prog, n.blobs) == n && a.leave == a'.leave
  {}

  // One step of the firmware and one of the reference, from boards that correspond, agree exactly
  // where they do not part.
  lemma StepAgrees(f: Fit, m: Board, k: Keypress)
    requires OnlyFittedUsed(f, m)
    ensures var (next, out) := Apply(f, m, k);
            ApplyText(InText(m), k) == (InText(next), Printed(out)) <==> !Parts(f, m, k)
  {
    match m.current {
      case DFLT => StepAgreesDflt(m.dflt, k);
      case R => StepAgreesR(m.r, k);
      case G => StepAgreesInG(f, m, k);
      case B => StepAgreesInB(f, m, k);
    }
  }

  lemma StepAgreesInG(f: Fit, m: Board, k: Keypress)
    requires m.current == G
    ensures var (next, out) := Apply(f, m, k);
            ApplyText(InText(m), k) == (InText(next), Printed(out)) <==> !PartsG(m.g, k)
  {
    ModesStayG(m.g, InTextG(m.g), k);
    StepAgreesG(m.g, k);
  }

  lemma StepAgreesInB(f: Fit, m: Board, k: Keypress)
    requires m.current == B && OnlyFittedUsed(f, m)
    ensures var (next, out) := Apply(f, m, k);
            ApplyText(InText(m), k) == (InText(next), Printed(out)) <==> !PartsB(f, m.b, k)
  {
    ModesStayB(f, m.b, InTextB(m.b), k);
    StepAgreesB(f, m.b, k);
  }

  // ---- Runs ----

  function AfterText(keys: seq<Keypress>): TextBoard {
    if keys == [] then InText(Initial()) else ApplyText(AfterText(keys[..|keys| - 1]), keys[|keys| - 1]).0
  }

  // What the last event of a run prints.
  function PrintedText(keys: seq<Keypress>): string
    requires keys != []
  {
    ApplyText(AfterText(keys[..|keys| - 1]), keys[|keys| - 1]).1
  }

  lemma AfterTextNext(keys: seq<Keypress>, i: nat)
    requires i < |keys|
    ensures ApplyText(AfterText(keys[..i]), keys[i]) == (AfterText(keys[..i + 1]), PrintedText(keys[..i + 1]))
  {
    var longer := keys[..i + 1];
    assert longer[..i] == keys[..i] && longer[i] == keys[i] && |longer| - 1 == i;
  }

  predicate NeverParts(f: Fit, keys: seq<Keypress>) {
    keys != [] ==>
      var n := |keys| - 1;
      NeverParts(f, keys[..n]) && !Parts(f, After(f, keys[..n]), keys[n])
  }

  // The two are in corresponding states after every event of the run, and print the same for it.
  predicate Agree(f: Fit, keys: seq<Keypress>) {
    && AfterText(keys) == InText(After(f, keys))
    && (keys != [] ==> PrintedText(keys) == Printed(Typed(f, keys)) && Agree(f, keys[..|keys| - 1]))
  }

  // Event for event, the firmware does what the reference says on exactly the runs that never part.
  lemma {:induction false} RunsAgree(f: Fit, keys: seq<Keypress>)
    ensures Agree(f, keys) <==> NeverParts(f, keys)
  {
    if keys != [] {
      var n := |keys| - 1;
      RunsAgree(f, keys[..n]);
      RunInvariant(f, keys[..n]);
      StepAgrees(f, After(f, keys[..n]), keys[n]);
    }
  }

  // A run on which the reference always has a panel to show.
  predicate AlwaysVisible(keys: seq<Keypress>) {
    VisibleText(AfterText(keys)) && (keys != [] ==> AlwaysVisible(keys[..|keys| - 1]))
  }

  // Such a run never leaves the 248 slots of the reference's blob array.
  lemma {:induction false} VisibleMeansDefined(keys: seq<Keypress>)
    requires AlwaysVisible(keys)
    ensures AfterText(keys).b.id < BLOB_COUNT
  {
    if keys != [] {
      VisibleMeansDefined(keys[..|keys| - 1]);
    }
  }

  // ---- The suite's own simulator has the first external EEPROM only ----

  // To the blob layer and to blob 120, the first on the second device; then one pair is programmed.
  const TO_BLOBS := [XYZ, XYZ, XYZ]
  const TO_FIRST_MISSING_BLOB := TO_BLOBS + Copies(X, 120)
  const PROGRAM_MISSING_BLOB := TO_FIRST_MISSING_BLOB + [XY] + [Z] + [XYZ]

  lemma OneMore(f: Fit, keys: seq<Keypress>, k: Keypress)
    ensures After(f, keys + [k]) == Apply(f, After(f, keys), k).0
    ensures NeverParts(f, keys + [k]) <==> NeverParts(f, keys) && !Parts(f, After(f, keys), k)
    ensures NeverParts(f, keys + [k]) ==>
              (AlwaysVisible(keys + [k]) <==> AlwaysVisible(keys) && Visible(After(f, keys + [k])))
  {
    assert (keys + [k])[..|keys|] == keys;
    RunsAgree(f, keys + [k]);
    InTextShows(After(f, keys + [k]));
  }

  // The two have never parted, there was always a panel, and the firmware is here now.
  predicate At(f: Fit, keys: seq<Keypress>, m: Board) {
    NeverParts(f, keys) && AlwaysVisible(keys) && After(f, keys) == m
  }

  lemma NextAt(f: Fit, keys: seq<Keypress>, m: Board, k: Keypress)
    requires At(f, keys, m) && !Parts(f, m, k) && Visible(Apply(f, m, k).0)
    ensures At(f, keys + [k], Apply(f, m, k).0)
  {
    OneMore(f, keys, k);
  }

  lemma LeaveLayer(f: Fit, keys: seq<Keypress>, layer: LayerId)
    requires At(f, keys, Initial().(current := layer))
    ensures At(f, keys + [XYZ], Initial().(current := NextLayer(layer)))
  {
    NextAt(f, keys, Initial().(current := layer), XYZ);
  }

  lemma AtBlobs(f: Fit)
    ensures At(f, TO_BLOBS, Initial().(current := B))
  {
    InTextShows(Initial());
    LeaveLayer(f, [], DFLT);
    LeaveLayer(f, [] + [XYZ], R);
    LeaveLayer(f, [] + [XYZ] + [XYZ], G);
    assert [] + [XYZ] + [XYZ] + [XYZ] == TO_BLOBS;
  }

  function BlobBoard(id: byte): Board { Initial().(current := B, b := Initial().b.(id := id)) }

  lemma {:induction false} AtBlob(f: Fit, n: nat)
    requires n <= 120
    ensures At(f, TO_BLOBS + Copies(X, n), BlobBoard(n))
  {
    if n == 0 {
      AtBlobs(f);
      assert TO_BLOBS + Copies(X, 0) == TO_BLOBS;
    } else {
      AtBlob(f, n - 1);
      NextAt(f, TO_BLOBS + Copies(X, n - 1), BlobBoard(n - 1), X);
      assert TO_BLOBS + Copies(X, n - 1) + [X] == TO_BLOBS + Copies(X, n);
    }
  }

  // With both devices this run never parts. Without the second one it does: the reference shows a
  // blob of length one where the firmware shows an empty one.
  lemma MissingDeviceShows()
    ensures var keys := PROGRAM_MISSING_BLOB;
            && NeverParts(BothEeproms, keys) && AlwaysVisible(keys) && !NeverParts(FirstEeprom, keys)
            && ShowText(AfterText(keys)) == Panel(120, 1, false, false, true, false)
            && Visible(After(FirstEeprom, keys))
            && Show(After(FirstEeprom, keys)) == Panel(120, 0, false, false, true, false)
  {
    ProgramAtBlob(BothEeproms);
    ProgramAtBlob(FirstEeprom);
    RunsAgree(BothEeproms, PROGRAM_MISSING_BLOB);
    InTextShows(After(BothEeproms, PROGRAM_MISSING_BLOB));
  }

  lemma ProgramAtBlob(f: Fit)
    ensures var keys, blob := PROGRAM_MISSING_BLOB, if f.BothEeproms? then [Stroke(0, 0)] else [];
            && NeverParts(f, keys) == f.BothEeproms? && (f.BothEeproms? ==> AlwaysVisible(keys))
            && Visible(After(f, keys)) && Show(After(f, keys)) == Panel(120, |blob|, false, false, true, false)
  {
    var keys, m := TO_FIRST_MISSING_BLOB, BlobBoard(120);
    var m1 := m.(b := m.b.(prog := true));
    AtBlob(f, 120);
    NextAt(f, keys, m, XY);
    OneMore(f, keys + [XY], Z);
    OneMore(f, keys + [XY] + [Z], XYZ);
    assert After(f, keys + [XY]) == m1;
    ProgrammedBoard(f, m1);
  }

  lemma ProgrammedBoard(f: Fit, m: Board)
    requires m.current == B && m.b == Initial().b.(id := 120, prog := true)
    ensures var m' := Apply(f, m, Z).0;
            var m'' := Apply(f, m', XYZ).0;
            && Parts(f, m, Z) == f.FirstEeprom? && !Parts(f, m', XYZ) && Visible(m') && Visible(m'')
            && Show(m'') == Panel(120, if f.BothEeproms? then 1 else 0, false, false, true, false)
  {}
}
