// What the property test compares, and when it passes: the panel and the printed text of the firmware
// and of the suite's reference after every event. Where the two part in the blob layer, the reference
// has text that the firmware lacks; the test fails when some of that text is seen.
module Comparison {
  import opened Bytes
  import opened Types
  import opened Layout
  import opened Keycodes
  import opened Reference
  import opened WrittenReference

  // After event i both show the same and have printed the same for it.
  predicate Same(f: Fit, keys: seq<Keypress>, i: nat)
    requires i < |keys|
  {
    var m, t := After(f, keys[..i + 1]), AfterText(keys[..i + 1]);
    && Visible(m) && VisibleText(t) && Show(m) == ShowText(t)
    && Printed(Typed(f, keys[..i + 1])) == PrintedText(keys[..i + 1])
  }

  predicate SameBefore(f: Fit, keys: seq<Keypress>, n: nat)
    requires n <= |keys|
  {
    forall i :: 0 <= i < n ==> Same(f, keys, i)
  }

  predicate TestPasses(f: Fit, keys: seq<Keypress>) {
    SameBefore(f, keys, |keys|)
  }

  lemma SameNext(f: Fit, keys: seq<Keypress>, i: nat)
    requires i < |keys|
    ensures SameBefore(f, keys, i + 1) <==> SameBefore(f, keys, i) && Same(f, keys, i)
  {}

  lemma {:induction false} VisiblePrefix(keys: seq<Keypress>, i: nat)
    requires AlwaysVisible(keys) && i <= |keys|
    ensures VisibleText(AfterText(keys[..i]))
  {
    if i < |keys| {
      VisiblePrefix(keys[..|keys| - 1], i);
      assert keys[..|keys| - 1][..i] == keys[..i];
    } else {
      assert keys[..i] == keys;
    }
  }

  // Device and reference are always in the same layer and mode, with the same ids and codes.
  predicate SameModes(m: Board, t: TextBoard) {
    && m.current == t.current && m.dflt == t.dflt && m.r == t.r
    && m.g.id == t.g.id && m.g.wordMod == t.g.wordMod && m.g.key == t.g.key && m.g.prog == t.g.prog
    && m.b.id == t.b.id && m.b.key == t.b.key && m.b.mod == t.b.mod && m.b.prog == t.b.prog
  }

  lemma {:induction false} ModesAgree(f: Fit, keys: seq<Keypress>)
    ensures SameModes(After(f, keys), AfterText(keys))
  {
    if keys != [] {
      var n := |keys| - 1;
      ModesAgree(f, keys[..n]);
      ModesStay(f, After(f, keys[..n]), AfterText(keys[..n]), keys[n]);
    }
  }

  lemma ModesStay(f: Fit, m: Board, t: TextBoard, k: Keypress)
    requires SameModes(m, t)
    ensures SameModes(Apply(f, m, k).0, ApplyText(t, k).0)
  {
    match m.current {
      case DFLT => StepAgreesDflt(m.dflt, k);
      case R => StepAgreesR(m.r, k);
      case G => ModesStayInG(f, m, t, k);
      case B => ModesStayInB(f, m, t, k);
    }
  }

  lemma ModesStayInG(f: Fit, m: Board, t: TextBoard, k: Keypress)
    requires SameModes(m, t) && m.current == G
    ensures SameModes(Apply(f, m, k).0, ApplyText(t, k).0)
  {
    ModesStayG(m.g, t.g, k);
  }

  lemma ModesStayInB(f: Fit, m: Board, t: TextBoard, k: Keypress)
    requires SameModes(m, t) && m.current == B
    ensures SameModes(Apply(f, m, k).0, ApplyText(t, k).0)
  {
    ModesStayB(f, m.b, t.b, k);
  }

  lemma {:induction false} AgreePrefix(f: Fit, keys: seq<Keypress>, i: nat)
    requires Agree(f, keys) && i <= |keys|
    ensures Agree(f, keys[..i])
  {
    if i < |keys| {
      AgreePrefix(f, keys[..|keys| - 1], i);
      assert keys[..|keys| - 1][..i] == keys[..i];
    } else {
      assert keys[..i] == keys;
    }
  }

  // The comparison cannot fail on a run on which the two never part.
  lemma NeverPartsPasses(f: Fit, keys: seq<Keypress>)
    requires NeverParts(f, keys) && AlwaysVisible(keys)
    ensures TestPasses(f, keys)
  {
    RunsAgree(f, keys);
    forall i: nat | i < |keys| ensures Same(f, keys, i) {
      AgreePrefix(f, keys, i + 1);
      VisiblePrefix(keys, i + 1);
      AgreeIsSame(f, keys, i);
    }
  }

  lemma AgreeIsSame(f: Fit, keys: seq<Keypress>, i: nat)
    requires i < |keys| && Agree(f, keys[..i + 1]) && VisibleText(AfterText(keys[..i + 1]))
    ensures Same(f, keys, i)
  {
    InTextShows(After(f, keys[..i + 1]));
  }

  // ---- The text that the firmware owes ----

  type Debts = o: seq<string> | |o| == BLOB_COUNT witness Copies("", BLOB_COUNT)

  // A refused pair adds its character to what is owed for the blob; clearing the blob settles it.
  function OwedNextB(f: Fit, m: BModel, o: Debts, k: Keypress): Debts
    requires |m.blobs| == BLOB_COUNT
  {
    if m.id >= BLOB_COUNT then o
    else if PartsB(f, m, k) then o[m.id := o[m.id] + [FromUsbKeycodes(Stroke(m.key, m.mod))]]
    else if k == XY && m.prog then o[m.id := ""]
    else o
  }

  function OwedNext(f: Fit, m: Board, o: Debts, k: Keypress): Debts {
    if m.current == B then OwedNextB(f, m.b, o, k) else o
  }

  // What is owed after a run.
  function Owed(f: Fit, keys: seq<Keypress>): Debts {
    if keys == [] then Copies("", BLOB_COUNT)
    else var n := |keys| - 1; OwedNext(f, After(f, keys[..n]), Owed(f, keys[..n]), keys[n])
  }

  lemma OwedAfter(f: Fit, keys: seq<Keypress>, i: nat)
    requires i < |keys|
    ensures Owed(f, keys[..i + 1]) == OwedNext(f, After(f, keys[..i]), Owed(f, keys[..i]), keys[i])
  {
    assert keys[..i + 1][..i] == keys[..i];
  }

  // The event lets a difference be seen: a word goes wrong, a blob is sent of which something printable
  // is owed, or a blob's length is shown of which an amount is owed that the panel's byte can tell.
  predicate Noticed(f: Fit, m: Board, o: Debts, k: Keypress) {
    || (m.current == G && PartsG(m.g, k))
    || (m.current == B && k == Z && !m.b.prog && m.b.id < BLOB_COUNT && AnyPrintable(o[m.b.id]))
    || ShowsDebt(Apply(f, m, k).0, OwedNext(f, m, o, k))
  }

  predicate ShowsDebt(m: Board, o: Debts) {
    m.current == B && !m.b.prog && m.b.id < BLOB_COUNT && |o[m.b.id]| % 256 != 0
  }

  predicate NoticedAt(f: Fit, keys: seq<Keypress>, i: nat)
    requires i < |keys|
  {
    Noticed(f, After(f, keys[..i]), Owed(f, keys[..i]), keys[i])
  }

  predicate NeverNoticed(f: Fit, keys: seq<Keypress>) {
    forall i :: 0 <= i < |keys| ==> !NoticedAt(f, keys, i)
  }

  // The reference's blob is the firmware's and what is owed for it. Only blobs that the firmware cannot
  // append to are owed anything.
  predicate OwesB(f: Fit, m: BModel, t: BText, o: Debts) {
    && t == BText(m.id, m.key, m.mod, m.prog, t.blobs) && |m.blobs| == |t.blobs| == BLOB_COUNT
    && (forall i: byte :: i < BLOB_COUNT ==>
          && t.blobs[i] == Text(m.blobs[i]) + o[i]
          && (o[i] != "" ==> |m.blobs[i]| >= MAX_BLOB || !Fitted(f, i)))
  }

  predicate Owes(f: Fit, m: Board, t: TextBoard, o: Debts) {
    SameModes(m, t) && t.g == InTextG(m.g) && OwesB(f, m.b, t.b, o)
  }

  lemma StepOwesB(f: Fit, m: BModel, t: BText, o: Debts, k: Keypress)
    requires OwesB(f, m, t, o)
    ensures OwesB(f, ApplyB(f, m, k).next, ApplyBText(t, k).next, OwedNextB(f, m, o, k))
    ensures ApplyB(f, m, k).leave == ApplyBText(t, k).leave
  {
    if m.id < BLOB_COUNT {
      var blob, s := m.blobs[m.id], Stroke(m.key, m.mod);
      assert Text(blob + [s]) == Text(blob) + [FromUsbKeycodes(s)];
      assert Text(blob) + (o[m.id] + [FromUsbKeycodes(s)]) == t.blobs[m.id] + [FromUsbKeycodes(s)];
      assert Text([]) + "" == "" && Text(blob) + "" == Text(blob) && Text(blob + [s]) + "" == Text(blob + [s]);
    }
  }

  // What the two print in the blob layer is the same exactly if nothing printable is owed.
  lemma PrintsSameB(f: Fit, m: BModel, t: BText, o: Debts, k: Keypress)
    requires OwesB(f, m, t, o) && (m.id < BLOB_COUNT && !Fitted(f, m.id) ==> m.blobs[m.id] == [])
    ensures Printed(ApplyB(f, m, k).out) == ApplyBText(t, k).out <==>
              !(k == Z && !m.prog && m.id < BLOB_COUNT && AnyPrintable(o[m.id]))
  {
    assert Printed([]) == [];
    if k == Z && !m.prog && m.id < BLOB_COUNT {
      var blob := m.blobs[m.id];
      PrintingAppend(Text(blob), o[m.id]);
      PrintingSomething(o[m.id]);
      LongerIsOther(Printing(Text(blob)), Printing(o[m.id]));
    }
  }

  lemma LongerIsOther(a: string, b: string)
    ensures a + b == a <==> b == []
  {
    assert |a + b| == |a| + |b|;
    assert a + [] == a;
  }

  // So is what they show if the amount owed is a multiple of 256.
  lemma ShowsSameB(f: Fit, m: Board, t: TextBoard, o: Debts)
    requires Owes(f, m, t, o) && Visible(m)
    ensures VisibleText(t) && (Show(m) == ShowText(t) <==> !ShowsDebt(m, o))
  {
    if m.current == B && !m.b.prog {
      SameByte(|m.b.blobs[m.b.id]|, |o[m.b.id]|);
    }
  }

  lemma SameByte(a: nat, b: nat)
    ensures Low8(a) == Low8(a + b) <==> b % 256 == 0
  {}

  lemma StepOwes(f: Fit, m: Board, t: TextBoard, o: Debts, k: Keypress)
    requires Owes(f, m, t, o)
    ensures Owes(f, Apply(f, m, k).0, ApplyText(t, k).0, OwedNext(f, m, o, k))
  {
    ModesStay(f, m, t, k);
    if m.current == G {
      OwesInG(f, m, t, o, k);
    } else if m.current == B {
      OwesInB(f, m, t, o, k);
    }
  }

  lemma OwesInG(f: Fit, m: Board, t: TextBoard, o: Debts, k: Keypress)
    requires Owes(f, m, t, o) && m.current == G && SameModes(Apply(f, m, k).0, ApplyText(t, k).0)
    ensures Owes(f, Apply(f, m, k).0, ApplyText(t, k).0, o)
  {
    TextStaysG(m.g, k);
  }

  lemma OwesInB(f: Fit, m: Board, t: TextBoard, o: Debts, k: Keypress)
    requires Owes(f, m, t, o) && m.current == B && SameModes(Apply(f, m, k).0, ApplyText(t, k).0)
    ensures Owes(f, Apply(f, m, k).0, ApplyText(t, k).0, OwedNextB(f, m.b, o, k))
  {
    StepOwesB(f, m.b, t.b, o, k);
  }

  // Parting in the word layer changes what is printed and nothing that is stored.
  lemma TextStaysG(m: GModel, k: Keypress)
    requires |m.words| == 256
    ensures ApplyGText(InTextG(m), k).next == InTextG(ApplyG(m, k).next)
  {
    StepAgreesG(m, k);
  }

  // An event is noticed exactly if panels or prints differ after it.
  lemma StepNoticed(f: Fit, m: Board, t: TextBoard, o: Debts, k: Keypress)
    requires Owes(f, m, t, o) && OnlyFittedUsed(f, m) && Visible(Apply(f, m, k).0)
    ensures var ((m', out), (t', text)) := (Apply(f, m, k), ApplyText(t, k));
            VisibleText(t') && (Show(m') == ShowText(t') && Printed(out) == text <==> !Noticed(f, m, o, k))
  {
    StepOwes(f, m, t, o, k);
    ShowsSameB(f, Apply(f, m, k).0, ApplyText(t, k).0, OwedNext(f, m, o, k));
    PrintsSame(f, m, t, o, k);
  }

  lemma PrintsSame(f: Fit, m: Board, t: TextBoard, o: Debts, k: Keypress)
    requires Owes(f, m, t, o) && OnlyFittedUsed(f, m)
    ensures Printed(Apply(f, m, k).1) == ApplyText(t, k).1 <==>
              !(|| (m.current == G && PartsG(m.g, k))
                || (m.current == B && k == Z && !m.b.prog && m.b.id < BLOB_COUNT && AnyPrintable(o[m.b.id])))
  {
    match m.current {
      case DFLT => StepAgreesDflt(m.dflt, k);
      case R => StepAgreesR(m.r, k);
      case G =>
        StepAgreesG(m.g, k);
        TextStaysG(m.g, k);
        ModesStayG(m.g, t.g, k);
      case B => PrintsSameB(f, m.b, t.b, o, k);
    }
  }

  lemma {:induction false} RunOwes(f: Fit, keys: seq<Keypress>)
    ensures Owes(f, After(f, keys), AfterText(keys), Owed(f, keys))
  {
    if keys == [] {
      var none: seq<Stroke> := [];
      assert Text(none) + "" == "";
    } else {
      var n := |keys| - 1;
      RunOwes(f, keys[..n]);
      StepOwes(f, After(f, keys[..n]), AfterText(keys[..n]), Owed(f, keys[..n]), keys[n]);
    }
  }

  // The comparison of an event fails exactly if it lets a difference be seen.
  lemma SameExactly(f: Fit, keys: seq<Keypress>, i: nat)
    requires i < |keys| && Visible(After(f, keys[..i + 1]))
    ensures Same(f, keys, i) <==> !NoticedAt(f, keys, i)
  {
    RunOwes(f, keys[..i]);
    RunInvariant(f, keys[..i]);
    AfterNext(f, keys, i);
    AfterTextNext(keys, i);
    StepNoticed(f, After(f, keys[..i]), AfterText(keys[..i]), Owed(f, keys[..i]), keys[i]);
  }

  // The test passes exactly on the runs on which no event lets a difference be seen.
  lemma PassesExactly(f: Fit, keys: seq<Keypress>)
    requires AlwaysVisible(keys)
    ensures TestPasses(f, keys) <==> NeverNoticed(f, keys)
  {
    forall i: nat | i < |keys| ensures Same(f, keys, i) <==> !NoticedAt(f, keys, i) {
      VisiblePrefix(keys, i + 1);
      ModesAgree(f, keys[..i + 1]);
      SameExactly(f, keys, i);
    }
  }

  // It fails at once wherever the two part in the word layer.
  lemma WordPartingFails(f: Fit, keys: seq<Keypress>, i: nat)
    requires i < |keys|
    requires var m := After(f, keys[..i]); m.current == G && PartsG(m.g, keys[i])
    ensures !Same(f, keys, i)
  {
    if Visible(After(f, keys[..i + 1])) {
      SameExactly(f, keys, i);
    }
  }

  // Where they part in the blob layer, it fails when the blob's length is shown next, unless the blob has
  // been cleared or the difference has come to a multiple of 256.
  lemma BlobPartingFails(f: Fit, keys: seq<Keypress>, i: nat)
    requires i < |keys| && ShowsDebt(After(f, keys[..i + 1]), Owed(f, keys[..i + 1]))
    ensures !Same(f, keys, i)
  {
    AfterNext(f, keys, i);
    OwedAfter(f, keys, i);
    SameExactly(f, keys, i);
  }

  // In the suite's own simulator the comparison fails on a run that programs one pair into a blob of
  // the second device.
  lemma MissingDeviceFails()
    ensures var keys := PROGRAM_MISSING_BLOB; AlwaysVisible(keys) && !TestPasses(FirstEeprom, keys)
  {
    var keys := PROGRAM_MISSING_BLOB;
    MissingDeviceShows();
    assert keys[..|keys|] == keys;
    assert !Same(FirstEeprom, keys, |keys| - 1);
  }

  const AT_MISSING_BLOB := TO_FIRST_MISSING_BLOB + [XY]
  const PROGRAM_AND_CLEAR := AT_MISSING_BLOB + [Z] + [XY]

  // A parting can go unnoticed: cleared before program mode is left, the pair is never seen.
  lemma UnnoticedParting()
    ensures !NeverParts(FirstEeprom, PROGRAM_AND_CLEAR) && TestPasses(FirstEeprom, PROGRAM_AND_CLEAR)
  {
    var keys, n := PROGRAM_AND_CLEAR, |AT_MISSING_BLOB|;
    AtMissingBlob();
    assert keys[..n] == AT_MISSING_BLOB && keys[..n + 2] == keys;
    ClearingHides(keys, n, After(FirstEeprom, AT_MISSING_BLOB));
    forall i: nat | i < n ensures Same(FirstEeprom, keys, i) {
      assert keys[..i + 1] == AT_MISSING_BLOB[..i + 1];
      assert Same(FirstEeprom, AT_MISSING_BLOB, i);
    }
  }

  lemma AtMissingBlob()
    ensures var m := After(FirstEeprom, AT_MISSING_BLOB);
            && m.current == B && m.b.id == 120 && m.b.prog && m.b.blobs[120] == []
            && AfterText(AT_MISSING_BLOB) == InText(m)
    ensures TestPasses(FirstEeprom, AT_MISSING_BLOB) && !NeverParts(FirstEeprom, PROGRAM_AND_CLEAR)
  {
    AtBlob(FirstEeprom, 120);
    OneMore(FirstEeprom, TO_FIRST_MISSING_BLOB, XY);
    OneMore(FirstEeprom, AT_MISSING_BLOB, Z);
    OneMore(FirstEeprom, AT_MISSING_BLOB + [Z], XY);
    RunsAgree(FirstEeprom, AT_MISSING_BLOB);
    NeverPartsPasses(FirstEeprom, AT_MISSING_BLOB);
  }

  lemma ClearingHides(keys: seq<Keypress>, n: nat, m: Board)
    requires |keys| == n + 2 && keys[n] == Z && keys[n + 1] == XY
    requires After(FirstEeprom, keys[..n]) == m && AfterText(keys[..n]) == InText(m)
    requires m.current == B && m.b.id == 120 && m.b.prog && m.b.blobs[120] == []
    ensures Same(FirstEeprom, keys, n) && Same(FirstEeprom, keys, n + 1)
  {
    ProgramAndClear(m, InText(m));
    AfterTextNext(keys, n);
    AfterTextNext(keys, n + 1);
    AfterNext(FirstEeprom, keys, n);
    AfterNext(FirstEeprom, keys, n + 1);
  }

  lemma ProgramAndClear(m: Board, t: TextBoard)
    requires m.current == B && m.b.id == 120 && m.b.prog && m.b.blobs[120] == [] && t == InText(m)
    ensures Parts(FirstEeprom, m, Z) && Apply(FirstEeprom, m, Z) == (m, []) && Apply(FirstEeprom, m, XY) == (m, [])
    ensures var (t', out) := ApplyText(t, Z);
            && out == [] && VisibleText(t') && ShowText(t') == Show(m)
            && ApplyText(t', XY) == (t, [])
    ensures Visible(m) && VisibleText(t) && ShowText(t) == Show(m) && Printed([]) == []
  {
    InTextShows(m);
    assert m.b.blobs[120 := []] == m.b.blobs;
    var t' := ApplyText(t, Z).0;
    assert t'.b.blobs[120 := []] == t.b.blobs;
  }
}
