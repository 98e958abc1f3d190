// What the user manual says of the keys, for the step function: keys X and Y count what the banks show,
// XZ and YZ clear it, Z sends or stores it. Each key is described across all layers and modes, in terms
// of the two banks, and so are whole sequences of presses.
module Manual {
  import opened Bits
  import opened Bytes
  import opened Types
  import opened Layout
  import opened Keycodes
  import opened Reference

  // ---- The two banks ----

  predicate Programming(m: Board) {
    match m.current
    case DFLT => false
    case R => m.r.prog
    case G => m.g.prog
    case B => m.b.prog
  }

  // What key X counts in the current layer and mode.
  function Bank0(m: Board): byte {
    match m.current
    case DFLT => m.dflt.bank0
    case R => if m.r.prog then m.r.chars[m.r.id] else m.r.id
    case G => if m.g.prog then m.g.key else m.g.id
    case B => if m.b.prog then m.b.key else m.b.id
  }

  function WithBank0(m: Board, v: byte): Board {
    match m.current
    case DFLT => m.(dflt := m.dflt.(bank0 := v))
    case R => m.(r := if m.r.prog then m.r.(chars := m.r.chars[m.r.id := v]) else m.r.(id := v))
    case G => m.(g := if m.g.prog then m.g.(key := v) else m.g.(id := v))
    case B => m.(b := if m.b.prog then m.b.(key := v) else m.b.(id := v))
  }

  // Key Y counts something, except while words are programmed and while blobs are sent.
  predicate CountsBank1(m: Board) {
    match m.current
    case DFLT => true
    case R => true
    case G => !m.g.prog
    case B => m.b.prog
  }

  function Bank1(m: Board): byte
    requires CountsBank1(m)
  {
    match m.current
    case DFLT => m.dflt.bank1
    case R => if m.r.prog then m.r.id else m.r.mod
    case G => m.g.wordMod
    case B => m.b.mod
  }

  function WithBank1(m: Board, v: byte): Board
    requires CountsBank1(m)
  {
    match m.current
    case DFLT => m.(dflt := m.dflt.(bank1 := v))
    case R => m.(r := if m.r.prog then m.r.(id := v) else m.r.(mod := v))
    case G => m.(g := m.g.(wordMod := v))
    case B => m.(b := m.b.(mod := v))
  }

  lemma Bank0IsSet(m: Board, v: byte, w: byte)
    ensures Bank0(WithBank0(m, v)) == v && WithBank0(WithBank0(m, v), w) == WithBank0(m, w)
    ensures WithBank0(m, Bank0(m)) == m
  {
    var chars, id := m.r.chars, m.r.id;
    assert chars[id := chars[id]] == chars && chars[id := v][id := w] == chars[id := w];
  }

  lemma Bank1IsSet(m: Board, v: byte, w: byte)
    requires CountsBank1(m)
    ensures CountsBank1(WithBank1(m, v))
    ensures Bank1(WithBank1(m, v)) == v && WithBank1(WithBank1(m, v), w) == WithBank1(m, w)
    ensures WithBank1(m, Bank1(m)) == m
  {}

  // ---- What each key does ----

  function ProgramMode(m: Board, on: bool): Board {
    match m.current
    case DFLT => m
    case R => m.(r := m.r.(prog := on))
    case G => m.(g := m.g.(prog := on))
    case B => m.(b := m.b.(prog := on))
  }

  function WithWord(m: Board, word: seq<byte>): Board { m.(g := m.g.(words := m.g.words[m.g.id := word])) }

  function WithBlob(m: Board, blob: seq<Stroke>): Board {
    if m.b.id < BLOB_COUNT then m.(b := m.b.(blobs := m.b.blobs[m.b.id := blob])) else m
  }

  // The blob can be sent or appended to: there is a slot, and its device is there.
  predicate Usable(f: Fit, m: Board) { m.b.id < BLOB_COUNT && Fitted(f, m.b.id) }

  // Key Z sends what is selected, or stores it in program mode. Programmed characters are stored at once.
  predicate SendsOrStores(f: Fit, m: Board, m': Board, out: seq<Stroke>) {
    match m.current
    case DFLT => m' == m && out == [Stroke(m.dflt.bank0, m.dflt.bank1)]
    case R => m' == m && out == if m.r.prog then [] else [Stroke(m.r.chars[m.r.id], m.r.mod)]
    case G =>
      var word := m.g.words[m.g.id];
      if !m.g.prog then m' == m && out == RenderWord(word, m.g.wordMod)
      else out == [] && m' == if |word| < 15 then WithWord(m, word + [m.g.key]) else m
    case B =>
      if !Usable(f, m) then m' == m && out == []
      else
        var blob := m.b.blobs[m.b.id];
        if !m.b.prog then m' == m && out == blob
        else out == [] && m' == if |blob| < 255 then WithBlob(m, blob + [Stroke(m.b.key, m.b.mod)]) else m
  }

  predicate Does(f: Fit, m: Board, k: Keypress, m': Board, out: seq<Stroke>) {
    match k
    case INACTIVE => m' == m && out == []
    case X => m' == WithBank0(m, (Bank0(m) + 1) % 256) && out == []
    case XZ => m' == WithBank0(m, 0) && out == []
    case Y => m' == (if CountsBank1(m) then WithBank1(m, (Bank1(m) + 1) % 256) else m) && out == []
    case YZ =>
      && m' == (if CountsBank1(m) then WithBank1(m, 0) else if m.current == G then WithWord(m, []) else m)
      && out == []
    case XY => m' == (if m.current == B && m.b.prog then WithBlob(m, []) else ProgramMode(m, true)) && out == []
    case XYZ =>
      && out == []
      && (if Programming(m) then m' == ProgramMode(m, false)
          else m'.current != m.current && m' == m.(current := m'.current)
               && (m.current, m'.current) in {(DFLT, R), (R, G), (G, B), (B, DFLT)})
    case Z => SendsOrStores(f, m, m', out)
  }

  lemma KeyDoes(f: Fit, m: Board, k: Keypress)
    ensures Does(f, m, k, Apply(f, m, k).0, Apply(f, m, k).1)
  {
    match m.current {
      case DFLT => KeyDoesInDflt(f, m, k);
      case R => KeyDoesInR(f, m, k);
      case G => KeyDoesInG(f, m, k);
      case B => KeyDoesInB(f, m, k);
    }
  }

  lemma KeyDoesInDflt(f: Fit, m: Board, k: Keypress)
    requires m.current == DFLT
    ensures Does(f, m, k, Apply(f, m, k).0, Apply(f, m, k).1)
  {}

  lemma KeyDoesInR(f: Fit, m: Board, k: Keypress)
    requires m.current == R
    ensures Does(f, m, k, Apply(f, m, k).0, Apply(f, m, k).1)
  {}

  lemma KeyDoesInG(f: Fit, m: Board, k: Keypress)
    requires m.current == G
    ensures Does(f, m, k, Apply(f, m, k).0, Apply(f, m, k).1)
  {}

  lemma KeyDoesInB(f: Fit, m: Board, k: Keypress)
    requires m.current == B
    ensures Does(f, m, k, Apply(f, m, k).0, Apply(f, m, k).1)
  {}

  // ---- The first two layers, field by field ----

  predicate DfltKeys(m: DfltModel, k: Keypress, m': DfltModel, leave: bool) {
    && m'.bank0 as int == (if k == X then (m.bank0 + 1) % 256 else if k == XZ then 0 else m.bank0)
    && m'.bank1 as int == (if k == Y then (m.bank1 + 1) % 256 else if k == YZ then 0 else m.bank1)
    && (leave <==> k == XYZ)
  }

  function DfltSends(m: DfltModel, k: Keypress): seq<Stroke> {
    if k == Z then [Stroke(m.bank0, m.bank1)] else []
  }

  predicate RKeys(m: RModel, k: Keypress, m': RModel, leave: bool)
    requires |m.chars| == 256
  {
    && m'.id as int == (if k == (if m.prog then Y else X) then (m.id + 1) % 256
                        else if k == (if m.prog then YZ else XZ) then 0 else m.id)
    && m'.mod as int == (if k == Y && !m.prog then (m.mod + 1) % 256 else if k == YZ && !m.prog then 0 else m.mod)
    && (var stored: int := m.chars[m.id];
        var next: byte := (stored + 1) % 256;
        m'.chars == if k == X && m.prog then m.chars[m.id := next] else if k == XZ && m.prog then m.chars[m.id := 0]
                    else m.chars)
    && (m'.prog <==> k == XY || (m.prog && k != XYZ))
    && (leave <==> k == XYZ && !m.prog)
  }

  function RSends(m: RModel, k: Keypress): seq<Stroke>
    requires |m.chars| == 256
  {
    if k == Z && !m.prog then [Stroke(m.chars[m.id], m.mod)] else []
  }

  // That is all there is to a step.
  lemma DfltStepKeys(m: DfltModel, k: Keypress, m': DfltModel, leave: bool)
    ensures var a := ApplyDflt(m, k);
            (DfltKeys(m, k, m', leave) <==> m' == a.next && leave == a.leave) && a.out == DfltSends(m, k)
  {}

  lemma RStepKeys(m: RModel, k: Keypress, m': RModel, leave: bool)
    requires |m.chars| == 256
    ensures var a := ApplyR(m, k);
            (RKeys(m, k, m', leave) <==> m' == a.next && leave == a.leave) && a.out == RSends(m, k)
  {}

  // ---- What the panel shows ----

  // The layer LED, PROG, and the banks. Bank 1 shows what Y counts, but for the length of a word or blob.
  lemma PanelShows(m: Board)
    requires Visible(m) && Capped(m)
    ensures var p := Show(m);
            && (p.r <==> m.current == R) && (p.g <==> m.current == G) && (p.b <==> m.current == B)
            && (p.prog <==> Programming(m)) && p.bank0 == Bank0(m)
            && (m.current != G && CountsBank1(m) ==> p.bank1 == Bank1(m))
            && (m.current == G ==>
                  var length := |m.g.words[m.g.id]|;
                  if m.g.prog then p.bank1 == 16 * length
                  else p.bank1 % 16 == m.g.wordMod % 16 && p.bank1 / 16 == Or(length, m.g.wordMod / 16))
            && (m.current == B && !m.b.prog ==> p.bank1 as int == |m.b.blobs[m.b.id]|)
  {
    if m.current == G && !m.g.prog {
      BankDigits(|m.g.words[m.g.id]|, m.g.wordMod);
    }
  }

  // Key X increments what bank 0 shows, and XZ clears it, wherever there is a panel before and after.
  lemma Bank0Follows(f: Fit, m: Board)
    requires Visible(m) && Capped(m) && OnlyFittedUsed(f, m)
    ensures var m' := Apply(f, m, X).0; Visible(m') ==> Show(m').bank0 == (Show(m).bank0 + 1) % 256
    ensures var m' := Apply(f, m, XZ).0; Visible(m') && Show(m').bank0 == 0
  {
    ShowsBank0(f, m, X, (Bank0(m) + 1) % 256);
    ShowsBank0(f, m, XZ, 0);
    PanelShows(m);
  }

  lemma ShowsBank0(f: Fit, m: Board, k: Keypress, v: byte)
    requires Visible(m) && Capped(m) && OnlyFittedUsed(f, m) && Apply(f, m, k).0 == WithBank0(m, v)
    ensures Visible(Apply(f, m, k).0) ==> Show(Apply(f, m, k).0).bank0 == v
  {
    StepKeepsCaps(f, m, k);
    Bank0IsSet(m, v, v);
    if Visible(Apply(f, m, k).0) {
      PanelShows(Apply(f, m, k).0);
    }
  }

  // Key Y increments what bank 1 shows exactly in the modes that have something to count there; in the
  // word layer also only if the mod code's low digit does not carry into a high digit that the length
  // is seen in.
  lemma Bank1Increments(f: Fit, m: Board)
    requires Visible(m) && Capped(m) && OnlyFittedUsed(f, m)
    ensures var m' := Apply(f, m, Y).0;
            && Visible(m')
            && (Show(m').bank1 == (Show(m).bank1 + 1) % 256 <==>
                  CountsBank1(m) && (m.current == G ==> CarriesWell(|m.g.words[m.g.id]|, m.g.wordMod)))
  {
    var m' := Apply(f, m, Y).0;
    StepKeepsCaps(f, m, Y);
    PanelShows(m);
    PanelShows(m');
    if m.current == G && !m.g.prog {
      WordBankIncrements(|m.g.words[m.g.id]|, m.g.wordMod, Show(m).bank1, Show(m').bank1);
    }
  }

  predicate CarriesWell(length: nat, wordMod: byte) {
    wordMod % 16 == 15 ==> Or(length, (wordMod / 16 + 1) % 16) == (Or(length, wordMod / 16) + 1) % 16
  }

  lemma WordBankIncrements(length: nat, wordMod: byte, bank: byte, bank': byte)
    requires bank % 16 == wordMod % 16 && bank / 16 == Or(length, wordMod / 16)
    requires bank' % 16 == Inc(wordMod) % 16 && bank' / 16 == Or(length, Inc(wordMod) / 16)
    ensures bank' == (bank + 1) % 256 <==> CarriesWell(length, wordMod)
  {
    DigitsOfNext(wordMod);
    DigitsOfNext(bank);
    assert bank' == 16 * (bank' / 16) + bank' % 16;
  }

  // The hexadecimal digits of the next byte.
  lemma DigitsOfNext(b: byte)
    ensures var b' := (b + 1) % 256;
            && b' == Inc(b) && b' == 16 * (b' / 16) + b' % 16
            && b' % 16 == (if b % 16 == 15 then 0 else b % 16 + 1)
            && b' / 16 == (if b % 16 == 15 then (b / 16 + 1) % 16 else b / 16)
  {}

  // YZ makes bank 1 show zero exactly unless it goes on showing the length of a word or blob.
  lemma Bank1Clears(f: Fit, m: Board)
    requires Visible(m) && Capped(m) && OnlyFittedUsed(f, m)
    ensures var m' := Apply(f, m, YZ).0;
            && Visible(m')
            && (Show(m').bank1 == 0 <==>
                  && (m.current == G && !m.g.prog ==> m.g.words[m.g.id] == [])
                  && (m.current == B && !m.b.prog ==> m.b.blobs[m.b.id] == []))
  {
    var m' := Apply(f, m, YZ).0;
    StepKeepsCaps(f, m, YZ);
    PanelShows(m');
    if m.current == G && !m.g.prog {
      var length := |m.g.words[m.g.id]|;
      assert Or(length, 0) == length;
    }
  }

  // ---- Sequences of presses ----

  function Goes(f: Fit, m: Board, keys: seq<Keypress>): Board {
    if keys == [] then m else Apply(f, Goes(f, m, keys[..|keys| - 1]), keys[|keys| - 1]).0
  }

  function Outputs(f: Fit, m: Board, keys: seq<Keypress>): seq<Stroke> {
    if keys == [] then []
    else var n := |keys| - 1; Outputs(f, m, keys[..n]) + Apply(f, Goes(f, m, keys[..n]), keys[n]).1
  }

  // These presses lead from one board to another, and type this.
  predicate Leads(f: Fit, m: Board, keys: seq<Keypress>, m': Board, out: seq<Stroke>) {
    Goes(f, m, keys) == m' && Outputs(f, m, keys) == out
  }

  // From power-on, it is where a run leads and what it types.
  lemma {:induction false} LeadsFromStart(f: Fit, keys: seq<Keypress>)
    ensures Leads(f, Initial(), keys, After(f, keys), AllTyped(f, keys))
  {
    if keys != [] {
      LeadsFromStart(f, keys[..|keys| - 1]);
    }
  }

  lemma LeadsOn(f: Fit, m: Board, keys: seq<Keypress>, m': Board, out: seq<Stroke>, k: Keypress)
    requires Leads(f, m, keys, m', out)
    ensures Leads(f, m, keys + [k], Apply(f, m', k).0, out + Apply(f, m', k).1)
  {
    assert (keys + [k])[..|keys|] == keys;
  }

  lemma LeadsUpTo(f: Fit, m: Board, keys: seq<Keypress>, n: nat)
    requires |keys| == n + 1
    ensures Goes(f, m, keys) == Apply(f, Goes(f, m, keys[..n]), keys[n]).0
    ensures Outputs(f, m, keys) == Outputs(f, m, keys[..n]) + Apply(f, Goes(f, m, keys[..n]), keys[n]).1
  {}

  lemma OneAfterSome(f: Fit, m: Board, a: seq<Keypress>, b: seq<Keypress>, n: nat, before: Board, out: seq<Stroke>,
                     typed: seq<Stroke>)
    requires |b| == n + 1 && Leads(f, m, a + b[..n], before, out + typed)
    ensures Leads(f, m, a + b, Apply(f, before, b[n]).0, out + (typed + Apply(f, before, b[n]).1))
  {
    LeadsOn(f, m, a + b[..n], before, out + typed, b[n]);
    assert a + b == a + b[..n] + [b[n]];
    assert out + (typed + Apply(f, before, b[n]).1) == out + typed + Apply(f, before, b[n]).1;
  }

  // Some presses, and then some others.
  lemma {:induction false} AndThen(f: Fit, m: Board, a: seq<Keypress>, m': Board, out: seq<Stroke>, b: seq<Keypress>,
                                   m'': Board, more: seq<Stroke>)
    requires Leads(f, m, a, m', out) && Leads(f, m', b, m'', more)
    ensures Leads(f, m, a + b, m'', out + more)
  {
    if b == [] {
      assert a + b == a && out + more == out;
    } else {
      var n := |b| - 1;
      var before, typed := Goes(f, m', b[..n]), Outputs(f, m', b[..n]);
      AndThen(f, m, a, m', out, b[..n], before, typed);
      LeadsUpTo(f, m', b, n);
      OneAfterSome(f, m, a, b, n, before, out, typed);
    }
  }

  // Some presses that type nothing, and then some others.
  lemma Then(f: Fit, m: Board, a: seq<Keypress>, m': Board, b: seq<Keypress>, m'': Board, out: seq<Stroke>)
    requires Leads(f, m, a, m', []) && Leads(f, m', b, m'', out)
    ensures Leads(f, m, a + b, m'', out)
  {
    AndThen(f, m, a, m', [], b, m'', out);
    assert [] + out == out;
  }

  // One press does what the manual says of its key.
  lemma Press(f: Fit, m: Board, k: Keypress, m': Board, out: seq<Stroke>)
    requires k in {XYZ, YZ, XY, Z, X, XZ, Y} && Does(f, m, k, m', out)
    requires k == XYZ && !Programming(m) ==> m'.current == NextLayer(m.current)
    ensures Leads(f, m, [k], m', out)
  {
    KeyDoes(f, m, k);
    LeadsOn(f, m, [], m, [], k);
    assert [] + [k] == [k] && [] + out == out;
  }

  lemma OneMore(k: Keypress, bank: byte, n: nat)
    requires n > 0
    ensures Copies(k, n) == Copies(k, n - 1) + [k] && ((bank + n - 1) % 256 + 1) % 256 == (bank + n) % 256
  {}

  // Pressing X n times adds n to bank 0, modulo 256, and does nothing else.
  lemma {:induction false} PressesX(f: Fit, m: Board, n: nat)
    ensures Leads(f, m, Copies(X, n), WithBank0(m, (Bank0(m) + n) % 256), [])
  {
    if n == 0 {
      Bank0IsSet(m, 0, 0);
    } else {
      var v: byte, w: byte := (Bank0(m) + n - 1) % 256, (Bank0(m) + n) % 256;
      PressesX(f, m, n - 1);
      OneMore(X, Bank0(m), n);
      OneMoreX(f, m, Copies(X, n - 1), v, w);
    }
  }

  lemma OneMoreX(f: Fit, m: Board, keys: seq<Keypress>, v: byte, w: byte)
    requires Leads(f, m, keys, WithBank0(m, v), []) && w == (v + 1) % 256
    ensures Leads(f, m, keys + [X], WithBank0(m, w), [])
  {
    Bank0IsSet(m, v, w);
    Press(f, WithBank0(m, v), X, WithBank0(m, w), []);
    Then(f, m, keys, WithBank0(m, v), [X], WithBank0(m, w), []);
  }

  // Pressing Y n times does the same to bank 1, where Y counts.
  lemma {:induction false} PressesY(f: Fit, m: Board, n: nat)
    requires CountsBank1(m)
    ensures Leads(f, m, Copies(Y, n), WithBank1(m, (Bank1(m) + n) % 256), [])
  {
    if n == 0 {
      Bank1IsSet(m, 0, 0);
    } else {
      var v: byte, w: byte := (Bank1(m) + n - 1) % 256, (Bank1(m) + n) % 256;
      PressesY(f, m, n - 1);
      OneMore(Y, Bank1(m), n);
      OneMoreY(f, m, Copies(Y, n - 1), v, w);
    }
  }

  lemma OneMoreY(f: Fit, m: Board, keys: seq<Keypress>, v: byte, w: byte)
    requires CountsBank1(m) && Leads(f, m, keys, WithBank1(m, v), []) && w == (v + 1) % 256
    ensures Leads(f, m, keys + [Y], WithBank1(m, w), [])
  {
    Bank1IsSet(m, v, w);
    Press(f, WithBank1(m, v), Y, WithBank1(m, w), []);
    Then(f, m, keys, WithBank1(m, v), [Y], WithBank1(m, w), []);
  }

  // Setting a bank from scratch.
  function Dial0(v: byte): seq<Keypress> { [XZ] + Copies(X, v) }

  function Dial1(v: byte): seq<Keypress> { [YZ] + Copies(Y, v) }

  lemma Dials0(f: Fit, m: Board, v: byte)
    ensures Leads(f, m, Dial0(v), WithBank0(m, v), [])
  {
    var m0 := WithBank0(m, 0);
    Press(f, m, XZ, m0, []);
    Bank0IsSet(m, 0, v);
    PressesX(f, m0, v);
    Then(f, m, [XZ], m0, Copies(X, v), WithBank0(m, v), []);
  }

  lemma Dials1(f: Fit, m: Board, v: byte)
    requires CountsBank1(m)
    ensures Leads(f, m, Dial1(v), WithBank1(m, v), [])
  {
    var m0 := WithBank1(m, 0);
    Press(f, m, YZ, m0, []);
    Bank1IsSet(m, 0, v);
    PressesY(f, m0, v);
    Then(f, m, [YZ], m0, Copies(Y, v), WithBank1(m, v), []);
  }

  lemma DialsBoth(f: Fit, m: Board, v: byte, w: byte)
    requires CountsBank1(WithBank0(m, v))
    ensures Leads(f, m, Dial0(v) + Dial1(w), WithBank1(WithBank0(m, v), w), [])
  {
    Dials0(f, m, v);
    Dials1(f, WithBank0(m, v), w);
    Then(f, m, Dial0(v), WithBank0(m, v), Dial1(w), WithBank1(WithBank0(m, v), w), []);
  }

  // ---- What the layers are for ----

  // In the default layer a key code and a modifier are dialled and sent.
  lemma TypesCharacter(f: Fit, m: Board, key: byte, mod: byte)
    requires m.current == DFLT
    ensures Leads(f, m, Dial0(key) + Dial1(mod) + [Z], m.(dflt := DfltModel(key, mod)), [Stroke(key, mod)])
  {
    var m' := m.(dflt := DfltModel(key, mod));
    DialsBoth(f, m, key, mod);
    Press(f, m', Z, m', [Stroke(key, mod)]);
    Then(f, m, Dial0(key) + Dial1(mod), m', [Z], m', [Stroke(key, mod)]);
  }

  // In layer R a character is stored under an id. No other one changes.
  lemma StoresCharacter(f: Fit, m: Board, id: byte, key: byte)
    requires m.current == R && !m.r.prog
    ensures Leads(f, m, Dial0(id) + [XY] + Dial0(key) + [XYZ],
                  m.(r := m.r.(id := id, chars := m.r.chars[id := key])), [])
  {
    var m1 := m.(r := m.r.(id := id));
    var m2 := m1.(r := m1.r.(prog := true));
    var m3 := m2.(r := m2.r.(chars := m.r.chars[id := key]));
    var m4 := m3.(r := m3.r.(prog := false));
    Dials0(f, m, id);
    Press(f, m1, XY, m2, []);
    Then(f, m, Dial0(id), m1, [XY], m2, []);
    Dials0(f, m2, key);
    Then(f, m, Dial0(id) + [XY], m2, Dial0(key), m3, []);
    Press(f, m3, XYZ, m4, []);
    Then(f, m, Dial0(id) + [XY] + Dial0(key), m3, [XYZ], m4, []);
  }

  // The character stored under an id is sent under any modifier.
  lemma SendsCharacter(f: Fit, m: Board, id: byte, mod: byte)
    requires m.current == R && !m.r.prog
    ensures Leads(f, m, Dial0(id) + Dial1(mod) + [Z], m.(r := m.r.(id := id, mod := mod)),
                  [Stroke(m.r.chars[id], mod)])
  {
    var m' := m.(r := m.r.(id := id, mod := mod));
    DialsBoth(f, m, id, mod);
    Press(f, m', Z, m', [Stroke(m.r.chars[id], mod)]);
    Then(f, m, Dial0(id) + Dial1(mod), m', [Z], m', [Stroke(m.r.chars[id], mod)]);
  }

  function LastOf<T>(s: seq<T>, none: T): T { if s == [] then none else s[|s| - 1] }

  // Key by key, a word.
  function Spell(word: seq<byte>): seq<Keypress> {
    if word == [] then []
    else var n := |word| - 1; Spell(word[..n]) + (Dial0(word[n]) + [Z])
  }

  // The board when that much of a word has been appended.
  function Spelt(m: Board, word: seq<byte>): Board {
    m.(g := m.g.(words := m.g.words[m.g.id := word], key := LastOf(word, m.g.key)))
  }

  lemma {:induction false} Spells(f: Fit, m: Board, word: seq<byte>)
    requires m.current == G && m.g.prog && m.g.words[m.g.id] == [] && |word| <= 15
    ensures Leads(f, m, Spell(word), Spelt(m, word), [])
  {
    if word == [] {
      assert m.g.words[m.g.id := []] == m.g.words;
    } else {
      var n := |word| - 1;
      Spells(f, m, word[..n]);
      SpellsOneMore(f, m, word[..n], word[n]);
      assert word[..n] + [word[n]] == word;
      Then(f, m, Spell(word[..n]), Spelt(m, word[..n]), Dial0(word[n]) + [Z], Spelt(m, word), []);
    }
  }

  lemma SpellsOneMore(f: Fit, m: Board, word: seq<byte>, key: byte)
    requires m.current == G && m.g.prog && |word| < 15
    ensures Leads(f, Spelt(m, word), Dial0(key) + [Z], Spelt(m, word + [key]), [])
  {
    var m1 := Spelt(m, word);
    var m2, m3 := WithBank0(m1, key), Spelt(m, word + [key]);
    Dials0(f, m1, key);
    assert m.g.words[m.g.id := word][m.g.id := word + [key]] == m.g.words[m.g.id := word + [key]];
    Press(f, m2, Z, m3, []);
    Then(f, m1, Dial0(key), m2, [Z], m3, []);
  }

  lemma ClearsWord(f: Fit, m: Board, id: byte)
    requires m.current == G && !m.g.prog
    ensures Leads(f, m, Dial0(id) + [XY] + [YZ],
                  m.(g := m.g.(id := id, prog := true, words := m.g.words[id := []])), [])
  {
    var m1 := m.(g := m.g.(id := id));
    var m2 := m1.(g := m1.g.(prog := true));
    var m3 := WithWord(m2, []);
    Dials0(f, m, id);
    Press(f, m1, XY, m2, []);
    Then(f, m, Dial0(id), m1, [XY], m2, []);
    Press(f, m2, YZ, m3, []);
    Then(f, m, Dial0(id) + [XY], m2, [YZ], m3, []);
  }

  // In layer G a word of up to 15 keys is stored under an id. No other one changes.
  lemma StoresWord(f: Fit, m: Board, id: byte, word: seq<byte>)
    requires m.current == G && !m.g.prog && |word| <= 15
    ensures Leads(f, m, Dial0(id) + [XY] + [YZ] + Spell(word) + [XYZ],
                  m.(g := m.g.(id := id, key := LastOf(word, m.g.key), words := m.g.words[id := word])), [])
  {
    var m1 := m.(g := m.g.(id := id, prog := true, words := m.g.words[id := []]));
    var m2 := Spelt(m1, word);
    ClearsWord(f, m, id);
    Spells(f, m1, word);
    Then(f, m, Dial0(id) + [XY] + [YZ], m1, Spell(word), m2, []);
    assert m.g.words[id := []][id := word] == m.g.words[id := word];
    LeavesProgramMode(f, m, Dial0(id) + [XY] + [YZ] + Spell(word), m2);
  }

  lemma LeavesProgramMode(f: Fit, m: Board, keys: seq<Keypress>, m': Board)
    requires Leads(f, m, keys, m', []) && Programming(m')
    ensures Leads(f, m, keys + [XYZ], ProgramMode(m', false), [])
  {
    Press(f, m', XYZ, ProgramMode(m', false), []);
    Then(f, m, keys, m', [XYZ], ProgramMode(m', false), []);
  }

  // The word stored under an id is sent under any mod code.
  lemma SendsWord(f: Fit, m: Board, id: byte, mod: byte)
    requires m.current == G && !m.g.prog
    ensures Leads(f, m, Dial0(id) + Dial1(mod) + [Z], m.(g := m.g.(id := id, wordMod := mod)),
                  RenderWord(m.g.words[id], mod))
  {
    var m' := m.(g := m.g.(id := id, wordMod := mod));
    DialsBoth(f, m, id, mod);
    Press(f, m', Z, m', RenderWord(m.g.words[id], mod));
    Then(f, m, Dial0(id) + Dial1(mod), m', [Z], m', RenderWord(m.g.words[id], mod));
  }

  // What the mod codes do to the text of a word, as the manual lists them: 1 is upper case, 2 a capital, and
  // 3 to 5 append a period, a comma and a hyphen.
  lemma ModCodesPrint(word: seq<byte>, mod: byte)
    requires word != []
    ensures mod == 1 ==> RenderWord(word, mod) == Shifted(word)
    ensures mod == 2 ==> RenderWord(word, mod) == Shifted(word[..1]) + Plain(word[1..])
    ensures mod == 3 ==> Printed(RenderWord(word, mod)) == Printed(Plain(word)) + "."
    ensures mod == 4 ==> Printed(RenderWord(word, mod)) == Printed(Plain(word)) + ","
    ensures mod == 5 ==> Printed(RenderWord(word, mod)) == Printed(Plain(word)) + "-"
    ensures mod == 0 || mod > 5 ==> RenderWord(word, mod) == Plain(word)
  {
    if 3 <= mod <= 5 {
      var key := if mod == 3 then 0x37 else if mod == 4 then 0x36 else 0x2d;
      PrintedAppend(Plain(word), [Stroke(key, 0)]);
      PrintedOne(Stroke(key, 0));
    }
  }

  // Pair by pair, a blob.
  function SpellPairs(blob: seq<Stroke>): seq<Keypress> {
    if blob == [] then []
    else var n := |blob| - 1; SpellPairs(blob[..n]) + (Dial0(blob[n].key) + Dial1(blob[n].mod) + [Z])
  }

  function SpeltPairs(m: Board, blob: seq<Stroke>): Board
    requires m.b.id < BLOB_COUNT
  {
    var last := LastOf(blob, Stroke(m.b.key, m.b.mod));
    m.(b := m.b.(blobs := m.b.blobs[m.b.id := blob], key := last.key, mod := last.mod))
  }

  lemma {:induction false} SpellsPairs(f: Fit, m: Board, blob: seq<Stroke>)
    requires m.current == B && m.b.prog && Usable(f, m) && m.b.blobs[m.b.id] == [] && |blob| <= 255
    ensures Leads(f, m, SpellPairs(blob), SpeltPairs(m, blob), [])
  {
    if blob == [] {
      assert m.b.blobs[m.b.id := []] == m.b.blobs;
    } else {
      var n := |blob| - 1;
      SpellsPairs(f, m, blob[..n]);
      SpellsOnePair(f, m, blob[..n], blob[n]);
      assert blob[..n] + [blob[n]] == blob;
      Then(f, m, SpellPairs(blob[..n]), SpeltPairs(m, blob[..n]), Dial0(blob[n].key) + Dial1(blob[n].mod) + [Z],
           SpeltPairs(m, blob), []);
    }
  }

  lemma SpellsOnePair(f: Fit, m: Board, blob: seq<Stroke>, s: Stroke)
    requires m.current == B && m.b.prog && Usable(f, m) && |blob| < 255
    ensures Leads(f, SpeltPairs(m, blob), Dial0(s.key) + Dial1(s.mod) + [Z], SpeltPairs(m, blob + [s]), [])
  {
    var m1 := SpeltPairs(m, blob);
    var m2, m3 := WithBank1(WithBank0(m1, s.key), s.mod), SpeltPairs(m, blob + [s]);
    DialsBoth(f, m1, s.key, s.mod);
    assert m.b.blobs[m.b.id := blob][m.b.id := blob + [s]] == m.b.blobs[m.b.id := blob + [s]];
    Press(f, m2, Z, m3, []);
    Then(f, m1, Dial0(s.key) + Dial1(s.mod), m2, [Z], m3, []);
  }

  lemma ClearsBlob(f: Fit, m: Board, id: byte)
    requires m.current == B && !m.b.prog && id < BLOB_COUNT
    ensures Leads(f, m, Dial0(id) + [XY] + [XY],
                  m.(b := m.b.(id := id, prog := true, blobs := m.b.blobs[id := []])), [])
  {
    var m1 := m.(b := m.b.(id := id));
    var m2 := m1.(b := m1.b.(prog := true));
    var m3 := WithBlob(m2, []);
    Dials0(f, m, id);
    Press(f, m1, XY, m2, []);
    Then(f, m, Dial0(id), m1, [XY], m2, []);
    Press(f, m2, XY, m3, []);
    Then(f, m, Dial0(id) + [XY], m2, [XY], m3, []);
  }

  lemma BlobSet(blobs: seq<seq<Stroke>>, id: nat, blob: seq<Stroke>)
    requires id < |blobs|
    ensures blobs[id := []][id := blob] == blobs[id := blob]
  {}

  // In layer B a blob of up to 255 pairs is stored under an id whose device is there. No other one changes.
  lemma StoresBlob(f: Fit, m: Board, id: byte, blob: seq<Stroke>)
    requires m.current == B && !m.b.prog && id < BLOB_COUNT && Fitted(f, id) && |blob| <= 255
    ensures var last := LastOf(blob, Stroke(m.b.key, m.b.mod));
            Leads(f, m, Dial0(id) + [XY] + [XY] + SpellPairs(blob) + [XYZ],
                  m.(b := BModel(id, last.key, last.mod, false, m.b.blobs[id := blob])), [])
  {
    var m1 := m.(b := m.b.(id := id, prog := true, blobs := m.b.blobs[id := []]));
    var m2 := SpeltPairs(m1, blob);
    ClearsBlob(f, m, id);
    SpellsPairs(f, m1, blob);
    Then(f, m, Dial0(id) + [XY] + [XY], m1, SpellPairs(blob), m2, []);
    BlobSet(m.b.blobs, id, blob);
    LeavesProgramMode(f, m, Dial0(id) + [XY] + [XY] + SpellPairs(blob), m2);
  }

  lemma SendsBlob(f: Fit, m: Board, id: byte)
    requires m.current == B && !m.b.prog && id < BLOB_COUNT && Fitted(f, id)
    ensures Leads(f, m, Dial0(id) + [Z], m.(b := m.b.(id := id)), m.b.blobs[id])
  {
    var m' := m.(b := m.b.(id := id));
    Dials0(f, m, id);
    Press(f, m', Z, m', m.b.blobs[id]);
    Then(f, m, Dial0(id), m', [Z], m', m.b.blobs[id]);
  }

  // ---- Examples ----

  // The manual's first example, from power-on, types "Hello".
  const TYPE_H := Copies(X, 11) + Copies(Y, 2) + [Z]
  const TYPE_E := [XZ] + [YZ] + Copies(X, 8) + [Z]
  const TYPE_HELLO := TYPE_HEL + [Z] + (Copies(X, 3) + [Z])

  const HELLO := [Stroke(11, SHIFT)] + [Stroke(8, 0)] + [Stroke(15, 0)] + [Stroke(15, 0)] + [Stroke(18, 0)]

  function Dialled(bank0: byte, bank1: byte): Board { Initial().(dflt := DfltModel(bank0, bank1)) }

  lemma CountsAndSends(f: Fit, bank0: byte, bank1: byte, n: nat)
    requires bank0 + n < 256
    ensures Leads(f, Dialled(bank0, bank1), Copies(X, n) + [Z], Dialled(bank0 + n, bank1), [Stroke(bank0 + n, bank1)])
  {
    var m, m' := Dialled(bank0, bank1), Dialled(bank0 + n, bank1);
    PressesX(f, m, n);
    Press(f, m', Z, m', [Stroke(bank0 + n, bank1)]);
    Then(f, m, Copies(X, n), m', [Z], m', [Stroke(bank0 + n, bank1)]);
  }

  lemma TypesH(f: Fit)
    ensures Leads(f, Initial(), TYPE_H, Dialled(11, 2), [Stroke(11, SHIFT)])
  {
    PressesX(f, Initial(), 11);
    PressesY(f, Dialled(11, 0), 2);
    Then(f, Initial(), Copies(X, 11), Dialled(11, 0), Copies(Y, 2), Dialled(11, 2), []);
    Press(f, Dialled(11, 2), Z, Dialled(11, 2), [Stroke(11, SHIFT)]);
    Then(f, Initial(), Copies(X, 11) + Copies(Y, 2), Dialled(11, 2), [Z], Dialled(11, 2), [Stroke(11, SHIFT)]);
  }

  lemma TypesE(f: Fit)
    ensures Leads(f, Dialled(11, 2), TYPE_E, Dialled(8, 0), [Stroke(8, 0)])
  {
    var m := Dialled(11, 2);
    Press(f, m, XZ, Dialled(0, 2), []);
    Press(f, Dialled(0, 2), YZ, Dialled(0, 0), []);
    Then(f, m, [XZ], Dialled(0, 2), [YZ], Dialled(0, 0), []);
    CountsAndSends(f, 0, 0, 8);
    Then(f, m, [XZ] + [YZ], Dialled(0, 0), Copies(X, 8) + [Z], Dialled(8, 0), [Stroke(8, 0)]);
    assert [XZ] + [YZ] + Copies(X, 8) + [Z] == [XZ] + [YZ] + (Copies(X, 8) + [Z]);
  }

  const TYPE_HEL := TYPE_H + TYPE_E + (Copies(X, 7) + [Z])

  lemma TypesHel(f: Fit)
    ensures Leads(f, Initial(), TYPE_HEL, Dialled(15, 0), HELLO[..3])
  {
    TypesH(f);
    TypesE(f);
    AndThen(f, Initial(), TYPE_H, Dialled(11, 2), HELLO[..1], TYPE_E, Dialled(8, 0), [Stroke(8, 0)]);
    CountsAndSends(f, 8, 0, 7);
    AndThen(f, Initial(), TYPE_H + TYPE_E, Dialled(8, 0), HELLO[..2], Copies(X, 7) + [Z], Dialled(15, 0),
            [Stroke(15, 0)]);
  }

  lemma TypesHello(f: Fit)
    ensures AllTyped(f, TYPE_HELLO) == HELLO && Printed(HELLO) == "Hello"
  {
    TypesHel(f);
    Press(f, Dialled(15, 0), Z, Dialled(15, 0), [Stroke(15, 0)]);
    AndThen(f, Initial(), TYPE_HEL, Dialled(15, 0), HELLO[..3], [Z], Dialled(15, 0), [Stroke(15, 0)]);
    CountsAndSends(f, 15, 0, 3);
    AndThen(f, Initial(), TYPE_HEL + [Z], Dialled(15, 0), HELLO[..4], Copies(X, 3) + [Z], Dialled(18, 0),
            [Stroke(18, 0)]);
    LeadsFromStart(f, TYPE_HELLO);
    HelloPrints();
  }

  lemma HelloPrints()
    ensures Printed(HELLO) == "Hello"
  {
    assert Text(HELLO) == "Hello";
    PrintingAll("Hello");
  }

  // The manual's word example expects mod code 1 to type "Hello"; it types "HELLO", and 2 types "Hello".
  lemma UpperCaseHello()
    ensures Printed(RenderWord([11, 8, 15, 15, 18], 1)) == "HELLO"
    ensures Printed(RenderWord([11, 8, 15, 15, 18], 2)) == "Hello"
  {
    assert RenderWord([11, 8, 15, 15, 18], 2) == HELLO;
    HelloPrints();
    assert Text(RenderWord([11, 8, 15, 15, 18], 1)) == "HELLO";
    PrintingAll("HELLO");
  }
}
