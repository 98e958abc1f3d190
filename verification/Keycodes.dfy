// Characters and USB key codes, as the simulator maps them in either direction.
module Keycodes {
  import opened Bytes
  import opened Types

  predicate IsLower(c: char) { 'a' <= c <= 'z' }

  predicate IsUpper(c: char) { 'A' <= c <= 'Z' }

  predicate IsDigit(c: char) { '0' <= c <= '9' }

  predicate IsSpace(c: char) { c == ' ' || 9 <= c as int <= 13 }

  predicate IsPunct(c: char) {
    '!' <= c <= '/' || ':' <= c <= '@' || '[' <= c <= '`' || '{' <= c <= '~'
  }

  function PunctuationCode(c: char): Stroke {
    match c
    case '!' => Stroke(0x1e, 2)
    case '@' => Stroke(0x1f, 2)
    case '#' => Stroke(0x20, 2)
    case '$' => Stroke(0x21, 2)
    case '%' => Stroke(0x22, 2)
    case '^' => Stroke(0x23, 2)
    case '&' => Stroke(0x24, 2)
    case '*' => Stroke(0x26, 2)
    case '(' => Stroke(0x27, 2)
    case ')' => Stroke(0x28, 2)
    case '-' => Stroke(0x2d, 0)
    case '_' => Stroke(0x2d, 2)
    case '=' => Stroke(0x2e, 0)
    case '+' => Stroke(0x2e, 2)
    case ',' => Stroke(0x36, 2)
    case '.' => Stroke(0x37, 2)
    case _ => Stroke(0, 2)
  }

  function ToUsbKeycodes(c: char): Stroke {
    if IsLower(c) then Stroke(c as int - 'a' as int + 4, 0)
    else if IsUpper(c) then Stroke(c as int - 'A' as int + 4, 2)
    else if IsDigit(c) then Stroke(c as int - '0' as int + 0x1e, 0)
    else if IsSpace(c) then Stroke(0x2c, 0)
    else if IsPunct(c) then PunctuationCode(c)
    else Stroke(0, 0)
  }

  function ShiftedDigit(key: byte): char {
    match key
    case 0x1e => '!'
    case 0x1f => '@'
    case 0x20 => '#'
    case 0x21 => '$'
    case 0x22 => '%'
    case 0x23 => '^'
    case 0x24 => '&'
    case 0x25 => '*'
    case 0x26 => '('
    case _ => ')'
  }

  // Zero stands for no character.
  const NUL: char := 0 as char

  function FromUsbKeycodes(s: Stroke): char {
    var shift := TestBit(s.mod, 2);
    if 0x04 <= s.key <= 0x1d then (s.key - 4 + if shift then 'A' as int else 'a' as int) as char
    else if 0x1e <= s.key <= 0x27 then
      if shift then ShiftedDigit(s.key)
      else if s.key == 0x27 then '0' else (s.key - 0x1e + '1' as int) as char
    else if s.key == 0x2c then ' '
    else if s.key == 0x2d then (if shift then '_' else '-')
    else if s.key == 0x2e then (if shift then '+' else '=')
    else if s.key == 0x36 then ','
    else if s.key == 0x37 then '.'
    else NUL
  }

  // ---- The two tables, key by key ----

  const LETTERS := "abcdefghijklmnopqrstuvwxyz"
  const CAPITALS := "ABCDEFGHIJKLMNOPQRSTUVWXYZ"
  const DIGITS := "1234567890"
  const OVER_DIGITS := "!@#$%^&*()"

  lemma LetterKeys(i: nat)
    requires i < 26
    ensures LETTERS[i] as int == 'a' as int + i && CAPITALS[i] as int == 'A' as int + i
  {}

  // What every key types without and with shift, which is bit 1 of the modifier. The other bits change
  // nothing.
  lemma KeysType(s: Stroke)
    ensures var c, key, shift := FromUsbKeycodes(s), s.key, (s.mod / 2) % 2 == 1;
            && (0x04 <= key < 0x1e ==> c == if shift then CAPITALS[key - 0x04] else LETTERS[key - 0x04])
            && (0x1e <= key < 0x28 ==> c == if shift then OVER_DIGITS[key - 0x1e] else DIGITS[key - 0x1e])
            && (key == 0x2c ==> c == ' ')
            && (key == 0x2d ==> c == if shift then '_' else '-')
            && (key == 0x2e ==> c == if shift then '+' else '=')
            && (key == 0x36 ==> c == ',')
            && (key == 0x37 ==> c == '.')
            && (key < 0x04 || 0x28 <= key < 0x2c || 0x2f <= key < 0x36 || key > 0x37 ==> c == NUL)
  {
    if 0x04 <= s.key < 0x1e {
      LetterKeys(s.key - 0x04);
    }
  }

  // The key and modifier of every character: letters, digits, and white space.
  lemma LetterCodes(i: nat)
    requires i < 26
    ensures ToUsbKeycodes(LETTERS[i]) == Stroke(0x04 + i, 0) && ToUsbKeycodes(CAPITALS[i]) == Stroke(0x04 + i, SHIFT)
  {
    LetterKeys(i);
  }

  // Digits are counted from the key of '1'.
  lemma DigitCodes(i: nat)
    requires i < 10
    ensures ToUsbKeycodes("0123456789"[i]) == Stroke(0x1e + i, 0)
  {}

  // '*', '(' and ')' are one key too high; ',' and '.' come with shift, which changes nothing.
  lemma PunctuationCodes(i: nat)
    ensures i < 7 ==> ToUsbKeycodes("!@#$%^&"[i]) == Stroke(0x1e + i, SHIFT)
    ensures i < 3 ==> ToUsbKeycodes("*()"[i]) == Stroke(0x26 + i, SHIFT)
    ensures i < 2 ==> ToUsbKeycodes("-="[i]) == Stroke(0x2d + i, 0)
    ensures i < 2 ==> ToUsbKeycodes("_+"[i]) == Stroke(0x2d + i, SHIFT)
    ensures i < 2 ==> ToUsbKeycodes(",."[i]) == Stroke(0x36 + i, SHIFT)
  {}

  // Other punctuation has shift and no key, and what is left has neither.
  lemma OtherCodes(c: char, i: nat)
    ensures c == ' ' || 9 <= c as int <= 13 ==> ToUsbKeycodes(c) == Stroke(0x2c, 0)
    ensures i < 16 ==> ToUsbKeycodes("\"'/:;<>?[\\]`{|}~"[i]) == Stroke(0, SHIFT)
    ensures (c < ' ' && !(9 <= c as int <= 13)) || c > '~' ==> ToUsbKeycodes(c) == Stroke(0, 0)
  {}

  // ---- What a host prints ----

  predicate Printable(c: char) { ' ' <= c <= '~' }

  // The characters that are typed at all can be printed.
  lemma TypedIsPrintable(s: Stroke)
    ensures Printable(FromUsbKeycodes(s)) <==> FromUsbKeycodes(s) != NUL
  {}

  function ToUpper(c: char): char { if IsLower(c) then (c as int - 'a' as int + 'A' as int) as char else c }

  // The characters of a text that can be printed.
  function Printing(text: string): string {
    if text == [] then [] else (if Printable(text[0]) then [text[0]] else []) + Printing(text[1..])
  }

  lemma {:induction false} PrintingAppend(a: string, b: string)
    ensures Printing(a + b) == Printing(a) + Printing(b)
  {
    if a == [] {
      assert a + b == b;
    } else {
      var head := if Printable(a[0]) then [a[0]] else [];
      assert (a + b)[1..] == a[1..] + b && (a + b)[0] == a[0];
      PrintingAppend(a[1..], b);
      assert head + (Printing(a[1..]) + Printing(b)) == head + Printing(a[1..]) + Printing(b);
    }
  }

  lemma {:induction false} PrintingAll(text: string)
    requires forall i :: 0 <= i < |text| ==> Printable(text[i])
    ensures Printing(text) == text
  {
    if text != [] {
      PrintingAll(text[1..]);
      assert [text[0]] + text[1..] == text;
    }
  }

  // Two texts with the same unprintable characters in the same places print the same only if they
  // are the same.
  lemma {:induction false} PrintingIsFaithful(a: string, b: string)
    requires |a| == |b|
    requires forall i :: 0 <= i < |a| ==> Printable(a[i]) == Printable(b[i]) && (Printable(a[i]) || a[i] == b[i])
    ensures Printing(a) == Printing(b) <==> a == b
  {
    if a != [] {
      PrintingIsFaithful(a[1..], b[1..]);
      assert a == b <==> a[0] == b[0] && a[1..] == b[1..] by {
        assert a == [a[0]] + a[1..] && b == [b[0]] + b[1..];
      }
      if Printable(a[0]) {
        var pa, pb := Printing(a), Printing(b);
        assert pa == [a[0]] + Printing(a[1..]) && pb == [b[0]] + Printing(b[1..]);
        assert pa[0] == a[0] && pb[0] == b[0] && pa[1..] == Printing(a[1..]) && pb[1..] == Printing(b[1..]);
      } else {
        assert Printing(a) == [] + Printing(a[1..]) == Printing(a[1..]);
        assert Printing(b) == [] + Printing(b[1..]) == Printing(b[1..]);
      }
    }
  }

  function Text(strokes: seq<Stroke>): (text: string)
    ensures |text| == |strokes|
  {
    seq(|strokes|, i requires 0 <= i < |strokes| => FromUsbKeycodes(strokes[i]))
  }

  function Printed(strokes: seq<Stroke>): string { Printing(Text(strokes)) }

  lemma PrintedAppend(a: seq<Stroke>, b: seq<Stroke>)
    ensures Printed(a + b) == Printed(a) + Printed(b)
  {
    assert Text(a + b) == Text(a) + Text(b);
    PrintingAppend(Text(a), Text(b));
  }

  lemma PrintedOne(s: Stroke)
    ensures Printed([s]) == if Printable(FromUsbKeycodes(s)) then [FromUsbKeycodes(s)] else []
  {
    var c := FromUsbKeycodes(s);
    assert Text([s]) == [c] && [c][1..] == [];
    assert Printing([c]) == (if Printable(c) then [c] else []) + [];
  }

  // The reports that the host drops would have printed nothing.
  lemma {:induction false} PrintedShown(strokes: seq<Stroke>)
    ensures Printed(Shown(strokes)) == Printed(strokes)
  {
    if strokes != [] {
      var first, rest := [strokes[0]], strokes[1..];
      assert strokes == first + rest;
      PrintedShown(rest);
      PrintedAppend(first, rest);
      PrintedAppend(first, Shown(rest));
      PrintedOne(strokes[0]);
    }
  }

  // The keys that type another character with shift than the upper case of what they type without:
  // digits, '-' and '='.
  predicate ShiftMatters(key: byte) {
    0x1e <= key <= 0x27 || key == 0x2d || key == 0x2e
  }

  lemma ShiftExactly(key: byte)
    ensures var plain, shifted := FromUsbKeycodes(Stroke(key, 0)), FromUsbKeycodes(Stroke(key, SHIFT));
            && (shifted == ToUpper(plain) <==> !ShiftMatters(key))
            && Printable(shifted) == Printable(ToUpper(plain)) == Printable(plain)
            && (Printable(plain) || shifted == ToUpper(plain) == NUL)
  {}

  // The characters that survive the round trip. Digits do not: each comes back as the next one.
  predicate Preserved(c: char) {
    IsLower(c) || IsUpper(c) || c == ' ' || c == NUL
    || c in {'!', '@', '#', '$', '%', '^', '&', '-', '_', '=', '+', ',', '.'}
  }

  lemma RoundTripExactly(c: char)
    ensures FromUsbKeycodes(ToUsbKeycodes(c)) == c <==> Preserved(c)
  {
    if IsPunct(c) && !IsSpace(c) {
      PunctuationRoundTrip(c);
    }
  }

  lemma PunctuationRoundTrip(c: char)
    requires IsPunct(c)
    ensures FromUsbKeycodes(PunctuationCode(c)) == c <==> Preserved(c)
  {}

  function ToLower(c: char): char { if IsUpper(c) then (c as int - 'A' as int + 'a' as int) as char else c }

  // What is left of a character if only its key is stored.
  predicate PreservedWithoutShift(c: char) {
    IsLower(c) || IsUpper(c) || c in {' ', NUL, '-', '=', ',', '.'}
  }

  // Its key alone types a character's lower case exactly for these.
  lemma KeyAloneExactly(c: char)
    ensures FromUsbKeycodes(Stroke(ToUsbKeycodes(c).key, 0)) == ToLower(c) <==> PreservedWithoutShift(c)
  {
    if IsPunct(c) && !IsSpace(c) {
      PunctuationAlone(c);
    }
  }

  lemma PunctuationAlone(c: char)
    requires IsPunct(c)
    ensures FromUsbKeycodes(Stroke(PunctuationCode(c).key, 0)) == c <==> PreservedWithoutShift(c)
  {}

  lemma DigitsRotate(c: char)
    requires IsDigit(c)
    ensures FromUsbKeycodes(ToUsbKeycodes(c)) == if c == '9' then '0' else (c as int + 1) as char
  {}
}
