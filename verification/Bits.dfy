// Bitwise or on unbounded naturals, and the facts about it that addressing needs.
module Bits {

  function Or(a: nat, b: nat): nat
    decreases a + b
  {
    if a == 0 then b else if b == 0 then a
    else 2 * Or(a / 2, b / 2) + if a % 2 == 1 || b % 2 == 1 then 1 else 0
  }

  lemma OrCommutes(a: nat, b: nat)
    ensures Or(a, b) == Or(b, a)
    decreases a + b
  {}

  lemma OrBits(a: nat, b: nat)
    ensures Or(a, b) / 2 == Or(a / 2, b / 2)
    ensures Or(a, b) % 2 == 1 <==> a % 2 == 1 || b % 2 == 1
    ensures Or(a, b) >= a && Or(a, b) >= b
  {}

  lemma {:induction false} OrAssociates(a: nat, b: nat, c: nat)
    ensures Or(Or(a, b), c) == Or(a, Or(b, c))
    decreases a + b + c
  {
    if a != 0 && b != 0 && c != 0 {
      OrAssociates(a / 2, b / 2, c / 2);
      OrBits(a, b);
      OrBits(b, c);
    }
  }

  lemma {:induction false} OrDisjoint(high: nat, low: nat, weight: nat, bits: nat)
    requires low < weight && weight == Pow2(bits)
    ensures Or(high * weight, low) == high * weight + low
    decreases bits
  {
    if bits > 0 && high != 0 && low != 0 {
      var half := Pow2(bits - 1);
      assert high * weight == 2 * (high * half);
      assert (high * weight) / 2 == high * half && (high * weight) % 2 == 0;
      OrDisjoint(high, low / 2, half, bits - 1);
    }
  }

  lemma {:induction false} OrSame(a: nat)
    ensures Or(a, a) == a
  {
    if a != 0 {
      OrSame(a / 2);
    }
  }

  // The high bits of a number add nothing to it.
  lemma OrHighBits(high: nat, low: nat, weight: nat, bits: nat)
    requires low < weight && weight == Pow2(bits)
    ensures Or(high * weight, high * weight + low) == high * weight + low
  {
    OrDisjoint(high, low, weight, bits);
    OrAssociates(high * weight, high * weight, low);
    OrSame(high * weight);
  }

  function Pow2(n: nat): nat { if n == 0 then 1 else 2 * Pow2(n - 1) }

  lemma {:induction false} OrBelow(a: nat, b: nat, bits: nat)
    requires a < Pow2(bits) && b < Pow2(bits)
    ensures Or(a, b) < Pow2(bits)
    decreases bits
  {
    if a != 0 && b != 0 {
      OrBelow(a / 2, b / 2, bits - 1);
    }
  }

  lemma OrDouble(a: nat, b: nat)
    ensures Or(2 * a, b) == 2 * Or(a, b / 2) + b % 2
  {}

  // A number whose low hexadecimal digit is clear lends its bits to the high digit only.
  lemma OrHexDigits(h: nat, w: nat)
    ensures Or(16 * h, w) == 16 * Or(h, w / 16) + w % 16
  {
    var w1 := w / 2;
    var w2 := w1 / 2;
    var w3 := w2 / 2;
    var w4 := w3 / 2;
    var or1, or2, or3, or4 := Or(8 * h, w1), Or(4 * h, w2), Or(2 * h, w3), Or(h, w4);
    assert Or(16 * h, w) == 2 * or1 + w % 2 by { OrDouble(8 * h, w); }
    assert or1 == 2 * or2 + w1 % 2 by { OrDouble(4 * h, w1); }
    assert or2 == 2 * or3 + w2 % 2 by { OrDouble(2 * h, w2); }
    assert or3 == 2 * or4 + w3 % 2 by { OrDouble(h, w3); }
    HexDigits(w);
  }

  lemma HexDigits(w: nat)
    ensures w / 2 / 2 / 2 / 2 == w / 16
    ensures 8 * ((w / 2 / 2 / 2) % 2) + 4 * ((w / 2 / 2) % 2) + 2 * ((w / 2) % 2) + w % 2 == w % 16
  {}
}
