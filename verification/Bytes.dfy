// The integer widths of the firmware: uint8_t values, and the wrap-around of ++ and of the
// minus-one encoding that keeps an erased EEPROM cell (0xFF) reading as zero.
module Bytes {

  type byte = x: int | 0 <= x < 256

  const ERASED: byte := 0xFF

  function Inc(b: byte): byte { if b == 255 then 0 else b + 1 }

  function Dec(b: byte): byte { if b == 0 then 255 else b - 1 }

  lemma WrapsAround(b: byte)
    ensures Inc(b) == (b + 1) % 256 && Dec(b) == (b + 255) % 256 && Inc(Dec(b)) == b && Dec(Inc(b)) == b
    ensures Inc(ERASED) == 0
  {}

  // The low eight bits of a value that is assigned to a uint8_t.
  function Low8(x: nat): byte { x % 256 }

  // The low sixteen bits of a value that is assigned to a uint16_t.
  function Low16(x: nat): (r: nat)
    ensures x < 0x10000 ==> r == x
  {
    x % 0x10000
  }

  predicate TestBit(x: nat, weight: nat)
    requires weight > 0
  {
    (x / weight) % 2 == 1
  }
}
