/** Octets and 32-bit words as integers. */
module WordSums {

  // --- sums

  function Sum(x: bv32, y: bv32): bv32 { x + y }

  function Wide(x: bv32, y: bv32): bv33 { (x as bv33) + (y as bv33) }

  function Carry(x: bv32, y: bv32): bv1 { (((x as bv33) + (y as bv33)) >> 32) as bv1 }

  function WithCarry(w: bv32, c: bv1): bv33 { ((c as bv33) << 32) | (w as bv33) }

  function Value(w: bv32): int { w as int }

  function WideValue(w: bv33): int { w as int }

  // the definitions, one at a time

  lemma SumIs(x: bv32, y: bv32)
    ensures Sum(x, y) == x + y
  {
  }

  lemma WideIs(x: bv32, y: bv32)
    ensures Wide(x, y) == (x as bv33) + (y as bv33)
  {
  }

  lemma CarryIs(x: bv32, y: bv32)
    ensures Carry(x, y) == (((x as bv33) + (y as bv33)) >> 32) as bv1
  {
  }

  lemma WithCarryIs(w: bv32, c: bv1)
    ensures WithCarry(w, c) == ((c as bv33) << 32) | (w as bv33)
  {
  }

  lemma ValueIs(w: bv32)
    ensures Value(w) == w as int
  {
  }

  lemma ValueRange(w: bv32)
    ensures 0 <= Value(w) < 0x1_0000_0000
  {
  }

  lemma WideValueIs(w: bv33)
    ensures WideValue(w) == w as int
  {
  }

  lemma CarryBit(x: bv32, y: bv32, low: bv32, carry: bv1)
    requires low == x + y && carry == (((x as bv33) + (y as bv33)) >> 32) as bv1
    ensures (x as bv33) + (y as bv33) == ((carry as bv33) << 32) | (low as bv33)
  {
  }

  lemma WideSplits(x: bv32, y: bv32)
    ensures Wide(x, y) == WithCarry(Sum(x, y), Carry(x, y))
  {
    hide *;
    WideIs(x, y);
    CarryIs(x, y);
    SumIs(x, y);
    WithCarryIs(Sum(x, y), Carry(x, y));
    CarryBit(x, y, Sum(x, y), Carry(x, y));
  }

  lemma CarryReads(w: bv33, low: bv32, carry: bv1)
    requires w == ((carry as bv33) << 32) | (low as bv33)
    ensures w as int == low as int || w as int == 0x1_0000_0000 + low as int
  {
  }

  lemma WithCarryReads(w: bv32, c: bv1)
    ensures WideValue(WithCarry(w, c)) == Value(w) || WideValue(WithCarry(w, c)) == 0x1_0000_0000 + Value(w)
  {
    hide *;
    WithCarryIs(w, c);
    CarryReads(WithCarry(w, c), w, c);
    ValueIs(w);
    WideValueIs(WithCarry(w, c));
  }

  lemma WideSum(x: bv32, y: bv32)
    ensures WideValue(Wide(x, y)) == Value(x) + Value(y)
  {
  }

  lemma SumWraps(x: bv32, y: bv32)
    ensures Value(Sum(x, y)) == (Value(x) + Value(y)) % 0x1_0000_0000
  {
    hide *;
    WideSum(x, y);
    WideSplits(x, y);
    WithCarryReads(Sum(x, y), Carry(x, y));
    ValueRange(Sum(x, y));
  }

  /** The + of 32-bit words is addition of integers modulo 2^32. */
  lemma WordSum(x: bv32, y: bv32)
    ensures Sum(x, y) as int == (x as int + y as int) % 0x1_0000_0000
  {
    hide *;
    SumWraps(x, y);
    ValueIs(x);
    ValueIs(y);
    ValueIs(Sum(x, y));
  }

  // --- joins

  function Joined(b0: bv8, b1: bv8, b2: bv8, b3: bv8): bv32 {
    ((b0 as bv32) << 24) | ((b1 as bv32) << 16) | ((b2 as bv32) << 8) | (b3 as bv32)
  }

  lemma JoinBits(b0: bv8, b1: bv8, b2: bv8, b3: bv8, w: bv32)
    requires w == ((b0 as bv32) << 24) | ((b1 as bv32) << 16) | ((b2 as bv32) << 8) | (b3 as bv32)
    ensures w as int
         == 0x100_0000 * (b0 as int) + 0x1_0000 * (b1 as int) + 0x100 * (b2 as int) + b3 as int
  {
  }

  lemma JoinedReads(b0: bv8, b1: bv8, b2: bv8, b3: bv8)
    ensures Joined(b0, b1, b2, b3) as int
         == 0x100_0000 * (b0 as int) + 0x1_0000 * (b1 as int) + 0x100 * (b2 as int) + b3 as int
  {
    JoinBits(b0, b1, b2, b3, Joined(b0, b1, b2, b3));
  }

  // --- octets

  function Nibble(n: int): bv4
    requires 0 <= n < 16
  {
    n as bv4
  }

  function Nibbles(high: bv4, low: bv4): bv8 { ((high as bv8) << 4) | (low as bv8) }

  /** The conversion (BYTE)b, half by half. */
  function OctetOf(b: int): bv8
    requires 0 <= b < 256
  {
    Nibbles(Nibble(b / 16), Nibble(b % 16))
  }

  lemma NibbleReads(n: int)
    requires 0 <= n < 16
    ensures Nibble(n) as int == n
  {
  }

  lemma NibbleBits(high: bv4, low: bv4)
    ensures (((high as bv8) << 4) | (low as bv8)) as int == 16 * (high as int) + low as int
  {
  }

  lemma NibblesRead(high: bv4, low: bv4)
    ensures Nibbles(high, low) as int == 16 * (high as int) + low as int
  {
    NibbleBits(high, low);
  }

  /** A byte and its octet are one number. */
  lemma OctetReads(b: int)
    requires 0 <= b < 256
    ensures OctetOf(b) as int == b
  {
    hide Nibble, Nibbles;
    NibbleReads(b / 16);
    NibbleReads(b % 16);
    NibblesRead(Nibble(b / 16), Nibble(b % 16));
  }

  lemma SameOctet(x: bv8, y: bv8)
    requires x as int == y as int
    ensures x == y
  {
  }
}
