/**
 ADC and SBC of the NMOS 6502 and the CMOS 65C02, binary and decimal, as the
 emulator computes them in 16-bit scratch variables, and what chains of them
 compute on numbers of any length.
 */
module Arithmetic {
  import opened Bytes

  type Bit = b: nat | b <= 1

  /** The accumulator and the four flags an addition or subtraction sets. */
  datatype Alu = Alu(a: Byte, c: Bit, n: bool, v: bool, z: bool)

  function U16(x: int): (r: nat)
    ensures r < 0x10000
  {
    x % 0x10000
  }

  function Low(b: int): int { b % 0x10 }

  function High(b: int): int { (b / 0x10) % 0x10 }

  /** Bit 4 and bit 7 of a 16-bit value. */
  predicate Bit4(x: nat) { (x / 0x10) % 2 == 1 }

  predicate Bit7(x: nat) { (x / 0x80) % 2 == 1 }

  function ToBit(b: bool): Bit { if b then 1 else 0 }

  // The decimal adders and subtractors: the result byte and the carry out.

  function NmosSum(a: Byte, t: Byte, c: Bit): (Byte, Bit) {
    NmosNibbleSum(High(a), High(t), Low(a), Low(t), c)
  }

  function NmosNibbleSum(ha: int, ht: int, la: int, lt: int, c: Bit): (Byte, Bit) {
    var low := la + lt + c;
    var low' := if low > 0x09 then low + 0x06 else low;
    var high := ha + ht + (if low' > 0x0F then 1 else 0);
    var high' := if high > 0x09 then high + 0x06 else high;
    ((high' * 0x10 + Low(low')) % 0x100, ToBit(high' > 0x0F))
  }

  /** The 16-bit sum before CMOS adjusts its upper digit. */
  function CmosRawSum(a: Byte, t: Byte, c: Bit): nat {
    CmosLowSum(Low(a) + Low(t) + c) + High(a) * 0x10 + High(t) * 0x10
  }

  function CmosLowSum(low: nat): nat {
    if low >= 0x0A then 0x10 + Low(low + 6) else low
  }

  function CmosSum(a: Byte, t: Byte, c: Bit): (Byte, Bit) {
    CmosCarried(CmosRawSum(a, t, c))
  }

  function CmosCarried(val: nat): (Byte, Bit) {
    ((if val >= 0xA0 then val + 0x60 else val) % 0x100, ToBit(val >= 0xA0))
  }

  function NmosDifference(a: Byte, t: Byte, c: Bit): (Byte, Bit) {
    NmosNibbleDifference(High(a), High(t), Low(a), Low(t), c)
  }

  function NmosNibbleDifference(ha: int, ht: int, la: int, lt: int, c: Bit): (Byte, Bit) {
    var low := Corrected(U16(la - lt - (1 - c)));
    NmosJoined(Corrected(U16(ha - ht - ToBit(Bit4(low)))), low)
  }

  /** A wrapped difference of digits, taken back by six when bit 4 says it is negative. */
  function Corrected(s: nat): nat {
    if Bit4(s) then U16(s - 0x06) else s
  }

  function NmosJoined(high: nat, low: nat): (Byte, Bit) {
    ((high * 0x10 + Low(low)) % 0x100, ToBit(!Bit4(high)))
  }

  /** The 16-bit upper part of the difference before CMOS adjusts it; at least $100 means no borrow. */
  function CmosRawDifference(a: Byte, t: Byte, c: Bit): nat {
    CmosUpper(High(a), High(t), 0x0F + Low(a) - Low(t) + c)
  }

  function CmosUpper(ha: int, ht: int, temp: int): int {
    (if temp < 0x10 then 0 else 0x10) + 0xF0 + ha * 0x10 - ht * 0x10
  }

  function CmosDifference(a: Byte, t: Byte, c: Bit): (Byte, Bit) {
    CmosNibbleDifference(High(a), High(t), Low(a), Low(t), c)
  }

  function CmosNibbleDifference(ha: int, ht: int, la: int, lt: int, c: Bit): (Byte, Bit) {
    CmosJoined(CmosUpper(ha, ht, 0x0F + la - lt + c), 0x0F + la - lt + c)
  }

  /** The upper part adjusted and joined with the lower digit. */
  function CmosJoined(val: int, temp: int): (Byte, Bit) {
    (CmosAdjusted(val, CmosLowDigit(temp)), ToBit(val >= 0x100))
  }

  function CmosLowDigit(temp: int): int {
    if temp < 0x10 then U16(temp - 0x06) else temp - 0x10
  }

  function CmosAdjusted(val: int, low: int): Byte {
    U16((if val < 0x100 then U16(val - 0x60) else val) + low) % 0x100
  }

  function AdcNmos(a: Byte, t: Byte, c: Bit, decimal: bool): Alu {
    var val := a + t + c;
    if decimal then
      var (r, d) := NmosSum(a, t, c);
      Alu(r, d, Bit7(val), Bit7(a) != Bit7(val) && Bit7(a) == Bit7(t), val % 0x100 == 0)
    else
      Alu(val % 0x100, ToBit(val > 0xFF),
          Bit7(val), Bit7(a) == Bit7(t) && Bit7(a) != Bit7(val), val % 0x100 == 0)
  }

  function AdcCmos(a: Byte, t: Byte, c: Bit, decimal: bool): Alu {
    var v := Bit7(a) == Bit7(t);
    if decimal then
      var val := CmosRawSum(a, t, c);
      var (r, d) := CmosSum(a, t, c);
      Alu(r, d, Bit7(r), v && (if val >= 0xA0 then val < 0x180 else val >= 0x80), r == 0)
    else
      var val := a + t + c;
      var r := val % 0x100;
      Alu(r, ToBit(val >= 0x100), Bit7(r), v && (if val >= 0x100 then val < 0x180 else val >= 0x80), r == 0)
  }

  function SbcNmos(a: Byte, t: Byte, c: Bit, decimal: bool): Alu {
    var val := U16(a - t - (1 - c));
    if decimal then
      var (r, d) := NmosDifference(a, t, c);
      Alu(r, d, Bit7(val), Bit7(a) != Bit7(val) && Bit7(a) != Bit7(t), val % 0x100 == 0)
    else
      Alu(val % 0x100, ToBit(val < 0x100),
          Bit7(val), Bit7(a) != Bit7(t) && Bit7(a) != Bit7(val), val % 0x100 == 0)
  }

  function SbcCmos(a: Byte, t: Byte, c: Bit, decimal: bool): Alu {
    var v := Bit7(a) != Bit7(t);
    if decimal then
      var val := CmosRawDifference(a, t, c);
      var (r, d) := CmosDifference(a, t, c);
      Alu(r, d, Bit7(r), v && (if val < 0x100 then val >= 0x80 else val < 0x180), r == 0)
    else
      var val := 0xFF + a - t + c;
      var r := val % 0x100;
      Alu(r, ToBit(val >= 0x100), Bit7(r), v && (if val < 0x100 then val >= 0x80 else val < 0x180), r == 0)
  }

  function Adc(cmos: bool, a: Byte, t: Byte, c: Bit, decimal: bool): Alu {
    if cmos then AdcCmos(a, t, c, decimal) else AdcNmos(a, t, c, decimal)
  }

  function Sbc(cmos: bool, a: Byte, t: Byte, c: Bit, decimal: bool): Alu {
    if cmos then SbcCmos(a, t, c, decimal) else SbcNmos(a, t, c, decimal)
  }

  // ------------------------------------------------------------ one byte

  /** A byte is a digit of base 256, or in decimal mode two packed digits of base 10. */
  predicate IsDigit(decimal: bool, b: Byte) {
    decimal ==> Low(b) <= 9 && High(b) <= 9
  }

  function Digit(decimal: bool, b: Byte): nat {
    if decimal then 10 * High(b) + Low(b) else b
  }

  function Base(decimal: bool): nat {
    if decimal then 100 else 0x100
  }

  /** Adding two digits of base ten with a carry, one nibble of the work. */
  function SumDigit(x: int, y: int, c: int): int {
    if x + y + c > 9 then x + y + c - 10 else x + y + c
  }

  function SumCarry(x: int, y: int, c: int): Bit {
    ToBit(x + y + c > 9)
  }

  /** Schoolbook addition of two packed decimal digits. */
  function DecimalSum(a: Byte, t: Byte, c: Bit): (int, Bit) {
    NibbleSum(High(a), High(t), Low(a), Low(t), c)
  }

  function NibbleSum(ha: int, ht: int, la: int, lt: int, c: Bit): (int, Bit) {
    var carry := SumCarry(la, lt, c);
    (0x10 * SumDigit(ha, ht, carry) + SumDigit(la, lt, c), SumCarry(ha, ht, carry))
  }

  lemma Nibbles(h: int, l: int)
    requires 0 <= h < 0x10 && 0 <= l < 0x10
    ensures Low(0x10 * h + l) == l && High(0x10 * h + l) == h
  {
  }

  lemma DecimalSumIsExact(a: Byte, t: Byte, c: Bit)
    requires IsDigit(true, a) && IsDigit(true, t)
    ensures var (r, d) := DecimalSum(a, t, c);
            0 <= r < 0x100 && IsDigit(true, r) && Digit(true, r) + 100 * d == Digit(true, a) + Digit(true, t) + c
  {
    var carry := SumCarry(Low(a), Low(t), c);
    Nibbles(SumDigit(High(a), High(t), carry), SumDigit(Low(a), Low(t), c));
  }

  /** The NMOS correction of one nibble, in its 16-bit scratch. */
  lemma NmosSumNibble(x: int, y: int, c: Bit)
    requires 0 <= x <= 9 && 0 <= y <= 9
    ensures var s := x + y + c;
            var s' := if s > 0x09 then s + 0x06 else s;
            s' == SumDigit(x, y, c) + 0x10 * SumCarry(x, y, c) && Low(s') == SumDigit(x, y, c)
  {
  }

  lemma NmosNibbleSumIs(ha: int, ht: int, la: int, lt: int, c: Bit)
    requires 0 <= ha <= 9 && 0 <= ht <= 9 && 0 <= la <= 9 && 0 <= lt <= 9
    ensures var r, carry := NmosNibbleSum(ha, ht, la, lt, c), SumCarry(la, lt, c);
            && r.0 as int == 0x10 * SumDigit(ha, ht, carry) + SumDigit(la, lt, c)
            && r.1 == SumCarry(ha, ht, carry)
  {
    var carry := SumCarry(la, lt, c);
    NmosSumNibble(la, lt, c);
    NmosSumNibble(ha, ht, carry);
    Overflowed(SumDigit(ha, ht, carry), SumDigit(la, lt, c));
  }

  lemma Overflowed(h: int, l: int)
    requires 0 <= h <= 9 && 0 <= l <= 9
    ensures (h * 0x10 + l) % 0x100 == h * 0x10 + l
    ensures ((h + 0x10) * 0x10 + l) % 0x100 == h * 0x10 + l
  {
  }

  lemma AdcNmosDecimal(a: Byte, t: Byte, c: Bit)
    requires IsDigit(true, a) && IsDigit(true, t)
    ensures var r := NmosSum(a, t, c);
            (r.0 as int, r.1) == DecimalSum(a, t, c)
  {
    NmosNibbleSumIs(High(a), High(t), Low(a), Low(t), c);
  }

  lemma AdcCmosDecimal(a: Byte, t: Byte, c: Bit)
    requires IsDigit(true, a) && IsDigit(true, t)
    ensures var r := CmosSum(a, t, c);
            (r.0 as int, r.1) == DecimalSum(a, t, c)
  {
    var carry, digit := SumCarry(Low(a), Low(t), c), SumDigit(Low(a), Low(t), c);
    CmosLowSumIs(Low(a), Low(t), c);
    assert CmosRawSum(a, t, c) == 0x10 * (High(a) + High(t) + carry) + digit;
    CmosCarriedIs(High(a), High(t), carry, digit);
  }

  lemma CmosLowSumIs(x: int, y: int, c: Bit)
    requires 0 <= x <= 9 && 0 <= y <= 9
    ensures CmosLowSum(x + y + c) == 0x10 * SumCarry(x, y, c) + SumDigit(x, y, c)
  {
    var s := x + y + c;
    if s >= 0x0A {
      assert Low(s + 6) == s + 6 - 0x10;
    }
  }

  lemma CmosCarriedIs(x: int, y: int, carry: Bit, digit: int)
    requires 0 <= x <= 9 && 0 <= y <= 9 && 0 <= digit <= 9
    ensures var r := CmosCarried(0x10 * (x + y + carry) + digit);
            r.0 as int == 0x10 * SumDigit(x, y, carry) + digit && r.1 == SumCarry(x, y, carry)
  {
    Overflowed(SumDigit(x, y, carry), digit);
  }

  /** One ADC: the digit sum, split into a digit and a carry. */
  lemma AdcIsExact(cmos: bool, a: Byte, t: Byte, c: Bit, decimal: bool)
    requires IsDigit(decimal, a) && IsDigit(decimal, t)
    ensures var r := Adc(cmos, a, t, c, decimal);
            && IsDigit(decimal, r.a)
            && Digit(decimal, r.a) + Base(decimal) * r.c == Digit(decimal, a) + Digit(decimal, t) + c
  {
    if decimal {
      DecimalSumIsExact(a, t, c);
      AdcNmosDecimal(a, t, c);
      AdcCmosDecimal(a, t, c);
    }
  }

  function DiffDigit(x: int, y: int, borrow: int): int {
    if x - y - borrow < 0 then x - y - borrow + 10 else x - y - borrow
  }

  function DiffBorrow(x: int, y: int, borrow: int): Bit {
    ToBit(x - y - borrow < 0)
  }

  /** Schoolbook subtraction of two packed decimal digits; the second result is the inverted borrow. */
  function DecimalDifference(a: Byte, t: Byte, c: Bit): (int, Bit) {
    NibbleDifference(High(a), High(t), Low(a), Low(t), c)
  }

  function NibbleDifference(ha: int, ht: int, la: int, lt: int, c: Bit): (int, Bit) {
    var borrow := DiffBorrow(la, lt, 1 - c);
    (0x10 * DiffDigit(ha, ht, borrow) + DiffDigit(la, lt, 1 - c), 1 - DiffBorrow(ha, ht, borrow))
  }

  lemma DecimalDifferenceIsExact(a: Byte, t: Byte, c: Bit)
    requires IsDigit(true, a) && IsDigit(true, t)
    ensures var (r, d) := DecimalDifference(a, t, c);
            && 0 <= r < 0x100 && IsDigit(true, r)
            && Digit(true, r) - 100 * (1 - d) == Digit(true, a) - Digit(true, t) - (1 - c)
  {
    var borrow := DiffBorrow(Low(a), Low(t), 1 - c);
    Nibbles(DiffDigit(High(a), High(t), borrow), DiffDigit(Low(a), Low(t), 1 - c));
  }

  /** The NMOS correction of one nibble: bit 4 of the wrapped difference is the borrow. */
  lemma NmosDiffNibble(x: int, y: int, borrow: Bit)
    requires 0 <= x <= 9 && 0 <= y <= 9
    ensures var s' := Corrected(U16(x - y - borrow));
            && (Bit4(s') <==> x - y - borrow < 0)
            && s' == (if x - y - borrow < 0 then 0xFFF0 else 0) + DiffDigit(x, y, borrow)
            && Low(s') == DiffDigit(x, y, borrow)
  {
    var d := x - y - borrow;
    if d < 0 {
      assert U16(d) == 0x10000 + d;
      assert (0x10000 + d) / 0x10 == 0xFFF;
      assert U16(0x10000 + d - 0x06) == 0xFFF0 + (d + 10);
    }
  }

  lemma NmosNibbleDifferenceIs(ha: int, ht: int, la: int, lt: int, c: Bit)
    requires 0 <= ha <= 9 && 0 <= ht <= 9 && 0 <= la <= 9 && 0 <= lt <= 9
    ensures var r, borrow := NmosNibbleDifference(ha, ht, la, lt, c), DiffBorrow(la, lt, 1 - c);
            && r.0 as int == 0x10 * DiffDigit(ha, ht, borrow) + DiffDigit(la, lt, 1 - c)
            && r.1 == 1 - DiffBorrow(ha, ht, borrow)
  {
    var borrow := DiffBorrow(la, lt, 1 - c);
    NmosDiffNibble(la, lt, 1 - c);
    NmosDiffNibble(ha, ht, borrow);
    NmosJoinedIs(Corrected(U16(ha - ht - borrow)), Corrected(U16(la - lt - (1 - c))),
                 DiffDigit(ha, ht, borrow), DiffDigit(la, lt, 1 - c));
  }

  lemma NmosJoinedIs(high: nat, low: nat, h: int, l: int)
    requires 0 <= h <= 9 && 0 <= l <= 9 && Low(low) == l && (high == h || high == 0xFFF0 + h)
    ensures NmosJoined(high, low).0 as int == 0x10 * h + l
    ensures NmosJoined(high, low).1 == ToBit(!Bit4(high))
  {
    Shifted(h, l);
  }

  lemma SbcNmosDecimal(a: Byte, t: Byte, c: Bit)
    requires IsDigit(true, a) && IsDigit(true, t)
    ensures var r := NmosDifference(a, t, c);
            (r.0 as int, r.1) == DecimalDifference(a, t, c)
  {
    NmosNibbleDifferenceIs(High(a), High(t), Low(a), Low(t), c);
  }

  lemma Shifted(h: int, l: int)
    requires 0 <= h <= 9 && 0 <= l <= 9
    ensures (h * 0x10 + l) % 0x100 == h * 0x10 + l
    ensures ((0xFFF0 + h) * 0x10 + l) % 0x100 == h * 0x10 + l
  {
  }

  lemma SbcCmosDecimal(a: Byte, t: Byte, c: Bit)
    requires IsDigit(true, a) && IsDigit(true, t)
    ensures var r := CmosDifference(a, t, c);
            (r.0 as int, r.1) == DecimalDifference(a, t, c)
  {
    CmosNibbleDifferenceIs(High(a), High(t), Low(a), Low(t), c);
  }

  lemma CmosNibbleDifferenceIs(ha: int, ht: int, la: int, lt: int, c: Bit)
    requires 0 <= ha <= 9 && 0 <= ht <= 9 && 0 <= la <= 9 && 0 <= lt <= 9
    ensures var r, borrow := CmosNibbleDifference(ha, ht, la, lt, c), DiffBorrow(la, lt, 1 - c);
            && r.0 as int == 0x10 * DiffDigit(ha, ht, borrow) + DiffDigit(la, lt, 1 - c)
            && r.1 == 1 - DiffBorrow(ha, ht, borrow)
  {
    var borrow := DiffBorrow(la, lt, 1 - c);
    CmosLowIs(la, lt, c);
    assert CmosUpper(ha, ht, 0x0F + la - lt + c) == 0x100 + 0x10 * (ha - ht - borrow);
    CmosAdjust(0x100 + 0x10 * (ha - ht - borrow), DiffDigit(la, lt, 1 - c));
  }

  lemma CmosLowIs(la: int, lt: int, c: Bit)
    requires 0 <= la <= 9 && 0 <= lt <= 9
    ensures var temp := 0x0F + la - lt + c;
            CmosLowDigit(temp) == DiffDigit(la, lt, 1 - c) && (temp < 0x10 <==> DiffBorrow(la, lt, 1 - c) == 1)
  {
    var temp := 0x0F + la - lt + c;
    assert temp - 0x10 == la - lt - (1 - c);
    if temp < 0x10 {
      assert 0 <= temp - 0x06 < 0x10000;
    }
  }

  lemma CmosAdjust(val: nat, digit: int)
    requires 0x60 <= val <= 0x190 && 0 <= digit <= 9
    ensures CmosAdjusted(val, digit) as int == (if val < 0x100 then val - 0x60 else val - 0x100) + digit
  {
  }

  /** One SBC: the digit difference, and the borrow as an inverted carry. */
  lemma SbcIsExact(cmos: bool, a: Byte, t: Byte, c: Bit, decimal: bool)
    requires IsDigit(decimal, a) && IsDigit(decimal, t)
    ensures var r := Sbc(cmos, a, t, c, decimal);
            && IsDigit(decimal, r.a)
            && Digit(decimal, r.a) - Base(decimal) * (1 - r.c) == Digit(decimal, a) - Digit(decimal, t) - (1 - c)
  {
    if decimal {
      DecimalDifferenceIsExact(a, t, c);
      SbcNmosDecimal(a, t, c);
      SbcCmosDecimal(a, t, c);
    } else {
      SbcBinary(cmos, a, t, c);
    }
  }

  lemma SbcBinary(cmos: bool, a: Byte, t: Byte, c: Bit)
    ensures var r := Sbc(cmos, a, t, c, false);
            r.a - 0x100 * (1 - r.c) == a - t - (1 - c)
  {
    BorrowedByte(a - t - (1 - c));
  }

  lemma BorrowedByte(d: int)
    requires -0x100 <= d < 0x100
    ensures U16(d) % 0x100 == (if d < 0 then d + 0x100 else d) == (d + 0x100) % 0x100
    ensures U16(d) < 0x100 <==> d >= 0
  {
    if d < 0 {
      assert U16(d) == 0xFF00 + (0x100 + d);
    }
  }

  /** A digit's value determines it. */
  lemma DigitsDiffer(decimal: bool, a: Byte, b: Byte)
    requires IsDigit(decimal, a) && IsDigit(decimal, b) && Digit(decimal, a) == Digit(decimal, b)
    ensures a == b
  {
  }

  function Signed(b: Byte): int {
    if b < 0x80 then b else b - 0x100
  }

  /** Bit 7 of a value is the sign of its low byte. */
  lemma SignBit(x: nat)
    ensures Bit7(x) <==> x % 0x100 >= 0x80
  {
    var q := x / 0x100;
    assert x == 0x100 * q + x % 0x100;
    assert x / 0x80 == 2 * q + (x % 0x100) / 0x80;
  }

  /** In binary mode both processors set V exactly on signed overflow, and N and Z from the result. */
  lemma AdcBinaryFlags(cmos: bool, a: Byte, t: Byte, c: Bit)
    ensures var r := Adc(cmos, a, t, c, false);
            && (r.v <==> !(-0x80 <= Signed(a) + Signed(t) + c < 0x80))
            && (r.n <==> Signed(r.a) < 0) && (r.z <==> r.a == 0)
  {
    SignBit(a);
    SignBit(t);
    SignBit(a + t + c);
    SignBit((a + t + c) % 0x100);
  }

  lemma SbcBinaryFlags(cmos: bool, a: Byte, t: Byte, c: Bit)
    ensures var r := Sbc(cmos, a, t, c, false);
            && (r.v <==> !(-0x80 <= Signed(a) - Signed(t) - (1 - c) < 0x80))
            && (r.n <==> Signed(r.a) < 0) && (r.z <==> r.a == 0)
  {
    var d := a - t - (1 - c);
    BorrowedByte(d);
    SignBit(a);
    SignBit(t);
    SignBit(U16(d));
    SignBit((d + 0x100) % 0x100);
  }

  lemma DigitRange(decimal: bool, b: Byte)
    requires IsDigit(decimal, b)
    ensures 0 <= Digit(decimal, b) < Base(decimal)
  {
  }

  /** On proper digits the two processors agree on the byte and the carry. */
  lemma ProcessorsAgree(a: Byte, t: Byte, c: Bit, decimal: bool)
    requires IsDigit(decimal, a) && IsDigit(decimal, t)
    ensures AdcNmos(a, t, c, decimal).a == AdcCmos(a, t, c, decimal).a
    ensures AdcNmos(a, t, c, decimal).c == AdcCmos(a, t, c, decimal).c
    ensures SbcNmos(a, t, c, decimal).a == SbcCmos(a, t, c, decimal).a
    ensures SbcNmos(a, t, c, decimal).c == SbcCmos(a, t, c, decimal).c
  {
    AdcAgrees(a, t, c, decimal);
    SbcAgrees(a, t, c, decimal);
  }

  lemma AdcAgrees(a: Byte, t: Byte, c: Bit, decimal: bool)
    requires IsDigit(decimal, a) && IsDigit(decimal, t)
    ensures AdcNmos(a, t, c, decimal).a == AdcCmos(a, t, c, decimal).a
    ensures AdcNmos(a, t, c, decimal).c == AdcCmos(a, t, c, decimal).c
  {
    if decimal {
      AdcNmosDecimal(a, t, c);
      AdcCmosDecimal(a, t, c);
    }
  }

  lemma SbcAgrees(a: Byte, t: Byte, c: Bit, decimal: bool)
    requires IsDigit(decimal, a) && IsDigit(decimal, t)
    ensures SbcNmos(a, t, c, decimal).a == SbcCmos(a, t, c, decimal).a
    ensures SbcNmos(a, t, c, decimal).c == SbcCmos(a, t, c, decimal).c
  {
    if decimal {
      SbcNmosDecimal(a, t, c);
      SbcCmosDecimal(a, t, c);
    } else {
      BorrowedByte(a - t - (1 - c));
    }
  }

  /** Subtracting what was added, with the carry inverted, gives the byte and the inverted carry back. */
  lemma SbcUndoesAdc(cmos: bool, a: Byte, t: Byte, c: Bit, decimal: bool)
    requires IsDigit(decimal, a) && IsDigit(decimal, t)
    ensures var r := Adc(cmos, a, t, c, decimal);
            var s := Sbc(cmos, r.a, t, 1 - c, decimal);
            s.a == a && s.c == 1 - r.c
  {
    var r := Adc(cmos, a, t, c, decimal);
    AdcIsExact(cmos, a, t, c, decimal);
    SbcIsExact(cmos, r.a, t, 1 - c, decimal);
    var s := Sbc(cmos, r.a, t, 1 - c, decimal);
    DigitRange(decimal, a);
    DigitRange(decimal, s.a);
    SameRemainder(Base(decimal), Digit(decimal, a), Digit(decimal, s.a), r.c, 1 - s.c);
    DigitsDiffer(decimal, s.a, a);
  }

  lemma SameRemainder(base: int, x: int, y: int, c: Bit, d: Bit)
    requires (base == 100 || base == 0x100) && 0 <= x < base && 0 <= y < base
    requires x - base * c == y - base * d
    ensures x == y && c == d
  {
  }

  // ----------------------------------------------------- numbers of bytes

  /** Digits, least significant first. */
  predicate AreDigits(decimal: bool, xs: seq<Byte>) {
    forall i | 0 <= i < |xs| :: IsDigit(decimal, xs[i])
  }

  function Value(decimal: bool, xs: seq<Byte>): nat {
    if xs == [] then 0 else Digit(decimal, xs[0]) + Base(decimal) * Value(decimal, xs[1..])
  }

  function Power(base: nat, n: nat): nat {
    if n == 0 then 1 else base * Power(base, n - 1)
  }

  /** One byte of work: the result byte and the carry. */
  type Digitwise = (Byte, Byte, Bit) -> (Byte, Bit)

  /** A program's loop over two numbers, lowest bytes first, the carry running through. */
  function Chain(step: Digitwise, xs: seq<Byte>, ys: seq<Byte>, c: Bit): (r: (seq<Byte>, Bit))
    requires |xs| == |ys|
    ensures |r.0| == |xs|
  {
    if xs == [] then ([], c)
    else
      var (b, d) := step(xs[0], ys[0], c);
      var (rest, out) := Chain(step, xs[1..], ys[1..], d);
      ([b] + rest, out)
  }

  function AdcStep(cmos: bool, decimal: bool): Digitwise {
    (a: Byte, t: Byte, c: Bit) => (Adc(cmos, a, t, c, decimal).a, Adc(cmos, a, t, c, decimal).c)
  }

  function SbcStep(cmos: bool, decimal: bool): Digitwise {
    (a: Byte, t: Byte, c: Bit) => (Sbc(cmos, a, t, c, decimal).a, Sbc(cmos, a, t, c, decimal).c)
  }

  function AdcChain(cmos: bool, decimal: bool, xs: seq<Byte>, ys: seq<Byte>, c: Bit): (r: (seq<Byte>, Bit))
    requires |xs| == |ys|
  {
    Chain(AdcStep(cmos, decimal), xs, ys, c)
  }

  function SbcChain(cmos: bool, decimal: bool, xs: seq<Byte>, ys: seq<Byte>, c: Bit): (r: (seq<Byte>, Bit))
    requires |xs| == |ys|
  {
    Chain(SbcStep(cmos, decimal), xs, ys, c)
  }

  lemma Distribute(b: int, x: int, y: int, p: int, c: int)
    ensures b * (x + p * c) == b * x + (b * p) * c
    ensures b * (x + y) == b * x + b * y
  {
  }

  /** A step that adds two digits and a carry exactly. */
  ghost predicate Adds(decimal: bool, step: Digitwise) {
    forall a, t, c | IsDigit(decimal, a) && IsDigit(decimal, t) :: AddsAt(decimal, step, a, t, c)
  }

  predicate AddsAt(decimal: bool, step: Digitwise, a: Byte, t: Byte, c: Bit) {
    var (b, d) := step(a, t, c);
    IsDigit(decimal, b) && Digit(decimal, b) + Base(decimal) * d == Digit(decimal, a) + Digit(decimal, t) + c
  }

  /** A step that subtracts exactly, the carry an inverted borrow. */
  ghost predicate Subtracts(decimal: bool, step: Digitwise) {
    forall a, t, c | IsDigit(decimal, a) && IsDigit(decimal, t) :: SubtractsAt(decimal, step, a, t, c)
  }

  predicate SubtractsAt(decimal: bool, step: Digitwise, a: Byte, t: Byte, c: Bit) {
    var (b, d) := step(a, t, c);
    && IsDigit(decimal, b)
    && Digit(decimal, b) + Digit(decimal, t) + 1 + Base(decimal) * d == Digit(decimal, a) + c + Base(decimal)
  }

  lemma {:induction false} ChainAdds(decimal: bool, step: Digitwise, xs: seq<Byte>, ys: seq<Byte>, c: Bit)
    requires |xs| == |ys| && AreDigits(decimal, xs) && AreDigits(decimal, ys) && Adds(decimal, step)
    ensures var (r, out) := Chain(step, xs, ys, c);
            && AreDigits(decimal, r)
            && Value(decimal, r) + Power(Base(decimal), |xs|) * out == Value(decimal, xs) + Value(decimal, ys) + c
  {
    if xs != [] {
      var b := Base(decimal);
      var (digit, d) := step(xs[0], ys[0], c);
      var (rest, out) := Chain(step, xs[1..], ys[1..], d);
      assert AddsAt(decimal, step, xs[0], ys[0], c);
      ChainAdds(decimal, step, xs[1..], ys[1..], d);
      assert ([digit] + rest)[1..] == rest;
      Distribute(b, Value(decimal, rest), 0, Power(b, |xs| - 1), out);
      Distribute(b, Value(decimal, xs[1..]), Value(decimal, ys[1..]), 1, d);
      Distribute(b, Value(decimal, xs[1..]) + Value(decimal, ys[1..]), d, 1, 1);
    }
  }

  lemma DistributeOver(b: int, r: int, y: int, p: int, out: int, x: int, c: int)
    requires r + p * out + y + 1 == x + c + p
    ensures b * r + (b * p) * out + b * y + b == b * x + b * c + b * p
  {
    assert b * (r + p * out + y + 1) == b * r + b * (p * out) + b * y + b;
    assert b * (p * out) == (b * p) * out;
    assert b * (x + c + p) == b * x + b * c + b * p;
  }

  lemma {:induction false} ChainSubtracts(decimal: bool, step: Digitwise, xs: seq<Byte>, ys: seq<Byte>, c: Bit)
    requires |xs| == |ys| && AreDigits(decimal, xs) && AreDigits(decimal, ys) && Subtracts(decimal, step)
    ensures var (r, out) := Chain(step, xs, ys, c);
            && AreDigits(decimal, r)
            && Value(decimal, r) + Power(Base(decimal), |xs|) * out + Value(decimal, ys) + 1
               == Value(decimal, xs) + c + Power(Base(decimal), |xs|)
  {
    if xs != [] {
      var b := Base(decimal);
      var (digit, d) := step(xs[0], ys[0], c);
      var (rest, out) := Chain(step, xs[1..], ys[1..], d);
      assert SubtractsAt(decimal, step, xs[0], ys[0], c);
      ChainSubtracts(decimal, step, xs[1..], ys[1..], d);
      assert ([digit] + rest)[1..] == rest;
      DistributeOver(b, Value(decimal, rest), Value(decimal, ys[1..]), Power(b, |xs| - 1), out,
                     Value(decimal, xs[1..]), d);
    }
  }

  /** However long the numbers, the chain is exact addition in base 256, or base 100 in decimal mode. */
  lemma AdcChainIsExact(cmos: bool, decimal: bool, xs: seq<Byte>, ys: seq<Byte>, c: Bit)
    requires |xs| == |ys| && AreDigits(decimal, xs) && AreDigits(decimal, ys)
    ensures var (r, out) := AdcChain(cmos, decimal, xs, ys, c);
            && AreDigits(decimal, r)
            && Value(decimal, r) + Power(Base(decimal), |xs|) * out == Value(decimal, xs) + Value(decimal, ys) + c
  {
    AdcStepAdds(cmos, decimal);
    ChainAdds(decimal, AdcStep(cmos, decimal), xs, ys, c);
  }

  lemma AdcStepAdds(cmos: bool, decimal: bool)
    ensures Adds(decimal, AdcStep(cmos, decimal))
  {
    forall a, t, c | IsDigit(decimal, a) && IsDigit(decimal, t)
      ensures AddsAt(decimal, AdcStep(cmos, decimal), a, t, c)
    {
      AdcIsExact(cmos, a, t, c, decimal);
    }
  }

  /** Likewise subtraction: the result plus what was taken away is the minuend, up to the borrow out of the top. */
  lemma SbcChainIsExact(cmos: bool, decimal: bool, xs: seq<Byte>, ys: seq<Byte>, c: Bit)
    requires |xs| == |ys| && AreDigits(decimal, xs) && AreDigits(decimal, ys)
    ensures var (r, out) := SbcChain(cmos, decimal, xs, ys, c);
            && AreDigits(decimal, r)
            && Value(decimal, r) + Power(Base(decimal), |xs|) * out + Value(decimal, ys) + 1
               == Value(decimal, xs) + c + Power(Base(decimal), |xs|)
  {
    SbcStepSubtracts(cmos, decimal);
    ChainSubtracts(decimal, SbcStep(cmos, decimal), xs, ys, c);
  }

  lemma SbcStepSubtracts(cmos: bool, decimal: bool)
    ensures Subtracts(decimal, SbcStep(cmos, decimal))
  {
    forall a, t, c | IsDigit(decimal, a) && IsDigit(decimal, t)
      ensures SubtractsAt(decimal, SbcStep(cmos, decimal), a, t, c)
    {
      SbcIsExact(cmos, a, t, c, decimal);
      InvertedBorrow(Base(decimal), Sbc(cmos, a, t, c, decimal).c);
    }
  }

  lemma InvertedBorrow(b: nat, c: Bit)
    ensures b * (1 - c) + b * c == b
  {
  }

  predicate UndoneAt(step: Digitwise, back: Digitwise, a: Byte, t: Byte, c: Bit) {
    var (b, d) := step(a, t, c);
    back(b, t, 1 - c) == (a, 1 - d)
  }

  lemma {:induction false} ChainUndoes(
    decimal: bool, step: Digitwise, back: Digitwise, xs: seq<Byte>, ys: seq<Byte>, c: Bit)
    requires |xs| == |ys| && AreDigits(decimal, xs) && AreDigits(decimal, ys)
    requires forall a, t, d | IsDigit(decimal, a) && IsDigit(decimal, t) :: UndoneAt(step, back, a, t, d)
    ensures var (r, out) := Chain(step, xs, ys, c);
            Chain(back, r, ys, 1 - c) == (xs, 1 - out)
  {
    if xs != [] {
      var (b, d) := step(xs[0], ys[0], c);
      var (rest, out) := Chain(step, xs[1..], ys[1..], d);
      assert UndoneAt(step, back, xs[0], ys[0], c);
      ChainUndoes(decimal, step, back, xs[1..], ys[1..], d);
      assert ([b] + rest)[1..] == rest;
      assert [xs[0]] + xs[1..] == xs;
    }
  }

  /** The chain of SBCs undoes the chain of ADCs, digit for digit. */
  lemma ChainsUndo(cmos: bool, decimal: bool, xs: seq<Byte>, ys: seq<Byte>, c: Bit)
    requires |xs| == |ys| && AreDigits(decimal, xs) && AreDigits(decimal, ys)
    ensures var (r, out) := AdcChain(cmos, decimal, xs, ys, c);
            SbcChain(cmos, decimal, r, ys, 1 - c) == (xs, 1 - out)
  {
    var step, back := AdcStep(cmos, decimal), SbcStep(cmos, decimal);
    forall a, t, d | IsDigit(decimal, a) && IsDigit(decimal, t) ensures UndoneAt(step, back, a, t, d) {
      SbcUndoesAdc(cmos, a, t, d, decimal);
    }
    ChainUndoes(decimal, step, back, xs, ys, c);
  }

  lemma {:induction false} SameChain(
    decimal: bool, step: Digitwise, other: Digitwise, xs: seq<Byte>, ys: seq<Byte>, c: Bit)
    requires |xs| == |ys| && AreDigits(decimal, xs) && AreDigits(decimal, ys)
    requires forall a, t, d | IsDigit(decimal, a) && IsDigit(decimal, t) :: step(a, t, d) == other(a, t, d)
    ensures Chain(step, xs, ys, c) == Chain(other, xs, ys, c)
  {
    if xs != [] {
      SameChain(decimal, step, other, xs[1..], ys[1..], step(xs[0], ys[0], c).1);
    }
  }

  /** Software cannot tell the processors apart by its sums and differences. */
  lemma ChainsAgree(decimal: bool, xs: seq<Byte>, ys: seq<Byte>, c: Bit)
    requires |xs| == |ys| && AreDigits(decimal, xs) && AreDigits(decimal, ys)
    ensures AdcChain(false, decimal, xs, ys, c) == AdcChain(true, decimal, xs, ys, c)
    ensures SbcChain(false, decimal, xs, ys, c) == SbcChain(true, decimal, xs, ys, c)
  {
    forall a, t, d | IsDigit(decimal, a) && IsDigit(decimal, t)
      ensures AdcStep(false, decimal)(a, t, d) == AdcStep(true, decimal)(a, t, d)
      ensures SbcStep(false, decimal)(a, t, d) == SbcStep(true, decimal)(a, t, d)
    {
      ProcessorsAgree(a, t, d, decimal);
    }
    SameChain(decimal, AdcStep(false, decimal), AdcStep(true, decimal), xs, ys, c);
    SameChain(decimal, SbcStep(false, decimal), SbcStep(true, decimal), xs, ys, c);
  }

  // ------------------------------------------------- the code, step by step

  /** The accumulator and the loop's flags, as the opcode handlers update them. */
  class Unit {
    var a: Byte
    var flagC: Bit
    var flagN: bool
    var flagV: bool
    var flagZ: bool

    constructor (a: Byte, c: Bit)
      ensures Now() == Alu(a, c, false, false, false)
    {
      this.a, flagC := a, c;
      flagN, flagV, flagZ := false, false, false;
    }

    function Now(): Alu
      reads this
    {
      Alu(a, flagC, flagN, flagV, flagZ)
    }

    method SetNZ(val: nat)
      modifies `flagN, `flagZ
      ensures flagN == Bit7(val) && flagZ == (val % 0x100 == 0)
    {
      flagN := Bit7(val);
      flagZ := val % 0x100 == 0;
    }

    method OpAdcNmos(temp: Byte, decimal: bool)
      modifies this
      ensures Now() == AdcNmos(old(a), temp, old(flagC), decimal)
    {
      var val := a + temp + flagC;
      flagV := Bit7(a) != Bit7(val) && Bit7(a) == Bit7(temp);
      if decimal {
        SetNZ(val);
        AddNibbles(temp);
      } else {
        flagC := if val > 0xFF then 1 else 0;
        SetResult(val);
      }
    }

    /** The low byte of a 16-bit value becomes the accumulator, with its flags. */
    method SetResult(val: nat)
      modifies `a, `flagN, `flagZ
      ensures a == val % 0x100 && flagN == Bit7(val) && flagZ == (val % 0x100 == 0)
    {
      a := val % 0x100;
      SignBit(val);
      SignBit(a);
      SetNZ(a);
    }

    method AddNibbles(temp: Byte)
      modifies `a, `flagC
      ensures (a, flagC) == NmosSum(old(a), temp, old(flagC))
    {
      a, flagC := NibbleSum(High(a), High(temp), Low(a), Low(temp), flagC);
    }

    static method NibbleSum(ha: int, ht: int, la: int, lt: int, c: Bit) returns (r: Byte, d: Bit)
      ensures (r, d) == NmosNibbleSum(ha, ht, la, lt, c)
    {
      var low := la + lt + c;
      if low > 0x09 {
        low := low + 0x06;
      }
      var high := ha + ht + if low > 0x0F then 1 else 0;
      if high > 0x09 {
        high := high + 0x06;
      }
      d := if high > 0x0F then 1 else 0;
      r := (high * 0x10 + Low(low)) % 0x100;
    }

    method OpAdcCmos(temp: Byte, decimal: bool)
      modifies this
      ensures Now() == AdcCmos(old(a), temp, old(flagC), decimal)
    {
      flagV := Bit7(a) == Bit7(temp);
      if decimal {
        var val := AddCmos(temp);
        SetByte(val);
      } else {
        var val := a + temp + flagC;
        NoteSum(val, 0x100);
        SetByte(val);
      }
    }

    /** The decimal half; the low byte of `val` is the result. */
    method AddCmos(temp: Byte) returns (val: nat)
      modifies `flagC, `flagV
      ensures (val % 0x100, flagC) == CmosSum(a, temp, old(flagC))
      ensures var raw := CmosRawSum(a, temp, old(flagC));
              flagV == (old(flagV) && if raw >= 0xA0 then raw < 0x180 else raw >= 0x80)
    {
      val := Low(a) + Low(temp) + flagC;
      if val >= 0x0A {
        val := 0x10 + Low(val + 6);
      }
      val := val + High(a) * 0x10 + High(temp) * 0x10;
      NoteSum(val, 0xA0);
      if val >= 0xA0 {
        val := val + 0x60;
      }
    }

    /** Carry from a 16-bit sum that carries from `limit` on; overflow is taken back. */
    method NoteSum(val: nat, limit: nat)
      modifies `flagC, `flagV
      ensures flagC == ToBit(val >= limit)
      ensures flagV == (old(flagV) && if val >= limit then val < 0x180 else val >= 0x80)
    {
      if val >= limit {
        flagC := 1;
        if val >= 0x180 {
          flagV := false;
        }
      } else {
        flagC := 0;
        if val < 0x80 {
          flagV := false;
        }
      }
    }

    method OpSbcNmos(temp: Byte, decimal: bool)
      modifies this
      ensures Now() == SbcNmos(old(a), temp, old(flagC), decimal)
    {
      var borrow: Bit := if flagC == 0 then 1 else 0;
      assert borrow == 1 - flagC;
      var val := U16(a - temp - borrow);
      flagV := Bit7(a) != Bit7(val) && Bit7(a) != Bit7(temp);
      if decimal {
        SetNZ(val);
        SubtractNibbles(temp);
      } else {
        flagC := if val < 0x100 then 1 else 0;
        SetResult(val);
      }
    }

    method SubtractNibbles(temp: Byte)
      modifies `a, `flagC
      ensures (a, flagC) == NmosDifference(old(a), temp, old(flagC))
    {
      a, flagC := NibbleDifference(High(a), High(temp), Low(a), Low(temp), flagC);
    }

    static method NibbleDifference(ha: int, ht: int, la: int, lt: int, c: Bit) returns (r: Byte, d: Bit)
      ensures (r, d) == NmosNibbleDifference(ha, ht, la, lt, c)
    {
      var low := U16(la - lt - if c == 0 then 1 else 0);
      if Bit4(low) {
        low := U16(low - 0x06);
      }
      var high := U16(ha - ht - if Bit4(low) then 1 else 0);
      if Bit4(high) {
        high := U16(high - 0x06);
      }
      d := if !Bit4(high) then 1 else 0;
      r := (high * 0x10 + Low(low)) % 0x100;
    }

    /** Carry from a 16-bit result biased so that $100 means none was borrowed; overflow is taken back. */
    method NoteCarry(val: nat)
      modifies `flagC, `flagV
      ensures flagC == ToBit(val >= 0x100)
      ensures flagV == (old(flagV) && if val < 0x100 then val >= 0x80 else val < 0x180)
    {
      if val < 0x100 {
        flagC := 0;
        if val < 0x80 {
          flagV := false;
        }
      } else {
        flagC := 1;
        if val >= 0x180 {
          flagV := false;
        }
      }
    }

    method OpSbcCmos(temp: Byte, decimal: bool)
      modifies this
      ensures Now() == SbcCmos(old(a), temp, old(flagC), decimal)
    {
      flagV := Bit7(a) != Bit7(temp);
      if decimal {
        var val := SubtractCmos(temp);
        SetByte(val);
      } else {
        var val := 0xFF + a - temp + flagC;
        NoteCarry(val);
        SetByte(val);
      }
    }

    /** The low byte of a 16-bit value becomes the accumulator, with the flags of that byte. */
    method SetByte(val: nat)
      modifies `a, `flagN, `flagZ
      ensures a == val % 0x100 && flagN == Bit7(a) && flagZ == (a == 0)
    {
      a := val % 0x100;
      SetNZ(a);
    }

    /** The decimal half; the low byte of `val` is the result. */
    method SubtractCmos(temp: Byte) returns (val: nat)
      modifies `flagC, `flagV
      ensures (val % 0x100, flagC) == CmosDifference(a, temp, old(flagC))
      ensures var raw := CmosRawDifference(a, temp, old(flagC));
              flagV == (old(flagV) && if raw < 0x100 then raw >= 0x80 else raw < 0x180)
    {
      var temp2: int := 0x0F + Low(a) - Low(temp) + flagC;
      if temp2 < 0x10 {
        val := 0;
        temp2 := U16(temp2 - 0x06);
      } else {
        val := 0x10;
        temp2 := temp2 - 0x10;
      }
      val := val + 0xF0 + High(a) * 0x10 - High(temp) * 0x10;
      NoteCarry(val);
      if val < 0x100 {
        val := U16(val - 0x60);
      }
      val := U16(val + temp2);
    }
  }
}
