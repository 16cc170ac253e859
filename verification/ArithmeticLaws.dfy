/**
 The flags of decimal ADC and SBC. The NMOS processor sets N, V and Z as if the
 addition were binary; the CMOS one sets N and Z by the decimal result, and V by the
 decimal sum or difference.
 */
module ArithmeticLaws {
  import opened Bytes
  import opened Arithmetic

  predicate SameNvz(x: Alu, y: Alu) {
    x.n == y.n && x.v == y.v && x.z == y.z
  }

  /** On NMOS decimal mode changes the accumulator and the carry only, for digits and for any other bytes. */
  lemma NmosFlagsAreBinary(a: Byte, t: Byte, c: Bit)
    ensures SameNvz(AdcNmos(a, t, c, true), AdcNmos(a, t, c, false))
    ensures SameNvz(SbcNmos(a, t, c, true), SbcNmos(a, t, c, false))
  {
  }

  /** On CMOS N and Z are those of the byte in the accumulator, in either mode. */
  lemma CmosFlagsAreOfResult(a: Byte, t: Byte, c: Bit, decimal: bool)
    ensures OfResult(AdcCmos(a, t, c, decimal)) && OfResult(SbcCmos(a, t, c, decimal))
  {
    CmosSumFlags(a, t, c, decimal);
    CmosDifferenceFlags(a, t, c, decimal);
  }

  predicate OfResult(r: Alu) {
    (r.n <==> r.a >= 0x80) && (r.z <==> r.a == 0)
  }

  lemma SignBitIs(b: Byte)
    ensures Bit7(b) <==> b >= 0x80
  {
  }

  lemma CmosSumFlags(a: Byte, t: Byte, c: Bit, decimal: bool)
    ensures OfResult(AdcCmos(a, t, c, decimal))
  {
    var r := AdcCmos(a, t, c, decimal);
    SignBitIs(r.a);
    assert r.n == Bit7(r.a) && r.z == (r.a == 0);
  }

  lemma CmosDifferenceFlags(a: Byte, t: Byte, c: Bit, decimal: bool)
    ensures OfResult(SbcCmos(a, t, c, decimal))
  {
    var r := SbcCmos(a, t, c, decimal);
    SignBitIs(r.a);
    assert r.n == Bit7(r.a) && r.z == (r.a == 0);
  }

  /** The value of a decimal sum, by tens. */
  lemma TensOfSum(a: Byte, t: Byte, c: Bit)
    requires IsDigit(true, a) && IsDigit(true, t)
    ensures var carry := SumCarry(Low(a), Low(t), c);
            && CmosRawSum(a, t, c) == 0x10 * (High(a) + High(t) + carry) + SumDigit(Low(a), Low(t), c)
            && (Digit(true, a) + Digit(true, t) + c >= 80 <==> High(a) + High(t) + carry >= 8)
  {
    CmosLowSumIs(Low(a), Low(t), c);
  }

  /** For any bytes CMOS sets V when the operands agree in bit 7 and the upper nibbles' sum lies in 8..23. */
  lemma CmosSumRange(a: Byte, t: Byte, c: Bit)
    ensures var high := High(a) + High(t) + if Low(a) + Low(t) + c > 9 then 1 else 0;
            AdcCmos(a, t, c, true).v <==> (a < 0x80 <==> t < 0x80) && 8 <= high <= 23
  {
    var val := CmosRawSum(a, t, c);
    SignBitIs(a);
    SignBitIs(t);
    assert AdcCmos(a, t, c, true).v
        == (Bit7(a) == Bit7(t) && if val >= 0xA0 then val < 0x180 else val >= 0x80);
  }

  /** CMOS V after a decimal addition: the operands agree in bit 7 and the sum is 80 or more. */
  lemma CmosSumOverflows(a: Byte, t: Byte, c: Bit)
    requires IsDigit(true, a) && IsDigit(true, t)
    ensures AdcCmos(a, t, c, true).v
            <==> (a < 0x80 <==> t < 0x80) && Digit(true, a) + Digit(true, t) + c >= 80
  {
    TensOfSum(a, t, c);
    CmosSumRange(a, t, c);
  }

  lemma TensOfDifference(a: Byte, t: Byte, c: Bit)
    requires IsDigit(true, a) && IsDigit(true, t)
    ensures var tens := High(a) - High(t) - DiffBorrow(Low(a), Low(t), 1 - c);
            && CmosRawDifference(a, t, c) == 0x100 + 0x10 * tens
            && (-80 <= Digit(true, a) - Digit(true, t) - (1 - c) < 80 <==> -8 <= tens < 8)
  {
  }

  /** For any bytes V is set when they differ in bit 7 and the upper nibbles' difference lies in -8..7. */
  lemma CmosDifferenceRange(a: Byte, t: Byte, c: Bit)
    ensures var high := High(a) - High(t) - if Low(a) - Low(t) - (1 - c) < 0 then 1 else 0;
            SbcCmos(a, t, c, true).v <==> (a < 0x80 <==> t >= 0x80) && -8 <= high <= 7
  {
    var val := CmosRawDifference(a, t, c);
    SignBitIs(a);
    SignBitIs(t);
    assert SbcCmos(a, t, c, true).v
        == (Bit7(a) != Bit7(t) && if val < 0x100 then val >= 0x80 else val < 0x180);
  }

  /** After a subtraction: they differ in bit 7 and the difference lies in -80..79. */
  lemma CmosDifferenceOverflows(a: Byte, t: Byte, c: Bit)
    requires IsDigit(true, a) && IsDigit(true, t)
    ensures SbcCmos(a, t, c, true).v
            <==> (a < 0x80 <==> t >= 0x80) && -80 <= Digit(true, a) - Digit(true, t) - (1 - c) < 80
  {
    TensOfDifference(a, t, c);
    CmosDifferenceRange(a, t, c);
  }

  // ------------------------------------------------ nibbles of any value

  /** A sum of nibbles as one digit: ten is taken off above nine. */
  function SumNibble(s: int): int {
    if s <= 9 then s else (s - 10) % 0x10
  }

  /** What each processor makes of the sums of the lower and upper nibbles, digits or not. */
  predicate IsNibbleSum(r: (Byte, Bit), ha: int, ht: int, low: int) {
    var high := ha + ht + if low > 9 then 1 else 0;
    r.0 == 0x10 * SumNibble(high) + SumNibble(low) && (r.1 == 1 <==> high > 9)
  }

  lemma NmosNibbles(ha: int, ht: int, la: int, lt: int, c: Bit)
    requires 0 <= ha < 0x10 && 0 <= ht < 0x10 && 0 <= la < 0x10 && 0 <= lt < 0x10
    ensures IsNibbleSum(NmosNibbleSum(ha, ht, la, lt, c), ha, ht, la + lt + c)
  {
    var low := la + lt + c;
    var high := ha + ht + if low > 9 then 1 else 0;
    var high' := if high > 9 then high + 6 else high;
    Joined(high', SumNibble(low));
    assert high' % 0x10 == SumNibble(high);
  }

  lemma Joined(h: int, l: int)
    requires 0 <= h < 0x40 && 0 <= l < 0x10
    ensures (h * 0x10 + l) % 0x100 == 0x10 * (h % 0x10) + l
  {
  }

  lemma CmosNibbles(ha: int, ht: int, low: int)
    requires 0 <= ha < 0x10 && 0 <= ht < 0x10 && 0 <= low < 0x20
    ensures IsNibbleSum(CmosCarried(CmosLowSum(low) + ha * 0x10 + ht * 0x10), ha, ht, low)
  {
    var high := ha + ht + if low > 9 then 1 else 0;
    Joined(high, SumNibble(low));
    Joined(high + 6, SumNibble(low));
    assert CmosLowSum(low) + ha * 0x10 + ht * 0x10 == high * 0x10 + SumNibble(low);
    assert (high + 6) * 0x10 + SumNibble(low) == high * 0x10 + SumNibble(low) + 0x60;
  }

  /** So both processors add any two bytes alike in decimal mode, nibble by nibble. */
  lemma DecimalSumOfAnything(a: Byte, t: Byte, c: Bit)
    ensures NmosSum(a, t, c) == CmosSum(a, t, c)
    ensures IsNibbleSum(NmosSum(a, t, c), High(a), High(t), Low(a) + Low(t) + c)
  {
    NmosNibbles(High(a), High(t), Low(a), Low(t), c);
    CmosNibbles(High(a), High(t), Low(a) + Low(t) + c);
  }

  /** A difference of nibbles as one digit: ten is added below zero. */
  function DiffNibble(d: int): int {
    if d < 0 then d + 10 else d
  }

  /** CMOS subtracts any two bytes by their nibbles' differences, and borrows as the upper one does. */
  lemma CmosDifferenceOfAnything(a: Byte, t: Byte, c: Bit)
    ensures var low := Low(a) - Low(t) - (1 - c);
            var high := High(a) - High(t) - if low < 0 then 1 else 0;
            var r := CmosDifference(a, t, c);
            r.0 == (0x10 * DiffNibble(high) + DiffNibble(low)) % 0x100 && (r.1 == 1 <==> high >= 0)
  {
    var low := Low(a) - Low(t) - (1 - c);
    var high := High(a) - High(t) - if low < 0 then 1 else 0;
    CmosBytes(high, low);
  }

  lemma CmosBytes(high: int, low: int)
    requires -0x10 <= high < 0x10 && -0x10 <= low < 0x10
    ensures CmosAdjusted(0x100 + 0x10 * high, CmosLowDigit(0x10 + low))
         == (0x10 * DiffNibble(high) + DiffNibble(low)) % 0x100
  {
    var val, y := 0x100 + 0x10 * high, DiffNibble(low);
    var upper := if val < 0x100 then U16(val - 0x60) else val;
    LowDigitIs(low);
    Wrapped(if high < 0 then val - 0x60 else val, y);
    Shifted256(0x10 * DiffNibble(high) + y, if high < 0 then 0 else 1);
  }

  lemma LowDigitIs(low: int)
    requires -0x10 <= low < 0x10
    ensures CmosLowDigit(0x10 + low) == U16(DiffNibble(low))
  {
  }

  lemma Wrapped(x: int, y: int)
    ensures U16(U16(x) + U16(y)) % 0x100 == (x + y) % 0x100
    ensures U16(x + U16(y)) % 0x100 == (x + y) % 0x100
  {
    var p, q := x / 0x10000, y / 0x10000;
    Whole(U16(x) + U16(y));
    Whole(x + U16(y));
    assert U16(x) == x - 0x10000 * p && U16(y) == y - 0x10000 * q;
    Shifted256(x + y, -0x100 * (p + q));
    Shifted256(x + y, -0x100 * q);
  }

  /** Dropping whole multiples of $10000 keeps the byte. */
  lemma Whole(x: int)
    ensures U16(x) % 0x100 == x % 0x100
  {
    var q := x / 0x10000;
    assert x == 0x10000 * q + U16(x);
    Shifted256(U16(x), 0x100 * q);
  }

  lemma Shifted256(x: int, k: int)
    ensures (x + 0x100 * k) % 0x100 == x % 0x100
  {
  }

  /** NMOS does so nibble by nibble; below minus ten, where no digits reach, the lower one's borrow is lost. */
  lemma NmosDifferenceOfAnything(a: Byte, t: Byte, c: Bit)
    ensures var low := Low(a) - Low(t) - (1 - c);
            var high := High(a) - High(t) - if -10 <= low < 0 then 1 else 0;
            var r := NmosDifference(a, t, c);
            && r.0 == 0x10 * (DiffNibble(high) % 0x10) + DiffNibble(low) % 0x10
            && (r.1 == 1 <==> high >= 0 || high < -10)
  {
    var low := Low(a) - Low(t) - (1 - c);
    var high := High(a) - High(t) - if -10 <= low < 0 then 1 else 0;
    CorrectedIs(low);
    CorrectedIs(high);
    Joined'(Corrected(U16(high)), Low(Corrected(U16(low))));
  }

  lemma CorrectedIs(d: int)
    requires -0x10 <= d < 0x10
    ensures Low(Corrected(U16(d))) == DiffNibble(d) % 0x10
    ensures Bit4(Corrected(U16(d))) <==> -10 <= d < 0
  {
    if d < 0 {
      assert U16(d) == 0x10000 + d && (0x10000 + d) / 0x10 == 0xFFF;
      assert Corrected(U16(d)) == 0x10000 + d - 6;
      assert (0x10000 + d - 6) % 0x10 == (d + 10) % 0x10;
      assert (0x10000 + d - 6) / 0x10 == if d >= -10 then 0xFFF else 0xFFE;
    } else {
      assert U16(d) == d && d / 0x10 == 0;
    }
  }

  lemma Joined'(h: int, l: int)
    requires 0 <= h < 0x10000 && 0 <= l < 0x10
    ensures (h * 0x10 + l) % 0x100 == 0x10 * (h % 0x10) + l
  {
    var q, r := h / 0x10, h % 0x10;
    assert h * 0x10 + l == 0x100 * q + (0x10 * r + l);
    Shifted256(0x10 * r + l, q);
  }
}
