/** The 32-bit multiply and divide routines the compiler calls on a 68000, which only has
    16-bit ones (boot/sega.s). Registers hold u32; `.w` names their low half. */
module LongArith {

  const TWO16 := 0x1_0000
  const TWO31 := 0x8000_0000
  const TWO32 := 0x1_0000_0000

  type u32 = x: int | 0 <= x < 0x1_0000_0000

  function Lo(x: u32): (w: u32)
    ensures w < TWO16
  {
    x % TWO16
  }

  function Hi(x: u32): (w: u32)
    ensures w < TWO16 && x == w * TWO16 + Lo(x)
  {
    x / TWO16
  }

  function Swap(x: u32): u32 {
    Lo(x) * TWO16 + Hi(x)
  }

  /** clr.w */
  function ClearLo(x: u32): u32 {
    x - Lo(x)
  }

  /** move.w src,dst */
  function MoveLo(src: u32, dst: u32): u32 {
    ClearLo(dst) + Lo(src)
  }

  function Add(x: u32, y: u32): u32 {
    (x + y) % TWO32
  }

  function Neg(x: u32): u32 {
    (TWO32 - x) % TWO32
  }

  lemma MulBound(x: nat, y: nat, m: nat, n: nat)
    requires x <= m && y <= n
    ensures 0 <= x * y <= m * n
  {
    assert x * y <= m * y by {
      assert (m - x) * y >= 0;
    }
    assert m * y <= m * n by {
      assert m * (n - y) >= 0;
    }
  }

  /** mulu: the product of the low halves. */
  function Mulu(x: u32, y: u32): (p: u32)
    ensures p == Lo(x) * Lo(y)
  {
    MulBound(Lo(x), Lo(y), 0xFFFF, 0xFFFF);
    Lo(x) * Lo(y)
  }

  /** The quotient of divu does not fit its 16 bits. */
  predicate DivuOverflows(d: u32, s: u32)
    requires Lo(s) != 0
  {
    d / Lo(s) >= TWO16
  }

  /** divu: remainder in the high half, quotient in the low one; unchanged on overflow. */
  function Divu(d: u32, s: u32): u32
    requires Lo(s) != 0
  {
    if DivuOverflows(d, s) then d else d % Lo(s) * TWO16 + d / Lo(s)
  }

  // ---------------------------------------------------------- multiplication

  lemma SwapHalves(x: u32)
    ensures Lo(Swap(x)) == Hi(x) && Hi(Swap(x)) == Lo(x) && ClearLo(Swap(x)) == Lo(x) * TWO16
  {
  }

  /** i_lmul */
  method ILMul(a: u32, b: u32) returns (d0: u32)
    ensures d0 == a * b % TWO32
  {
    hide Lo, Hi, Swap, ClearLo, Mulu;
    var d2 := Mulu(b, a);
    var d3 := Swap(b);
    SwapHalves(b);
    d3 := Mulu(d3, a);
    d0 := Swap(a);
    SwapHalves(a);
    d0 := Mulu(d0, b);
    d0 := Add(d0, d3);
    ghost var sum := d0;
    d0 := Swap(d0);
    SwapHalves(sum);
    d0 := ClearLo(d0);
    d0 := Add(d0, d2);
    Schoolbook(a, b);
  }

  lemma Expand(ah: nat, al: nat, bh: nat, bl: nat)
    ensures (ah * TWO16 + al) * (bh * TWO16 + bl) == ah * bh * TWO32 + (ah * bl + bh * al) * TWO16 + bl * al
  {
    var b := bh * TWO16 + bl;
    assert (ah * TWO16 + al) * b == TWO16 * (ah * b) + al * b;
    assert ah * b == TWO16 * (ah * bh) + ah * bl;
    assert al * b == TWO16 * (bh * al) + bl * al;
  }

  lemma ModAdds(q: int, r: int)
    ensures (q * TWO32 + r) % TWO32 == r % TWO32
  {
  }

  lemma CarriesDropOut(prod: int, p: int, cross: int, k: int, h: int, l: int, low: int)
    requires prod == p * TWO32 + cross * TWO16 + low && cross == k * TWO32 + (h * TWO16 + l)
    ensures prod % TWO32 == (l * TWO16 + low) % TWO32
  {
    assert prod == (p + k * TWO16 + h) * TWO32 + (l * TWO16 + low);
    ModAdds(p + k * TWO16 + h, l * TWO16 + low);
  }

  lemma Schoolbook(a: u32, b: u32)
    ensures 0 <= Hi(a) * Lo(b) + Hi(b) * Lo(a)
    ensures var sum: u32 := (Hi(a) * Lo(b) + Hi(b) * Lo(a)) % TWO32;
            (Lo(sum) * TWO16 + Lo(b) * Lo(a)) % TWO32 == a * b % TWO32
  {
    hide Lo, Hi;
    var ah: int, al: int, bh: int, bl: int := Hi(a), Lo(a), Hi(b), Lo(b);
    MulBound(ah, bl, TWO16, TWO16);
    MulBound(bh, al, TWO16, TWO16);
    var cross: int := ah * bl + bh * al;
    var sum: u32, k: int := cross % TWO32, cross / TWO32;
    Expand(ah, al, bh, bl);
    CarriesDropOut(a * b, ah * bh, cross, k, Hi(sum), Lo(sum), bl * al);
  }

  // ---------------------------------------------------------------- division

  /** `Spins`: the routine never returns. */
  datatype Division = Quotient(q: u32, r: u32) | Spins

  lemma MulStep(b: nat, x: nat, y: nat)
    requires x < y
    ensures b * x + b <= b * y
  {
    var k: nat := y - x - 1;
    NotNegative(b, k);
    assert b * y == b * (x + 1 + k) == b * x + b + b * k;
  }

  lemma NotNegative(b: nat, k: nat)
    ensures b * k >= 0
  {
  }

  lemma DivUnique(a: nat, b: nat, q: nat, r: nat)
    requires a == b * q + r && r < b
    ensures q == a / b && r == a % b
  {
    var q', r' := a / b, a % b;
    assert a == b * q' + r' && 0 <= r' < b;
    if q < q' {
      MulStep(b, q, q');
    } else if q > q' {
      MulStep(b, q', q);
    }
  }

  lemma DivBelow(d: nat, s: nat, n: nat)
    requires 0 < s && d < s * n
    ensures d / s < n
  {
    if d / s >= n {
      MulBound(s, n, s, d / s);
    }
  }

  lemma Words(h: nat, l: nat)
    requires h < TWO16 && l < TWO16
    ensures Hi(h * TWO16 + l) == h && Lo(h * TWO16 + l) == l
  {
  }

  /** A divu whose dividend is below 2^16 times the divisor does not overflow. */
  lemma DivuFits(d: u32, s: u32)
    requires 0 < s < TWO16 && d < s * TWO16
    ensures Lo(s) == s && !DivuOverflows(d, s)
    ensures Lo(Divu(d, s)) == d / s && Hi(Divu(d, s)) == d % s
  {
    assert Lo(s) == s;
    DivBelow(d, s, TWO16);
    var h: nat, l: nat := d % s, d / s;
    Words(h, l);
  }

  /** The dividend fits 16 bits: one divu. */
  method DivideShort(a: u32, b: u32) returns (out: Division)
    requires 1 < b < a < TWO16
    ensures out == Quotient(a / b, a % b)
  {
    hide Lo, Hi, Divu, DivuOverflows;
    DivuFits(a, b);
    var d0 := Divu(a, b);
    SwapHalves(d0);
    d0 := Swap(d0);
    var d1 := MoveLo(d0, 0);
    ghost var h, l := Hi(d0), Lo(d0);
    d0 := ClearLo(d0);
    d0 := Swap(d0);
    assert d0 == h && d1 == l by { Cleared(h, l); }
    out := Quotient(d0, d1);
  }

  lemma Cleared(h: u32, l: u32)
    requires h < TWO16 && l < TWO16
    ensures Swap(ClearLo(h * TWO16 + l)) == h && MoveLo(h * TWO16 + l, 0) == l
  {
    Words(h, 0);
    Words(h, l);
  }

  /** The divisor fits 16 bits: long division with two digits to base 2^16. */
  method DivideTwoDigits(a: u32, b: u32) returns (out: Division)
    requires 1 < b < TWO16 <= a
    ensures out == Quotient(a / b, a % b)
  {
    hide Lo, Hi;
    var d2, d3 := HighDigit(a, b);
    var d0, d1 := LowDigit(a, b, d2);
    assert d0 as int + d3 as int == a / b && d1 == a % b by {
      DivMod(Hi(a), b);
      DivMod(Hi(d2) * TWO16 + Lo(a), b);
      TwoDigits(Hi(a), Lo(a), b, Hi(a) / b, Hi(d2), d0, d1);
    }
    QuotientNotAbove(a, b);
    d0 := Add(d0, d3);
    out := Quotient(d0, d1);
  }

  /** The high digit of the quotient in d3, shifted; its remainder in the high half of d2. */
  method HighDigit(a: u32, b: u32) returns (d2: u32, d3: u32)
    requires 1 < b < TWO16
    ensures d3 == Hi(a) / b * TWO16 && Hi(d2) == Hi(a) % b
  {
    hide Lo, Hi, Divu, DivuOverflows, Swap, ClearLo, MoveLo;
    d2 := ClearLo(a);
    d2 := Swap(d2);
    UpperDigit(a);
    HighDigitSmall(a, b);
    DivuFits(d2, b);
    d2 := Divu(d2, b);
    d3 := MoveLo(d2, 0);
    d3 := Swap(d3);
    Lifted(d2);
  }

  method LowDigit(a: u32, b: u32, rem: u32) returns (d0: u32, d1: u32)
    requires 1 < b < TWO16 && Hi(rem) < b
    ensures var low := Hi(rem) * TWO16 + Lo(a); d0 == low / b && d1 == low % b
  {
    hide Lo, Hi, Divu, DivuOverflows, Swap, ClearLo, MoveLo;
    var d2 := MoveLo(a, rem);
    Joined(a, rem);
    LowDigitSmall(Hi(rem), Lo(a), b);
    DivuFits(d2, b);
    d2 := Divu(d2, b);
    d1 := ClearLo(d2);
    d1 := Swap(d1);
    UpperDigit(d2);
    d0 := MoveLo(d2, 0);
    Lifted(d2);
  }

  lemma QuotientNotAbove(a: nat, b: nat)
    requires b > 0
    ensures a / b <= a
  {
    MulBound(1, a / b, b, a / b);
  }

  lemma UpperDigit(x: u32)
    ensures Swap(ClearLo(x)) == Hi(x)
  {
  }

  lemma Lifted(x: u32)
    ensures MoveLo(x, 0) == Lo(x) && Swap(MoveLo(x, 0)) == Lo(x) * TWO16
  {
  }

  lemma Joined(x: u32, y: u32)
    ensures MoveLo(x, y) == Hi(y) * TWO16 + Lo(x)
  {
  }

  lemma HighDigitSmall(a: u32, b: u32)
    requires 1 < b < TWO16
    ensures Hi(a) < b * TWO16
  {
  }

  lemma LowDigitSmall(rem: nat, low: nat, b: nat)
    requires rem < b && low < TWO16
    ensures rem * TWO16 + low < b * TWO16
  {
  }

  lemma DivMod(x: nat, b: nat)
    requires b > 0
    ensures x == b * (x / b) + x % b && 0 <= x % b < b
  {
  }

  /** Schoolbook division of ah * 2^16 + al by b. */
  lemma TwoDigits(ah: nat, al: nat, b: nat, qh: nat, rh: nat, ql: nat, rl: nat)
    requires ah == b * qh + rh && rh < b
    requires rh * TWO16 + al == b * ql + rl && rl < b
    ensures (ah * TWO16 + al) / b == qh * TWO16 + ql && (ah * TWO16 + al) % b == rl
  {
    var a := ah * TWO16 + al;
    assert a == b * (qh * TWO16 + ql) + rl by {
      assert b * (qh * TWO16 + ql) == b * qh * TWO16 + b * ql;
    }
    DivUnique(a, b, qh * TWO16 + ql, rl);
  }

  // --------------------------------------------------- shift and subtract

  predicate PowerOf2(n: nat) {
    n == 1 || (n > 1 && n % 2 == 0 && PowerOf2(n / 2))
  }

  /** or.l, bit by bit. */
  function Or(x: nat, y: nat): nat {
    if x == 0 && y == 0 then 0
    else 2 * Or(x / 2, y / 2) + if x % 2 == 1 || y % 2 == 1 then 1 else 0
  }

  /** A bit set below all the others is added. */
  lemma {:induction false} OrAdds(x: nat, bit: nat)
    requires PowerOf2(bit) && x % (2 * bit) == 0
    ensures Or(x, bit) == x + bit
    decreases bit
  {
    if bit == 1 {
      OrZero(x / 2);
    } else {
      Halves(x, bit);
      OrAdds(x / 2, bit / 2);
    }
  }

  lemma {:induction false} OrZero(x: nat)
    ensures Or(x, 0) == x
  {
    if x != 0 {
      OrZero(x / 2);
    }
  }

  lemma Halves(x: nat, bit: nat)
    requires bit > 1 && bit % 2 == 0 && x % (2 * bit) == 0
    ensures x % 2 == 0 && x / 2 % bit == 0
  {
    var k := x / (2 * bit);
    assert x == 2 * bit * k;
    assert x == 2 * (bit * k);
    assert x / 2 == bit * k;
    ModTimes(bit, k);
  }

  lemma ModTimes(b: nat, k: nat)
    requires b > 0
    ensures b * k % b == 0
  {
    DivUnique(b * k, b, k, 0);
  }

  /** Both loops keep the shifted divisor d1 the divisor times d2. */
  predicate Shifted(b: u32, d1: u32, d2: u32) {
    PowerOf2(d2) && d1 as int == b * d2
  }

  lemma ShiftedUp(b: u32, d1: u32, d2: u32)
    requires Shifted(b, d1, d2) && 1 <= b && d1 < TWO31
    ensures Add(d1, d1) as int == 2 * d1 && Shifted(b, Add(d1, d1), Add(d2, d2)) && d1 >= 1
  {
    MulBound(1, d2, b, d2);
    assert 1 * d2 == d2;
    assert b * (2 * d2) == 2 * (b * d2);
  }

  lemma ShiftedDown(b: u32, d1: u32, d2: u32)
    requires Shifted(b, d1, d2) && d2 > 1
    ensures d1 % 2 == 0 && Shifted(b, d1 / 2, d2 / 2)
  {
    assert b * d2 == 2 * (b * (d2 / 2));
  }

  /** A divisor with its sign bit set has lost that bit after the first shift. */
  predicate Lost(b: u32, d1: u32, d2: u32) {
    if d2 == 1 then d1 == b else PowerOf2(d2) && 0 < d1 < TWO31 && d2 <= d1
  }

  lemma LostUp(b: u32, d1: u32, d2: u32)
    requires b > TWO31 && Lost(b, d1, d2)
    ensures PowerOf2(Add(d2, d2)) && Add(d2, d2) % 2 == 0
    ensures Add(d1, d1) != 0 && Add(d2, d2) <= Add(d1, d1)
    ensures Add(d1, d1) < TWO31 ==> Lost(b, Add(d1, d1), Add(d2, d2))
    ensures d2 > 1 ==> Add(d1, d1) > d1
  {
    if d2 == 1 {
      assert PowerOf2(1) && PowerOf2(2);
    } else {
      assert Add(d2, d2) as int == 2 * d2;
    }
  }

  /** moreadj: shifts the divisor, and a one with it, until it is not below the dividend or its
      sign bit is set. Once it has become 0 it goes on for ever. */
  method ShiftUp(a: u32, b: u32) returns (d1: u32, d2: u32, spins: bool)
    requires TWO16 <= b < a
    ensures spins <==> b == TWO31
    ensures b < TWO31 ==> Shifted(b, d1, d2) && a as int < 2 * d1
    ensures b > TWO31 ==> PowerOf2(d2) && d2 % 2 == 0 && d2 <= d1
  {
    hide PowerOf2;
    assert PowerOf2(1) by { OneIsPower(); }
    d1, d2, spins := b, 1, false;
    while d1 < a
      invariant b < TWO31 ==> Shifted(b, d1, d2) && 0 < d1 < TWO31
      invariant b == TWO31 ==> d1 == b
      invariant b > TWO31 ==> Lost(b, d1, d2)
      decreases if b > TWO31 && d2 == 1 then 1 else 0, TWO32 - d1
    {
      if b < TWO31 {
        ShiftedUp(b, d1, d2);
      } else if b > TWO31 {
        LostUp(b, d1, d2);
      }
      d2 := Add(d2, d2);
      d1 := Add(d1, d1);
      if d1 == 0 {
        spins := true;
        return;
      }
      if d1 >= TWO31 {
        break;
      }
    }
  }

  lemma OneIsPower()
    ensures PowerOf2(1)
  {
  }

  /** The bits of the quotient found so far lie above d2. */
  predicate BitsAbove(q: nat, d2: nat) {
    d2 > 0 ==> q % (2 * d2) == 0
  }

  lemma NextBit(q: nat, d2: nat)
    requires PowerOf2(d2) && BitsAbove(q, d2)
    ensures Or(q, d2) == q + d2
    ensures BitsAbove(q, d2 / 2) && BitsAbove(q + d2, d2 / 2)
  {
    OrAdds(q, d2);
    if d2 > 1 {
      EvenMultiple(q, d2);
      assert 2 * (d2 / 2) == d2;
    }
  }

  lemma EvenMultiple(q: nat, d: nat)
    requires d > 0 && q % (2 * d) == 0
    ensures q % d == 0 && (q + d) % d == 0
  {
    var k := q / (2 * d);
    DivMod(q, 2 * d);
    Regroup(d, k);
    ModTimes(d, 2 * k);
    ModTimes(d, 2 * k + 1);
  }

  lemma Regroup(d: nat, k: nat)
    ensures 2 * d * k == d * (2 * k) && d * (2 * k + 1) == d * (2 * k) + d
  {
  }

  /** adj: subtracts the shifted divisor where it fits, and shifts it back, until the one that
      was shifted with it drops out. */
  method ShiftDown(a: u32, b: u32, top: u32, one: u32) returns (q: u32, r: u32)
    requires PowerOf2(one) && one <= top && 1 < b < a
    requires if b < TWO31 then Shifted(b, top, one) && a as int < 2 * top else one % 2 == 0
    ensures b < TWO31 ==> a as int == b * q + r && r < b
    ensures b >= TWO31 ==> !(q == 1 && r == a - b)
  {
    hide PowerOf2;
    var d1: u32, d2: u32 := top, one;
    q, r := 0, a;
    assert one > 0 && BitsAbove(0, one) by { PowerPositive(one); ModTimes(2 * one, 0); }
    while d2 != 0
      invariant d2 > 0 ==> PowerOf2(d2)
      invariant d2 <= d1 && r as int + q <= a && BitsAbove(q, d2)
      invariant b < TWO31 ==> a as int == b * q + r &&
                              if d2 > 0 then Shifted(b, d1, d2) && r as int < 2 * d1 else r < b
      invariant b >= TWO31 ==> (d2 == 1 ==> d1 < TWO31)
      invariant b >= TWO31 ==> if d2 > 0 then q == 0 ==> r == a else !(q == 1 && r == a - b)
      decreases d2
    {
      NextBit(q, d2);
      PowerHalves(d2);
      assert b * (q as int + d2) == b * q + b * d2;
      if b < TWO31 && d2 > 1 {
        ShiftedDown(b, d1, d2);
      }
      if d1 <= r {
        q := Or(q, d2);
        r := r - d1;
      }
      d1 := d1 / 2;
      d2 := d2 / 2;
    }
  }

  lemma PowerPositive(n: nat)
    requires PowerOf2(n)
    ensures n > 0
  {
  }

  lemma PowerHalves(n: nat)
    requires PowerOf2(n)
    ensures n > 0 && (n > 1 ==> n % 2 == 0 && PowerOf2(n / 2))
  {
  }

  // ------------------------------------------------------------ the routines

  predicate IsDivision(a: nat, b: nat, out: Division) {
    out.Quotient? && a == b * out.q + out.r && out.r < b
  }

  lemma IsDivisionIff(a: u32, b: u32, out: Division)
    requires b != 0
    ensures IsDivision(a, b, out) <==> a / b < TWO32 && out == Quotient(a / b, a % b)
  {
    QuotientNotAbove(a, b);
    DivMod(a, b);
    if IsDivision(a, b, out) {
      DivUnique(a, b, out.q, out.r);
    }
  }

  /** i_ldiv. For a divisor other than zero the answer is the quotient and the remainder if and
      only if the divisor is below 2^31 or not below the dividend; else the shifts lose its top
      bit, and with a divisor of exactly 2^31 they never end. */
  method ILDiv(a: u32, b: u32) returns (out: Division)
    ensures b == 0 ==> out == Quotient(TWO31, TWO31)
    ensures b != 0 ==> (IsDivision(a, b, out) <==> b < TWO31 || a <= b)
    ensures out == Spins <==> b == TWO31 < a
  {
    hide IsDivision;
    if b == 0 {
      out := Quotient(TWO31, TWO31);
    } else if a < b {
      DivUnique(a, b, 0, a);
      out := Quotient(0, a);
    } else if a == b {
      DivUnique(a, b, 1, 0);
      out := Quotient(1, 0);
    } else if b == 1 {
      out := Quotient(a, 0);
    } else if a <= 0xFFFF {
      out := DivideShort(a, b);
    } else if b <= 0xFFFF {
      out := DivideTwoDigits(a, b);
    } else {
      var d1, d2, spins := ShiftUp(a, b);
      if spins {
        out := Spins;
      } else {
        OneNotAboveTop(b, d1, d2);
        var q, r := ShiftDown(a, b, d1, d2);
        if b < TWO31 {
          DivUnique(a, b, q, r);
        } else {
          DivUnique(a, b, 1, a - b);
        }
        out := Quotient(q, r);
      }
    }
    if b != 0 {
      IsDivisionIff(a, b, out);
    }
  }

  lemma OneNotAboveTop(b: u32, d1: u32, d2: u32)
    requires b > 0
    ensures Shifted(b, d1, d2) ==> d2 <= d1
  {
    MulBound(1, d2, b, d2);
  }

  /** The signed value of a register, and back. */
  function Signed(x: u32): int {
    if x < TWO31 then x else x - TWO32
  }

  function Unsigned(v: int): u32 {
    v % TWO32
  }

  function Abs(v: int): nat {
    if v < 0 then -v else v
  }

  function WithSign(negative: bool, v: int): int {
    if negative then -v else v
  }

  /** Division as C defines it: towards zero, the remainder with the sign of the dividend. */
  function TruncDiv(a: int, b: int): int
    requires b != 0
  {
    WithSign((a < 0) != (b < 0), Abs(a) / Abs(b))
  }

  function TruncRem(a: int, b: int): int
    requires b != 0
  {
    WithSign(a < 0, Abs(a) % Abs(b))
  }

  lemma TruncIsDivision(a: int, b: int)
    requires b != 0
    ensures a == b * TruncDiv(a, b) + TruncRem(a, b) && Abs(TruncRem(a, b)) < Abs(b)
  {
    DivMod(Abs(a), Abs(b));
    ProductSigns(b, Abs(a) / Abs(b));
  }

  lemma ProductSigns(b: int, q: int)
    ensures b * -q == -(b * q) && -b * q == -(b * q)
  {
  }

  lemma Magnitude(x: u32)
    ensures (if x >= TWO31 then Neg(x) else x) == Abs(Signed(x)) <= TWO31
  {
  }

  lemma ModUnique(v: int, k: int, r: u32)
    requires v == k * TWO32 + r
    ensures v % TWO32 == r
  {
  }

  lemma NegIsMinus(x: u32, v: int)
    requires x == Unsigned(v)
    ensures Neg(x) == Unsigned(-v)
  {
    var k := v / TWO32;
    if x != 0 {
      ModUnique(-v, -k - 1, TWO32 - x);
    } else {
      ModUnique(-v, -k, 0);
    }
  }

  /** ldiv; the byte at 4(%a7) whose top bit holds the sign is `negative`. */
  method LDiv(a: u32, b: u32) returns (d0: u32)
    ensures b != 0 ==> d0 == Unsigned(TruncDiv(Signed(a), Signed(b)))
    ensures b == 0 ==> d0 == TWO31
  {
    hide Abs, Signed, Neg;
    var negative := a >= TWO31;
    d0 := if a >= TWO31 then Neg(a) else a;
    var d1 := b;
    if b >= TWO31 {
      d1 := Neg(b);
      negative := !negative;
    }
    Magnitude(a);
    Magnitude(b);
    var out := ILDiv(d0, d1);
    if d1 != 0 {
      IsDivisionIff(d0, d1, out);
    }
    SignBits(a);
    SignBits(b);
    d0 := out.q;
    if negative {
      NegIsMinus(d0, d0);
      d0 := Neg(d0);
    }
  }

  lemma SignBits(x: u32)
    ensures x >= TWO31 <==> Signed(x) < 0
    ensures x == 0 <==> Abs(Signed(x)) == 0
    ensures Neg(TWO31) == TWO31
  {
  }

  /** lrem */
  method LRem(a: u32, b: u32) returns (d0: u32)
    ensures b != 0 ==> d0 == Unsigned(TruncRem(Signed(a), Signed(b)))
  {
    hide Abs, Signed, Neg;
    d0 := if a >= TWO31 then Neg(a) else a;
    var d1 := if b >= TWO31 then Neg(b) else b;
    Magnitude(a);
    Magnitude(b);
    var out := ILDiv(d0, d1);
    if d1 != 0 {
      IsDivisionIff(d0, d1, out);
    }
    SignBits(a);
    SignBits(b);
    d0 := out.r;
    if a >= TWO31 {
      NegIsMinus(d0, d0);
      d0 := Neg(d0);
    }
  }

  /** lmul */
  method LMul(a: u32, b: u32) returns (d0: u32)
    ensures d0 == Unsigned(Signed(a) * Signed(b))
  {
    hide Abs, Signed, Neg;
    var negative := a >= TWO31;
    d0 := if a >= TWO31 then Neg(a) else a;
    var d1 := b;
    if b >= TWO31 {
      d1 := Neg(b);
      negative := !negative;
    }
    Magnitude(a);
    Magnitude(b);
    ghost var product: int := Abs(Signed(a)) * Abs(Signed(b));
    d0 := ILMul(d0, d1);
    SignsMultiply(a, b);
    if negative {
      NegIsMinus(d0, product);
      d0 := Neg(d0);
    }
  }

  lemma SignsMultiply(a: u32, b: u32)
    ensures Signed(a) * Signed(b) == WithSign((a >= TWO31) != (b >= TWO31), Abs(Signed(a)) * Abs(Signed(b)))
  {
    var x, y := Signed(a), Signed(b);
    assert (-x) * (-y) == x * y && (-x) * y == -(x * y) && x * (-y) == -(x * y);
  }
}
