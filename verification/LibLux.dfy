/** The 64-bit support library: arithmetic built from 32-bit and 16-bit words. */
module LibLux {

  const TWO16 := 0x1_0000
  const TWO32 := 0x1_0000_0000
  const TWO63 := 0x8000_0000_0000_0000
  const TWO64 := 0x1_0000_0000_0000_0000

  type Half = h: int | 0 <= h < TWO16
  type Word = w: int | 0 <= w < TWO32
  type DWord = d: int | 0 <= d < TWO64

  /** The union's two-word view; lo is d.i[0]. */
  datatype LongLong = LongLong(lo: Word, hi: Word)
  {
    function Val(): DWord { hi * TWO32 + lo }

    function Signed(): int { AsSigned(Val()) }
  }

  /** The two's-complement reading of 64 bits, and back. */
  function AsSigned(v: DWord): int { if v < TWO63 then v else v - TWO64 }

  function Pattern(x: int): DWord { x % TWO64 }

  function Split(v: DWord): (r: LongLong)
    ensures r.Val() == v
  {
    LongLong(v % TWO32, v / TWO32)
  }

  function Pow2(n: nat): (p: nat)
    ensures p >= 1
  {
    if n == 0 then 1 else 2 * Pow2(n - 1)
  }

  lemma {:induction false} Pow2Add(m: nat, n: nat)
    ensures Pow2(m + n) == Pow2(m) * Pow2(n)
  {
    if m > 0 {
      Pow2Add(m - 1, n);
      assert m - 1 + n == m + n - 1;
    }
  }

  lemma Pow2Values()
    ensures Pow2(62) == TWO63 / 2 && Pow2(63) == TWO63 && Pow2(64) == TWO64
  {
    assert Pow2(4) == 16;
    hide Pow2;
    Pow2Twice(4, 16);
    Pow2Twice(8, 0x100);
    Pow2Twice(16, 0x1_0000);
    Pow2Twice(32, 0x1_0000_0000);
    Pow2Succ(62);
    Pow2Succ(63);
  }

  lemma Pow2Twice(n: nat, v: nat)
    requires Pow2(n) == v
    ensures Pow2(2 * n) == v * v
  {
    Pow2Add(n, n);
  }

  // ------------------------------------------------------------------
  // Comparison
  // ------------------------------------------------------------------

  const CMP_LT := 4
  const CMP_EQ := 1
  const CMP_GT := 2

  method UCmp64(a: LongLong, b: LongLong) returns (r: int)
    ensures r == if a.Val() > b.Val() then CMP_GT else if a.Val() < b.Val() then CMP_LT else CMP_EQ
  {
    if a.hi > b.hi { return CMP_GT; }
    if a.hi < b.hi { return CMP_LT; }
    if a.lo > b.lo { return CMP_GT; }
    if a.lo < b.lo { return CMP_LT; }
    return CMP_EQ;
  }

  method SCmp64(a: LongLong, b: LongLong) returns (r: int)
    ensures r == if a.Signed() > b.Signed() then CMP_GT else if a.Signed() < b.Signed() then CMP_LT else CMP_EQ
  {
    var sa, sb := a.hi >= 0x8000_0000, b.hi >= 0x8000_0000;
    if sa != sb {
      return if sa then CMP_LT else CMP_GT;
    }
    r := UCmp64(a, b);
  }

  // ------------------------------------------------------------------
  // Shifts
  // ------------------------------------------------------------------

  lemma ModDouble(x: int, y: int)
    requires y == x % TWO64
    ensures 2 * y % TWO64 == 2 * x % TWO64
  {
    assert 2 * x == 2 * y + TWO64 * (2 * (x / TWO64));
  }

  lemma DivHalve(x: int, p: nat)
    requires p >= 1
    ensures x / p / 2 == x / (2 * p)
  {
    var q, h := x / p, x / p / 2;
    assert x == p * q + x % p;
    assert q == 2 * h + q % 2;
    assert x == (2 * p) * h + (p * (q % 2) + x % p) by {
      assert p * q == p * (2 * h) + p * (q % 2);
      assert p * (2 * h) == (2 * p) * h;
    }
    var rest := p * (q % 2) + x % p;
    assert 0 <= rest < 2 * p by {
      assert q % 2 == 0 || q % 2 == 1;
    }
    DivUnique(x, 2 * p, h, rest);
  }

  lemma DivUnique(x: int, d: nat, q: int, r: int)
    requires d >= 1 && x == d * q + r && 0 <= r < d
    ensures x / d == q && x % d == r
  {
    var q', r' := x / d, x % d;
    assert x == d * q' + r';
    MulGap(d, q, q');
    MulGap(d, q', q);
  }

  lemma MulGap(d: nat, q: int, q': int)
    ensures q >= q' + 1 ==> d * q >= d * q' + d
  {
    if q >= q' + 1 {
      var k := q - q' - 1;
      assert d * k >= 0;
      assert d * q == d * q' + d + d * k by {
        assert q == q' + 1 + k;
      }
    }
  }

  /** One position to the left, word by word. */
  function ShlStep(r: LongLong): (r': LongLong)
    ensures r'.Val() == 2 * r.Val() % TWO64
  {
    var hob := if r.lo >= 0x8000_0000 then 1 else 0;
    var r' := LongLong(2 * r.lo % TWO32, (2 * r.hi % TWO32 + hob) % TWO32);
    assert 2 * r.lo == hob * TWO32 + r'.lo;
    assert 2 * r.hi + hob == (if r.hi >= 0x8000_0000 then TWO32 else 0) + r'.hi;
    r'
  }

  /** One position to the right, word by word. */
  function UShrStep(r: LongLong): (r': LongLong)
    ensures r'.Val() == r.Val() / 2
  {
    var lob := r.hi % 2;
    LongLong((r.lo / 2 + lob * 0x8000_0000) % TWO32, r.hi / 2)
  }

  /** The same with the sign bit copied down. */
  function SShrStep(r: LongLong): (r': LongLong)
    ensures r'.Signed() == r.Signed() / 2
  {
    var lob := r.hi % 2;
    var hi := if r.hi < 0x8000_0000 then r.hi / 2 else r.hi / 2 + 0x8000_0000;
    LongLong((r.lo / 2 + lob * 0x8000_0000) % TWO32, hi)
  }

  lemma DoubleProduct(x: int, n: nat)
    ensures 2 * (x * Pow2(n)) == x * Pow2(n + 1)
  {
    assert 2 * (x * Pow2(n)) == x * (2 * Pow2(n));
  }

  method Shl64(a: LongLong, n: int) returns (r: LongLong)
    ensures n <= 0 ==> r == a
    ensures n > 0 ==> r.Val() == a.Val() * Pow2(n) % TWO64
  {
    hide LongLong.Val, Pow2, ShlStep;
    r := a;
    if n <= 0 {
      return;
    }
    assert a.Val() * Pow2(0) == a.Val() by { Pow2Zero(); }
    for k := 0 to n
      invariant r.Val() == a.Val() * Pow2(k) % TWO64
    {
      DoubleProduct(a.Val(), k);
      ModDouble(a.Val() * Pow2(k), r.Val());
      r := ShlStep(r);
    }
  }

  lemma Pow2Zero()
    ensures Pow2(0) == 1
  {
  }

  /** Rounds down, unsigned. */
  method UShr64(a: LongLong, n: int) returns (r: LongLong)
    ensures n <= 0 ==> r == a
    ensures n > 0 ==> r.Val() == a.Val() / Pow2(n)
  {
    hide LongLong.Val, UShrStep;
    r := a;
    if n <= 0 {
      return;
    }
    for k := 0 to n
      invariant r.Val() == a.Val() / Pow2(k)
    {
      DivHalve(a.Val(), Pow2(k));
      r := UShrStep(r);
    }
  }

  /** Rounds down, signed. */
  method SShr64(a: LongLong, n: int) returns (r: LongLong)
    ensures n <= 0 ==> r == a
    ensures n > 0 ==> r.Signed() == a.Signed() / Pow2(n)
  {
    hide LongLong.Signed, SShrStep;
    r := a;
    if n <= 0 {
      return;
    }
    for k := 0 to n
      invariant r.Signed() == a.Signed() / Pow2(k)
    {
      DivHalve(a.Signed(), Pow2(k));
      r := SShrStep(r);
    }
  }

  // ------------------------------------------------------------------
  // Multiplication
  // ------------------------------------------------------------------

  /** The four 16-bit halves, least significant first. */
  function S(a: LongLong, k: nat): Half
    requires k < 4
  {
    if k == 0 then a.lo % TWO16 else if k == 1 then a.lo / TWO16 else if k == 2 then a.hi % TWO16 else a.hi / TWO16
  }

  const TWO48 := 0x1_0000_0000_0000

  lemma Halves(a: LongLong)
    ensures a.Val() == S(a, 0) + TWO16 * S(a, 1) + TWO32 * S(a, 2) + TWO48 * S(a, 3)
  {
  }

  /** A product, kept atomic so that the sums below stay linear. */
  function Times(x: int, y: int): int { x * y }

  lemma TimesMono(x: int, y: int, z: int)
    requires 0 <= x && 0 <= y <= z
    ensures 0 <= Times(x, y) <= Times(x, z)
  {
    var d := z - y;
    assert x * d >= 0;
    assert x * z == x * y + x * d;
  }

  /** A 16-by-16-bit product as stored in 32 bits: nothing is lost. */
  function MulHalf(x: Half, y: Half): (p: Word)
    ensures p == Times(x, y)
  {
    TimesMono(x, y, TWO16 - 1);
    assert Times(x, TWO16 - 1) == (TWO16 - 1) * x;
    hide Times;
    Times(x, y) % TWO32
  }

  lemma Row(x: int, b0: int, b1: int, b2: int, b3: int)
    ensures Times(x, b0 + TWO16 * b1 + TWO32 * b2 + TWO48 * b3)
         == Times(x, b0) + TWO16 * Times(x, b1) + TWO32 * Times(x, b2) + TWO48 * Times(x, b3)
  {
  }

  lemma Rows(a0: int, a1: int, a2: int, a3: int, b: int)
    ensures Times(a0 + TWO16 * a1 + TWO32 * a2 + TWO48 * a3, b)
         == Times(a0, b) + TWO16 * Times(a1, b) + TWO32 * Times(a2, b) + TWO48 * Times(a3, b)
  {
  }

  /** The low 16 bits of a product, in the top 16 bits of the word. */
  function Top(x: nat): DWord { TWO48 * (x % TWO16) }

  lemma TopMod(x: nat)
    ensures Top(x) == TWO48 * x - TWO64 * (x / TWO16)
  {
  }

  lemma ModAdd(x: int, y: int)
    ensures (x % TWO64 + y) % TWO64 == (x + y) % TWO64
  {
  }

  lemma ModMultiple(x: int, k: int)
    ensures (x + TWO64 * k) % TWO64 == x % TWO64
  {
  }

  /** The products of one half of a: those that reach no column beyond the fourth. */
  function Row0(a: LongLong, b: LongLong): int {
    MulHalf(S(a, 0), S(b, 0)) + TWO16 * MulHalf(S(a, 0), S(b, 1)) + TWO32 * MulHalf(S(a, 0), S(b, 2))
    + Top(MulHalf(S(a, 0), S(b, 3)))
  }

  function Row1(a: LongLong, b: LongLong): int {
    TWO16 * MulHalf(S(a, 1), S(b, 0)) + TWO32 * MulHalf(S(a, 1), S(b, 1)) + Top(MulHalf(S(a, 1), S(b, 2)))
  }

  function Row2(a: LongLong, b: LongLong): int {
    TWO32 * MulHalf(S(a, 2), S(b, 0)) + Top(MulHalf(S(a, 2), S(b, 1)))
  }

  function Row3(a: LongLong, b: LongLong): int { Top(MulHalf(S(a, 3), S(b, 0))) }

  /** The ten partial products, summed in 64-bit words. */
  method Mul64(a: LongLong, b: LongLong) returns (r: LongLong)
    ensures r.Val() == Pattern(Times(a.Val(), b.Val()))
  {
    hide Row0, Row1, Row2, Row3, LongLong.Val, Times, Pattern;
    var sum := Pattern(Row0(a, b));
    sum := Pattern(sum + Row1(a, b));
    sum := Pattern(sum + Row2(a, b));
    sum := Pattern(sum + Row3(a, b));
    SumMod(Row0(a, b), Row1(a, b), Row2(a, b), Row3(a, b));
    PartialProducts(a, b, Row0(a, b), Row1(a, b), Row2(a, b), Row3(a, b));
    r := Split(sum);
  }

  lemma SumMod(t0: int, t1: int, t2: int, t3: int)
    ensures Pattern(Pattern(Pattern(Pattern(t0) + t1) + t2) + t3) == Pattern(t0 + t1 + t2 + t3)
  {
    ModAdd(t0, t1);
    ModAdd(t0 + t1, t2);
    ModAdd(t0 + t1 + t2, t3);
  }

  /** Everything from the fifth column of the long multiplication on vanishes mod 2^64. */
  lemma PartialProducts(a: LongLong, b: LongLong, t0: int, t1: int, t2: int, t3: int)
    requires t0 == Row0(a, b) && t1 == Row1(a, b) && t2 == Row2(a, b) && t3 == Row3(a, b)
    ensures Pattern(t0 + t1 + t2 + t3) == Pattern(Times(a.Val(), b.Val()))
  {
    var a0, a1, a2, a3 := S(a, 0), S(a, 1), S(a, 2), S(a, 3);
    var b0, b1, b2, b3 := S(b, 0), S(b, 1), S(b, 2), S(b, 3);
    Halves(a);
    Halves(b);
    Rows(a0, a1, a2, a3, b.Val());
    Row(a0, b0, b1, b2, b3);
    Row(a1, b0, b1, b2, b3);
    Row(a2, b0, b1, b2, b3);
    Row(a3, b0, b1, b2, b3);
    TopMod(MulHalf(a0, b3));
    TopMod(MulHalf(a1, b2));
    TopMod(MulHalf(a2, b1));
    TopMod(MulHalf(a3, b0));
    hide S, Top, LongLong.Val, Times;
    var k := Times(a1, b3) + Times(a2, b2) + Times(a3, b1) + TWO16 * (Times(a2, b3) + Times(a3, b2))
        + TWO32 * Times(a3, b3)
           + MulHalf(a0, b3) / TWO16 + MulHalf(a1, b2) / TWO16 + MulHalf(a2, b1) / TWO16 + MulHalf(a3, b0) / TWO16;
    assert Times(a.Val(), b.Val()) == t0 + t1 + t2 + t3 + TWO64 * k;
    ModMultiple(t0 + t1 + t2 + t3, k);
  }

  // ------------------------------------------------------------------
  // Division
  // ------------------------------------------------------------------

  function Bit(a: nat, i: nat): nat { a / Pow2(i) % 2 }

  /** q |= 1 << i. */
  function SetBit(q: DWord, i: nat): DWord { if Bit(q, i) == 1 then q else (q + Pow2(i)) % TWO64 }

  predicate GreaterEq(signed: bool, r: DWord, b: DWord) {
    if signed then AsSigned(r) >= AsSigned(b) else r >= b
  }

  /** One position of the bit-serial division: quotient and remainder so far. */
  function DivStep(signed: bool, a: DWord, b: DWord, i: nat, q: DWord, r: DWord): (DWord, DWord) {
    var r' := (2 * r % TWO64 + Bit(a, i)) % TWO64;
    if GreaterEq(signed, r', b) then (SetBit(q, i), (r' - b) % TWO64) else (q, r')
  }

  /** After the positions 63 down to i. */
  ghost function DivState(signed: bool, a: DWord, b: DWord, i: nat): (DWord, DWord)
    requires i <= 64
    decreases 64 - i
  {
    if i == 64 then (0, 0)
    else var (q, r) := DivState(signed, a, b, i + 1); DivStep(signed, a, b, i, q, r)
  }

  /** Division kept atomic, like Times. */
  function Quo(a: nat, b: nat): nat
    requires b >= 1
  {
    a / b
  }

  function Rem(a: nat, b: nat): nat
    requires b >= 1
  {
    a % b
  }

  lemma QuoRem(a: nat, b: nat)
    requires b >= 1
    ensures a == Times(b, Quo(a, b)) + Rem(a, b) && Rem(a, b) < b && Quo(a, b) <= a && Rem(a, b) <= a
  {
    assert a == Times(b, Quo(a, b)) + Rem(a, b);
    TimesMono(Quo(a, b), 1, b);
    assert Times(b, Quo(a, b)) == Times(Quo(a, b), b) && Times(Quo(a, b), 1) == Quo(a, b);
  }

  lemma QuoUnique(x: nat, d: nat, q: nat, r: nat)
    requires d >= 1 && x == Times(d, q) + r && r < d
    ensures Quo(x, d) == q && Rem(x, d) == r
  {
    DivUnique(x, d, q, r);
  }

  lemma TimesTwo(p: int, n: int)
    ensures Times(2 * p, n) == Times(p, 2 * n) == 2 * Times(p, n) && Times(p, 2 * n + 1) == 2 * Times(p, n) + p
  {
  }

  lemma Pow2Succ(i: nat)
    ensures Pow2(i + 1) == 2 * Pow2(i)
  {
  }

  /** The leading bits of a, one position further. */
  lemma PrefixStep(a: DWord, i: nat)
    ensures Quo(a, Pow2(i)) == 2 * Quo(a, Pow2(i + 1)) + Bit(a, i) && Bit(a, i) <= 1
    ensures Quo(a, Pow2(i)) <= a
  {
    DivHalve(a, Pow2(i));
    QuoRem(a, Pow2(i));
  }

  lemma PrefixOfAll(a: DWord)
    ensures Quo(a, Pow2(64)) == 0
  {
    Pow2Values();
  }

  lemma SetClearBit(n: nat, i: nat)
    requires Times(Pow2(i + 1), n) + Pow2(i) < TWO64
    ensures SetBit(Times(Pow2(i + 1), n), i) == Times(Pow2(i), 2 * n + 1)
  {
    Pow2Succ(i);
    TimesTwo(Pow2(i), n);
    QuoUnique(Times(Pow2(i), 2 * n), Pow2(i), 2 * n, 0);
    assert Bit(Times(Pow2(i + 1), n), i) == Quo(Times(Pow2(i), 2 * n), Pow2(i)) % 2 == 0;
  }

  /** The state while the comparison tells the truth: quotient and remainder of a's leading bits. */
  ghost predicate Exact(a: DWord, b: DWord, i: nat, s: (DWord, DWord))
    requires b > 0
  {
    s.0 == Times(Pow2(i), Quo(Quo(a, Pow2(i)), b)) && s.1 == Rem(Quo(a, Pow2(i)), b)
  }

  lemma QuotientFits(a: DWord, b: DWord, i: nat)
    requires b > 0
    ensures 0 <= Times(Pow2(i), Quo(Quo(a, Pow2(i)), b)) <= a
  {
    hide Times, Quo, Rem, Pow2;
    var n := Quo(a, Pow2(i));
    QuoRem(a, Pow2(i));
    QuoRem(n, b);
    TimesMono(Pow2(i), Quo(n, b), n);
  }

  lemma QuotientStep(p: nat, bit: nat, b: nat)
    requires b > 0 && bit <= 1
    ensures var n, r := 2 * p + bit, 2 * Rem(p, b) + bit;
            if r >= b then Quo(n, b) == 2 * Quo(p, b) + 1 && Rem(n, b) == r - b
            else Quo(n, b) == 2 * Quo(p, b) && Rem(n, b) == r
  {
    hide Times, Quo, Rem;
    var n, q, r := 2 * p + bit, Quo(p, b), 2 * Rem(p, b) + bit;
    QuoRem(p, b);
    TimesTwo(b, q);
    if r >= b {
      QuoUnique(n, b, 2 * q + 1, r - b);
    } else {
      QuoUnique(n, b, 2 * q, r);
    }
  }

  /** One position, when the comparison tells the truth. */
  lemma StepCompares(signed: bool, a: DWord, b: DWord, i: nat, q: DWord, r: DWord)
    requires 2 * r + Bit(a, i) < TWO64 && Bit(a, i) <= 1 && (signed ==> b < TWO63 && 2 * r + Bit(a, i) < TWO63)
    ensures var n := 2 * r + Bit(a, i);
            DivStep(signed, a, b, i, q, r) == if n >= b then (SetBit(q, i), n - b) else (q, n)
  {
    hide Bit, SetBit;
  }

  /** A truthful comparison keeps the state exact. The doubled remainder never exceeds the
      leading bits of a, so it cannot overflow, however large b is. */
  lemma ExactStep(signed: bool, a: DWord, b: DWord, i: nat, s: (DWord, DWord))
    requires i < 64 && b > 0 && Exact(a, b, i + 1, s)
    requires signed ==> b < TWO63 && 2 * s.1 + Bit(a, i) < TWO63
    ensures Exact(a, b, i, DivStep(signed, a, b, i, s.0, s.1))
    ensures 2 * s.1 + Bit(a, i) <= a
  {
    hide Times, Quo, Rem, Pow2, Bit, SetBit, DivStep;
    var p, bit := Quo(a, Pow2(i + 1)), Bit(a, i);
    PrefixStep(a, i);
    QuotientStep(p, bit, b);
    QuoRem(p, b);
    QuoRem(2 * p + bit, b);
    StepCompares(signed, a, b, i, s.0, s.1);
    QuotientFits(a, b, i);
    Pow2Succ(i);
    TimesTwo(Pow2(i), Quo(p, b));
    if 2 * s.1 + bit >= b {
      SetClearBit(Quo(p, b), i);
    }
  }

  /** Unsigned: exact to the end. */
  lemma {:induction false} UnsignedExact(a: DWord, b: DWord, i: nat)
    requires i <= 64 && b > 0
    ensures Exact(a, b, i, DivState(false, a, b, i))
    decreases 64 - i
  {
    if i == 64 {
      PrefixOfAll(a);
      QuoUnique(0, b, 0, 0);
    } else {
      UnsignedExact(a, b, i + 1);
      ExactStep(false, a, b, i, DivState(false, a, b, i + 1));
    }
  }

  /** Signed: exact as long as neither the divisor nor the leading bits reach the sign bit. */
  lemma {:induction false} SignedExact(a: DWord, b: DWord, i: nat)
    requires i <= 64 && 0 < b < TWO63 && Quo(a, Pow2(i)) < TWO63
    ensures Exact(a, b, i, DivState(true, a, b, i))
    decreases 64 - i
  {
    hide Times, Pow2, Bit, SetBit, Quo, Rem;
    if i == 64 {
      PrefixOfAll(a);
      TimesZero(b);
      TimesZero(Pow2(64));
      QuoUnique(0, b, 0, 0);
    } else {
      PrefixStep(a, i);
      SignedExact(a, b, i + 1);
      QuoRem(Quo(a, Pow2(i + 1)), b);
      ExactStep(true, a, b, i, DivState(true, a, b, i + 1));
    }
  }

  lemma TimesZero(p: int)
    ensures Times(p, 0) == 0
  {
  }

  /** What the division leaves in the result words. */
  datatype Outcome = Trap | Value(v: LongLong)

  /** Bit-serial division; dividing by zero traps. */
  method UDivMod64(a: LongLong, b: LongLong, retquo: bool) returns (res: Outcome)
    ensures b.Val() == 0 ==> res == Trap
    ensures b.Val() != 0 ==> res.Value? && res.v.Val() == if retquo then a.Val() / b.Val() else a.Val() % b.Val()
  {
    if b.lo == 0 && b.hi == 0 {
      return Trap;
    }
    var q: DWord, r: DWord := 0, 0;
    var i := 64;
    while i > 0
      invariant 0 <= i <= 64 && (q, r) == DivState(false, a.Val(), b.Val(), i)
    {
      hide DivStep;
      i := i - 1;
      var s := DivStep(false, a.Val(), b.Val(), i, q, r);
      q, r := s.0, s.1;
    }
    UnsignedExact(a.Val(), b.Val(), 0);
    DivideByOne(a.Val());
    return Value(Split(if retquo then q else r));
  }

  lemma DivideByOne(a: nat)
    ensures Quo(a, Pow2(0)) == a && forall n :: Times(Pow2(0), n) == n
  {
  }

  /** Division as section 6.5.5 of ISO/IEC 9899:1999 wants it: the quotient truncates towards zero. */
  function Abs(x: int): nat { if x < 0 then -x else x }

  function TruncQuo(x: int, y: int): int
    requires y != 0
  {
    if (x < 0) != (y < 0) then -(Abs(x) / Abs(y)) else Abs(x) / Abs(y)
  }

  function TruncRem(x: int, y: int): int
    requires y != 0
  {
    if x < 0 then -(Abs(x) % Abs(y)) else Abs(x) % Abs(y)
  }

  /** The defining identity, and the truncation: the remainder is smaller than the divisor and
      has the sign of the dividend. */
  lemma TruncationLaw(x: int, y: int)
    requires y != 0
    ensures x == y * TruncQuo(x, y) + TruncRem(x, y)
    ensures Abs(TruncRem(x, y)) < Abs(y) && (TruncRem(x, y) > 0 ==> x > 0) && (TruncRem(x, y) < 0 ==> x < 0)
  {
    QuoRem(Abs(x), Abs(y));
    TimesSign(Abs(y), Abs(x) / Abs(y));
  }

  lemma TimesSign(p: int, q: int)
    ensures p * q == Times(p, q) && -p * q == -Times(p, q) && p * -q == -Times(p, q) && -p * -q == Times(p, q)
  {
  }

  /** The operands the signed division handles: the divisor is not the most negative value, and
      if the dividend is, the divisor is at most 2^62 in magnitude. */
  predicate Ordinary(a: DWord, b: DWord) {
    b != TWO63 && (a == TWO63 ==> Magnitude(b) <= TWO63 / 2)
  }

  /** x = -x if negative; the most negative value stays as it is. */
  function Magnitude(x: DWord): DWord { if x >= TWO63 then (TWO64 - x) % TWO64 else x }

  function Negate(x: DWord): DWord { (TWO64 - x) % TWO64 }

  lemma TopValue()
    ensures Quo(TWO63, Pow2(1)) == TWO63 / 2 && Bit(TWO63, 0) == 0
  {
    assert Pow2(0) == 1 && Pow2(1) == 2;
  }

  lemma OrdinaryDivision(a: DWord, b: DWord)
    requires 0 < b < TWO63 && a <= TWO63 && (a == TWO63 ==> b <= TWO63 / 2)
    ensures DivState(true, a, b, 0) == (a / b, a % b)
  {
    DivideByOne(a);
    if a < TWO63 {
      SignedExact(a, b, 0);
    } else {
      hide SetBit;
      TopValue();
      SignedExact(a, b, 1);
      ExactStep(true, a, b, 0, DivState(true, a, b, 1));
    }
  }

  /** -2^63 divided by more than 2^62: at the last position the doubled remainder reads negative. */
  lemma LastPositionFails(b: DWord)
    requires TWO63 / 2 < b < TWO63
    ensures DivState(true, TWO63, b, 0) == (0, TWO63)
  {
    hide DivStep, Bit, SetBit;
    BeforeLastPosition(b);
    LastStep(b);
  }

  lemma BeforeLastPosition(b: DWord)
    requires TWO63 / 2 < b < TWO63
    ensures DivState(true, TWO63, b, 1) == (0, TWO63 / 2)
  {
    hide Quo, Rem, Times, Pow2, Bit, SetBit, DivState;
    TopValue();
    SignedExact(TWO63, b, 1);
    TimesZero(b);
    TimesZero(Pow2(1));
    QuoUnique(TWO63 / 2, b, 0, TWO63 / 2);
  }

  lemma LastStep(b: DWord)
    requires TWO63 / 2 < b < TWO63
    ensures DivStep(true, TWO63, b, 0, 0, TWO63 / 2) == (0, TWO63)
  {
    hide Bit, SetBit;
    TopValue();
  }

  lemma StuckStep(a: DWord, i: nat, p: nat, q: DWord)
    requires 2 * p + Bit(a, i) < TWO64 && Bit(a, i) <= 1
    ensures DivStep(true, a, TWO63, i, q, (p + TWO63) % TWO64) == (SetBit(q, i), (2 * p + Bit(a, i) + TWO63) % TWO64)
  {
    hide Bit, SetBit;
    assert (p + TWO63) % TWO64 == p + TWO63;
    assert 2 * (p + TWO63) % TWO64 == 2 * p;
  }

  /** Dividing by -2^63: every comparison succeeds. */
  lemma {:induction false} EveryPositionFails(a: DWord, i: nat)
    requires i < 64
    ensures DivState(true, a, TWO63, i) == (Times(Pow2(i), Pow2(64 - i) - 1), (Quo(a, Pow2(i)) + TWO63) % TWO64)
    decreases 64 - i
  {
    hide Quo, Bit, SetBit, Times, Pow2, DivStep;
    if i == 63 {
      FirstPositionFails(a);
    } else {
      EveryPositionFails(a, i + 1);
      PrefixStep(a, i);
      Pow2Succ(63 - i);
      TopBits(i);
      var p, n := Quo(a, Pow2(i + 1)), Pow2(63 - i) - 1;
      assert DivState(true, a, TWO63, i + 1) == (Times(Pow2(i + 1), n), (p + TWO63) % TWO64);
      StuckStep(a, i, p, Times(Pow2(i + 1), n));
      SetClearBit(n, i);
      assert 2 * n + 1 == Pow2(64 - i) - 1;
    }
  }

  lemma FirstPositionFails(a: DWord)
    ensures DivState(true, a, TWO63, 63) == (Times(Pow2(63), Pow2(1) - 1), (Quo(a, Pow2(63)) + TWO63) % TWO64)
  {
    PrefixStep(a, 63);
    PrefixOfAll(a);
    Pow2Values();
    TimesZero(Pow2(64));
    SetClearBit(0, 63);
    assert Pow2(1) == 2;
    hide Quo, Bit, SetBit, Times, Pow2;
    assert DivState(true, a, TWO63, 64) == (0, 0);
    assert DivStep(true, a, TWO63, 63, 0, 0) == (SetBit(0, 63), (Bit(a, 63) + TWO63) % TWO64);
  }

  /** 2^i * (2^(64-i) - 1) and the half of it one position earlier stay below 2^64. */
  lemma TopBits(i: nat)
    requires i < 63
    ensures Times(Pow2(i + 1), Pow2(63 - i) - 1) + Pow2(i) < TWO64
  {
    Pow2Add(i + 1, 63 - i);
    Pow2Values();
    TimesLess(Pow2(i + 1), Pow2(63 - i));
    Pow2Succ(i);
  }

  lemma TimesLess(p: int, n: int)
    ensures Times(p, n - 1) == Times(p, n) - p && p * n == Times(p, n)
  {
  }

  /** The signed division: right exactly on the ordinary operands, except that the remainder of
      the most negative value by itself comes out right as well. */
  method SDivMod64(a: LongLong, b: LongLong, retquo: bool) returns (res: Outcome)
    ensures b.Val() == 0 ==> res == Trap
    ensures b.Val() != 0 ==> res.Value?
    ensures b.Val() != 0 && retquo ==>
              (res.v.Val() == Pattern(TruncQuo(a.Signed(), b.Signed())) <==> Ordinary(a.Val(), b.Val()))
    ensures b.Val() != 0 && !retquo ==>
              (res.v.Val() == Pattern(TruncRem(a.Signed(), b.Signed())) <==>
               Ordinary(a.Val(), b.Val()) || a.Val() == b.Val() == TWO63)
  {
    if b.lo == 0 && b.hi == 0 {
      return Trap;
    }
    var x, y := Magnitude(a.Val()), Magnitude(b.Val());
    var sa, sb := a.Val() >= TWO63, b.Val() >= TWO63;
    var q: DWord, r: DWord := 0, 0;
    var i := 64;
    while i > 0
      invariant 0 <= i <= 64 && (q, r) == DivState(true, x, y, i)
    {
      hide DivStep;
      i := i - 1;
      var s := DivStep(true, x, y, i, q, r);
      q, r := s.0, s.1;
    }
    SignedOutcome(a.Val(), b.Val(), q, r);
    if retquo {
      return Value(Split(if sa != sb then Negate(q) else q));
    } else {
      return Value(Split(if sa then Negate(r) else r));
    }
  }

  /** The sign corrections at the end. */
  function Corrected(negative: bool, x: DWord): DWord { if negative then Negate(x) else x }

  lemma PatternFacts(x: int)
    ensures 0 <= x < TWO64 ==> Pattern(x) == x
    ensures 0 < x < TWO64 ==> Pattern(-x) == Negate(x) == TWO64 - x
    ensures Pattern(0) == Negate(0) == 0
  {
  }

  ghost predicate QuotientRight(a: DWord, b: DWord, q: DWord)
    requires b != 0
  {
    Corrected((a >= TWO63) != (b >= TWO63), q) == Pattern(TruncQuo(AsSigned(a), AsSigned(b)))
  }

  ghost predicate RemainderRight(a: DWord, b: DWord, r: DWord)
    requires b != 0
  {
    Corrected(a >= TWO63, r) == Pattern(TruncRem(AsSigned(a), AsSigned(b)))
  }

  lemma MagnitudeIsAbs(a: DWord)
    ensures Abs(AsSigned(a)) == Magnitude(a) <= TWO63 && (Magnitude(a) == TWO63 <==> a == TWO63)
    ensures AsSigned(a) < 0 <==> a >= TWO63
  {
  }

  /** Against the right magnitudes, the outcome is right exactly when they agree. */
  lemma Compare(a: DWord, b: DWord, q: DWord, r: DWord)
    requires b != 0 && q <= TWO63 && r <= TWO63
    ensures var x, y := Magnitude(a), Magnitude(b);
            y > 0 && (QuotientRight(a, b, q) <==> q == x / y)
    ensures RemainderRight(a, b, r) <==> r == Magnitude(a) % Magnitude(b)
  {
    var x, y := Magnitude(a), Magnitude(b);
    MagnitudeIsAbs(a);
    MagnitudeIsAbs(b);
    QuotientRange(x, y);
    PatternFacts(q);
    PatternFacts(x / y);
    PatternFacts(r);
    PatternFacts(x % y);
    hide Pattern, Negate, Magnitude, AsSigned;
  }

  lemma SignedOutcome(a: DWord, b: DWord, q: DWord, r: DWord)
    requires b != 0 && (q, r) == DivState(true, Magnitude(a), Magnitude(b), 0)
    ensures QuotientRight(a, b, q) <==> Ordinary(a, b)
    ensures RemainderRight(a, b, r) <==> Ordinary(a, b) || a == b == TWO63
  {
    hide DivState, QuotientRight, RemainderRight;
    if b == TWO63 {
      MinimumDivisor(a, q, r);
    } else if a == TWO63 && Magnitude(b) > TWO63 / 2 {
      MinimumDividend(b, q, r);
    } else {
      OrdinaryOutcome(a, b, q, r);
    }
  }

  /** The most negative dividend, and a divisor of more than 2^62. */
  lemma MinimumDividend(b: DWord, q: DWord, r: DWord)
    requires b != TWO63 && Magnitude(b) > TWO63 / 2 && (q, r) == DivState(true, TWO63, Magnitude(b), 0)
    ensures !QuotientRight(TWO63, b, q) && !RemainderRight(TWO63, b, r)
  {
    hide DivState, QuotientRight, RemainderRight;
    LastPositionFails(Magnitude(b));
    QuotientOne(Magnitude(b));
    Compare(TWO63, b, q, r);
  }

  /** All other operands. */
  lemma OrdinaryOutcome(a: DWord, b: DWord, q: DWord, r: DWord)
    requires b != 0 && b != TWO63 && (a == TWO63 ==> Magnitude(b) <= TWO63 / 2)
    requires (q, r) == DivState(true, Magnitude(a), Magnitude(b), 0)
    ensures QuotientRight(a, b, q) && RemainderRight(a, b, r)
  {
    hide DivState, QuotientRight, RemainderRight;
    OrdinaryDivision(Magnitude(a), Magnitude(b));
    QuotientRange(Magnitude(a), Magnitude(b));
    Compare(a, b, q, r);
  }

  lemma MinimumDivisor(a: DWord, q: DWord, r: DWord)
    requires (q, r) == DivState(true, Magnitude(a), TWO63, 0)
    ensures !QuotientRight(a, TWO63, q)
    ensures RemainderRight(a, TWO63, r) <==> a == TWO63
  {
    var x := Magnitude(a);
    hide DivState, Times, Quo, Pow2;
    EveryPositionFails(x, 0);
    DivideByOne(x);
    Pow2Values();
    Pow2Zero();
    MagnitudeIsAbs(a);
    MagnitudeIsAbs(TWO63);
    if x < TWO63 {
      QuotientBelow(x, TWO63);
    } else {
      DivUnique(TWO63, TWO63, 1, 0);
    }
    StuckIsWrong(a, q, r);
  }

  lemma StuckIsWrong(a: DWord, q: DWord, r: DWord)
    requires q == TWO64 - 1 && r == (Magnitude(a) + TWO63) % TWO64
    requires if a == TWO63 then TruncQuo(AsSigned(a), -TWO63) == 1 && TruncRem(AsSigned(a), -TWO63) == 0
             else TruncQuo(AsSigned(a), -TWO63) == 0 && TruncRem(AsSigned(a), -TWO63) == AsSigned(a)
    ensures !QuotientRight(a, TWO63, q)
    ensures RemainderRight(a, TWO63, r) <==> a == TWO63
  {
    hide TruncQuo, TruncRem;
    PatternFacts(q);
    PatternFacts(Abs(AsSigned(a)));
  }

  lemma QuotientBelow(x: nat, y: nat)
    requires x < y
    ensures x / y == 0 && x % y == x
  {
    DivUnique(x, y, 0, x);
  }

  lemma QuotientOne(y: nat)
    requires TWO63 / 2 < y < TWO63
    ensures TWO63 / y == 1 && TWO63 % y == TWO63 - y
  {
    DivUnique(TWO63, y, 1, TWO63 - y);
  }

  lemma QuotientRange(x: nat, y: nat)
    requires y >= 1
    ensures x / y <= x && x % y <= x
  {
    QuoRem(x, y);
  }
}
