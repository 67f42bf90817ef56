/** The printer and the parser of 64-bit numbers: _number and _strtoxll. */
module NumText {
  import opened LibLux

  const MAXU := TWO64 - 1
  const MAXS := TWO63 - 1

  /** The characters of a C string; past the end there is the terminator. */
  function At(s: string, i: nat): char { if i < |s| then s[i] else '\0' }

  predicate IsSpace(c: char) { c == ' ' || '\t' <= c <= '\r' }
  predicate IsDigit(c: char) { '0' <= c <= '9' }
  predicate IsXDigit(c: char) { IsDigit(c) || 'a' <= c <= 'f' || 'A' <= c <= 'F' }

  /** The value of a digit or letter, any case; 36 for everything else. */
  function DigitVal(c: char): (v: nat)
    ensures v <= 36
  {
    if IsDigit(c) then c as int - '0' as int
    else if 'A' <= c <= 'Z' then c as int - 'A' as int + 10
    else if 'a' <= c <= 'z' then c as int - 'a' as int + 10
    else 36
  }

  /** The number a run of digits denotes, with no bound. */
  function Value(s: string, base: nat): nat {
    if s == "" then 0 else Value(s[..|s| - 1], base) * base + DigitVal(s[|s| - 1])
  }

  predicate AllDigits(s: string, base: nat) {
    forall i :: 0 <= i < |s| ==> DigitVal(s[i]) < base
  }

  // ------------------------------------------------------------------
  // Parsing
  // ------------------------------------------------------------------

  /** Where the run of spaces, and the run of digits, starting at p ends. */
  function SpacesEnd(s: string, p: nat): (e: nat)
    requires p <= |s|
    ensures p <= e <= |s|
    decreases |s| - p
  {
    if p < |s| && IsSpace(s[p]) then SpacesEnd(s, p + 1) else p
  }

  function DigitsEnd(s: string, p: nat, base: nat): (e: nat)
    requires p <= |s|
    ensures p <= e <= |s| && AllDigits(s[p..e], base)
    decreases |s| - p
  {
    if p < |s| && DigitVal(s[p]) < base then
      var e := DigitsEnd(s, p + 1, base);
      assert s[p..e] == [s[p]] + s[p + 1..e];
      e
    else p
  }

  /** After an optional 0x prefix, skipped only if a digit follows. */
  function PrefixEnd(s: string, p: nat, base: int): (e: nat)
    requires p <= |s|
    ensures p <= e <= |s|
  {
    if base == 16 && At(s, p) == '0' && (At(s, p + 1) == 'x' || At(s, p + 1) == 'X') && IsXDigit(At(s, p + 2))
    then p + 2 else p
  }

  function InferBase(s: string, p: nat): int {
    if At(s, p) != '0' then 10
    else if (At(s, p + 1) == 'x' || At(s, p + 1) == 'X') && IsXDigit(At(s, p + 2)) then 16
    else 8
  }

  /** The result, the end of the subject sequence, and whether errno was set to ERANGE. */
  datatype Parsed = Parsed(val: DWord, end: nat, range: bool)

  /** The value of `digits` with its sign, clamped to the type (section 7.20.1.4 of ISO/IEC 9899:1999). */
  function Clamp(digits: nat, neg: bool, signed: bool): (DWord, bool) {
    if signed && neg && digits > TWO63 then (TWO63, true)
    else if signed && !neg && digits > MAXS then (MAXS, true)
    else if digits > MAXU then (MAXU, true)
    else (if neg then (TWO64 - digits) % TWO64 else digits, false)
  }

  /** What the string denotes: white space, a sign, an optional prefix, digits. */
  function Meaning(s: string, base0: int, signed: bool): Parsed {
    var p := SpacesEnd(s, 0);
    var neg := At(s, p) == '-';
    var p1 := if At(s, p) == '+' || At(s, p) == '-' then p + 1 else p;
    if base0 != 0 && (base0 < 2 || base0 > 36) then Parsed(0, 0, false)
    else
      var base := if base0 == 0 then InferBase(s, p1) else base0;
      Subject(s, PrefixEnd(s, p1, base), base, neg, signed)
  }

  /** The digits from p on, if there are any. */
  function Subject(s: string, p: nat, base: nat, neg: bool, signed: bool): Parsed
    requires p <= |s|
  {
    var e := DigitsEnd(s, p, base);
    if e == p then Parsed(0, 0, false)
    else
      var (v, range) := Clamp(Value(s[p..e], base), neg, signed);
      Parsed(v, e, range)
  }

  /** White space, and the values of digits and letters (sections 7.4.1.10 and 7.20.1.4 of ISO/IEC 9899:1999). */
  lemma CharacterClasses(c: char, k: nat)
    ensures IsSpace(c) <==> c in {' ', '\t', '\n', '\U{000B}', '\U{000C}', '\r'}
    ensures k < 10 ==> DigitVal('0' + k as char) == k
    ensures k < 26 ==> DigitVal('a' + k as char) == 10 + k == DigitVal('A' + k as char)
    ensures IsXDigit(c) <==> DigitVal(c) < 16
  {
  }

  /** A 0x that no hexadecimal digit follows is the number 0 and something else. */
  lemma LoneZeroX(s: string, signed: bool)
    requires |s| >= 2 && s[0] == '0' && (s[1] == 'x' || s[1] == 'X') && (|s| > 2 ==> !IsXDigit(s[2]))
    ensures Meaning(s, 0, signed) == Meaning(s, 16, signed) == Parsed(0, 1, false)
  {
    assert PrefixEnd(s, 0, 16) == 0 && InferBase(s, 0) == 8 && PrefixEnd(s, 0, 8) == 0;
    assert DigitVal(s[1]) == 33 && !IsSpace(s[0]);
    hide IsXDigit, PrefixEnd, InferBase, Meaning, DigitVal, IsSpace;
    ZeroAlone(s, 0, 8, signed);
    ZeroAlone(s, 16, 16, signed);
  }

  lemma ZeroAlone(s: string, base0: int, base: nat, signed: bool)
    requires |s| >= 2 && s[0] == '0' && DigitVal(s[1]) >= base && (base == 8 || base == 16)
    requires (base0 == base || (base0 == 0 && InferBase(s, 0) == base)) && PrefixEnd(s, 0, base) == 0
    ensures Meaning(s, base0, signed) == Parsed(0, 1, false)
  {
    assert !IsSpace(s[0]) && DigitVal('0') == 0;
    SpacesEndAt(s, 0, 0);
    DigitsEndAt(s, 0, 1, base);
    assert s[0..1] == "" + ['0'];
    ValueSnoc("", '0', base);
    hide SpacesEnd, DigitsEnd, Value, IsSpace, IsXDigit, PrefixEnd, InferBase, DigitVal;
  }

  lemma CutoffTest(res: DWord, val: nat, base: nat)
    requires 2 <= base <= 36 && val < base
    ensures res < MAXU / base || (res == MAXU / base && val <= MAXU % base) <==> res * base + val <= MAXU
  {
    var cut, lim := MAXU / base, MAXU % base;
    assert MAXU == Times(base, cut) + lim;
    if res < cut {
      TimesMono(base, res + 1, cut);
      assert Times(base, res + 1) == Times(base, res) + base;
    } else if res > cut {
      TimesMono(base, cut + 1, res);
      assert Times(base, cut + 1) == Times(base, cut) + base;
    }
    assert res * base == Times(base, res);
  }

  lemma ValueSnoc(s: string, c: char, base: nat)
    ensures Value(s + [c], base) == Value(s, base) * base + DigitVal(c)
  {
    assert (s + [c])[..|s|] == s;
  }

  lemma ValueGrows(v: nat, base: nat, d: nat)
    requires base >= 1
    ensures v * base + d >= v
  {
    TimesMono(v, 1, base);
    assert Times(v, 1) == v && Times(v, base) == v * base;
  }

  function Cutoff(base: nat): nat requires base > 0 { MAXU / base }
  function Cutlim(base: nat): nat requires base > 0 { MAXU % base }
  function Accumulate(res: nat, base: nat, val: nat): nat { res * base + val }

  /** What the digit loop has found out about the digits it has passed. */
  predicate Scanned(digits: string, base: nat, res: DWord, overflow: bool) {
    && (overflow <==> Value(digits, base) > MAXU)
    && (!overflow ==> res == Value(digits, base))
  }

  lemma ScannedStep(digits: string, c: char, base: nat, res: DWord, overflow: bool)
    requires 2 <= base <= 36 && DigitVal(c) < base && Scanned(digits, base, res, overflow)
    ensures var val := DigitVal(c);
      if res < Cutoff(base) || (res == Cutoff(base) && val <= Cutlim(base))
      then Accumulate(res, base, val) <= MAXU && Scanned(digits + [c], base, Accumulate(res, base, val), overflow)
      else Scanned(digits + [c], base, res, true)
  {
    CutoffTest(res, DigitVal(c), base);
    ValueSnoc(digits, c, base);
    ValueGrows(Value(digits, base), base, DigitVal(c));
  }

  lemma NothingScanned(base: nat)
    ensures Scanned("", base, 0, false)
  {
  }

  /** The accumulation loop, from the start of the subject sequence. */
  method ScanDigits(s: string, sseq: nat, base: nat) returns (p: nat, res: DWord, overflow: bool)
    requires '\0' !in s && sseq <= |s| && 2 <= base <= 36
    ensures p == DigitsEnd(s, sseq, base) && Scanned(s[sseq..p], base, res, overflow)
  {
    hide Scanned, Value, Accumulate, Cutoff, Cutlim;
    var cutoff, cutlim := Cutoff(base), Cutlim(base);
    p, res, overflow := sseq, 0, false;
    assert s[sseq..p] == "";
    assert Scanned("", base, 0, false) by { NothingScanned(base); }
    while DigitVal(At(s, p)) < base
      invariant sseq <= p <= |s|
      invariant DigitsEnd(s, p, base) == DigitsEnd(s, sseq, base)
      invariant Scanned(s[sseq..p], base, res, overflow)
      decreases |s| - p
    {
      var val := DigitVal(s[p]);
      ScannedStep(s[sseq..p], s[p], base, res, overflow);
      assert s[sseq..p] + [s[p]] == s[sseq..p + 1];
      if res < cutoff || (res == cutoff && val <= cutlim) {
        res := Accumulate(res, base, val);
      } else {
        overflow := true;
      }
      p := p + 1;
    }
  }

  method Strtoxll(s: string, base0: int, signed: bool) returns (r: Parsed)
    requires '\0' !in s
    ensures r == Meaning(s, base0, signed)
  {
    hide Value, DigitsEnd;
    var p := 0;
    while IsSpace(At(s, p))
      invariant 0 <= p <= |s| && SpacesEnd(s, p) == SpacesEnd(s, 0)
      decreases |s| - p
    {
      p := p + 1;
    }
    var neg := false;
    if At(s, p) == '+' {
      p := p + 1;
    } else if At(s, p) == '-' {
      neg := true;
      p := p + 1;
    }
    var base := base0;
    if base == 0 {
      base := InferBase(s, p);
    } else if base < 2 || base > 36 {
      return Parsed(0, 0, false);
    }
    p := PrefixEnd(s, p, base);
    var sseq := p;
    var res: DWord, overflow: bool;
    p, res, overflow := ScanDigits(s, sseq, base);
    if p == sseq {
      return Parsed(0, 0, false);
    }
    if overflow || (signed && ((neg && res > TWO63) || (!neg && res > MAXS))) {
      if !signed {
        res := MAXU;
      } else if neg {
        res := TWO63;
      } else {
        res := MAXS;
      }
      return Parsed(res, p, true);
    } else if neg {
      res := (TWO64 - res) % TWO64;
    }
    return Parsed(res, p, false);
  }

  // ------------------------------------------------------------------
  // Printing
  // ------------------------------------------------------------------

  function DigitChar(d: nat, upper: bool): (c: char)
    requires d < 16
    ensures DigitVal(c) == d
  {
    if upper then "0123456789ABCDEF"[d] else "0123456789abcdef"[d]
  }

  /** The digits of n, most significant first; "0" for zero. */
  function DigitString(n: nat, base: nat, upper: bool): (s: string)
    requires 2 <= base <= 16
    ensures |s| > 0
    decreases n
  {
    if n < base then [DigitChar(n, upper)]
    else
      QuotientSmaller(n, base);
      DigitString(n / base, base, upper) + [DigitChar(n % base, upper)]
  }

  lemma Pow2Positive(k: nat)
    ensures Pow2(k) >= 1 && Pow2(k + 1) == 2 * Pow2(k)
  {
  }

  lemma QuotientSmaller(n: nat, base: nat)
    requires base >= 2
    ensures n >= base ==> 0 < n / base < n
    ensures n / base * base + n % base == n && 0 <= n % base < base
  {
    var q := n / base;
    assert n == Times(base, q) + n % base;
    if q == 0 {
      assert Times(base, 0) == 0;
    } else if n >= base {
      TimesMono(q, 2, base);
      assert Times(q, 2) == 2 * q && Times(q, base) == Times(base, q);
    }
    assert n < base || q > 0;
  }

  function LastDigit(n: nat, base: nat, upper: bool): char
    requires 2 <= base <= 16
  {
    QuotientSmaller(n, base);
    DigitChar(n % base, upper)
  }

  lemma LastDigitVal(n: nat, base: nat, upper: bool)
    requires 2 <= base <= 16
    ensures DigitVal(LastDigit(n, base, upper)) < base
    ensures Rest(n, base) * base + DigitVal(LastDigit(n, base, upper)) == n
  {
    QuotientSmaller(n, base);
  }

  function Rest(n: nat, base: nat): nat
    requires 2 <= base
  {
    n / base
  }

  lemma DigitStep(n: nat, base: nat, upper: bool)
    requires 2 <= base <= 16
    ensures DigitString(n, base, upper)
         == (if Rest(n, base) == 0 then "" else DigitString(Rest(n, base), base, upper)) + [LastDigit(n, base, upper)]
    ensures Rest(n, base) <= n && (n > 0 ==> Rest(n, base) < n)
  {
    QuotientSmaller(n, base);
    if n < base {
      assert n / base == 0 && n % base == n;
    }
  }

  /** Letters among the digits are of the case asked for. */
  lemma {:induction false} DigitCase(n: nat, base: nat, upper: bool, k: nat)
    requires 2 <= base <= 16 && k < |DigitString(n, base, upper)|
    ensures var c := DigitString(n, base, upper)[k];
      '0' <= c <= '9' || (if upper then 'A' <= c <= 'F' else 'a' <= c <= 'f')
    decreases n
  {
    DigitStep(n, base, upper);
    LetterCase(n % base, upper);
    if k < |DigitString(n, base, upper)| - 1 {
      assert Rest(n, base) != 0;
      DigitCase(Rest(n, base), base, upper, k);
    }
  }

  lemma LetterCase(d: nat, upper: bool)
    requires d < 16
    ensures var c := DigitChar(d, upper); '0' <= c <= '9' || (if upper then 'A' <= c <= 'F' else 'a' <= c <= 'f')
  {
  }

  lemma {:induction false} DigitStringValue(n: nat, base: nat, upper: bool)
    requires 2 <= base <= 16
    ensures Value(DigitString(n, base, upper), base) == n && AllDigits(DigitString(n, base, upper), base)
    decreases n
  {
    hide DigitString, LastDigit, Rest, DigitVal;
    DigitStep(n, base, upper);
    LastDigitVal(n, base, upper);
    var c, m := LastDigit(n, base, upper), Rest(n, base);
    if m == 0 {
      ValueSnoc("", c, base);
    } else {
      assert m < n;
      DigitStringValue(m, base, upper);
      ValueSnoc(DigitString(m, base, upper), c, base);
    }
  }

  /** Base 8 and above: three bits a digit. */
  lemma {:induction false} DigitStringShort(n: nat, base: nat, upper: bool, k: nat)
    requires 8 <= base <= 16 && k > 0 && n < Pow2(3 * k)
    ensures |DigitString(n, base, upper)| <= k
    decreases n
  {
    if n >= base {
      QuotientSmaller(n, base);
      Pow2Add(3, 3 * (k - 1));
      assert Pow2(3) == 8 && Pow2(0) == 1;
      assert k > 1;
      var q := n / base;
      TimesMono(q, 8, base);
      assert Times(q, 8) == 8 * q && Times(q, base) == q * base;
      DigitStringShort(n / base, base, upper, k - 1);
    }
  }

  lemma AtMost22Digits(n: DWord, base: nat, upper: bool)
    requires 8 <= base <= 16
    ensures |DigitString(n, base, upper)| <= 22
  {
    Pow2Values();
    Pow2Positive(64);
    Pow2Positive(65);
    DigitStringShort(n, base, upper, 22);
  }

  function Repeat(c: char, n: nat): (s: string)
    ensures |s| == n && forall i :: 0 <= i < n ==> s[i] == c
  {
    seq(n, _ => c)
  }

  lemma {:induction false} ZerosKeepValue(k: nat, s: string, base: nat)
    requires base >= 2
    ensures Value(Repeat('0', k) + s, base) == Value(s, base)
    decreases |s|, k
  {
    if s == "" {
      assert Repeat('0', k) + s == Repeat('0', k);
      if k > 0 {
        assert Repeat('0', k) == Repeat('0', k - 1) + ['0'];
        ValueSnoc(Repeat('0', k - 1), '0', base);
        ZerosKeepValue(k - 1, "", base);
        assert Repeat('0', k - 1) + "" == Repeat('0', k - 1);
      }
    } else {
      var init, c := s[..|s| - 1], s[|s| - 1];
      assert s == init + [c] && Repeat('0', k) + s == (Repeat('0', k) + init) + [c];
      ZerosKeepValue(k, init, base);
      ValueSnoc(init, c, base);
      ValueSnoc(Repeat('0', k) + init, c, base);
    }
  }

  /** How many characters the conversion has at least. */
  function MinDigits(digits: nat, precision: int, alzr: bool): int {
    var p := if precision > 32 then 32 else precision;
    if alzr && p <= digits then digits + 1 else p
  }

  /** The digits of n with leading zeros up to the precision; nothing at all for zero at precision zero. */
  function NumberText(n: nat, base: nat, upper: bool, precision: int, alzr: bool): string
    requires 2 <= base <= 16
  {
    if precision == 0 && n == 0 then ""
    else
      var d := DigitString(n, base, upper);
      var p := MinDigits(|d|, precision, alzr);
      Repeat('0', if p > |d| then p - |d| else 0) + d
  }

  /** The digits still to come. */
  function Front(n: nat, base: nat, upper: bool, more: bool): string
    requires 2 <= base <= 16
  {
    if more then DigitString(n, base, upper) else ""
  }

  lemma MoveDigit(n: nat, base: nat, upper: bool, tail: string)
    requires 2 <= base <= 16
    ensures var m := Rest(n, base);
      Front(n, base, upper, true) + tail == Front(m, base, upper, m != 0) + ([LastDigit(n, base, upper)] + tail)
    ensures Rest(n, base) <= n && (n > 0 ==> Rest(n, base) < n)
  {
    hide DigitString, Rest, LastDigit;
    DigitStep(n, base, upper);
  }

  lemma NoFront(n: nat, base: nat, upper: bool, tail: string)
    requires 2 <= base <= 16
    ensures Front(n, base, upper, false) + tail == tail
    ensures Front(n, base, upper, true) == DigitString(n, base, upper)
  {
  }

  /** The first |s| characters of the buffer are s backwards. */
  ghost predicate Backwards(buf: array<char>, s: string)
    reads buf
  {
    |s| <= buf.Length && forall k :: 0 <= k < |s| ==> buf[k] == s[|s| - 1 - k]
  }

  /** Digits leave the low end of the number and join the buffer, the number's low end first. */
  method CollectDigits(n0: DWord, base: nat, upper: bool, buf: array<char>) returns (i: nat)
    requires buf.Length == 32 && (base == 8 || base == 10 || base == 16)
    modifies buf
    ensures i == |DigitString(n0, base, upper)| <= 22 && Backwards(buf, DigitString(n0, base, upper))
  {
    hide DigitString, Rest, LastDigit, Pow2, Front;
    ghost var all := DigitString(n0, base, upper);
    AtMost22Digits(n0, base, upper);
    var n: nat, more := n0, true;
    ghost var tail := "";
    NoFront(n, base, upper, tail);
    i := 0;
    while more
      invariant 0 <= i == |tail| <= |all| && Backwards(buf, tail)
      invariant all == Front(n, base, upper, more) + tail
      decreases more, n
    {
      MoveDigit(n, base, upper, tail);
      buf[i] := LastDigit(n, base, upper);
      i := i + 1;
      tail := [LastDigit(n, base, upper)] + tail;
      n := Rest(n, base);
      more := n != 0;
    }
    assert all == tail by { NoFront(n, base, upper, tail); }
  }

  /** Zeros follow the digits in the reversed buffer. */
  method PadDigits(buf: array<char>, digits: nat, precision: int, ghost d: string) returns (i: nat)
    requires buf.Length == 32 && digits == |d| <= 32 && precision <= 32 && Backwards(buf, d)
    modifies buf
    ensures i == (if precision > |d| then precision else |d|) && Backwards(buf, Repeat('0', i - |d|) + d)
  {
    i := digits;
    while i < precision
      invariant |d| <= i <= 32 && (i == |d| || i <= precision) && Backwards(buf, Repeat('0', i - |d|) + d)
    {
      buf[i] := '0';
      i := i + 1;
    }
  }

  /** `_number`: n is taken as its unsigned bit pattern. The two buffers hold 32 characters each. */
  method Number(n: DWord, base: nat, upper: bool, precision0: int, alzr: bool) returns (s: string)
    requires base == 8 || base == 10 || base == 16
    ensures s == NumberText(n, base, upper, precision0, alzr)
  {
    hide DigitString;
    var precision := precision0;
    if precision > 32 {
      precision := 32;
    } else if precision == 0 && n == 0 {
      return "";
    }
    var buf, buf2 := new char[32], new char[32];
    ghost var d := DigitString(n, base, upper);
    var i := CollectDigits(n, base, upper, buf);
    if alzr && precision <= i {
      precision := i + 1;
    }
    i := PadDigits(buf, i, precision, d);
    var j := 0;
    ghost var text := Repeat('0', i - |d|) + d;
    while i > 0
      invariant 0 <= j <= |text| && i == |text| - j && Backwards(buf, text)
      invariant forall k :: 0 <= k < j ==> buf2[k] == text[k]
    {
      i := i - 1;
      buf2[j] := buf[i];
      j := j + 1;
    }
    s := buf2[..j];
    assert s == text;
  }

  // ------------------------------------------------------------------
  // What the standard asks for
  // ------------------------------------------------------------------

  function AsInt(n: nat): int
    requires n < TWO32
  {
    if n < TWO32 / 2 then n else n - TWO32
  }

  /** The precision is the least number of digits; zero with precision zero has none; the alternative form of
      octal has a zero in front. */
  function StandardDigits(m: nat, base: nat, upper: bool, precision: nat, octal: bool): string
    requires 2 <= base <= 16
  {
    var d := if m == 0 && precision == 0 then "" else DigitString(m, base, upper);
    var padded := Repeat('0', if precision > |d| then precision - |d| else 0) + d;
    if octal && (padded == "" || padded[0] != '0') then "0" + padded else padded
  }

  lemma {:induction false} NoLeadingZero(m: nat, base: nat, upper: bool)
    requires 2 <= base <= 16 && m > 0
    ensures DigitString(m, base, upper) != "" && DigitString(m, base, upper)[0] != '0'
    decreases m
  {
    DigitStep(m, base, upper);
    if Rest(m, base) == 0 {
      assert m < base;
    } else {
      NoLeadingZero(Rest(m, base), base, upper);
    }
  }

  lemma AskedAreDigits(n: DWord, c: Conv)
    requires c.Known()
    ensures AllDigits(c.DigitsAsked(n), 16)
  {
    DigitStringValue(c.Magnitude(n), c.base, c.upper);
    hide DigitString;
  }

  /** Up to precision 32 `_number` writes the digits asked for, except for %#.0o of zero ... */
  lemma NumberAsAsked(m: nat, base: nat, upper: bool, precision: nat, octal: bool)
    requires 2 <= base <= 16 && precision <= 32 && !(octal && m == 0 && precision == 0)
    ensures NumberText(m, base, upper, precision, octal && m != 0) == StandardDigits(m, base, upper, precision, octal)
  {
    if m > 0 {
      NoLeadingZero(m, base, upper);
    } else {
      assert DigitString(0, base, upper) == "0";
    }
    hide DigitString;
    if m > 0 || precision > 0 {
      PaddedAsAsked(DigitString(m, base, upper), precision, octal, m != 0);
    }
  }

  lemma PaddedAsAsked(d: string, precision: nat, octal: bool, nonzero: bool)
    requires precision <= 32 && d != "" && (d[0] != '0' <==> nonzero)
    ensures var p := MinDigits(|d|, precision, octal && nonzero);
      var padded := Repeat('0', if precision > |d| then precision - |d| else 0) + d;
      Repeat('0', if p > |d| then p - |d| else 0) + d == if octal && padded[0] != '0' then "0" + padded else padded
  {
    if precision <= |d| {
      assert Repeat('0', 0) + d == d;
      assert Repeat('0', 1) + d == "0" + d;
    }
  }

  /** ... and otherwise too few. */
  lemma NumberTooShort(m: DWord, base: nat, upper: bool, precision: nat, octal: bool)
    requires 8 <= base <= 16 && precision < TWO32 && (precision > 32 || (octal && m == 0 && precision == 0))
    ensures |NumberText(m, base, upper, AsInt(precision), octal && m != 0)|
          < |StandardDigits(m, base, upper, precision, octal)|
  {
    AtMost22Digits(m, base, upper);
    hide DigitString;
  }

  lemma DigitsAsAsked(n: DWord, c: Conv)
    requires c.Known()
    ensures if c.Ordinary(n) then c.Digits(n) == c.DigitsAsked(n) else |c.Digits(n)| < |c.DigitsAsked(n)|
  {
    var m, octal := c.Magnitude(n), c.base == 8 && c.alt;
    var p := if c.precision.Some? then c.precision.value else 1;
    hide NumberText, StandardDigits;
    if c.Ordinary(n) {
      NumberAsAsked(m, c.base, c.upper, p, octal);
    } else {
      NumberTooShort(m, c.base, c.upper, p, octal);
    }
  }

  // ------------------------------------------------------------------
  // Integer conversions: flags, field width and precision around the digits
  // ------------------------------------------------------------------

  datatype Option<T> = None | Some(value: T)

  /** One conversion specification; the fields are the flags of the format string. */
  datatype Conv = Conv(base: nat, signed: bool, upper: bool, plus: bool, space: bool, alt: bool,
                       zero: bool, left: bool, width: Option<nat>, precision: Option<nat>)
  {
    /** One of d, u, o, x and X, with a width and a precision that fit size_t. */
    predicate Known() {
      && (base == 8 || base == 10 || base == 16)
      && (signed ==> base == 10)
      && (width.Some? ==> width.value < TWO32)
      && (precision.Some? ==> precision.value < TWO32)
    }

    function Negative(n: DWord): bool { signed && n >= TWO63 }

    function Magnitude(n: DWord): DWord { if Negative(n) then TWO64 - n else n }

    function Prefix(n: DWord): (p: string)
      ensures |p| <= 2
    {
      if signed then (if n >= TWO63 then "-" else if plus then "+" else if space then " " else "")
      else if base == 16 && alt && n != 0 then (if upper then "0X" else "0x")
      else ""
    }

    /** The digits written; the precision, a size_t, is passed as an int. */
    function Digits(n: DWord): string
      requires Known()
    {
      NumberText(Magnitude(n), base, upper, if precision.Some? then AsInt(precision.value) else 1, base == 8 && alt
          && n != 0)
    }

    /** The digits the format asks for. */
    function DigitsAsked(n: DWord): string
      requires Known()
    {
      StandardDigits(Magnitude(n), base, upper, if precision.Some? then precision.value else 1, base == 8 && alt)
    }

    /** The width leaves room for the sign or the 0x. */
    predicate Fits(n: DWord) { width.None? || width.value >= |Prefix(n)| }

    /** The precision is within the buffers of `_number`, and this is not %#.0o of zero. */
    predicate Ordinary(n: DWord) {
      precision.Some? ==> precision.value <= 32 && !(base == 8 && alt && precision.value == 0 && n == 0)
    }

    /** What the format asks for (section 7.19.6.1 of ISO/IEC 9899:1999). */
    function Field(n: DWord): string
      requires Known()
    {
      Placed(Prefix(n), DigitsAsked(n), zero && precision.None?)
    }

    /** What is written when the width leaves room for the prefix. */
    function Written(n: DWord): string
      requires Known()
    {
      Placed(Prefix(n), Digits(n), zero && precision.None?)
    }

    /** The number of characters missing to the width. */
    function Padding(prefix: string, digits: string): nat {
      var body := |prefix| + |digits|;
      if width.Some? && width.value > body then width.value - body else 0
    }

    /** Padding up to the width: on the right, between prefix and digits, or on the left. */
    function Placed(prefix: string, digits: string, zeros: bool): string {
      var pad := Padding(prefix, digits);
      if left then Spelled(0, prefix, 0, digits, pad)
      else if zeros then Spelled(0, prefix, pad, digits, 0)
      else Spelled(pad, prefix, 0, digits, 0)
    }
  }

  /** A number as text: blanks, a prefix, zeros, digits, blanks. */
  function Spelled(l: nat, prefix: string, z: nat, digits: string, r: nat): string {
    Repeat(' ', l) + prefix + (Repeat('0', z) + digits) + Repeat(' ', r)
  }

  lemma DigitsShort(n: DWord, c: Conv)
    requires c.Known()
    ensures |c.Digits(n)| <= 32
  {
    hide DigitString;
    AtMost22Digits(c.Magnitude(n), c.base, c.upper);
  }

  /** min_width -= k on a size_t. */
  function Minus(w: nat, k: nat): nat
    requires w < TWO32 && k <= 2
  {
    if w >= k then w - k else w + TWO32 - k
  }

  /** The padding loop: characters up to the width, where `count` are there already. */
  method Pad(out: string, c: char, count: nat, width: nat) returns (r: string)
    ensures r == out + Repeat(c, if width > count then width - count else 0)
  {
    r := out;
    var k := count;
    while k < width
      invariant count <= k && (k <= width || k == count)
      invariant r == out + Repeat(c, k - count)
    {
      r := r + [c];
      k := k + 1;
    }
  }

  /** The sign or 0x of a conversion, and the number left to print. */
  method TakePrefix(n0: DWord, c: Conv) returns (prefix: string, n: DWord)
    ensures prefix == c.Prefix(n0) && n == c.Magnitude(n0)
  {
    n := n0;
    prefix := "";
    if c.signed {
      if n >= TWO63 {
        prefix := "-";
        n := TWO64 - n;
      } else if c.plus {
        prefix := "+";
      } else if c.space {
        prefix := " ";
      }
    } else if c.base == 16 && c.alt && n != 0 {
      prefix := if c.upper then "0X" else "0x";
    }
  }

  /** The output of one integer conversion. */
  method Convert(n0: DWord, c: Conv) returns (out: string)
    requires c.Known()
    ensures out == c.Field(n0) <==> c.Fits(n0) && c.Ordinary(n0)
    ensures c.Fits(n0) ==> out == c.Written(n0)
    ensures !c.Fits(n0) ==> |out| == TWO32 + c.width.value
  {
    hide NumberText, Conv.Placed, Conv.Prefix, Conv.DigitsAsked, Conv.Ordinary, Conv.Field;
    DigitsShort(n0, c);
    var zero := c.zero;
    if !(c.plus && c.space) && c.left && zero {
      zero := false;
    }
    if c.precision.Some? {
      zero := false;
    }
    var prefix, n := TakePrefix(n0, c);
    var digits := Number(n, c.base, c.upper, if c.precision.Some? then AsInt(c.precision.value) else 1,
                         c.base == 8 && c.alt && n != 0);
    assert digits == c.Digits(n0);
    out := Layout(c, zero, prefix, digits);
    if c.left {
      LeftIgnoresZeros(c, prefix, digits);
    }
    if c.Fits(n0) {
      WrittenAsAsked(n0, c);
    } else {
      OverflowsField(n0, c, out);
    }
  }

  /** No character of a prefix but its first is a digit or a blank. */
  lemma PrefixEndsIn(n: DWord, c: Conv)
    ensures var p := c.Prefix(n); p != "" ==> DigitVal(p[|p| - 1]) >= 16 && (|p| == 2 ==> p[0] != ' ' && p[1] != ' ')
  {
  }

  /** Signs and prefixes as the flags ask for them: a sign for a negative number, or with the plus flag for every signed
      one, a blank in its place with the space flag; 0x in the alternative form of a hexadecimal number but zero. */
  lemma PrefixAsks(n: DWord, c: Conv)
    ensures c.Prefix(n) == "-" <==> c.signed && AsSigned(n) < 0
    ensures c.Prefix(n) == "+" <==> c.signed && AsSigned(n) >= 0 && c.plus
    ensures c.Prefix(n) == " " <==> c.signed && AsSigned(n) >= 0 && !c.plus && c.space
    ensures c.Prefix(n) == "0x" <==> !c.signed && c.base == 16 && c.alt && n != 0 && !c.upper
    ensures c.Prefix(n) == "0X" <==> !c.signed && c.base == 16 && c.alt && n != 0 && c.upper
    ensures c.Prefix(n) in {"", "-", "+", " ", "0x", "0X"}
    ensures c.signed ==> var v: int := c.Magnitude(n); AsSigned(n) == if c.Prefix(n) == "-" then -v else v
  {
  }

  /** Fields with fewer digits than asked for, padded with blanks, are not what is asked for. */
  lemma PlacedDiffers(c: Conv, prefix: string, d: string, asked: string)
    requires |d| < |asked| && AllDigits(asked, 16) && (prefix != "" ==> DigitVal(prefix[|prefix| - 1]) >= 16)
    ensures c.Placed(prefix, d, false) != c.Placed(prefix, asked, false)
  {
    var s, t := c.Placed(prefix, d, false), c.Placed(prefix, asked, false);
    var r, r' := c.Padding(prefix, d), c.Padding(prefix, asked);
    hide DigitVal;
    assert DigitVal(' ') >= 16 by { BlankIsNoDigit(); }
    if c.left && |s| == |t| {
      var k := |prefix| + |d|;
      assert t[k] == asked[|d|] && s[k] == ' ';
    } else if |s| == |t| {
      var k := |t| - |d| - 1;
      assert t[k] == asked[|asked| - |d| - 1];
      assert DigitVal(s[k]) >= 16;
    }
  }

  lemma BlankIsNoDigit()
    ensures DigitVal(' ') >= 16
  {
  }

  lemma WrittenAsAsked(n: DWord, c: Conv)
    requires c.Known()
    ensures c.Written(n) == c.Field(n) <==> c.Ordinary(n)
  {
    hide Conv.Digits, Conv.DigitsAsked, Conv.Prefix, Conv.Placed;
    DigitsAsAsked(n, c);
    if !c.Ordinary(n) {
      AskedAreDigits(n, c);
      PrefixEndsIn(n, c);
      PlacedDiffers(c, c.Prefix(n), c.Digits(n), c.DigitsAsked(n));
    }
  }

  /** Blanks behind the first character, as an overflowing width leaves them. */
  predicate Blanks(s: string) { exists k :: 1 <= k < |s| && s[k] == ' ' }

  /** A field whose width overflowed is not what is asked for. */
  lemma OverflowsField(n: DWord, c: Conv, out: string)
    requires c.Known() && !c.Fits(n) && |out| == TWO32 + c.width.value && (c.precision.Some? ==> Blanks(out))
    ensures out != c.Field(n)
  {
    PrefixEndsIn(n, c);
    hide Conv.Digits, Conv.DigitsAsked, Conv.Prefix, DigitVal;
    var p, d := c.Prefix(n), c.DigitsAsked(n);
    assert c.Field(n) == p + d;
    if c.precision.None? {
      DigitsAsAsked(n, c);
      DigitsShort(n, c);
    } else {
      AskedAreDigits(n, c);
      BlankIsNoDigit();
    }
  }

  lemma LeftIgnoresZeros(c: Conv, prefix: string, digits: string)
    requires c.left
    ensures c.Placed(prefix, digits, true) == c.Placed(prefix, digits, false)
  {
  }

  /** The padding around the digits; `out` holds the prefix unless that comes behind blanks. */
  method Fill(out: string, left: bool, zero: bool, prefix: string, digits: string, width: nat) returns (r: string)
    requires |digits| < width < TWO32 && |prefix| <= 2
    ensures r == if left then out + digits + Repeat(' ', width - |digits|)
                 else if zero then out + Repeat('0', width - |digits|) + digits
                 else out + Repeat(' ', Missing(width, prefix, digits)) + prefix + digits
  {
    var w := width;
    if left {
      r := Pad(out + digits, ' ', |digits|, w);
    } else {
      if !zero {
        w := Minus(w, |prefix|);
      }
      r := Pad(out, if zero then '0' else ' ', |digits|, w);
      if !zero {
        r := r + prefix;
      }
      r := r + digits;
    }
  }

  function Missing(width: nat, prefix: string, digits: string): nat
    requires width < TWO32 && |prefix| <= 2
  {
    var w := Minus(width, |prefix|);
    if w > |digits| then w - |digits| else 0
  }

  /** The prefix and the digits, padded on a size_t count. */
  method Layout(c: Conv, zero: bool, prefix: string, digits: string) returns (out: string)
    requires c.Known() && |prefix| <= 2 && |digits| <= 32
    ensures c.width.None? || c.width.value >= |prefix| ==> out == c.Placed(prefix, digits, zero)
    ensures c.width.Some? && c.width.value < |prefix| ==> |out| == TWO32 + c.width.value && (!zero ==> Blanks(out))
  {
    hide Blanks;
    var width := if c.width.Some? then c.width.value else 0;
    out := "";
    if c.width.None? || c.left || |digits| >= width || zero {
      out := prefix;
      width := Minus(width, |prefix|);
    }
    if c.width.Some? && |digits| < width {
      ghost var start := out;
      out := Fill(out, c.left, zero, prefix, digits, width);
      if c.width.value < |prefix| && !zero {
        BlanksFilled(out, start, c.left, prefix, digits,
                     if c.left then width - |digits| else Missing(width, prefix, digits));
      }
    } else {
      out := out + digits;
    }
  }

  lemma BlanksFilled(out: string, start: string, left: bool, prefix: string, digits: string, k: nat)
    requires k >= 2 && (left ==> start == prefix && prefix != "")
    requires out == if left then start + digits + Repeat(' ', k) else start + Repeat(' ', k) + prefix + digits
    ensures Blanks(out)
  {
    if left {
      assert out[|prefix| + |digits|] == ' ';
    } else {
      assert out[|start| + 1] == ' ';
    }
  }

  // ------------------------------------------------------------------
  // The round trip
  // ------------------------------------------------------------------

  lemma {:induction false} SpacesEndAt(s: string, p: nat, k: nat)
    requires p <= k <= |s| && (forall i :: p <= i < k ==> s[i] == ' ') && !IsSpace(At(s, k))
    ensures SpacesEnd(s, p) == k
    decreases k - p
  {
    if p < k {
      SpacesEndAt(s, p + 1, k);
    }
  }

  lemma {:induction false} DigitsEndAt(s: string, p: nat, e: nat, base: nat)
    requires p <= e <= |s| && AllDigits(s[p..e], base) && (e < |s| ==> DigitVal(s[e]) >= base)
    ensures DigitsEnd(s, p, base) == e
    decreases e - p
  {
    if p < e {
      assert s[p..e][0] == s[p];
      assert s[p + 1..e] == s[p..e][1..];
      DigitsEndAt(s, p + 1, e, base);
    }
  }

  predicate Spelling(prefix: string, digits: string, base: nat) {
    && (prefix == "" || prefix == "-" || prefix == "+" || prefix == " "
        || (base == 16 && (prefix == "0x" || prefix == "0X")))
    && (base == 8 || base == 10 || base == 16)
    && |digits| > 0 && AllDigits(digits, base)
  }

  lemma SpelledParts(l: nat, prefix: string, z: nat, digits: string, r: nat)
    ensures var s, d := Spelled(l, prefix, z, digits, r), Repeat('0', z) + digits;
      var p := l + |prefix|;
      && |s| == p + |d| + r
      && (forall i :: 0 <= i < l ==> s[i] == ' ')
      && s[l..p] == prefix && s[p..p + |d|] == d && s[p + |d|..] == Repeat(' ', r)
      && (r > 0 ==> s[p + |d|] == ' ')
  {
  }

  lemma SpelledStart(l: nat, prefix: string, z: nat, digits: string, r: nat, base: nat)
    requires Spelling(prefix, Repeat('0', z) + digits, base)
    ensures var s := Spelled(l, prefix, z, digits, r);
      var k := l + if prefix == " " then 1 else 0;
      k < |s| && SpacesEnd(s, 0) == k && (s[k] == '-' <==> prefix == "-") && (s[k] == '+' <==> prefix == "+")
  {
    SpelledParts(l, prefix, z, digits, r);
    hide Spelled, SpacesEnd;
    var s, d := Spelled(l, prefix, z, digits, r), Repeat('0', z) + digits;
    var p := l + |prefix|;
    var k := l + if prefix == " " then 1 else 0;
    if k < p {
      assert s[l] == s[l..p][0];
    } else {
      assert s[p] == s[p..p + |d|][0] && DigitVal(d[0]) < base;
    }
    SpacesEndAt(s, 0, k);
  }

  /** Where the sign ends. */
  function SignEnd(l: nat, prefix: string): nat {
    if prefix == "-" || prefix == "+" || prefix == " " then l + 1 else l
  }

  lemma SpelledPrefix(l: nat, prefix: string, z: nat, digits: string, r: nat, base: nat)
    requires Spelling(prefix, Repeat('0', z) + digits, base)
    ensures var s := Spelled(l, prefix, z, digits, r);
      SignEnd(l, prefix) <= |s| && PrefixEnd(s, SignEnd(l, prefix), base) == l + |prefix|
  {
    SpelledParts(l, prefix, z, digits, r);
    hide Spelled;
    var s, d := Spelled(l, prefix, z, digits, r), Repeat('0', z) + digits;
    var p := l + |prefix|;
    assert s[p] == s[p..p + |d|][0] && DigitVal(d[0]) < base;
    if |prefix| == 2 {
      assert s[l] == s[l..p][0] && s[l + 1] == s[l..p][1];
    } else if |d| > 1 {
      assert s[p + 1] == s[p..p + |d|][1] && DigitVal(d[1]) < base;
    }
  }

  lemma SpelledSubject(l: nat, prefix: string, z: nat, digits: string, r: nat, base: nat, signed: bool)
    requires Spelling(prefix, Repeat('0', z) + digits, base)
    ensures var d := Repeat('0', z) + digits;
      var (v, range) := Clamp(Value(d, base), prefix == "-", signed);
      var p := l + |prefix|;
      && p <= |Spelled(l, prefix, z, digits, r)|
      && Subject(Spelled(l, prefix, z, digits, r), p, base, prefix == "-", signed) == Parsed(v, p + |d|, range)
  {
    SpelledParts(l, prefix, z, digits, r);
    hide Spelled, Value, Clamp;
    var p := l + |prefix|;
    DigitsEndAt(Spelled(l, prefix, z, digits, r), p, p + |Repeat('0', z) + digits|, base);
  }

  lemma MeaningUnfolds(s: string, base: nat, signed: bool, k: nat, p1: nat)
    requires 2 <= base <= 36 && SpacesEnd(s, 0) == k && p1 <= |s|
    requires p1 == if At(s, k) == '+' || At(s, k) == '-' then k + 1 else k
    ensures Meaning(s, base, signed) == Subject(s, PrefixEnd(s, p1, base), base, At(s, k) == '-', signed)
  {
    hide Subject, PrefixEnd, SpacesEnd;
  }

  lemma SpelledMeans(l: nat, prefix: string, z: nat, digits: string, r: nat, base: nat, signed: bool)
    requires Spelling(prefix, Repeat('0', z) + digits, base)
    ensures var d := Repeat('0', z) + digits;
      var (v, range) := Clamp(Value(d, base), prefix == "-", signed);
      Meaning(Spelled(l, prefix, z, digits, r), base, signed) == Parsed(v, l + |prefix| + |d|, range)
  {
    SpelledStart(l, prefix, z, digits, r, base);
    SpelledPrefix(l, prefix, z, digits, r, base);
    SpelledSubject(l, prefix, z, digits, r, base, signed);
    hide Spelled, Subject, PrefixEnd, SpacesEnd, DigitsEnd, Clamp, Value, AllDigits;
    var s := Spelled(l, prefix, z, digits, r);
    MeaningUnfolds(s, base, signed, l + if prefix == " " then 1 else 0, SignEnd(l, prefix));
  }

  /** The digits of a conversion, with any further zeros in front, denote its magnitude. */
  lemma DigitsMean(n: DWord, c: Conv, zeros: nat)
    requires c.Known() && !(c.precision == Some(0) && n == 0)
    ensures var d := Repeat('0', zeros) + c.Digits(n);
      |d| > 0 && AllDigits(d, c.base) && Value(d, c.base) == c.Magnitude(n)
  {
    hide DigitString, Value;
    var m, digits := c.Magnitude(n), DigitString(c.Magnitude(n), c.base, c.upper);
    DigitStringValue(m, c.base, c.upper);
    var k := |c.Digits(n)| - |digits|;
    assert Repeat('0', zeros) + c.Digits(n) == Repeat('0', zeros + k) + digits;
    ZerosKeepValue(zeros + k, digits, c.base);
  }

  lemma SignRestores(n: DWord, c: Conv)
    requires c.Known()
    ensures Clamp(c.Magnitude(n), c.Prefix(n) == "-", c.signed) == (n, false)
  {
  }

  /** Converted and parsed back in its base, a number is itself: no range error, and only padding is left over. */
  lemma RoundTrip(n: DWord, c: Conv)
    requires c.Known() && !(c.precision == Some(0) && n == 0)
    ensures var s := c.Written(n);
      var r := Meaning(s, c.base, c.signed);
      && r.val == n && !r.range
      && r.end <= |s| && s[r.end..] == Repeat(' ', |s| - r.end)
      && (!c.left ==> r.end == |s|)
  {
    var p, d := c.Prefix(n), c.Digits(n);
    var (l, z, r) := Gaps(n, c);
    WrittenIsSpelled(n, c);
    DigitsMean(n, c, z);
    SignRestores(n, c);
    assert Spelling(p, Repeat('0', z) + d, c.base);
    hide Spelled, Conv.Digits, Conv.Prefix, Conv.Magnitude, Conv.Written, Value, Meaning, Clamp, Spelling, Gaps;
    SpelledParts(l, p, z, d, r);
    SpelledMeans(l, p, z, d, r, c.base, c.signed);
  }

  /** The blanks before, the zeros inside and the blanks behind. */
  ghost function Gaps(n: DWord, c: Conv): (nat, nat, nat)
    requires c.Known()
  {
    var pad := c.Padding(c.Prefix(n), c.Digits(n));
    if c.left then (0, 0, pad) else if c.zero && c.precision.None? then (0, pad, 0) else (pad, 0, 0)
  }

  lemma WrittenIsSpelled(n: DWord, c: Conv)
    requires c.Known()
    ensures var (l, z, r) := Gaps(n, c);
      c.Written(n) == Spelled(l, c.Prefix(n), z, c.Digits(n), r) && (r > 0 ==> c.left)
  {
  }

  /** The text says its base: 0x in front of hexadecimal digits, a zero in front of octal ones, none in front of decimal
      ones. */
  predicate SaysBase(prefix: string, d: string, base: nat) {
    && (base == 16 ==> |prefix| == 2)
    && (base == 8 ==> |prefix| == 0 && d != "" && d[0] == '0')
    && (base == 10 ==> d != "" && d[0] != '0')
  }

  lemma BaseInferred(l: nat, prefix: string, z: nat, digits: string, r: nat, base: nat)
    requires Spelling(prefix, Repeat('0', z) + digits, base) && SaysBase(prefix, Repeat('0', z) + digits, base)
    ensures var s := Spelled(l, prefix, z, digits, r);
      SignEnd(l, prefix) <= |s| && InferBase(s, SignEnd(l, prefix)) == base
  {
    SpelledParts(l, prefix, z, digits, r);
    hide Spelled;
    var s, d := Spelled(l, prefix, z, digits, r), Repeat('0', z) + digits;
    var p := l + |prefix|;
    assert s[p] == s[p..p + |d|][0] && DigitVal(d[0]) < base;
    if |prefix| == 2 {
      assert s[l] == s[l..p][0] && s[l + 1] == s[l..p][1];
    } else if |d| > 1 {
      assert s[p + 1] == s[p..p + |d|][1] && DigitVal(d[1]) < base;
    }
  }

  /** Where the text says its base, base 0 reads it like that base. */
  lemma SameMeaning(l: nat, prefix: string, z: nat, digits: string, r: nat, base: nat, signed: bool)
    requires Spelling(prefix, Repeat('0', z) + digits, base) && SaysBase(prefix, Repeat('0', z) + digits, base)
    ensures var s := Spelled(l, prefix, z, digits, r); Meaning(s, 0, signed) == Meaning(s, base, signed)
  {
    SpelledStart(l, prefix, z, digits, r, base);
    BaseInferred(l, prefix, z, digits, r, base);
    hide Spelled, Subject, PrefixEnd, SpacesEnd, Spelling, SaysBase, InferBase;
    var s, k := Spelled(l, prefix, z, digits, r), l + if prefix == " " then 1 else 0;
    assert SignEnd(l, prefix) == if At(s, k) == '+' || At(s, k) == '-' then k + 1 else k;
  }

  /** In the alternative form octal and hexadecimal numbers are read back in base 0, and decimal ones without zeros in
      front. */
  lemma RoundTripBaseZero(n: DWord, c: Conv)
    requires c.Known() && !(c.precision == Some(0) && n == 0)
    requires SaysBase(c.Prefix(n), Repeat('0', Gaps(n, c).1) + c.Digits(n), c.base)
    ensures Meaning(c.Written(n), 0, c.signed).val == n && !Meaning(c.Written(n), 0, c.signed).range
  {
    RoundTrip(n, c);
    var (l, z, r) := Gaps(n, c);
    WrittenIsSpelled(n, c);
    DigitsMean(n, c, z);
    assert Spelling(c.Prefix(n), Repeat('0', z) + c.Digits(n), c.base);
    hide Spelled, Conv.Digits, Conv.Prefix, Conv.Magnitude, Conv.Written, Value, Meaning, Clamp, Spelling, Gaps,
        SaysBase;
    SameMeaning(l, c.Prefix(n), z, c.Digits(n), r, c.base, c.signed);
  }

  /** The alternative form of a number that is not zero says its base. */
  lemma AlternativeSaysBase(n: DWord, c: Conv)
    requires c.Known() && c.alt && c.base != 10 && c.Ordinary(n) && n != 0
    ensures SaysBase(c.Prefix(n), Repeat('0', Gaps(n, c).1) + c.Digits(n), c.base)
  {
    DigitsAsAsked(n, c);
    var d := c.Digits(n);
    assert c.base == 8 ==> d != "" && d[0] == '0';
    assert c.base == 8 ==> (Repeat('0', Gaps(n, c).1) + d)[0] == '0';
  }

  /** Without a digit in it a string denotes nothing. */
  lemma NoDigits(s: string, base: nat, signed: bool)
    requires 2 <= base <= 36 && forall i :: 0 <= i < |s| ==> s[i] == ' ' || s[i] == '+'
    ensures Meaning(s, base, signed) == Parsed(0, 0, false)
  {
    var k := SpacesEnd(s, 0);
    var p1 := if At(s, k) == '+' then k + 1 else k;
    assert At(s, p1) == ' ' || At(s, p1) == '+' || At(s, p1) == '\0';
    assert PrefixEnd(s, p1, base) == p1 && DigitsEnd(s, p1, base) == p1;
    hide Value, Clamp, SpacesEnd, PrefixEnd, DigitsEnd;
  }

  /** The exception: zero at precision zero has no digits, so there is no number to find. */
  lemma NothingToParse(c: Conv)
    requires c.Known() && c.precision == Some(0)
    ensures c.Digits(0) == "" && Meaning(c.Written(0), c.base, c.signed) == Parsed(0, 0, false)
  {
    var s := c.Written(0);
    assert forall i :: 0 <= i < |s| ==> s[i] == ' ' || s[i] == '+';
    hide Meaning, Conv.Written;
    NoDigits(s, c.base, c.signed);
  }
}
