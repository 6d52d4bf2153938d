/** Number output and bounded output of printf.c. */
module Printf {
  import opened Arithmetic
  import opened Numerals
  import opened Wrappers
  import Ip4Addr

  function Pow(b: nat, k: nat): (p: nat)
    ensures b >= 1 ==> p >= 1
  {
    if k == 0 then 1
    else
      assert b >= 1 ==> b * Pow(b, k - 1) >= 1 by { if b >= 1 { MulMonotone(1, b, Pow(b, k - 1)); } }
      b * Pow(b, k - 1)
  }

  predicate IsBase(b: nat) {
    b == 8 || b == 10 || b == 16
  }

  /** A letter is of the case asked for. */
  predicate InCase(c: char, uc: bool) {
    IsDigit(c) || if uc then 'A' <= c <= 'F' else 'a' <= c <= 'f'
  }

  predicate AllInCase(s: string, uc: bool) {
    forall i :: 0 <= i < |s| ==> InCase(s[i], uc)
  }

  /** The character of a digit: 0 to 9, then letters of the case asked for. */
  function DigitChar(d: nat, uc: bool): (c: char)
    requires d < 16
    ensures IsXDigit(c) && DigitValue(c) == d && InCase(c, uc)
  {
    if d < 10 then '0' + d as char else if uc then 'A' + (d - 10) as char else 'a' + (d - 10) as char
  }

  /** The numeral of a number: its digits are below the base, stand for the
      number, and do not begin with a zero unless there is just one. */
  ghost predicate Canonical(s: string, n: nat, base: nat) {
    && s != [] && DigitsBelow(s, base)
    && Number(s, base) == n && (|s| > 1 ==> DigitValue(s[0]) > 0)
  }

  ghost predicate DigitsBelow(s: string, base: nat) {
    AllAccepted(s, base) && forall i :: 0 <= i < |s| ==> DigitValue(s[i]) < base
  }

  lemma LessWithDigit(base: nat, m: nat, d: nat, p: nat)
    requires d < base && m < p
    ensures m * base + d < base * p
  {
    MulMonotone(m + 1, p, base);
  }

  lemma AtLeastWithDigit(base: nat, m: nat, d: nat, p: nat)
    requires m >= p
    ensures m * base + d >= base * p
  {
    MulMonotone(p, m, base);
  }

  /** Digits below the base stand for less than the power of their number, and
      without a leading zero for no less than the power before. */
  lemma {:induction false} NumberBounds(s: string, base: nat)
    requires base >= 2 && DigitsBelow(s, base)
    ensures Number(s, base) < Pow(base, |s|)
    ensures s != [] && DigitValue(s[0]) > 0 ==> Number(s, base) >= Pow(base, |s| - 1)
  {
    if s != [] {
      var init := s[..|s| - 1];
      NumberBounds(init, base);
      LessWithDigit(base, Number(init, base), DigitValue(s[|s| - 1]), Pow(base, |init|));
      if init != [] && DigitValue(s[0]) > 0 {
        AtLeastWithDigit(base, Number(init, base), DigitValue(s[|s| - 1]), Pow(base, |init| - 1));
      }
      if |s| == 1 { assert init == [] && Number(init, base) == 0 && Pow(base, 0) == 1; }
    }
  }

  lemma {:induction false} PowGrows(b: nat, j: nat, k: nat)
    requires b >= 1 && j <= k
    ensures Pow(b, j) <= Pow(b, k)
  {
    if j < k {
      PowGrows(b, j, k - 1);
      MulMonotone(1, b, Pow(b, k - 1));
    }
  }

  /** The numeral has at most k digits just when the number is below base^k. */
  lemma NumeralFits(s: string, n: nat, base: nat, k: nat)
    requires IsBase(base) && Canonical(s, n, base) && k >= 1
    ensures |s| <= k <==> n < Pow(base, k)
  {
    NumberBounds(s, base);
    if |s| <= k {
      PowGrows(base, |s|, k);
    } else {
      PowGrows(base, k, |s| - 1);
    }
  }

  lemma MulAssociates(a: nat, b: nat, c: nat)
    ensures a * (b * c) == a * b * c
  {
  }

  lemma {:induction false} PowAdd(b: nat, j: nat, k: nat)
    ensures Pow(b, j + k) == Pow(b, j) * Pow(b, k)
  {
    if j > 0 {
      PowAdd(b, j - 1, k);
      MulAssociates(b, Pow(b, j - 1), Pow(b, k));
    }
  }

  lemma PowerValues()
    ensures Pow(10, 20) == 100000000000000000000
    ensures Pow(16, 16) == 0x1_0000_0000_0000_0000 && Pow(8, 11) == 0x2_0000_0000
  {
    assert Pow(10, 5) == 100000 && Pow(8, 5) == 0x8000 && Pow(8, 1) == 8 && Pow(16, 4) == 0x1_0000;
    PowAdd(10, 5, 5);
    PowAdd(10, 10, 10);
    PowAdd(8, 5, 5);
    PowAdd(8, 10, 1);
    PowAdd(16, 4, 4);
    PowAdd(16, 8, 8);
  }

  /** The numbers that are formatted in a base: an octal one is always an
      unsigned int, the others have up to 64 bits. */
  predicate Formatted(n: nat, base: nat) {
    IsBase(base) && n < if base == 8 then UINT else 0x1_0000_0000_0000_0000
  }

  /** Every numeral fits the 20 characters of the buffer; 16 are enough in base
      16 and 11 in base 8. */
  lemma BufferSuffices(s: string, n: nat, base: nat)
    requires Formatted(n, base) && Canonical(s, n, base)
    ensures |s| <= if base == 10 then 20 else if base == 16 then 16 else 11
  {
    PowerValues();
    NumeralFits(s, n, base, if base == 10 then 20 else if base == 16 then 16 else 11);
  }

  /** The largest power of the base that is not above the number, found without
      leaving the width of the number's type. */
  method Divisor(num: nat, base: nat) returns (d: nat, ghost k: nat)
    requires IsBase(base)
    ensures d == Pow(base, k) && num / d < base && (k > 0 ==> d <= num)
    ensures d >= 1 && d <= if num == 0 then 1 else num
  {
    d, k := 1, 0;
    while num / d >= base
      invariant d == Pow(base, k) && d >= 1 && d <= (if num == 0 then 1 else num) && (k > 0 ==> d <= num)
      decreases num - d
    {
      QuotientScale(num, d, base);
      PowerUp(d, base, k);
      d, k := d * base, k + 1;
    }
  }

  lemma PowerUp(d: nat, base: nat, k: nat)
    requires d == Pow(base, k)
    ensures d * base == Pow(base, k + 1)
  {
  }

  lemma QuotientScale(num: nat, d: nat, base: nat)
    requires d >= 1 && base >= 2 && num / d >= base
    ensures d < d * base <= num
  {
    MulMonotone(base, num / d, d);
    MulMonotone(2, base, d);
  }

  /** Taking the leading digit off. */
  lemma DigitOff(v: nat, num: nat, d: nat, base: nat, power: nat, w: nat)
    requires d >= 1 && power == d * base && num < power
    ensures 0 <= num / d < base && 0 <= num % d < d
    ensures w == v * base + num / d ==> w * d + num % d == v * power + num
  {
    var q, r := num / d, num % d;
    assert num == q * d + r;
    assert q >= 0 by { if q < 0 { MulMonotone(q, -1, d); } }
    if q >= base { MulMonotone(base, q, d); }
    assert (v * base + q) * d == v * (d * base) + q * d;
  }

  /** The digits written so far, and a rest that is below the given power. */
  ghost predicate Split(bf: string, num: nat, power: nat, base: nat, number: nat) {
    DigitsBelow(bf, base) && num < power && number == Number(bf, base) * power + num
  }

  /** The first digit, which comes from the divisor called first, is no zero. */
  ghost predicate Led(bf: string, num: nat, power: nat, base: nat, first: nat) {
    if bf == [] then power == first * base && (first > 1 ==> num >= first)
    else if first == 1 then |bf| == 1 && power == 1
    else IsXDigit(bf[0]) && DigitValue(bf[0]) > 0
  }

  lemma SplitStep(bf: string, num: nat, d: nat, power: nat, base: nat, number: nat, c: char)
    requires IsBase(base) && d >= 1 && power == d * base && Split(bf, num, power, base, number)
    requires IsXDigit(c) && DigitValue(c) == num / d < base
    ensures Split(bf + [c], num % d, d, base, number)
  {
    DigitPut(bf, c, base);
    NumberOn(bf, base, c);
    DigitOff(Number(bf, base), num, d, base, power, Number(bf + [c], base));
  }

  lemma LedStep(bf: string, num: nat, d: nat, power: nat, base: nat, first: nat, c: char)
    requires d >= 1 && first >= 1 && base >= 2 && power == d * base && Led(bf, num, power, base, first)
    requires IsXDigit(c) && DigitValue(c) == num / d
    ensures Led(bf + [c], num % d, d, base, first)
  {
    if bf == [] {
      SameFactor(d, first, base);
      if first > 1 { AtLeastOne(num, d); }
    } else if first == 1 {
      MulMonotone(1, d, base);
      assert false;
    }
  }

  lemma SameFactor(a: nat, b: nat, base: nat)
    requires base >= 1 && a * base == b * base
    ensures a == b
  {
    if a < b { MulMonotone(a + 1, b, base); } else if b < a { MulMonotone(b + 1, a, base); }
  }

  lemma DigitPut(bf: string, c: char, base: nat)
    requires IsBase(base) && DigitsBelow(bf, base) && IsXDigit(c) && DigitValue(c) < base
    ensures DigitsBelow(bf + [c], base)
  {
  }

  lemma AtLeastOne(num: nat, d: nat)
    requires 1 <= d <= num
    ensures num / d >= 1
  {
  }

  /** One turn: the divisor is a power of the base, and the power one above it
      bounds the rest; after the last digit the divisor is zero. */
  ghost predicate Turn(bf: string, num: nat, d: nat, k: nat, power: nat, base: nat, number: nat, first: nat) {
    && first >= 1 && Split(bf, num, power, base, number) && Led(bf, num, power, base, first)
    && if d == 0 then power == 1 else d == Pow(base, k) && power == d * base
  }

  lemma NextTurn(bf: string, num: nat, d: nat, k: nat, power: nat, base: nat, number: nat, first: nat, c: char)
    requires IsBase(base) && d > 0 && Turn(bf, num, d, k, power, base, number, first)
    requires IsXDigit(c) && DigitValue(c) == num / d
    ensures num / d < base && d / base < d
    ensures Turn(bf + [c], num % d, d / base, if k > 0 then k - 1 else 0, d, base, number, first)
  {
    DigitOff(0, num, d, base, power, 0);
    PowerDown(d, base, k);
    SplitStep(bf, num, d, power, base, number, c);
    LedStep(bf, num, d, power, base, first, c);
  }

  lemma FirstTurn(number: nat, d: nat, k: nat, base: nat)
    requires IsBase(base) && d == Pow(base, k) && d >= 1 && number / d < base && (k > 0 ==> d <= number)
    ensures Turn("", number, d, k, d * base, base, number, d)
  {
    QuotientBelow(number, d, base);
    assert d > 1 ==> k > 0;
  }

  lemma LastTurn(bf: string, num: nat, k: nat, power: nat, base: nat, number: nat, first: nat)
    requires IsBase(base) && Turn(bf, num, 0, k, power, base, number, first)
    ensures Canonical(bf, number, base)
  {
    MulMonotone(1, first, base);
  }

  lemma DigitBound(bf: string, num: nat, d: nat, k: nat, power: nat, base: nat, number: nat, first: nat)
    requires IsBase(base) && d > 0 && Turn(bf, num, d, k, power, base, number, first)
    ensures 0 <= num / d < base
  {
    DigitOff(0, num, d, base, power, 0);
  }

  /** The body of the digit loop. */
  method EmitDigit(bf: string, num: nat, d: nat, base: nat, uc: bool, ghost k: nat, ghost power: nat,
                   ghost number: nat, ghost first: nat)
    returns (bf': string, num': nat, d': nat, ghost k': nat)
    requires IsBase(base) && d > 0 && Turn(bf, num, d, k, power, base, number, first)
    ensures d' < d && Turn(bf', num', d', k', d, base, number, first)
    ensures AllInCase(bf, uc) ==> AllInCase(bf', uc)
  {
    DigitBound(bf, num, d, k, power, base, number, first);
    var c := DigitChar(num / d, uc);
    NextTurn(bf, num, d, k, power, base, number, first, c);
    bf', num', d', k' := bf + [c], num % d, d / base, if k > 0 then k - 1 else 0;
  }

  /** ulli2a, uli2a and ui2a: with precision zero a zero has no digits. */
  method UnsignedToA(number: nat, base: nat, uc: bool, prec: int) returns (bf: string)
    requires IsBase(base)
    ensures number == 0 && prec == 0 ==> bf == ""
    ensures !(number == 0 && prec == 0) ==> Canonical(bf, number, base)
    ensures AllInCase(bf, uc)
  {
    bf := "";
    if prec == 0 && number == 0 {
      return;
    }
    var num: nat := number;
    var d: nat, k: nat := Divisor(num, base);
    FirstTurn(number, d, k, base);
    ghost var first: nat, power: nat := d, d * base;
    while d != 0
      invariant Turn(bf, num, d, k, power, base, number, first) && AllInCase(bf, uc)
      decreases d
    {
      ghost var above := d;
      bf, num, d, k := EmitDigit(bf, num, d, base, uc, k, power, number, first);
      power := above;
    }
    LastTurn(bf, num, k, power, base, number, first);
  }

  lemma QuotientBelow(num: nat, d: nat, base: nat)
    requires d >= 1 && num / d < base
    ensures num < d * base
  {
    MulMonotone(num / d + 1, base, d);
  }

  lemma PowerDown(d: nat, base: nat, k: nat)
    requires base >= 2 && d == Pow(base, k)
    ensures d / base < d
    ensures if k == 0 then d == 1 && d / base == 0 else d / base == Pow(base, k - 1) >= 1 && d / base * base == d
  {
    if k > 0 {
      DivModUnique(d, Pow(base, k - 1), 0, base);
      MulMonotone(2, base, Pow(base, k - 1));
    }
  }

  // ---------- a2u

  const UINT: nat := 0x1_0000_0000

  /** A character that a2u takes in: a digit that is not above the base. */
  predicate Taken(c: char, base: nat) {
    IsXDigit(c) && DigitValue(c) <= base
  }

  predicate AllTaken(s: string, base: nat) {
    forall i :: 0 <= i < |s| ==> Taken(s[i], base)
  }

  function Accumulated(s: string, base: nat): nat
    requires AllTaken(s, base)
  {
    if s == [] then 0 else Accumulated(s[..|s| - 1], base) * base + DigitValue(s[|s| - 1])
  }

  lemma WrapStep(n: nat, base: nat, d: nat)
    ensures (n % UINT * base + d) % UINT == (n * base + d) % UINT
  {
    var q, r := n / UINT, n % UINT;
    var x := r * base + d;
    assert n == q * UINT + r;
    assert q * UINT * base == (q * base) * UINT;
    DivModUnique(n * base + d, q * base + x / UINT, x % UINT, UINT);
  }

  /** a2u: the longest run of characters taken in, and its value in 32 bits. */
  method A2u(s: string, base: nat) returns (num: nat, end: nat)
    ensures end <= |s| && AllTaken(s[..end], base) && (end < |s| ==> !Taken(s[end], base))
    ensures num == Accumulated(s[..end], base) % UINT
  {
    num, end := 0, 0;
    while end < |s| && IsXDigit(s[end])
      invariant end <= |s| && AllTaken(s[..end], base) && num == Accumulated(s[..end], base) % UINT
    {
      var digit := DigitValue(s[end]);
      if digit > base {
        break;
      }
      WrapStep(Accumulated(s[..end], base), base, digit);
      assert s[..end + 1][..end] == s[..end];
      num := (num * base + digit) % UINT;
      end := end + 1;
    }
  }

  lemma {:induction false} AccumulatedDecimal(s: string)
    requires DigitsBelow(s, 10)
    ensures AllTaken(s, 10) && Accumulated(s, 10) == Number(s, 10)
  {
    if s != [] {
      AccumulatedDecimal(s[..|s| - 1]);
    }
  }

  lemma RunLength(s: string, rest: string, base: nat, end: nat)
    requires AllTaken(s, base) && end <= |s + rest|
    requires AllTaken((s + rest)[..end], base) && (end < |s + rest| ==> !Taken((s + rest)[end], base))
    ensures end >= |s| && (end == |s| <==> rest == [] || !Taken(rest[0], base))
  {
    assert forall k :: 0 <= k < |s| ==> (s + rest)[k] == s[k];
    assert rest != [] ==> (s + rest)[|s|] == rest[0];
    assert end > |s| ==> (s + rest)[..end][|s|] == rest[0];
  }

  /** a2u reads the decimal numeral of a 32-bit number back just when the next
      character is no digit and no letter a; the letter counts as the digit ten. */
  lemma NumeralReadBack(s: string, n: nat, rest: string, num: nat, end: nat)
    requires Canonical(s, n, 10) && n < UINT && end <= |s + rest|
    requires AllTaken((s + rest)[..end], 10) && (end < |s + rest| ==> !Taken((s + rest)[end], 10))
    requires num == Accumulated((s + rest)[..end], 10) % UINT
    ensures end == |s| <==> rest == [] || !(IsDigit(rest[0]) || rest[0] == 'a' || rest[0] == 'A')
    ensures end == |s| ==> num == n
  {
    AccumulatedDecimal(s);
    RunLength(s, rest, 10, end);
    if end == |s| {
      assert (s + rest)[..end] == s;
    }
  }

  /** Twelve, followed by a letter a, is read as 130. */
  method LetterTaken() returns (num: nat, end: nat)
    ensures Canonical("12", 12, 10) && num == 130 && end == 3
  {
    num, end := A2u("12a", 10);
    ghost var s := "12a";
    TwelveAndLetter();
    RunLength(s, "", 10, end) by {
      assert s + "" == s;
    }
    assert s[..end] == s;
  }

  lemma TwelveAndLetter()
    ensures Canonical("12", 12, 10) && AllTaken("12a", 10) && Accumulated("12a", 10) == 130
  {
    var one, two, s := "1", "12", "12a";
    assert one[..0] == "" && two[..1] == one && s[..2] == two;
    assert Number(one, 10) == 1 && Number(two, 10) == 12;
    assert Accumulated(one, 10) == 1 && Accumulated(two, 10) == 12;
  }

  // ---------- putchw

  datatype Field = Field(lz: bool, alt: bool, uc: bool, alignLeft: bool, width: int, prec: int, sign: string, base: nat)

  function Repeat(c: char, n: int): (s: string)
    ensures |s| == (if n > 0 then n else 0) && forall i :: 0 <= i < |s| ==> s[i] == c
  {
    if n <= 0 then "" else seq(n, _ => c)
  }

  function AltPrefix(f: Field): string {
    if f.alt && f.base == 16 then (if f.uc then "0X" else "0x") else if f.alt && f.base == 8 then "0" else ""
  }

  /** Zeros up to the precision. */
  function Zeros(f: Field, bf: string): string {
    Repeat('0', f.prec - |bf|)
  }

  /** What the field is wider than what it shows. */
  function Filling(f: Field, bf: string): int {
    f.width - |f.sign| - |AltPrefix(f)| - |Zeros(f, bf)| - |bf|
  }

  /** A field: the filling goes in front as spaces, behind the prefix as zeros,
      or behind the digits as spaces. */
  function Layout(f: Field, bf: string): string {
    var fill := Filling(f, bf);
    (if !f.lz && !f.alignLeft then Repeat(' ', fill) else "") + f.sign + AltPrefix(f) + Zeros(f, bf)
    + (if f.lz then Repeat('0', fill) else "") + bf + (if !f.lz && f.alignLeft then Repeat(' ', fill) else "")
  }

  /** The field is as wide as asked for, or as what it shows if that is wider: a
      sign, a prefix in the alternate form only, and with leading zeros at least
      as many digits as the precision says. */
  lemma LayoutWidth(f: Field, bf: string)
    ensures var prefix := if f.alt && f.base == 16 then 2 else if f.alt && f.base == 8 then 1 else 0;
            var digits := if f.prec > |bf| then f.prec else |bf|;
            var shown := |f.sign| + prefix + digits;
            && |Zeros(f, bf) + bf| == digits && AllAre(Zeros(f, bf), '0')
            && |Layout(f, bf)| == if f.width > shown then f.width else shown
  {
  }

  /** What a field shows, apart from the filling. */
  function Shown(f: Field, bf: string): string {
    f.sign + AltPrefix(f) + Zeros(f, bf) + bf
  }

  predicate AllAre(s: string, c: char) {
    forall i :: 0 <= i < |s| ==> s[i] == c
  }

  lemma Aligned(f: Field, bf: string)
    ensures !f.lz ==>
              Layout(f, bf) == if f.alignLeft then Shown(f, bf) + Repeat(' ', Filling(f, bf))
                               else Repeat(' ', Filling(f, bf)) + Shown(f, bf)
  {
    var a, b, c := f.sign + AltPrefix(f) + Zeros(f, bf), Repeat(' ', Filling(f, bf)), Zeros(f, bf);
    assert a + "" + bf == Shown(f, bf) && Shown(f, bf) + "" == Shown(f, bf);
    assert "" + f.sign == f.sign;
    assert b + f.sign + AltPrefix(f) + c == b + a && (b + a) + "" == b + a && (b + a) + bf == b + (a + bf);
  }

  /** Without zero filling a field shows the sign, the prefix, zeros and digits
      in one piece: first of all if it is left aligned, else last of all.  With
      zero filling the sign and the prefix come first and the digits last. */
  lemma LayoutPlaces(f: Field, bf: string)
    ensures var out, shown := Layout(f, bf), Shown(f, bf);
            && |shown| <= |out|
            && (!f.lz && f.alignLeft ==> out[..|shown|] == shown && AllAre(out[|shown|..], ' '))
            && (!f.lz && !f.alignLeft ==> out[|out| - |shown|..] == shown && AllAre(out[..|out| - |shown|], ' '))
    ensures f.lz ==>
              var out, first := Layout(f, bf), f.sign + AltPrefix(f);
              && |first| + |bf| <= |out| && out[..|first|] == first && out[|out| - |bf|..] == bf
              && AllAre(out[|first|..|out| - |bf|], '0')
  {
    var out, fill := Layout(f, bf), Repeat(' ', Filling(f, bf));
    if f.lz {
      var first, zeros := f.sign + AltPrefix(f), Zeros(f, bf) + Repeat('0', Filling(f, bf));
      assert out == first + zeros + bf by {
        assert "" + f.sign == f.sign;
        assert first + Zeros(f, bf) + Repeat('0', Filling(f, bf)) == first + zeros;
        assert (first + zeros + bf) + "" == first + zeros + bf;
      }
    } else {
      Aligned(f, bf);
    }
  }

  /** The prefix of the alternate form makes an octal or a hexadecimal constant
      of a numeral, which a parser of such constants reads back. */
  lemma AlternateForm(f: Field, bf: string, n: nat) returns (p: Ip4Addr.Spelling)
    requires f.alt && (f.base == 8 || f.base == 16) && Canonical(bf, n, f.base)
    ensures p.Valid() && p.Text() == AltPrefix(f) + bf && p.Value() == n
    ensures if f.base == 8 then p.Octal? else p.Hex? && p.x == if f.uc then 'X' else 'x'
    ensures Ip4Addr.Aton(AltPrefix(f) + bf) == Some(n % Ip4Addr.WRAP)
  {
    p := if f.base == 8 then Ip4Addr.Octal(bf) else Ip4Addr.Hex(if f.uc then 'X' else 'x', bf);
    assert p.Text() == AltPrefix(f) + bf;
    Ip4Addr.OfOnePart(p, AltPrefix(f) + bf, n % Ip4Addr.WRAP);
  }

  method Put(out: string, c: char, count: int) returns (r: string)
    ensures r == out + Repeat(c, count)
  {
    r := out;
    var n := count;
    while n > 0
      invariant r == out + Repeat(c, count - if n > 0 then n else if count > 0 then 0 else count)
      decreases n
    {
      r := r + [c];
      n := n - 1;
    }
  }

  /** The arithmetic at the start of putchw. */
  method FillingOf(f: Field, bf: string) returns (width: int, prec: int)
    requires |f.sign| <= 1
    ensures prec == f.prec - |bf| && width == Filling(f, bf)
  {
    width, prec := f.width - |bf|, f.prec - |bf|;
    if f.sign != "" {
      width := width - 1;
    }
    if f.alt && f.base == 16 {
      width := width - 2;
    } else if f.alt && f.base == 8 {
      width := width - 1;
    }
    if prec > 0 {
      width := width - prec;
    }
  }

  method PutPrefix(out: string, f: Field) returns (r: string)
    ensures r == out + AltPrefix(f)
  {
    r := out;
    if f.alt && f.base == 16 {
      r := r + (if f.uc then "0X" else "0x");
    } else if f.alt && f.base == 8 {
      r := r + "0";
    }
  }

  /** putchw. */
  method Putchw(f: Field, bf: string) returns (out: string)
    requires |f.sign| <= 1 && forall i :: 0 <= i < |bf| ==> bf[i] != 0 as char
    ensures out == Layout(f, bf) && |Shown(f, bf)| <= |out|
    ensures !f.lz && f.alignLeft ==> var k := |Shown(f, bf)|; out[..k] == Shown(f, bf) && AllAre(out[k..], ' ')
    ensures !f.lz && !f.alignLeft ==>
              var k := |out| - |Shown(f, bf)|; out[k..] == Shown(f, bf) && AllAre(out[..k], ' ')
    ensures f.lz ==>
              var first := f.sign + AltPrefix(f);
              && |first| + |bf| <= |out| && out[..|first|] == first && out[|out| - |bf|..] == bf
              && AllAre(out[|first|..|out| - |bf|], '0')
  {
    LayoutPlaces(f, bf);
    var width, prec := FillingOf(f, bf);
    out := "";
    if !f.lz && !f.alignLeft {
      out := Put(out, ' ', width);
    }
    assert out == if !f.lz && !f.alignLeft then Repeat(' ', width) else "";
    out := PutPrefix(out + f.sign, f);
    out := Put(out, '0', prec);
    ghost var ahead := out;
    if f.lz {
      out := Put(out, '0', width);
    }
    assert out == ahead + if f.lz then Repeat('0', width) else "";
    out := out + bf;
    if !f.lz && f.alignLeft {
      out := Put(out, ' ', width);
    }
  }

  // ---------- Bounded output

  function Min(a: nat, b: nat): nat {
    if a < b then a else b
  }

  class BoundedSink {
    const dest: array<char>
    const capacity: nat
    var numChars: nat
    ghost var written: string

    ghost predicate Valid()
      reads this, dest
    {
      && capacity < dest.Length && numChars == |written|
      && dest[..Min(numChars, capacity)] == written[..Min(numChars, capacity)]
    }

    constructor (dest: array<char>, capacity: nat)
      requires capacity < dest.Length
      ensures Valid() && written == "" && this.dest == dest && this.capacity == capacity
    {
      this.dest, this.capacity, numChars, written := dest, capacity, 0, "";
    }

    /** _vsnprintf_putcf. */
    method PutChar(c: char)
      requires Valid()
      modifies this, dest
      ensures Valid() && written == old(written) + [c]
      ensures forall j :: 0 <= j < dest.Length && j >= capacity ==> dest[j] == old(dest[j])
    {
      if numChars < capacity {
        dest[numChars] := c;
      }
      numChars := numChars + 1;
      written := written + [c];
    }
  }

  /** tfp_vsnprintf, for what the format writes: the longest prefix that fits,
      a NUL behind it, and the full length. */
  method Vsnprintf(text: string, str: array<char>, size: nat) returns (n: nat)
    requires size <= str.Length
    modifies str
    ensures size == 0 ==> n == 0 && str[..] == old(str[..])
    ensures size > 0 ==>
              && n == |text| && var m := Min(n, size - 1); str[..m] == text[..m] && str[m] == 0 as char
    ensures forall j :: 0 <= j < str.Length && j >= size ==> str[j] == old(str[j])
  {
    if size < 1 {
      return 0;
    }
    var data := new BoundedSink(str, size - 1);
    for i := 0 to |text|
      invariant data.Valid() && data.written == text[..i] && data.dest == str && data.capacity == size - 1
      invariant fresh(data)
      invariant forall j :: 0 <= j < str.Length && j >= size ==> str[j] == old(str[j])
    {
      data.PutChar(text[i]);
    }
    if data.numChars < data.capacity {
      str[data.numChars] := 0 as char;
    } else {
      str[data.capacity] := 0 as char;
    }
    n := data.numChars;
    assert text[..|text|] == text;
  }

  /** tfp_vsprintf: everything, and a NUL behind it. */
  method Vsprintf(text: string, str: array<char>) returns (n: nat)
    requires |text| < str.Length
    modifies str
    ensures n == |text| && str[..n] == text && str[n] == 0 as char
  {
    n := 0;
    while n < |text|
      invariant n <= |text| && str[..n] == text[..n]
    {
      str[n] := text[n];
      n := n + 1;
    }
    str[n] := 0 as char;
  }
}
