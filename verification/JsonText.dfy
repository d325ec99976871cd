/** Every way to write a value down as JSON text, and what each means, apart from the parser: its
  * tokens. */
module JsonText {
  import opened JsonValue
  import opened JsonGrammar
  import opened JsonTokens

  // ----- blanks

  /** The blank, and the characters from tab to carriage return. */
  predicate Blank(c: char) {
    c as int == 32 || 9 <= c as int <= 13
  }

  predicate AllBlank(s: string) {
    forall i :: 0 <= i < |s| ==> Blank(s[i])
  }

  lemma BlanksSkipped(pad: string, s: string)
    requires AllBlank(pad)
    ensures Skip(pad + s) == Skip(s)
  {
    assert AllSpace(pad);
    SkipBlanks(pad, s);
  }

  /** What `Skip` takes away is blank. */
  lemma {:induction false} SkipSplits(s: string) returns (pad: string)
    ensures AllBlank(pad) && s == pad + Skip(s)
  {
    if s == "" || !IsSpace(s[0]) {
      pad := "";
    } else {
      pad := SkipSplits(s[1..]);
      assert s == [s[0]] + s[1..] == ([s[0]] + pad) + Skip(s[1..]);
      pad := [s[0]] + pad;
    }
  }

  // ----- numbers

  datatype Exponent = NoExponent | Exponent(mark: char, sign: string, digits: string)

  /** A sign, digits, a point, digits, an exponent: most of them may be missing. */
  datatype Numeral = Numeral(sign: string, whole: string, point: bool, frac: string, exp: Exponent)

  predicate SignOk(sign: string) {
    sign == "" || sign == "+" || sign == "-"
  }

  predicate NumeralOk(n: Numeral) {
    && SignOk(n.sign) && AllDigits(n.whole) && AllDigits(n.frac)
    && (n.point || n.frac == "") && (n.whole != "" || n.frac != "")
    && (n.exp.Exponent? ==> (n.exp.mark == 'e' || n.exp.mark == 'E') && SignOk(n.exp.sign)
                            && AllDigits(n.exp.digits) && n.exp.digits != "")
  }

  function SpellExponent(e: Exponent): string {
    match e
    case NoExponent => ""
    case Exponent(mark, sign, digits) => [mark] + (sign + digits)
  }

  function Dot(point: bool): string {
    if point then "." else ""
  }

  function SpellNumeral(n: Numeral): string {
    n.sign + (n.whole + (Dot(n.point) + (n.frac + SpellExponent(n.exp))))
  }

  /** A row of decimal digits, the first counting the highest power of ten. */
  function Decimal(s: string): int {
    if s == "" then 0 else (s[0] as int - 48) * PowerOfTen(|s| - 1) + Decimal(s[1..])
  }

  function TenTo(e: int): real
    decreases if e < 0 then -e else e
  {
    if e == 0 then 1.0 else if e > 0 then 10.0 * TenTo(e - 1) else TenTo(e + 1) / 10.0
  }

  function ExponentValue(e: Exponent): int {
    match e
    case NoExponent => 0
    case Exponent(_, sign, digits) => if sign == "-" then -Decimal(digits) else Decimal(digits)
  }

  /** The digits as one whole number, times a power of ten. */
  function Size(n: Numeral): real {
    Decimal(n.whole + n.frac) as real * TenTo(ExponentValue(n.exp) - |n.frac|)
  }

  function NumeralValue(n: Numeral): real {
    WithSign(n.sign == "-", Size(n))
  }

  predicate DigitFirst(s: string) {
    s != "" && IsDigit(s[0])
  }

  function AfterSign(s: string): string {
    if StartsWith(s, '-') || StartsWith(s, '+') then s[1..] else s
  }

  predicate ExponentFirst(s: string) {
    (StartsWith(s, 'e') || StartsWith(s, 'E')) && DigitFirst(AfterSign(s[1..]))
  }

  /** The rest does not go on with the number. */
  predicate NumeralEnds(n: Numeral, rest: string) {
    && !DigitFirst(rest)
    && (n.exp.NoExponent? ==> !ExponentFirst(rest) && (n.point || !StartsWith(rest, '.')))
  }

  lemma {:induction false} DecimalSnoc(s: string, c: char)
    ensures Decimal(s + [c]) == 10 * Decimal(s) + (c as int - 48)
  {
    if s == "" {
      assert [c][1..] == "";
    } else {
      assert (s + [c])[1..] == s[1..] + [c] && (s + [c])[0] == s[0];
      DecimalSnoc(s[1..], c);
      ShiftTen(s[0] as int - 48, PowerOfTen(|s| - 1));
    }
  }

  lemma ShiftTen(d: int, p: int)
    ensures d * (10 * p) == 10 * (d * p)
  {}

  lemma {:induction false} DecimalIsValue(s: string)
    requires AllDigits(s)
    ensures Decimal(s) == DigitsValue(s)
  {
    if s != "" {
      var n := |s| - 1;
      assert s == s[..n] + [s[n]];
      DigitsFront(s[..n], [s[n]]);
      DecimalSnoc(s[..n], s[n]);
      DecimalIsValue(s[..n]);
    }
  }

  lemma {:induction false} DigitsFront(a: string, b: string)
    ensures AllDigits(a + b) <==> AllDigits(a) && AllDigits(b)
  {
    if a == "" {
      assert a + b == b;
    } else {
      assert (a + b)[1..] == a[1..] + b && (a + b)[0] == a[0];
      DigitsFront(a[1..], b);
    }
  }

  lemma {:induction false} ScaleIsTenTo(x: real, e: int)
    ensures Scale(x, e) == x * TenTo(e)
    decreases if e < 0 then -e else e
  {
    if e > 0 {
      ScaleIsTenTo(x * 10.0, e - 1);
      assert (x * 10.0) * TenTo(e - 1) == x * (10.0 * TenTo(e - 1));
    } else if e < 0 {
      ScaleIsTenTo(x / 10.0, e + 1);
      assert (x / 10.0) * TenTo(e + 1) == x * (TenTo(e + 1) / 10.0);
    }
  }

  lemma DigitsThen(d: string, s: string)
    requires AllDigits(d) && !DigitFirst(s)
    ensures DigitCount(d + s) == |d| && (d + s)[..|d|] == d && (d + s)[|d|..] == s
  {
    DigitCountAppend(d, s);
  }

  /** The digits at the front, and what stops them. */
  lemma {:induction false} DigitsCounted(s: string)
    ensures DigitCount(s) <= |s| && AllDigits(s[..DigitCount(s)]) && !DigitFirst(s[DigitCount(s)..])
    ensures DigitCount(s) > 0 <==> DigitFirst(s)
  {
    if DigitFirst(s) {
      var k := DigitCount(s[1..]);
      DigitsCounted(s[1..]);
      OneMoreDigit(s, k);
      assert s[k + 1..] == s[1..][k..];
    }
    hide AllDigits;
  }

  lemma OneMoreDigit(s: string, k: nat)
    requires DigitFirst(s) && k < |s| && AllDigits(s[1..][..k])
    ensures AllDigits(s[..k + 1])
  {
    assert s[..k + 1][1..] == s[1..][..k];
  }

  lemma DigitsTaken(s: string)
    ensures DigitCount(s) <= |s| && AllDigits(s[..DigitCount(s)]) && !DigitFirst(s[DigitCount(s)..])
    ensures s == s[..DigitCount(s)] + s[DigitCount(s)..]
    ensures DigitCount(s) > 0 <==> DigitFirst(s)
  {
    hide *;
    DigitsCounted(s);
  }

  lemma ExponentFrom(s: string, u: string)
    requires (StartsWith(s, 'e') || StartsWith(s, 'E')) && u == AfterSign(s[1..]) && DigitCount(u) > 0
    ensures var k := DigitCount(u);
            var e: int := DigitsValue(u[..k]);
            ParseExponent(s) == Got(if StartsWith(s[1..], '-') then -e else e, u[k..])
  {
    hide DigitsValue, DigitCount;
  }

  lemma ExponentSplits(e: Exponent, rest: string)
    requires e.Exponent?
    ensures SpellExponent(e) + rest == [e.mark] + (e.sign + (e.digits + rest))
  {
    Assoc([e.mark], e.sign + e.digits, rest);
    Assoc(e.sign, e.digits, rest);
  }

  lemma ExponentReads(e: Exponent, rest: string)
    requires e.Exponent? && (e.mark == 'e' || e.mark == 'E') && SignOk(e.sign)
    requires AllDigits(e.digits) && e.digits != "" && !DigitFirst(rest)
    ensures ParseExponent(SpellExponent(e) + rest) == Got(ExponentValue(e), rest)
  {
    var s, u := SpellExponent(e) + rest, e.digits + rest;
    assert u[0] == e.digits[0];
    hide ParseExponent, Decimal, DigitsValue, DigitCount, AllDigits, SpellExponent;
    ExponentSplits(e, rest);
    HeadTail(e.mark, e.sign + u);
    SignThen(e.sign, u);
    DigitsThen(e.digits, rest);
    DecimalIsValue(e.digits);
    ExponentFrom(s, u);
  }

  lemma HeadTail(c: char, t: string)
    ensures ([c] + t)[0] == c && ([c] + t)[1..] == t
  {}

  lemma SignThen(sign: string, s: string)
    requires SignOk(sign) && (DigitFirst(s) || StartsWith(s, '.'))
    ensures AfterSign(sign + s) == s && StartsWith(sign + s, '-') == (sign == "-")
  {
    if sign == "" {
      assert sign + s == s;
    } else {
      assert (sign + s)[1..] == s;
    }
  }

  lemma NoExponentReads(rest: string)
    requires !ExponentFirst(rest)
    ensures ParseExponent(rest) == Got(0, rest)
  {
    if StartsWith(rest, 'e') || StartsWith(rest, 'E') {
      DigitsTaken(AfterSign(rest[1..]));
    }
  }

  lemma FractionReads(point: bool, frac: string, rest: string)
    requires AllDigits(frac) && !DigitFirst(rest) && (point || frac == "")
    requires !point ==> !StartsWith(rest, '.')
    ensures ParseFraction(Dot(point) + (frac + rest)) == Got(frac, rest)
  {
    if point {
      assert ("." + (frac + rest))[1..] == frac + rest;
      DigitsThen(frac, rest);
    } else {
      assert "" + ("" + rest) == rest;
    }
  }

  lemma TailOfNumeral(n: Numeral, rest: string)
    requires NumeralOk(n) && NumeralEnds(n, rest)
    ensures var tail := SpellExponent(n.exp) + rest;
            && !DigitFirst(tail) && (n.point || !StartsWith(tail, '.'))
            && ParseExponent(tail) == Got(ExponentValue(n.exp), rest)
  {
    if n.exp.NoExponent? {
      assert "" + rest == rest;
      NoExponentReads(rest);
    } else {
      ExponentReads(n.exp, rest);
    }
  }

  lemma UnsignedFrom(whole: string, fraction: string, frac: string, tail: string, e: int, rest: string)
    requires AllDigits(whole) && !DigitFirst(fraction) && (whole != "" || frac != "")
    requires ParseFraction(fraction) == Got(frac, tail) && ParseExponent(tail) == Got(e, rest)
    ensures ParseUnsigned(whole + fraction) == Got(Scale(DigitsValue(whole + frac) as real, e - |frac|), rest)
  {
    hide Scale, DigitsValue, DigitCount, ParseFraction, ParseExponent, AllDigits, DigitFirst;
    DigitsThen(whole, fraction);
  }

  lemma NumberFrom(s: string, x: real, rest: string)
    requires ParseUnsigned(AfterSign(s)) == Got(x, rest)
    ensures ParseNumber(s) == Got(Num(WithSign(StartsWith(s, '-'), x)), rest)
  {
    hide ParseUnsigned;
  }

  lemma UnsignedStarts(n: Numeral, tail: string)
    requires NumeralOk(n) && !DigitFirst(tail)
    ensures var fraction := Dot(n.point) + (n.frac + tail);
            && !DigitFirst(fraction)
            && (DigitFirst(n.whole + fraction) || StartsWith(n.whole + fraction, '.'))
  {
    var fraction := Dot(n.point) + (n.frac + tail);
    assert n.whole != "" ==> (n.whole + fraction)[0] == n.whole[0];
    assert n.whole == "" ==> n.whole + fraction == fraction && n.point;
    assert n.point ==> fraction[0] == '.';
    assert !n.point ==> fraction == tail;
  }

  lemma SizeIsScaled(n: Numeral)
    requires AllDigits(n.whole) && AllDigits(n.frac)
    ensures Size(n) == Scale(DigitsValue(n.whole + n.frac) as real, ExponentValue(n.exp) - |n.frac|)
  {
    hide Decimal, DigitsValue, Scale, TenTo, ExponentValue;
    DigitsFront(n.whole, n.frac);
    DecimalIsValue(n.whole + n.frac);
    ScaleIsTenTo(DigitsValue(n.whole + n.frac) as real, ExponentValue(n.exp) - |n.frac|);
  }

  lemma UnsignedJoined(n: Numeral, fraction: string, tail: string, u: string, rest: string)
    requires AllDigits(n.whole) && AllDigits(n.frac) && (n.whole != "" || n.frac != "") && !DigitFirst(fraction)
    requires ParseFraction(fraction) == Got(n.frac, tail) && ParseExponent(tail) == Got(ExponentValue(n.exp), rest)
    requires u == n.whole + fraction
    ensures ParseUnsigned(u) == Got(Size(n), rest)
  {
    hide *;
    SizeIsScaled(n);
    UnsignedFrom(n.whole, fraction, n.frac, tail, ExponentValue(n.exp), rest);
  }

  lemma UnsignedReads(n: Numeral, rest: string)
    requires NumeralOk(n) && NumeralEnds(n, rest)
    ensures var u := n.whole + (Dot(n.point) + (n.frac + (SpellExponent(n.exp) + rest)));
            (DigitFirst(u) || StartsWith(u, '.')) && ParseUnsigned(u) == Got(Size(n), rest)
  {
    assert AllDigits(n.whole) && AllDigits(n.frac) && (n.point || n.frac == "") && (n.whole != "" || n.frac != "");
    hide *;
    var tail := SpellExponent(n.exp) + rest;
    var fraction := Dot(n.point) + (n.frac + tail);
    TailOfNumeral(n, rest);
    UnsignedStarts(n, tail);
    FractionReads(n.point, n.frac, tail);
    UnsignedJoined(n, fraction, tail, n.whole + fraction, rest);
  }

  /** A number is read as its digits say, however it is written. */
  lemma NumeralReads(n: Numeral, rest: string)
    requires NumeralOk(n) && NumeralEnds(n, rest)
    ensures ParseNumber(SpellNumeral(n) + rest) == Got(Num(NumeralValue(n)), rest)
    ensures SpellNumeral(n) != "" && !IsSpace(SpellNumeral(n)[0])
  {
    SpellingStarts(n);
    assert SignOk(n.sign) && NumeralValue(n) == WithSign(n.sign == "-", Size(n));
    hide *;
    SpellingSplits(n, rest);
    UnsignedReads(n, rest);
    SignThen(n.sign, n.whole + (Dot(n.point) + (n.frac + (SpellExponent(n.exp) + rest))));
    NumberFrom(SpellNumeral(n) + rest, Size(n), rest);
  }

  lemma SpellingSplits(n: Numeral, rest: string)
    ensures SpellNumeral(n) + rest
         == n.sign + (n.whole + (Dot(n.point) + (n.frac + (SpellExponent(n.exp) + rest))))
  {
    var dot, exp := Dot(n.point), SpellExponent(n.exp);
    hide SpellExponent;
    Assoc(n.sign, n.whole + (dot + (n.frac + exp)), rest);
    Assoc(n.whole, dot + (n.frac + exp), rest);
    Assoc(dot, n.frac + exp, rest);
    Assoc(n.frac, exp, rest);
  }

  lemma SpellingStarts(n: Numeral)
    requires NumeralOk(n)
    ensures var s := SpellNumeral(n);
            s != "" && (IsDigit(s[0]) || s[0] == '.' || s[0] == '+' || s[0] == '-')
  {
    assert n.sign != "" ==> SpellNumeral(n)[0] == n.sign[0];
    assert n.sign == "" && n.whole != "" ==> SpellNumeral(n)[0] == n.whole[0];
    hide SpellExponent;
  }

  /** And what is read as a number is written as one, up to where it ends. */
  lemma NumberIsSpelled(s: string) returns (n: Numeral)
    requires ParseNumber(s).Got?
    ensures NumeralOk(n) && NumeralEnds(n, ParseNumber(s).rest) && s == SpellNumeral(n) + ParseNumber(s).rest
    ensures ParseNumber(s).value == Num(NumeralValue(n))
  {
    var u := AfterSign(s);
    var sign := if u == s then "" else s[..1];
    assert s == sign + u && SignOk(sign);
    var k := DigitCount(u);
    DigitsTaken(u);
    var point, frac, tail := FractionIsSpelled(u[k..]);
    var exp, rest := ExponentIsSpelled(tail);
    n := Numeral(sign, u[..k], point, frac, exp);
    assert ParseUnsigned(u).Got? by { assert ParseNumber(s).Got?; }
    assert NumeralOk(n) by { assert k > 0 || frac != ""; }
    SpellingSplits(n, rest);
    NumeralReads(n, rest);
  }

  lemma FractionIsSpelled(s: string) returns (point: bool, frac: string, tail: string)
    requires !DigitFirst(s)
    ensures ParseFraction(s) == Got(frac, tail) && AllDigits(frac) && (point || frac == "") && !DigitFirst(tail)
    ensures s == Dot(point) + (frac + tail) && (point || !StartsWith(tail, '.'))
  {
    point := StartsWith(s, '.');
    if point {
      DigitsTaken(s[1..]);
      frac, tail := s[1..][..DigitCount(s[1..])], s[1..][DigitCount(s[1..])..];
      assert s == "." + s[1..];
    } else {
      frac, tail := "", s;
      assert s == "" + ("" + s);
    }
  }

  lemma ExponentIsSpelled(s: string) returns (e: Exponent, rest: string)
    requires !DigitFirst(s)
    ensures s == SpellExponent(e) + rest && !DigitFirst(rest)
    ensures if ExponentFirst(s)
            then e.Exponent? && (e.mark == 'e' || e.mark == 'E') && SignOk(e.sign)
                 && AllDigits(e.digits) && e.digits != ""
            else e.NoExponent? && rest == s
  {
    if ExponentFirst(s) {
      var t := s[1..];
      var u := AfterSign(t);
      var sign := if u == t then "" else t[..1];
      assert t == sign + u && s == [s[0]] + t;
      DigitsTaken(u);
      var k := DigitCount(u);
      e, rest := Exponent(s[0], sign, u[..k]), u[k..];
      Assoc(sign, u[..k], rest);
      Assoc([s[0]], sign + u[..k], rest);
    } else {
      e, rest := NoExponent, s;
      assert "" + s == s;
    }
  }
}
