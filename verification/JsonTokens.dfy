/** Printed numbers and strings read back: which of them, and as what. */
module JsonTokens {
  import opened JsonValue
  import opened JsonGrammar

  // ----- blanks

  lemma {:induction false} SkipBlanks(pad: string, s: string)
    requires AllSpace(pad)
    ensures Skip(pad + s) == Skip(s)
  {
    if pad == "" {
      assert pad + s == s;
    } else {
      assert (pad + s)[1..] == pad[1..] + s;
      SkipBlanks(pad[1..], s);
    }
  }

  lemma SkipNone(s: string)
    requires s != "" && !IsSpace(s[0])
    ensures Skip(s) == s
  {}

  lemma PadsAreBlank(st: Style)
    ensures AllSpace(st.Newline()) && AllSpace(st.KeyPad()) && AllSpace(st.ItemPad()) && AllSpace(st.ClosePad())
  {}

  // ----- numbers

  predicate ExtendsNumber(s: string) {
    s != "" && (IsDigit(s[0]) || s[0] == 'e' || s[0] == 'E')
  }

  function PowerOfTen(k: nat): (p: nat)
    ensures p > 0
  {
    if k == 0 then 1 else 10 * PowerOfTen(k - 1)
  }

  lemma {:induction false} DigitCountAppend(d: string, s: string)
    requires AllDigits(d)
    requires s == "" || !IsDigit(s[0])
    ensures DigitCount(d + s) == |d|
  {
    if d == "" {
      assert d + s == s;
    } else {
      assert (d + s)[1..] == d[1..] + s;
      DigitCountAppend(d[1..], s);
    }
  }

  lemma {:induction false} AllDigitsAppend(d: string, c: char)
    requires AllDigits(d) && IsDigit(c)
    ensures AllDigits(d + [c])
  {
    if d != "" {
      assert (d + [c])[1..] == d[1..] + [c];
      AllDigitsAppend(d[1..], c);
    }
  }

  lemma {:induction false} NatTextDigits(n: nat)
    ensures AllDigits(NatText(n))
  {
    if n >= 10 {
      NatTextDigits(n / 10);
      AllDigitsAppend(NatText(n / 10), DigitChar(n % 10));
    }
  }

  lemma {:induction false} PaddedTextDigits(n: nat, width: nat)
    ensures AllDigits(PaddedText(n, width))
    decreases width
  {
    if width > 0 {
      PaddedTextDigits(n / 10, width - 1);
      AllDigitsAppend(PaddedText(n / 10, width - 1), DigitChar(n % 10));
    }
  }

  lemma {:induction false} NatTextValue(n: nat)
    ensures DigitsValue(NatText(n)) == n
  {
    var t := NatText(n);
    if n < 10 {
      assert t[..|t| - 1] == "";
    } else {
      assert t[..|t| - 1] == NatText(n / 10);
      NatTextValue(n / 10);
    }
  }

  lemma ShiftPlaces(d: int, p: int, n: int)
    ensures 10 * (d * p + n / 10) + n % 10 == d * (10 * p) + n
  {
    assert d * (10 * p) == 10 * (d * p);
  }

  lemma {:induction false} PaddedTextValue(p: string, n: nat, width: nat)
    requires n < PowerOfTen(width)
    ensures DigitsValue(p + PaddedText(n, width)) == DigitsValue(p) * PowerOfTen(width) + n
  {
    var t := p + PaddedText(n, width);
    if width == 0 {
      assert t == p;
    } else {
      assert t[..|t| - 1] == p + PaddedText(n / 10, width - 1);
      assert t[|t| - 1] == DigitChar(n % 10);
      PaddedTextValue(p, n / 10, width - 1);
      ShiftPlaces(DigitsValue(p), PowerOfTen(width - 1), n);
    }
  }

  lemma SixPlaces(x: real)
    ensures PowerOfTen(6) == 1000000
    ensures Scale(x, -6) == x / 1000000.0
  {
    assert PowerOfTen(3) == 1000;
    assert Scale(x / 1000.0, -3) == x / 1000000.0;
    assert Scale(x / 10.0, -5) == Scale(x / 1000.0, -3);
  }

  /** The multiple of one millionth that the printer writes for x. */
  function NearestMillionth(x: real): real {
    WithSign(x < 0.0, RoundMillionths(Abs(x)) as real / 1000000.0)
  }

  function WithSign(negative: bool, y: real): real {
    if negative then -y else y
  }

  lemma FractionAfterPoint(decimals: string, rest: string)
    requires AllDigits(decimals)
    requires rest == "" || !IsDigit(rest[0])
    ensures ParseFraction("." + (decimals + rest)) == Got(decimals, rest)
  {
    assert ("." + (decimals + rest))[1..] == decimals + rest;
    DigitCountAppend(decimals, rest);
    assert (decimals + rest)[..|decimals|] == decimals && (decimals + rest)[|decimals|..] == rest;
  }

  lemma DigitsThenFraction(m: nat)
    ensures DigitsValue(NatText(m / 1000000) + PaddedText(m % 1000000, 6)) == m
  {
    SixPlaces(0.0);
    NatTextValue(m / 1000000);
    PaddedTextValue(NatText(m / 1000000), m % 1000000, 6);
  }

  lemma UnsignedRoundTrip(m: nat, rest: string)
    requires !ExtendsNumber(rest)
    ensures ParseUnsigned(NatText(m / 1000000) + ("." + (PaddedText(m % 1000000, 6) + rest)))
         == Got(m as real / 1000000.0, rest)
  {
    var whole, decimals := NatText(m / 1000000), PaddedText(m % 1000000, 6);
    DigitsThenFraction(m);
    NatTextDigits(m / 1000000);
    PaddedTextDigits(m % 1000000, 6);
    UnsignedFromParts(whole, decimals, m, rest);
  }

  lemma UnsignedFromParts(whole: string, decimals: string, m: nat, rest: string)
    requires whole != "" && |decimals| == 6 && !ExtendsNumber(rest)
    requires AllDigits(whole) && AllDigits(decimals)
    requires DigitsValue(whole + decimals) == m
    ensures ParseUnsigned(whole + ("." + (decimals + rest))) == Got(m as real / 1000000.0, rest)
  {
    var point := "." + (decimals + rest);
    var u := whole + point;
    DigitCountAppend(whole, point);
    assert u[..|whole|] == whole && u[|whole|..] == point;
    FractionAfterPoint(decimals, rest);
    assert ParseExponent(rest) == Got(0, rest);
    SixPlaces(m as real);
  }

  lemma SignedFromUnsigned(s: string, u: string, negative: bool, y: real, rest: string)
    requires StartsWith(s, '-') == negative && !StartsWith(s, '+')
    requires u == (if negative then s[1..] else s)
    requires ParseUnsigned(u) == Got(y, rest)
    ensures ParseNumber(s) == Got(Num(WithSign(negative, y)), rest)
  {}

  function UnsignedText(m: nat, rest: string): string {
    NatText(m / 1000000) + ("." + (PaddedText(m % 1000000, 6) + rest))
  }

  lemma FromMagnitude(x: real, m: nat, s: string, rest: string)
    requires !ExtendsNumber(rest)
    requires StartsWith(s, '-') == (x < 0.0) && !StartsWith(s, '+')
    requires UnsignedText(m, rest) == (if x < 0.0 then s[1..] else s)
    ensures ParseNumber(s) == Got(Num(WithSign(x < 0.0, m as real / 1000000.0)), rest)
  {
    hide ParseNumber, ParseUnsigned;
    UnsignedRoundTrip(m, rest);
    SignedFromUnsigned(s, UnsignedText(m, rest), x < 0.0, m as real / 1000000.0, rest);
  }

  /** Maximal munch: the number parser reads back exactly the printed number. */
  lemma NumberRoundTrip(x: real, rest: string)
    requires !ExtendsNumber(rest)
    ensures ParseNumber(NumText(x) + rest) == Got(Num(NearestMillionth(x)), rest)
  {
    hide ParseNumber, ParseUnsigned, NumText, UnsignedText, RoundMillionths;
    NumTextParts(x, rest);
    FromMagnitude(x, RoundMillionths(Abs(x)), NumText(x) + rest, rest);
  }

  lemma NumTextParts(x: real, rest: string)
    ensures var s := NumText(x) + rest;
            && StartsWith(s, '-') == (x < 0.0) && !StartsWith(s, '+')
            && UnsignedText(RoundMillionths(Abs(x)), rest) == if x < 0.0 then s[1..] else s
  {
    var m := RoundMillionths(Abs(x));
    var u := UnsignedText(m, rest);
    assert NumText(x) + rest == (if x < 0.0 then "-" else "") + u;
    NatTextDigits(m / 1000000);
    assert IsDigit(u[0]);
  }

  /** A whole number of millionths, as a real. */
  function Millionths(k: int): real {
    k as real / 1000000.0
  }

  function CountOfMillionths(x: real): int {
    var n: int := RoundMillionths(Abs(x));
    if x < 0.0 then -n else n
  }

  lemma RoundIsNearest(x: real, n: int)
    requires 0.0 <= x
    ensures var u, m := x * 1000000.0, RoundMillionths(x);
            && Abs(u - m as real) <= 0.5 && Abs(u - m as real) <= Abs(u - n as real)
            && (n != m && Abs(u - m as real) == Abs(u - n as real) ==> m % 2 == 0)
  {
    var u := x * 1000000.0;
    var f := u.Floor;
    assert f as real <= u < f as real + 1.0;
    if n <= f {
      assert n as real <= f as real;
    } else {
      assert n as real >= f as real + 1.0;
    }
  }

  lemma ScaledDistance(x: real, k: int)
    ensures Abs(x - Millionths(k)) * 1000000.0 == Abs(x * 1000000.0 - k as real)
  {
    assert Millionths(k) * 1000000.0 == k as real;
  }

  lemma MirroredDistance(x: real, k: int)
    ensures Abs(x - Millionths(k)) == Abs(-x - Millionths(-k))
  {
    assert Millionths(-k) == -Millionths(k);
  }

  /** What a printed number is read back as is a whole number of millionths, at most half a millionth
    * away, and no other is nearer; of two equally near, it is the even one. */
  lemma NearestIsNearest(x: real, k: int)
    ensures NearestMillionth(x) == Millionths(CountOfMillionths(x))
    ensures Abs(x - NearestMillionth(x)) <= 1.0 / 2000000.0
    ensures Abs(x - NearestMillionth(x)) <= Abs(x - Millionths(k))
    ensures k != CountOfMillionths(x) && Abs(x - NearestMillionth(x)) == Abs(x - Millionths(k))
            ==> CountOfMillionths(x) % 2 == 0
  {
    var n, m := RoundMillionths(Abs(x)), CountOfMillionths(x);
    var j := if x < 0.0 then -k else k;
    assert NearestMillionth(x) == Millionths(m) && (n % 2 == 0 ==> m % 2 == 0);
    if x < 0.0 {
      MirroredDistance(x, m);
      MirroredDistance(x, k);
    }
    RoundIsNearest(Abs(x), j);
    hide RoundMillionths, NearestMillionth, Millionths;
    ScaledDistance(Abs(x), n);
    ScaledDistance(Abs(x), j);
  }

  predicate WholeMillionths(x: real) {
    NearestMillionth(x) == x
  }

  /** The numbers that survive are the exact multiples of one millionth. */
  lemma WholeMillionthsMeaning(x: real, k: int)
    ensures x == k as real / 1000000.0 ==> WholeMillionths(x)
    ensures WholeMillionths(x) ==> (x * 1000000.0).Floor as real == x * 1000000.0
  {
    var m := RoundMillionths(Abs(x));
    if WholeMillionths(x) {
      var j: int := if x < 0.0 then -(m as int) else m;
      assert x * 1000000.0 == j as real;
    }
    if x == k as real / 1000000.0 {
      var a := if k < 0 then -k else k;
      assert Abs(x) == a as real / 1000000.0;
      assert Abs(x) * 1000000.0 == a as real;
      assert m == a;
    }
  }

  // ----- strings

  /** No quote, only ASCII, and no backslash that the grammar reads together with what follows. */
  predicate Printable(s: string) {
    s == "" ||
    (&& s[0] != '"' && IsAscii(s[0])
     && (s[0] == '\\' ==> |s| > 1 && !IsEscapeLetter(s[1]))
     && Printable(s[1..]))
  }

  lemma {:induction false} PrintableSurvives(s: string, rest: string)
    requires Printable(s)
    ensures ParseChars(s + "\"" + rest) == Got(s, rest)
  {
    var t := s + "\"" + rest;
    if s != "" {
      assert t[1..] == s[1..] + "\"" + rest;
      PrintableSurvives(s[1..], rest);
      assert t[0] == s[0] && (|s| > 1 ==> t[1] == s[1]);
      assert [s[0]] + s[1..] == s;
    } else {
      assert t[1..] == rest;
    }
  }

  function Backslashes(k: nat): (b: string)
    ensures |b| == k
  {
    if k == 0 then "" else "\\" + Backslashes(k - 1)
  }

  /** Reading a string never makes it grow by leading backslashes. */
  lemma {:induction false} NoGrowth(u: string, k: nat, rest: string)
    requires k > 0
    ensures ParseChars(u + "\"" + rest).Got? ==> ParseChars(u + "\"" + rest).value != Backslashes(k) + u
    decreases |u|
  {
    var t := u + "\"" + rest;
    var p := ParseChars(t);
    if p.Got? && p.value == Backslashes(k) + u && u != "" {
      assert p.value[0] == '\\';
      assert u[0] == '\\';
      if AtEscape(t) {
        assert |u| > 1 && u[1] == '\\';
        assert t[2..] == u[2..] + "\"" + rest;
        assert p.value[1..] == Backslashes(k - 1) + u;
        ShiftBackslash(k - 1, u);
        ShiftBackslash(k, u[1..]);
        assert u[1..][1..] == u[2..];
        NoGrowth(u[2..], k + 1, rest);
      } else {
        assert t[1..] == u[1..] + "\"" + rest;
        assert p.value[1..] == Backslashes(k - 1) + u;
        ShiftBackslash(k - 1, u);
        NoGrowth(u[1..], k, rest);
      }
    }
  }

  lemma {:induction false} ShiftBackslash(k: nat, u: string)
    requires u != "" && u[0] == '\\'
    ensures Backslashes(k) + u == Backslashes(k + 1) + u[1..]
  {
    if k == 0 {
      assert Backslashes(1) == "\\";
    } else {
      ShiftBackslash(k - 1, u);
      assert Backslashes(k) + u == "\\" + (Backslashes(k - 1) + u);
      assert Backslashes(k + 1) + u[1..] == "\\" + (Backslashes(k) + u[1..]);
    }
  }

  lemma {:induction false} SurvivorIsPrintable(s: string, rest: string)
    requires ParseChars(s + "\"" + rest).Got? && ParseChars(s + "\"" + rest).value == s
    ensures Printable(s)
  {
    var t := s + "\"" + rest;
    var p := ParseChars(t);
    if s != "" {
      if AtEscape(t) {
        assert s[0] == '\\' && p.value[0] == '\\';
        assert |s| > 1 && s[1] == '\\';
        assert t[2..] == s[2..] + "\"" + rest;
        assert p.value[1..] == s[1..] == Backslashes(1) + s[2..];
        NoGrowth(s[2..], 1, rest);
      } else {
        assert t[1..] == s[1..] + "\"" + rest;
        assert p.value[1..] == s[1..];
        SurvivorIsPrintable(s[1..], rest);
        assert t[0] == s[0] && t[|s|] == '"' && (|s| > 1 ==> t[1] == s[1]);
      }
    }
  }

  /** A printed string reads back as itself exactly when it is printable. */
  lemma StringRoundTrip(s: string, rest: string)
    ensures ParseString(Quoted(s) + rest) == Got(s, rest) <==> Printable(s)
    ensures ParseString(Quoted(s) + rest).Got? && ParseString(Quoted(s) + rest).value == s ==> Printable(s)
  {
    assert (Quoted(s) + rest)[1..] == s + "\"" + rest;
    if Printable(s) {
      PrintableSurvives(s, rest);
    }
    if ParseString(Quoted(s) + rest).Got? && ParseString(Quoted(s) + rest).value == s {
      SurvivorIsPrintable(s, rest);
    }
  }

  lemma {:induction false} OrdinaryIsPrintable(s: string)
    requires forall i :: 0 <= i < |s| ==> s[i] != '"' && s[i] != '\\' && IsAscii(s[i])
    ensures Printable(s)
  {
    if s != "" {
      OrdinaryIsPrintable(s[1..]);
    }
  }

  lemma {:induction false} PrintableAppend(a: string, b: string)
    requires Printable(a) && Printable(b)
    ensures Printable(a + b)
  {
    if a == "" {
      assert a + b == b;
    } else {
      assert (a + b)[1..] == a[1..] + b;
      PrintableAppend(a[1..], b);
    }
  }
}
