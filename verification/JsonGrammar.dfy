/** The grammar of src/json/value.cpp as a recursive-descent parser: a PEG with ordered
  * choice over text, skipping blanks before every token except inside a string. */
module JsonGrammar {
  import opened JsonValue

  /** A parse either fails or yields a value and the text left over. */
  datatype Parsed<+T> = Fail | Got(value: T, rest: string)

  function Skip(s: string): (r: string)
    ensures |r| <= |s|
    ensures r == "" || !IsSpace(r[0])
  {
    if s == "" || !IsSpace(s[0]) then s else Skip(s[1..])
  }

  predicate StartsWith(s: string, c: char) {
    s != "" && s[0] == c
  }

  // ----- double_

  function DigitCount(s: string): (k: nat)
    ensures k <= |s|
  {
    if s == "" || !IsDigit(s[0]) then 0 else 1 + DigitCount(s[1..])
  }

  function DigitsValue(s: string): nat {
    if s == "" then 0
    else 10 * DigitsValue(s[..|s| - 1]) + DigitOf(s[|s| - 1])
  }

  /** x * 10^e. */
  function Scale(x: real, e: int): real
    decreases if e < 0 then -e else e
  {
    if e == 0 then x else if e > 0 then Scale(x * 10.0, e - 1) else Scale(x / 10.0, e + 1)
  }

  /** An optional exponent: e or E, an optional sign, and at least one digit. */
  function ParseExponent(s: string): (p: Parsed<int>)
    ensures p.Got? && |p.rest| <= |s|
  {
    if StartsWith(s, 'e') || StartsWith(s, 'E') then
      var t := s[1..];
      var u := if StartsWith(t, '-') || StartsWith(t, '+') then t[1..] else t;
      var k := DigitCount(u);
      if k == 0 then Got(0, s)
      else
        var e: int := DigitsValue(u[..k]);
        Got(if StartsWith(t, '-') then -e else e, u[k..])
    else Got(0, s)
  }

  /** Fraction digits after a decimal point; the point may stand alone after digits. */
  function ParseFraction(s: string): (p: Parsed<string>)
    ensures p.Got? && |p.rest| <= |s|
    ensures p.value != "" ==> |p.rest| < |s|
  {
    if StartsWith(s, '.') then
      var k := DigitCount(s[1..]);
      Got(s[1..][..k], s[1..][k..])
    else Got("", s)
  }

  function ParseUnsigned(s: string): (p: Parsed<real>)
    ensures p.Got? ==> |p.rest| < |s|
  {
    var k := DigitCount(s);
    var fraction := ParseFraction(s[k..]);
    if k == 0 && fraction.value == "" then Fail
    else
      var exponent := ParseExponent(fraction.rest);
      var digits := DigitsValue(s[..k] + fraction.value);
      Got(Scale(digits as real, exponent.value - |fraction.value|), exponent.rest)
  }

  function ParseNumber(s: string): (p: Parsed<Value>)
    ensures p.Got? ==> |p.rest| < |s|
  {
    var x := ParseUnsigned(if StartsWith(s, '-') || StartsWith(s, '+') then s[1..] else s);
    if x.Fail? then Fail else Got(Num(if StartsWith(s, '-') then -x.value else x.value), x.rest)
  }

  // ----- literals and strings

  function ParseLiteral(s: string, word: string, v: Value): (p: Parsed<Value>)
    requires word != ""
    ensures p.Got? ==> |p.rest| < |s|
  {
    if word <= s then Got(v, s[|word|..]) else Fail
  }

  function ParseBool(s: string): (p: Parsed<Value>)
    ensures p.Got? ==> |p.rest| < |s|
  {
    var p := ParseLiteral(s, "true", Bool(true));
    if p.Got? then p else ParseLiteral(s, "false", Bool(false))
  }

  predicate IsEscapeLetter(c: char) {
    c == 'r' || c == '\\' || c == 'n' || c == 't' || c == '"'
  }

  function Unescape(c: char): char
    requires IsEscapeLetter(c)
  {
    if c == 'r' then '\r' else if c == 'n' then '\n' else if c == 't' then '\t' else c
  }

  predicate AtEscape(s: string) {
    |s| > 1 && s[0] == '\\' && IsEscapeLetter(s[1])
  }

  /** `char_` of the ASCII encoding accepts seven-bit characters only. */
  predicate IsAscii(c: char) {
    c as int < 128
  }

  /** The body of a string and its closing quote. */
  function ParseChars(s: string): (p: Parsed<string>)
    ensures p.Got? ==> |p.rest| < |s|
  {
    if AtEscape(s) then Prepend(Unescape(s[1]), ParseChars(s[2..]))
    else if s != "" && s[0] != '"' && IsAscii(s[0]) then Prepend(s[0], ParseChars(s[1..]))
    else if StartsWith(s, '"') then Got("", s[1..])
    else Fail
  }

  function Prepend(c: char, p: Parsed<string>): Parsed<string> {
    if p.Got? then Got([c] + p.value, p.rest) else Fail
  }

  function ParseString(s: string): (p: Parsed<string>)
    ensures p.Got? ==> |p.rest| < |s|
  {
    if StartsWith(s, '"') then ParseChars(s[1..]) else Fail
  }

  function ParseStr(s: string): (p: Parsed<Value>)
    ensures p.Got? ==> |p.rest| < |s|
  {
    var p := ParseString(s);
    if p.Got? then Got(Str(p.value), p.rest) else Fail
  }

  // ----- json_r

  function ParseValue(s: string): (p: Parsed<Value>)
    ensures p.Got? ==> |p.rest| < |s|
    decreases |s|, 2
  {
    ParseChoice(Skip(s))
  }

  /** The alternatives of json_r, in the grammar's order, on text with no leading blank. */
  function ParseChoice(s: string): (p: Parsed<Value>)
    ensures p.Got? ==> |p.rest| < |s|
    decreases |s|, 1
  {
    var number := ParseNumber(s);
    if number.Got? then number else
    var boolean := ParseBool(s);
    if boolean.Got? then boolean else
    var text := ParseStr(s);
    if text.Got? then text else
    var members := ParseObject(s);
    if members.Got? then members else
    var items := ParseArray(s);
    if items.Got? then items else
    var nothing := ParseLiteral(s, "null", Null);
    if nothing.Got? then nothing else
    var emptyArray := ParseEmpty(s, '[', ']', Arr([]));
    if emptyArray.Got? then emptyArray else
    ParseEmpty(s, '{', '}', Obj([]))
  }

  function ParseEmpty(s: string, open: char, close: char, v: Value): (p: Parsed<Value>)
    ensures p.Got? ==> |p.rest| < |s|
  {
    if StartsWith(s, open) && StartsWith(Skip(s[1..]), close) then Got(v, Skip(s[1..])[1..]) else Fail
  }

  function ParseArray(s: string): (p: Parsed<Value>)
    ensures p.Got? ==> |p.rest| < |s|
    decreases |s|, 0
  {
    if StartsWith(s, '[') then
      var items := ParseItems(s[1..]);
      if items.Got? && StartsWith(Skip(items.rest), ']')
      then Got(Arr(items.value), Skip(items.rest)[1..]) else Fail
    else Fail
  }

  /** `json_r % ','`: a comma that no value follows is given back. */
  function ParseItems(s: string): (p: Parsed<seq<Value>>)
    ensures p.Got? ==> |p.rest| < |s| && |p.value| > 0
    decreases |s|, 3
  {
    var first := ParseValue(s);
    if first.Fail? then Fail
    else if StartsWith(Skip(first.rest), ',') then
      var more := ParseItems(Skip(first.rest)[1..]);
      if more.Got? then Got([first.value] + more.value, more.rest) else Got([first.value], first.rest)
    else Got([first.value], first.rest)
  }

  function ParseObject(s: string): (p: Parsed<Value>)
    ensures p.Got? ==> |p.rest| < |s|
    decreases |s|, 0
  {
    if StartsWith(s, '{') then
      var members := ParseMembers(s[1..]);
      if members.Got? && StartsWith(Skip(members.rest), '}')
      then Got(Obj(members.value), Skip(members.rest)[1..]) else Fail
    else Fail
  }

  function ParseMembers(s: string): (p: Parsed<seq<KeyVal>>)
    ensures p.Got? ==> |p.rest| < |s| && |p.value| > 0
    decreases |s|, 4
  {
    var first := ParseMember(s);
    if first.Fail? then Fail
    else if StartsWith(Skip(first.rest), ',') then
      var more := ParseMembers(Skip(first.rest)[1..]);
      if more.Got? then Got([first.value] + more.value, more.rest) else Got([first.value], first.rest)
    else Got([first.value], first.rest)
  }

  function ParseMember(s: string): (p: Parsed<KeyVal>)
    ensures p.Got? ==> |p.rest| < |s|
    decreases |s|, 3
  {
    var key := ParseString(Skip(s));
    if key.Got? && StartsWith(Skip(key.rest), ':') then
      var val := ParseValue(Skip(key.rest)[1..]);
      if val.Got? then Got(KeyVal(key.value, val.value), val.rest) else Fail
    else Fail
  }

  /** `read`: parses a prefix of the text; what follows it is ignored, not rejected. */
  function Read(j: string): Parsed<Value> {
    var p := ParseValue(j);
    if p.Got? then Got(p.value, Skip(p.rest)) else Fail
  }
}
