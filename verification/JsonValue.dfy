/** JSON values and the two text layouts the printers produce. */
module JsonValue {

  /** The variant `value_variant`: objects are ordered key/value lists and may repeat a key. */
  datatype Value =
    | Null
    | Num(n: real)
    | Bool(b: bool)
    | Str(s: string)
    | Obj(keys: seq<KeyVal>)
    | Arr(vals: seq<Value>)

  datatype KeyVal = KeyVal(key: string, val: Value)

  /** The compact printer, or the pretty printer at an indentation depth. */
  datatype Style = Compact | Pretty(depth: nat)
  {
    function Inner(): Style {
      if Pretty? then Pretty(depth + 1) else Compact
    }

    function Newline(): string {
      if Pretty? then "\n" else ""
    }

    function Separator(last: bool): string {
      (if last then "" else ",") + Newline()
    }

    // `setw(w) << c` right-aligns a one-character field: w-1 blanks, or none when w is 0.
    function KeyPad(): string {
      if Pretty? then Blanks(4 * depth - 1) else ""
    }

    // `setw(w) << " "` writes w blanks in all, and one when w is 0.
    function ItemPad(): string {
      if Pretty? then Blanks(if depth == 0 then 1 else 4 * depth) else ""
    }

    function ClosePad(): string {
      if Pretty? then Blanks(4 * depth - 5) else ""
    }
  }

  function Blanks(n: int): (s: string)
    ensures AllSpace(s)
  {
    if n <= 0 then "" else " " + Blanks(n - 1)
  }

  predicate IsSpace(c: char) {
    c == ' ' || '\t' <= c <= '\r'
  }

  predicate AllSpace(s: string) {
    forall i :: 0 <= i < |s| ==> IsSpace(s[i])
  }

  predicate IsDigit(c: char) {
    '0' <= c <= '9'
  }

  // ----- numbers: fixed notation with six decimals

  function Abs(x: real): real {
    if x < 0.0 then -x else x
  }

  /** Nearest integer number of millionths, ties to even. */
  function RoundMillionths(x: real): nat
    requires 0.0 <= x
  {
    var y := x * 1000000.0;
    var f := y.Floor;
    if y - f as real < 0.5 then f
    else if y - f as real > 0.5 then f + 1
    else if f % 2 == 0 then f else f + 1
  }

  /** Conversion of a double to an integer type drops the fraction. */
  function Truncate(x: real): int {
    if x >= 0.0 then x.Floor else -((-x).Floor)
  }

  lemma WholeTruncates(n: int)
    ensures Truncate(n as real) == n
  {}

  function DigitOf(c: char): nat {
    if IsDigit(c) then c as int - '0' as int else 0
  }

  function DigitChar(d: nat): (c: char)
    requires d < 10
    ensures IsDigit(c) && DigitOf(c) == d
  {
    ('0' as int + d) as char
  }

  predicate AllDigits(s: string) {
    s == "" || (IsDigit(s[0]) && AllDigits(s[1..]))
  }

  function NatText(n: nat): (t: string)
    ensures |t| > 0
  {
    if n < 10 then [DigitChar(n)] else NatText(n / 10) + [DigitChar(n % 10)]
  }

  /** The last `width` decimal digits of n, with leading zeros. */
  function PaddedText(n: nat, width: nat): (t: string)
    ensures |t| == width
    decreases width
  {
    if width == 0 then "" else PaddedText(n / 10, width - 1) + [DigitChar(n % 10)]
  }

  function NumText(x: real): string {
    var m := RoundMillionths(Abs(x));
    (if x < 0.0 then "-" else "") + NatText(m / 1000000) + "." + PaddedText(m % 1000000, 6)
  }

  // ----- rendering

  function Quoted(s: string): string {
    "\"" + s + "\""
  }

  function Bracketed(st: Style, open: string, body: string, close: string): string {
    open + (st.Newline() + (body + (st.ClosePad() + close)))
  }

  function Render(st: Style, v: Value): string
    decreases v, 0
  {
    match v
    case Null => "null"
    case Num(x) => NumText(x)
    case Bool(b) => if b then "true" else "false"
    case Str(s) => Quoted(s)
    case Obj(keys) =>
      if keys == [] then "{}" else Bracketed(st, "{", RenderMembers(st, keys), "}")
    case Arr(vals) =>
      if vals == [] then "[]" else Bracketed(st, "[", RenderItems(st, vals), "]")
  }

  function RenderMember(st: Style, kv: KeyVal): string
    decreases kv
  {
    st.KeyPad() + (Quoted(kv.key) + (":" + Render(st.Inner(), kv.val)))
  }

  function RenderMembers(st: Style, keys: seq<KeyVal>): string
    decreases keys
  {
    if keys == [] then ""
    else
      RenderMember(st, keys[0]) + (st.Separator(|keys| == 1) + RenderMembers(st, keys[1..]))
  }

  function RenderItem(st: Style, v: Value): string
    decreases v, 1
  {
    st.ItemPad() + Render(st.Inner(), v)
  }

  function RenderItems(st: Style, vals: seq<Value>): string
    decreases vals
  {
    if vals == [] then ""
    else
      RenderItem(st, vals[0]) + (st.Separator(|vals| == 1) + RenderItems(st, vals[1..]))
  }

  function CompactText(v: Value): string { Render(Compact, v) }

  function PrettyText(v: Value): string { Render(Pretty(1), v) }

  lemma Assoc(a: string, b: string, c: string)
    ensures (a + b) + c == a + (b + c)
  {}
}
