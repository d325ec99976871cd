/** The two layouts as documents: what the printers write, with every blank and line break spelled out. */
module JsonLayout {
  import opened JsonValue
  import opened JsonGrammar
  import opened JsonTokens
  import opened JsonText
  import opened JsonDocument
  import S = JsonStrings

  // ----- printed numbers and strings

  /** A minus sign below zero, the whole part, a point, and six decimals. */
  function Printed(x: real): Numeral {
    var m := RoundMillionths(Abs(x));
    Numeral(if x < 0.0 then "-" else "", NatText(m / 1000000), true, PaddedText(m % 1000000, 6), NoExponent)
  }

  lemma PrintedSpelling(x: real)
    ensures SpellNumeral(Printed(x)) == NumText(x)
  {
    var m := RoundMillionths(Abs(x));
    var sign, whole, frac := if x < 0.0 then "-" else "", NatText(m / 1000000), PaddedText(m % 1000000, 6);
    hide NatText, PaddedText, RoundMillionths;
    assert frac + "" == frac;
    Assoc(sign, whole, "." + frac);
    Assoc(sign + whole, ".", frac);
  }

  lemma {:induction false} NoLeadingZero(n: nat)
    ensures NatText(n)[0] == '0' ==> NatText(n) == "0"
    ensures n > 0 ==> NatText(n)[0] != '0'
  {
    if n >= 10 {
      NoLeadingZero(n / 10);
      assert NatText(n)[0] == NatText(n / 10)[0];
    }
  }

  /** A number is printed as the numeral with six decimals, no needless leading zero, and a sign exactly
    * below zero, whose value is a whole number of millionths at most half a millionth away. */
  lemma NumberIsPrinted(x: real)
    ensures var n := Printed(x);
            && NumText(x) == SpellNumeral(n) && NumeralOk(n)
            && n.point && |n.frac| == 6 && n.exp.NoExponent?
            && (n.sign == "-" <==> x < 0.0) && n.sign != "+"
            && (n.whole == "0" || n.whole[0] != '0')
            && Abs(x - NumeralValue(n)) <= 1.0 / 2000000.0
  {
    var n, m := Printed(x), RoundMillionths(Abs(x));
    NatTextDigits(m / 1000000);
    PaddedTextDigits(m % 1000000, 6);
    NoLeadingZero(m / 1000000);
    PrintedSpelling(x);
    assert SpellNumeral(n) + "" == SpellNumeral(n);
    assert NumeralOk(n);
    hide NumText, SpellNumeral, NatText, PaddedText, RoundMillionths, NumeralValue, NearestMillionth, ParseNumber;
    NumeralReads(n, "");
    NumberRoundTrip(x, "");
    NearestIsNearest(x, 0);
  }

  function RawPieces(s: string): seq<S.Piece> {
    if s == "" then [] else [S.Raw(s[0])] + RawPieces(s[1..])
  }

  lemma {:induction false} RawSpelling(s: string)
    ensures S.Spell(RawPieces(s)) == s && S.Meaning(RawPieces(s)) == s
  {
    if s != "" {
      RawSpelling(s[1..]);
      assert RawPieces(s)[1..] == RawPieces(s[1..]) && s == [s[0]] + s[1..];
    }
  }

  lemma QuotedSpelling(s: string)
    ensures S.QuotedPieces(RawPieces(s)) == Quoted(s)
  {
    RawSpelling(s);
    Assoc("\"", s, "\"");
  }

  // ----- both layouts

  function Column(n: int): string {
    if n <= 0 then "" else seq(n, i => ' ')
  }

  /** A new line that begins with n blanks; the compact layout has none. */
  function Break(st: Style, n: int): string {
    if st.Compact? then "" else "\n" + Column(n)
  }

  function Deeper(st: Style): Style {
    if st.Compact? then Compact else Pretty(st.depth + 1)
  }

  function Columns(st: Style): int {
    if st.Compact? then 0 else 4 * st.depth
  }

  /** Every key, every element and every closing bracket of a list or table with entries has a line of
    * its own. At nesting d the opening quote of a key stands in column 4d, an element starts after 4d
    * blanks, and the bracket that closes the entries stands in column 4d - 4, or in the first. */
  function Page(st: Style, v: Value): Body
    decreases v
  {
    match v
    case Null => NullWord
    case Bool(b) => if b then TrueWord else FalseWord
    case Num(x) => Number(Printed(x))
    case Str(s) => Text(RawPieces(s))
    case Arr(vals) => List(PageItems(st, vals), "")
    case Obj(keys) => Table(PageEntries(st, keys), "")
  }

  function PageItems(st: Style, vals: seq<Value>): (items: seq<Item>)
    ensures |items| == |vals|
    decreases vals
  {
    if vals == [] then []
    else
      [Item(Doc(Break(st, Columns(st)), Page(Deeper(st), vals[0])),
            if |vals| == 1 then Break(st, Columns(st) - 5) else "")]
      + PageItems(st, vals[1..])
  }

  function PageEntries(st: Style, keys: seq<KeyVal>): (entries: seq<Entry>)
    ensures |entries| == |keys|
    decreases keys
  {
    if keys == [] then []
    else
      [Entry(Break(st, Columns(st) - 1), RawPieces(keys[0].key), "", Doc("", Page(Deeper(st), keys[0].val)),
             if |keys| == 1 then Break(st, Columns(st) - 5) else "")]
      + PageEntries(st, keys[1..])
  }

  predicate Nested(st: Style) {
    st.Pretty? ==> st.depth > 0
  }

  lemma {:induction false} ColumnIsBlanks(n: int)
    ensures Column(n) == Blanks(n)
    decreases if n < 0 then 0 else n
  {
    if n > 0 {
      ColumnIsBlanks(n - 1);
      assert Column(n) == " " + Column(n - 1);
    }
  }

  lemma Breaks(st: Style)
    requires Nested(st)
    ensures Break(st, Columns(st) - 1) == st.Newline() + st.KeyPad()
    ensures Break(st, Columns(st)) == st.Newline() + st.ItemPad()
    ensures Break(st, Columns(st) - 5) == st.Newline() + st.ClosePad()
    ensures Deeper(st) == st.Inner() && Nested(st.Inner())
  {
    if st.Pretty? {
      ColumnIsBlanks(4 * st.depth - 1);
      ColumnIsBlanks(4 * st.depth);
      ColumnIsBlanks(4 * st.depth - 5);
      hide Blanks, Column;
    } else {
      assert "" + "" == "";
    }
  }

  /** What the printers write, in either layout and at any nesting, is this document. */
  lemma {:induction false} PrintedPage(st: Style, v: Value)
    requires Nested(st)
    ensures WriteBody(Page(st, v)) == Render(st, v)
    decreases v, 0
  {
    hide SpellNumeral, NumText, S.QuotedPieces, Quoted, WriteItems, WriteEntries, RenderItems, RenderMembers;
    hide PageItems, PageEntries, Bracketed;
    match v
    case Num(x) => PrintedSpelling(x);
    case Str(s) => QuotedSpelling(s);
    case Arr(vals) =>
      if vals == [] {
        NoEntries(st);
      } else {
        PrintedItems(st, vals);
        Brackets(st, "[", RenderItems(st, vals), "]");
      }
    case Obj(keys) =>
      if keys == [] {
        NoEntries(st);
      } else {
        PrintedEntries(st, keys);
        Brackets(st, "{", RenderMembers(st, keys), "}");
      }
    case _ =>
  }

  lemma NoEntries(st: Style)
    ensures PageItems(st, []) == [] && PageEntries(st, []) == []
    ensures "[" + ("" + "]") == "[]" && "{" + ("" + "}") == "{}"
  {}

  lemma Brackets(st: Style, open: string, body: string, close: string)
    ensures Bracketed(st, open, body, close) == open + ((st.Newline() + (body + st.ClosePad())) + close)
  {
    Assoc(st.Newline(), body + st.ClosePad(), close);
    Assoc(body, st.ClosePad(), close);
  }

  /** One entry and what follows it, regrouped. */
  lemma Regroup(nl: string, pad: string, text: string, last: bool, more: string, close: string)
    requires last ==> more == ""
    ensures nl + (((pad + text) + (((if last then "" else ",") + nl) + more)) + close)
         == if last then ((nl + pad) + text) + (nl + close)
            else ((nl + pad) + text) + ("" + ("," + (nl + (more + close))))
  {
    var comma := if last then "" else ",";
    Assoc(pad + text, (comma + nl) + more, close);
    Assoc(comma + nl, more, close);
    Assoc(comma, nl, more + close);
    Assoc(nl, pad + text, comma + (nl + (more + close)));
    Assoc(nl, pad, text);
    assert last ==> "" + (nl + (more + close)) == nl + close;
    assert !last ==> "" + ("," + (nl + (more + close))) == "," + (nl + (more + close));
  }

  lemma {:induction false} PrintedItems(st: Style, vals: seq<Value>)
    requires Nested(st) && vals != []
    ensures WriteItems(PageItems(st, vals)) == st.Newline() + (RenderItems(st, vals) + st.ClosePad())
    decreases vals, 0
  {
    var last, more := |vals| == 1, RenderItems(st, vals[1..]);
    var text := Render(st.Inner(), vals[0]);
    Breaks(st);
    PrintedPage(st.Inner(), vals[0]);
    if !last {
      PrintedItems(st, vals[1..]);
    }
    assert PageItems(st, vals)[1..] == PageItems(st, vals[1..]);
    Regroup(st.Newline(), st.ItemPad(), text, last, more, st.ClosePad());
    hide Render, Page, Break, Columns, Deeper;
  }

  lemma {:induction false} PrintedEntries(st: Style, keys: seq<KeyVal>)
    requires Nested(st) && keys != []
    ensures WriteEntries(PageEntries(st, keys)) == st.Newline() + (RenderMembers(st, keys) + st.ClosePad())
    decreases keys, 0
  {
    var last, more := |keys| == 1, RenderMembers(st, keys[1..]);
    var e := PageEntries(st, keys)[0];
    var text := Quoted(keys[0].key) + (":" + Render(st.Inner(), keys[0].val));
    Breaks(st);
    PrintedPage(st.Inner(), keys[0].val);
    PrintedEntry(st, keys[0], e, text);
    if !last {
      PrintedEntries(st, keys[1..]);
    }
    assert PageEntries(st, keys)[1..] == PageEntries(st, keys[1..]);
    Regroup(st.Newline(), st.KeyPad(), text, last, more, st.ClosePad());
    hide Render, Page, Break, Columns, Deeper, WriteEntry, RawPieces;
  }

  lemma PrintedEntry(st: Style, kv: KeyVal, e: Entry, text: string)
    requires e.pad == st.Newline() + st.KeyPad() && e.key == RawPieces(kv.key) && e.colon == ""
    requires Write(e.doc) == Render(st.Inner(), kv.val)
    requires text == Quoted(kv.key) + (":" + Render(st.Inner(), kv.val))
    ensures WriteEntry(e) == (st.Newline() + st.KeyPad()) + text
  {
    QuotedSpelling(kv.key);
    assert "" + (":" + Write(e.doc)) == ":" + Write(e.doc);
    hide Render, S.QuotedPieces, Quoted, Write;
  }

  /** The compact text is the document without blanks, and the pretty text the one at nesting 1. */
  lemma LayoutsAreWritten(v: Value)
    ensures CompactText(v) == Write(Doc("", Page(Compact, v)))
    ensures PrettyText(v) == Write(Doc("", Page(Pretty(1), v)))
  {
    PrintedPage(Compact, v);
    PrintedPage(Pretty(1), v);
    assert "" + WriteBody(Page(Compact, v)) == WriteBody(Page(Compact, v));
    assert "" + WriteBody(Page(Pretty(1), v)) == WriteBody(Page(Pretty(1), v));
    hide Render, WriteBody, Page;
  }
}
