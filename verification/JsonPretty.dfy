/** The pretty layout is the compact text plus blanks outside strings. */
module JsonPretty {
  import opened JsonValue

  /** Deletes the blanks outside quotes; `quoted` says whether s starts inside a string. */
  function Minify(s: string, quoted: bool): string {
    if s == "" then ""
    else (if !quoted && IsSpace(s[0]) then "" else [s[0]]) + Minify(s[1..], quoted != (s[0] == '"'))
  }

  /** Whether the end of s lies inside a string. */
  function InString(s: string, quoted: bool): bool {
    if s == "" then quoted else InString(s[1..], quoted != (s[0] == '"'))
  }

  lemma {:induction false} MinifyAppend(a: string, b: string, quoted: bool)
    ensures Minify(a + b, quoted) == Minify(a, quoted) + Minify(b, InString(a, quoted))
    ensures InString(a + b, quoted) == InString(b, InString(a, quoted))
  {
    if a == "" {
      assert a + b == b;
    } else {
      var inside := quoted != (a[0] == '"');
      var kept := if !quoted && IsSpace(a[0]) then "" else [a[0]];
      assert (a + b)[1..] == a[1..] + b && (a + b)[0] == a[0];
      MinifyAppend(a[1..], b, inside);
      assert kept + (Minify(a[1..], inside) + Minify(b, InString(a, quoted)))
          == (kept + Minify(a[1..], inside)) + Minify(b, InString(a, quoted));
    }
  }

  predicate NoQuote(s: string) {
    '"' !in s
  }

  predicate NoQuotes(v: Value)
    decreases v
  {
    match v
    case Str(s) => NoQuote(s)
    case Obj(keys) => NoQuotesInMembers(keys)
    case Arr(vals) => NoQuotesInItems(vals)
    case _ => true
  }

  predicate NoQuotesInItems(vals: seq<Value>)
    decreases vals
  {
    vals == [] || (NoQuotes(vals[0]) && NoQuotesInItems(vals[1..]))
  }

  predicate NoQuotesInMembers(keys: seq<KeyVal>)
    decreases keys
  {
    keys == [] || (NoQuote(keys[0].key) && NoQuotes(keys[0].val) && NoQuotesInMembers(keys[1..]))
  }

  /** s minifies to t, starting and ending outside strings. */
  predicate Minifies(s: string, t: string) {
    Minify(s, false) == t && !InString(s, false)
  }

  lemma MinifiesAppend(s: string, t: string, s': string, t': string)
    requires Minifies(s, t) && Minifies(s', t')
    ensures Minifies(s + s', t + t')
  {
    MinifyAppend(s, s', false);
  }

  lemma {:induction false} MinifiesBlanks(s: string)
    requires AllSpace(s)
    ensures Minifies(s, "")
  {
    if s != "" {
      assert AllSpace(s[1..]);
      assert s[0] != '"';
      MinifiesBlanks(s[1..]);
    }
  }

  predicate Solid(s: string) {
    s == "" || (!IsSpace(s[0]) && s[0] != '"' && Solid(s[1..]))
  }

  lemma {:induction false} SolidAppend(a: string, b: string)
    requires Solid(a) && Solid(b)
    ensures Solid(a + b)
  {
    if a == "" {
      assert a + b == b;
    } else {
      assert (a + b)[1..] == a[1..] + b;
      SolidAppend(a[1..], b);
    }
  }

  lemma {:induction false} MinifiesSolid(s: string)
    requires Solid(s)
    ensures Minifies(s, s)
  {
    if s != "" {
      MinifiesSolid(s[1..]);
      assert [s[0]] + s[1..] == s;
    }
  }

  lemma MinifiesWord(s: string)
    requires s == "null" || s == "true" || s == "false"
    ensures Minifies(s, s)
  {
    assert Solid(s[3..]);
    MinifiesSolid(s);
  }

  lemma {:induction false} MinifyInside(s: string)
    requires NoQuote(s)
    ensures Minify(s, true) == s && InString(s, true)
  {
    if s != "" {
      assert s[0] != '"' && NoQuote(s[1..]);
      MinifyInside(s[1..]);
      assert [s[0]] + s[1..] == s;
    }
  }

  lemma MinifiesQuoted(s: string)
    requires NoQuote(s)
    ensures Minifies(Quoted(s), Quoted(s))
  {
    MinifyInside(s);
    MinifyAppend("\"", s, false);
    MinifyAppend("\"" + s, "\"", false);
    assert Minify("\"", false) == "\"" && Minify("\"", true) == "\"";
  }

  lemma {:induction false} NatTextSolid(n: nat)
    ensures Solid(NatText(n))
  {
    if n >= 10 {
      NatTextSolid(n / 10);
      SolidAppend(NatText(n / 10), [DigitChar(n % 10)]);
    }
  }

  lemma {:induction false} PaddedTextSolid(n: nat, width: nat)
    ensures Solid(PaddedText(n, width))
    decreases width
  {
    if width > 0 {
      PaddedTextSolid(n / 10, width - 1);
      SolidAppend(PaddedText(n / 10, width - 1), [DigitChar(n % 10)]);
    }
  }

  lemma NumTextSolid(x: real)
    ensures Solid(NumText(x))
  {
    var m := RoundMillionths(Abs(x));
    var sign := if x < 0.0 then "-" else "";
    NatTextSolid(m / 1000000);
    PaddedTextSolid(m % 1000000, 6);
    SolidAppend(sign, NatText(m / 1000000));
    SolidAppend(sign + NatText(m / 1000000), ".");
    SolidAppend(sign + NatText(m / 1000000) + ".", PaddedText(m % 1000000, 6));
  }

  lemma BracketedMinifies(st: Style, open: string, body: string, compact: string, close: string)
    requires Solid(open) && Solid(close) && Minifies(body, compact)
    ensures Minifies(Bracketed(st, open, body, close), Bracketed(Compact, open, compact, close))
  {
    MinifiesSolid(open);
    MinifiesSolid(close);
    MinifiesBlanks(st.ClosePad());
    MinifiesBlanks(st.Newline());
    MinifiesAppend(st.ClosePad(), "", close, close);
    MinifiesAppend(body, compact, st.ClosePad() + close, "" + close);
    MinifiesAppend(st.Newline(), "", body + (st.ClosePad() + close), compact + ("" + close));
    MinifiesAppend(open, open, st.Newline() + (body + (st.ClosePad() + close)), "" + (compact + ("" + close)));
  }

  lemma SeparatorMinifies(st: Style, last: bool)
    ensures Minifies(st.Separator(last), Compact.Separator(last))
  {
    var comma := if last then "" else ",";
    MinifiesSolid(comma);
    MinifiesBlanks(st.Newline());
    MinifiesAppend(comma, comma, st.Newline(), "");
  }

  /** Deleting the blanks outside strings turns any layout into the compact one. */
  lemma {:induction false} RenderMinifies(st: Style, v: Value)
    requires NoQuotes(v)
    ensures Minifies(Render(st, v), Render(Compact, v))
    decreases v, 0
  {
    match v
    case Null => MinifiesWord("null");
    case Bool(b) => MinifiesWord(if b then "true" else "false");
    case Num(x) => NumTextSolid(x); MinifiesSolid(NumText(x));
    case Str(s) => MinifiesQuoted(s);
    case Arr(vals) =>
      if vals == [] {
        MinifiesSolid("[]");
      } else {
        ItemsMinify(st, vals);
        BracketedMinifies(st, "[", RenderItems(st, vals), RenderItems(Compact, vals), "]");
      }
    case Obj(keys) =>
      if keys == [] {
        MinifiesSolid("{}");
      } else {
        MembersMinify(st, keys);
        BracketedMinifies(st, "{", RenderMembers(st, keys), RenderMembers(Compact, keys), "}");
      }
  }

  lemma {:induction false} ItemsMinify(st: Style, vals: seq<Value>)
    requires NoQuotesInItems(vals)
    ensures Minifies(RenderItems(st, vals), RenderItems(Compact, vals))
    decreases vals
  {
    if vals != [] {
      var more, more' := RenderItems(st, vals[1..]), RenderItems(Compact, vals[1..]);
      var last := |vals| == 1;
      RenderMinifies(st.Inner(), vals[0]);
      MinifiesBlanks(st.ItemPad());
      MinifiesAppend(st.ItemPad(), "", Render(st.Inner(), vals[0]), Render(Compact, vals[0]));
      ItemsMinify(st, vals[1..]);
      SeparatorMinifies(st, last);
      MinifiesAppend(st.Separator(last), Compact.Separator(last), more, more');
      MinifiesAppend(RenderItem(st, vals[0]), RenderItem(Compact, vals[0]),
                     st.Separator(last) + more, Compact.Separator(last) + more');
    }
  }

  lemma {:induction false} MembersMinify(st: Style, keys: seq<KeyVal>)
    requires NoQuotesInMembers(keys)
    ensures Minifies(RenderMembers(st, keys), RenderMembers(Compact, keys))
    decreases keys
  {
    if keys != [] {
      var more, more' := RenderMembers(st, keys[1..]), RenderMembers(Compact, keys[1..]);
      var last := |keys| == 1;
      RenderMinifies(st.Inner(), keys[0].val);
      MemberMinifies(st, keys[0]);
      MembersMinify(st, keys[1..]);
      SeparatorMinifies(st, last);
      MinifiesAppend(st.Separator(last), Compact.Separator(last), more, more');
      MinifiesAppend(RenderMember(st, keys[0]), RenderMember(Compact, keys[0]),
                     st.Separator(last) + more, Compact.Separator(last) + more');
    }
  }

  lemma MemberMinifies(st: Style, kv: KeyVal)
    requires NoQuote(kv.key)
    requires Minifies(Render(st.Inner(), kv.val), Render(Compact, kv.val))
    ensures Minifies(RenderMember(st, kv), RenderMember(Compact, kv))
  {
    var val, val' := Render(st.Inner(), kv.val), Render(Compact, kv.val);
    MinifiesSolid(":");
    MinifiesAppend(":", ":", val, val');
    MinifiesQuoted(kv.key);
    MinifiesAppend(Quoted(kv.key), Quoted(kv.key), ":" + val, ":" + val');
    MinifiesBlanks(st.KeyPad());
    MinifiesAppend(st.KeyPad(), "", Quoted(kv.key) + (":" + val), Quoted(kv.key) + (":" + val'));
  }

  /** The pretty printer writes the compact text plus blanks outside strings. */
  lemma PrettyRefinesCompact(v: Value)
    requires NoQuotes(v)
    ensures Minify(PrettyText(v), false) == CompactText(v)
  {
    RenderMinifies(Pretty(1), v);
  }
}
