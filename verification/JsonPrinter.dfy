/** The two printers of src/json/value.cpp, writing to an output stream. */
module JsonPrinter {
  import opened JsonValue

  /** An `ostream`: the text written so far and the pending field width of `setw`. */
  class Ostream {
    var text: string
    var width: nat

    constructor ()
      ensures text == "" && width == 0
    {
      text := "";
      width := 0;
    }

    method SetWidth(w: nat)
      modifies this`width
      ensures width == w
    {
      width := w;
    }

    /** Writes s right-aligned in the pending width, which is then reset. */
    method Write(s: string)
      modifies this
      ensures text == old(text) + (Blanks(old(width) - |s|) + s)
      ensures width == 0
    {
      text := text + (Blanks(width - |s|) + s);
      width := 0;
    }
  }

  lemma NoPadding(s: string)
    ensures Blanks(-|s|) + s == s
  {}

  method PrintScalar(v: Value, os: Ostream)
    requires !v.Obj? && !v.Arr? && os.width == 0
    modifies os
    ensures os.text == old(os.text) + Render(Compact, v) && os.width == 0
  {
    match v {
      case Null => os.Write("null");
      case Bool(b) => os.Write(if b then "true" else "false");
      case Num(x) => os.Write(NumText(x));
      case Str(s) => PrintQuoted(s, os);
    }
    NoPadding(Render(Compact, v));
  }

  method PrintQuoted(s: string, os: Ostream)
    modifies os
    ensures os.text == old(os.text) + (Blanks(old(os.width) - 1) + Quoted(s)) && os.width == 0
    ensures old(os.width) == 0 ==> os.text == old(os.text) + Quoted(s)
  {
    ghost var pad := Blanks(os.width - 1);
    os.Write("\"");
    PrintToken(s, os);
    PrintToken("\"", os);
    assert pad + Quoted(s) == pad + "\"" + s + "\"";
  }

  method PrintCompact(v: Value, os: Ostream)
    requires os.width == 0
    modifies os
    ensures os.text == old(os.text) + Render(Compact, v) && os.width == 0
    decreases v, 1
  {
    match v {
      case Obj(keys) => PrintObject(keys, os);
      case Arr(vals) => PrintArray(vals, os);
      case _ => PrintScalar(v, os);
    }
  }

  method PrintObject(keys: seq<KeyVal>, os: Ostream)
    requires os.width == 0
    modifies os
    ensures os.text == old(os.text) + Render(Compact, Obj(keys)) && os.width == 0
    decreases keys, 0
  {
    CompactBrackets(keys, []);
    NothingLeft(keys);
    hide *;
    PrintToken("{", os);
    ghost var start := os.text;
    for i := 0 to |keys|
      invariant os.width == 0
      invariant os.text + RenderMembers(Compact, keys[i..]) == start + RenderMembers(Compact, keys)
    {
      ghost var before := os.text;
      PrintQuoted(keys[i].key, os);
      PrintToken(":", os);
      PrintCompact(keys[i].val, os);
      if i != |keys| - 1 {
        PrintToken(",", os);
      }
      CompactMemberWritten(keys, i, before, os.text);
    }
    PrintToken("}", os);
    CompactWritten(old(os.text), "{", RenderMembers(Compact, keys), "}", os.text);
  }

  method PrintArray(vals: seq<Value>, os: Ostream)
    requires os.width == 0
    modifies os
    ensures os.text == old(os.text) + Render(Compact, Arr(vals)) && os.width == 0
    decreases vals, 0
  {
    CompactBrackets([], vals);
    NothingLeft(vals);
    hide *;
    PrintToken("[", os);
    ghost var start := os.text;
    for i := 0 to |vals|
      invariant os.width == 0
      invariant os.text + RenderItems(Compact, vals[i..]) == start + RenderItems(Compact, vals)
    {
      ghost var before := os.text;
      PrintCompact(vals[i], os);
      if i != |vals| - 1 {
        PrintToken(",", os);
      }
      CompactItemWritten(vals, i, before, os.text);
    }
    PrintToken("]", os);
    CompactWritten(old(os.text), "[", RenderItems(Compact, vals), "]", os.text);
  }

  // ----- text written by one turn of a loop

  lemma MemberWritten(st: Style, keys: seq<KeyVal>, i: nat, before: string, after: string)
    requires i < |keys|
    requires after == before + (st.KeyPad() + Quoted(keys[i].key)) + ":" + Render(st.Inner(), keys[i].val)
                      + (if i != |keys| - 1 then "," else "") + st.Newline()
    ensures after + RenderMembers(st, keys[i + 1..]) == before + RenderMembers(st, keys[i..])
  {
    var pad, key, val := st.KeyPad(), Quoted(keys[i].key), Render(st.Inner(), keys[i].val);
    var comma, more := if i != |keys| - 1 then "," else "", RenderMembers(st, keys[i + 1..]);
    var sep := comma + st.Newline();
    var entry := pad + (key + (":" + val));
    assert keys[i..][1..] == keys[i + 1..];
    assert RenderMembers(st, keys[i..]) == entry + (sep + more);
    hide *;
    Assoc(pad, key, ":" + val);
    Assoc(before, pad + key, ":");
    Assoc(before + (pad + key), ":", val);
    Assoc(before, pad + key, ":" + val);
    Assoc(before + entry, comma, st.Newline());
    Assoc(before, entry, sep);
    Assoc(before, entry + sep, more);
    Assoc(entry, sep, more);
  }

  lemma ItemWritten(st: Style, vals: seq<Value>, i: nat, before: string, after: string)
    requires i < |vals|
    requires after == before + st.ItemPad() + Render(st.Inner(), vals[i])
                      + (if i != |vals| - 1 then "," else "") + st.Newline()
    ensures after + RenderItems(st, vals[i + 1..]) == before + RenderItems(st, vals[i..])
  {
    var pad, val := st.ItemPad(), Render(st.Inner(), vals[i]);
    var comma, more := if i != |vals| - 1 then "," else "", RenderItems(st, vals[i + 1..]);
    var sep := comma + st.Newline();
    assert vals[i..][1..] == vals[i + 1..];
    assert RenderItems(st, vals[i..]) == (pad + val) + (sep + more);
    hide *;
    Assoc(before, pad, val);
    Assoc(before + (pad + val), comma, st.Newline());
    Assoc(before, pad + val, sep);
    Assoc(before, (pad + val) + sep, more);
    Assoc(pad + val, sep, more);
  }

  lemma CompactMemberWritten(keys: seq<KeyVal>, i: nat, before: string, after: string)
    requires i < |keys|
    requires after == before + Quoted(keys[i].key) + ":" + Render(Compact, keys[i].val)
                      + (if i != |keys| - 1 then "," else "")
    ensures after + RenderMembers(Compact, keys[i + 1..]) == before + RenderMembers(Compact, keys[i..])
  {
    assert Compact.KeyPad() + Quoted(keys[i].key) == Quoted(keys[i].key);
    assert after + Compact.Newline() == after;
    MemberWritten(Compact, keys, i, before, after);
  }

  lemma CompactItemWritten(vals: seq<Value>, i: nat, before: string, after: string)
    requires i < |vals|
    requires after == before + Render(Compact, vals[i]) + (if i != |vals| - 1 then "," else "")
    ensures after + RenderItems(Compact, vals[i + 1..]) == before + RenderItems(Compact, vals[i..])
  {
    assert before + Compact.ItemPad() == before;
    assert after + Compact.Newline() == after;
    ItemWritten(Compact, vals, i, before, after);
  }

  lemma CompactWritten(before: string, open: string, body: string, close: string, after: string)
    requires after == before + open + body + close
    ensures after == before + Bracketed(Compact, open, body, close)
  {
    assert before + open + Compact.Newline() == before + open;
    assert Compact.ClosePad() + close == close;
    BracketWritten(Compact, before, open, body, close, after);
  }

  lemma CompactBrackets(keys: seq<KeyVal>, vals: seq<Value>)
    ensures Render(Compact, Obj(keys)) == Bracketed(Compact, "{", RenderMembers(Compact, keys), "}")
    ensures Render(Compact, Arr(vals)) == Bracketed(Compact, "[", RenderItems(Compact, vals), "]")
    ensures RenderMembers(Compact, []) == "" && RenderItems(Compact, []) == ""
  {}

  lemma PrettyMembers(st: Style, keys: seq<KeyVal>)
    requires st.Pretty?
    ensures Render(st, Obj(keys))
         == if |keys| == 0 then "{}" else Bracketed(st, "{", RenderMembers(st, keys), "}")
    ensures RenderMembers(st, []) == ""
  {
    hide Bracketed, RenderMember, RenderItems;
  }

  lemma PrettyItems(st: Style, vals: seq<Value>)
    requires st.Pretty?
    ensures Render(st, Arr(vals))
         == if |vals| == 0 then "[]" else Bracketed(st, "[", RenderItems(st, vals), "]")
    ensures RenderItems(st, []) == ""
  {
    hide Bracketed, RenderItem, RenderMembers;
  }

  lemma OpeningLine(st: Style, before: string)
    requires st.Newline() == "\n"
    ensures before + "{\n" == before + "{" + st.Newline() && before + "[\n" == before + "[" + st.Newline()
  {
    Assoc(before, "{", "\n");
    Assoc(before, "[", "\n");
    assert "{" + "\n" == "{\n" && "[" + "\n" == "[\n";
  }

  lemma NothingLeft<T>(s: seq<T>)
    ensures s[0..] == s && s[|s|..] == []
  {}

  lemma BracketWritten(st: Style, before: string, open: string, body: string, close: string, after: string)
    requires after == before + open + st.Newline() + body + (st.ClosePad() + close)
    ensures after == before + Bracketed(st, open, body, close)
  {
    var end := st.ClosePad() + close;
    Assoc(before + open, st.Newline(), body);
    Assoc(before, open, st.Newline() + body);
    Assoc(open, st.Newline(), body);
    Assoc(before, open + (st.Newline() + body), end);
    Assoc(open, st.Newline() + body, end);
    Assoc(st.Newline(), body, end);
  }

  method PrintToken(s: string, os: Ostream)
    requires os.width == 0
    modifies os
    ensures os.text == old(os.text) + s && os.width == 0
  {
    NoPadding(s);
    os.Write(s);
  }

  method PrintPrettyKey(key: string, os: Ostream, depth: nat)
    requires depth > 0
    modifies os
    ensures os.text == old(os.text) + (Pretty(depth).KeyPad() + Quoted(key)) && os.width == 0
  {
    os.SetWidth(depth * 4);
    PrintQuoted(key, os);
  }

  method PrintItemPad(os: Ostream, depth: nat)
    requires depth > 0
    modifies os
    ensures os.text == old(os.text) + Pretty(depth).ItemPad() && os.width == 0
  {
    os.SetWidth(depth * 4);
    os.Write(" ");
    BlankField(4 * depth);
  }

  method PrintClose(close: string, os: Ostream, depth: nat)
    requires depth > 0 && |close| == 1
    modifies os
    ensures os.text == old(os.text) + (Pretty(depth).ClosePad() + close) && os.width == 0
  {
    os.SetWidth(depth * 4 - 4);
    os.Write(close);
  }

  method PrintPretty(v: Value, os: Ostream, depth: nat)
    requires os.width == 0 && depth > 0
    modifies os
    ensures os.text == old(os.text) + Render(Pretty(depth), v) && os.width == 0
    decreases v, 1
  {
    match v {
      case Obj(keys) => PrintPrettyObject(keys, os, depth);
      case Arr(vals) => PrintPrettyArray(vals, os, depth);
      case _ => PrintScalar(v, os);
    }
  }

  method PrintPrettyObject(keys: seq<KeyVal>, os: Ostream, depth: nat)
    requires os.width == 0 && depth > 0
    modifies os
    ensures os.text == old(os.text) + Render(Pretty(depth), Obj(keys)) && os.width == 0
    decreases keys, 0
  {
    hide *;
    ghost var st := Pretty(depth);
    NextDepth(depth);
    PrettyMembers(st, keys);
    if |keys| == 0 {
      PrintToken("{}", os);
      return;
    }
    NothingLeft(keys);
    OpeningLine(st, os.text);
    PrintToken("{\n", os);
    ghost var start := os.text;
    for i := 0 to |keys|
      invariant os.width == 0
      invariant os.text + RenderMembers(st, keys[i..]) == start + RenderMembers(st, keys)
    {
      ghost var before := os.text;
      PrintPrettyMember(keys[i], i != |keys| - 1, os, depth);
      MemberWritten(st, keys, i, before, os.text);
    }
    PrintClose("}", os, depth);
    BracketWritten(st, old(os.text), "{", RenderMembers(st, keys), "}", os.text);
  }

  method PrintPrettyMember(kv: KeyVal, more: bool, os: Ostream, depth: nat)
    requires os.width == 0 && depth > 0
    modifies os
    ensures var st := Pretty(depth);
            os.text == old(os.text) + (st.KeyPad() + Quoted(kv.key)) + ":" + Render(st.Inner(), kv.val)
                       + (if more then "," else "") + st.Newline()
    ensures os.width == 0
    decreases kv, 0
  {
    NextDepth(depth);
    hide *;
    PrintPrettyKey(kv.key, os, depth);
    PrintToken(":", os);
    PrintPretty(kv.val, os, depth + 1);
    if more {
      PrintToken(",", os);
    }
    PrintToken("\n", os);
  }

  method PrintPrettyItem(v: Value, more: bool, os: Ostream, depth: nat)
    requires os.width == 0 && depth > 0
    modifies os
    ensures var st := Pretty(depth);
            os.text == old(os.text) + st.ItemPad() + Render(st.Inner(), v) + (if more then "," else "") + st.Newline()
    ensures os.width == 0
    decreases v, 2
  {
    NextDepth(depth);
    hide *;
    PrintItemPad(os, depth);
    PrintPretty(v, os, depth + 1);
    if more {
      PrintToken(",", os);
    }
    PrintToken("\n", os);
  }

  lemma NextDepth(depth: nat)
    requires depth > 0
    ensures var st := Pretty(depth); st.Newline() == "\n" && st.Inner() == Pretty(depth + 1)
  {}

  method PrintPrettyArray(vals: seq<Value>, os: Ostream, depth: nat)
    requires os.width == 0 && depth > 0
    modifies os
    ensures os.text == old(os.text) + Render(Pretty(depth), Arr(vals)) && os.width == 0
    decreases vals, 0
  {
    hide *;
    ghost var st := Pretty(depth);
    NextDepth(depth);
    PrettyItems(st, vals);
    if |vals| == 0 {
      PrintToken("[]", os);
      return;
    }
    NothingLeft(vals);
    OpeningLine(st, os.text);
    PrintToken("[\n", os);
    ghost var start := os.text;
    for i := 0 to |vals|
      invariant os.width == 0
      invariant os.text + RenderItems(st, vals[i..]) == start + RenderItems(st, vals)
    {
      ghost var before := os.text;
      PrintPrettyItem(vals[i], i != |vals| - 1, os, depth);
      ItemWritten(st, vals, i, before, os.text);
    }
    PrintClose("]", os, depth);
    BracketWritten(st, old(os.text), "[", RenderItems(st, vals), "]", os.text);
  }

  lemma {:induction false} BlankField(n: nat)
    requires n > 0
    ensures Blanks(n - 1) + " " == Blanks(n)
  {
    if n > 1 {
      BlankField(n - 1);
      assert Blanks(n - 1) == " " + Blanks(n - 2);
    }
  }

  /** `write`. */
  method Write(os: Ostream, v: Value, pretty: bool)
    requires os.width == 0
    modifies os
    ensures os.text == old(os.text) + (if pretty then PrettyText(v) else CompactText(v))
    ensures os.width == 0
  {
    if !pretty {
      PrintCompact(v, os);
    } else {
      PrintPretty(v, os, 1);
    }
  }
}
