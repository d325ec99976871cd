/** JSON documents: values with the blanks, spellings of numbers and escapes that a text may give them.
  * The parser reads exactly the documents, each as the value it denotes. */
module JsonDocument {
  import opened JsonValue
  import opened JsonGrammar
  import opened JsonTokens
  import opened JsonRoundTrip
  import opened JsonText
  import S = JsonStrings

  /** A value, with the blanks in front of it. */
  datatype Doc = Doc(pad: string, body: Body)

  datatype Body =
    | NullWord
    | TrueWord
    | FalseWord
    | Number(n: Numeral)
    | Text(ps: seq<S.Piece>)
    | List(items: seq<Item>, gap: string)      // gap: the blanks between the brackets of an empty list
    | Table(entries: seq<Entry>, gap: string)

  /** An element, and the blanks up to the comma or bracket after it. */
  datatype Item = Item(doc: Doc, after: string)

  datatype Entry = Entry(pad: string, key: seq<S.Piece>, colon: string, doc: Doc, after: string)

  // ----- as text

  function Write(d: Doc): string
    decreases d, 0
  {
    d.pad + WriteBody(d.body)
  }

  function WriteBody(b: Body): string
    decreases b, 0
  {
    match b
    case NullWord => "null"
    case TrueWord => "true"
    case FalseWord => "false"
    case Number(n) => SpellNumeral(n)
    case Text(ps) => S.QuotedPieces(ps)
    case List(items, gap) => if items == [] then "[" + (gap + "]") else "[" + (WriteItems(items) + "]")
    case Table(entries, gap) => if entries == [] then "{" + (gap + "}") else "{" + (WriteEntries(entries) + "}")
  }

  function WriteItems(items: seq<Item>): string
    decreases items
  {
    if items == [] then ""
    else if |items| == 1 then Write(items[0].doc) + items[0].after
    else Write(items[0].doc) + (items[0].after + ("," + WriteItems(items[1..])))
  }

  function WriteEntry(e: Entry): string
    decreases e
  {
    e.pad + (S.QuotedPieces(e.key) + (e.colon + (":" + Write(e.doc))))
  }

  function WriteEntries(entries: seq<Entry>): string
    decreases entries
  {
    if entries == [] then ""
    else if |entries| == 1 then WriteEntry(entries[0]) + entries[0].after
    else WriteEntry(entries[0]) + (entries[0].after + ("," + WriteEntries(entries[1..])))
  }

  // ----- what it denotes

  function Denotes(b: Body): Value
    decreases b
  {
    match b
    case NullWord => Null
    case TrueWord => Bool(true)
    case FalseWord => Bool(false)
    case Number(n) => Num(NumeralValue(n))
    case Text(ps) => Str(S.Meaning(ps))
    case List(items, _) => Arr(DenotesItems(items))
    case Table(entries, _) => Obj(DenotesEntries(entries))
  }

  function DenotesItems(items: seq<Item>): seq<Value>
    decreases items
  {
    if items == [] then [] else [Denotes(items[0].doc.body)] + DenotesItems(items[1..])
  }

  function DenotesEntries(entries: seq<Entry>): seq<KeyVal>
    decreases entries
  {
    if entries == [] then []
    else [KeyVal(S.Meaning(entries[0].key), Denotes(entries[0].doc.body))] + DenotesEntries(entries[1..])
  }

  // ----- well written

  predicate DocOk(d: Doc)
    decreases d
  {
    AllBlank(d.pad) && BodyOk(d.body)
  }

  predicate BodyOk(b: Body)
    decreases b
  {
    match b
    case Number(n) => NumeralOk(n)
    case Text(ps) => S.Spelled(ps)
    case List(items, gap) => AllBlank(gap) && ItemsOk(items)
    case Table(entries, gap) => AllBlank(gap) && EntriesOk(entries)
    case _ => true
  }

  predicate ItemsOk(items: seq<Item>)
    decreases items
  {
    items == [] || (DocOk(items[0].doc) && AllBlank(items[0].after) && ItemsOk(items[1..]))
  }

  predicate EntryOk(e: Entry)
    decreases e
  {
    AllBlank(e.pad) && S.Spelled(e.key) && AllBlank(e.colon) && DocOk(e.doc) && AllBlank(e.after)
  }

  predicate EntriesOk(entries: seq<Entry>)
    decreases entries
  {
    entries == [] || (EntryOk(entries[0]) && EntriesOk(entries[1..]))
  }

  /** The rest does not go on with the body: only a number can. */
  predicate Ends(b: Body, rest: string) {
    b.Number? ==> NumeralEnds(b.n, rest)
  }

  // ----- a document is read as what it denotes

  /** A comma, a closing bracket, or a blank. */
  predicate Stops(s: string) {
    s != "" && (Blank(s[0]) || s[0] == ',' || s[0] == ']' || s[0] == '}')
  }

  lemma StopsEnds(b: Body, s: string)
    requires Stops(s)
    ensures Ends(b, s)
  {}

  lemma BodyStarts(b: Body)
    requires BodyOk(b)
    ensures var s := WriteBody(b); s != "" && !IsSpace(s[0]) && s[0] != ',' && s[0] != ']' && s[0] != '}'
  {
    match b
    case Number(n) => SpellingStarts(n); hide SpellNumeral;
    case Text(ps) => hide S.Spell;
    case List(items, gap) => hide WriteItems;
    case Table(entries, gap) => hide WriteEntries;
    case _ => {}
  }

  /** Blanks, and then a body. */
  lemma AtBody(d: Doc, rest: string)
    requires DocOk(d)
    ensures Skip(Write(d) + rest) == WriteBody(d.body) + rest
    ensures ParseValue(Write(d) + rest) == ParseChoice(WriteBody(d.body) + rest)
  {
    hide ParseChoice, BodyOk;
    var s := WriteBody(d.body) + rest;
    BodyStarts(d.body);
    Assoc(d.pad, WriteBody(d.body), rest);
    assert s[0] == WriteBody(d.body)[0];
    hide WriteBody;
    BlanksSkipped(d.pad, s);
    SkipNone(s);
  }

  lemma ChoiceAtNumber(s: string)
    requires ParseNumber(s).Got?
    ensures ParseChoice(s) == ParseNumber(s)
  {}

  lemma {:induction false} DocReads(d: Doc, rest: string)
    requires DocOk(d) && Ends(d.body, rest)
    ensures ParseValue(Write(d) + rest) == Got(Denotes(d.body), rest)
    decreases d, 0
  {
    AtBody(d, rest);
    BodyReads(d.body, rest);
    hide *;
  }

  lemma {:induction false} BodyReads(b: Body, rest: string)
    requires BodyOk(b) && Ends(b, rest)
    ensures ParseChoice(WriteBody(b) + rest) == Got(Denotes(b), rest)
    decreases b, 0
  {
    var s := WriteBody(b) + rest;
    hide ParseChoice, ParseItems, ParseMembers, ParseNumber;
    match b
    case NullWord => ChoiceAtWord(s); LiteralAtStart("null", Null, rest);
    case TrueWord => ChoiceAtWord(s); LiteralAtStart("true", Bool(true), rest);
    case FalseWord => ChoiceAtWord(s); LiteralAtStart("false", Bool(false), rest);
    case Number(n) => NumeralReads(n, rest); ChoiceAtNumber(s);
    case Text(ps) => S.StringReads(ps, rest); ChoiceAtQuote(s);
    case List(items, gap) => ListReads(items, gap, rest);
    case Table(entries, gap) => TableReads(entries, gap, rest);
  }

  lemma InBrackets(open: string, inner: string, close: string, rest: string)
    requires |open| == 1
    ensures (open + (inner + close)) + rest == open + (inner + (close + rest))
    ensures (open + (inner + (close + rest)))[1..] == inner + (close + rest)
  {
    Assoc(open, inner + close, rest);
    Assoc(inner, close, rest);
  }

  lemma EmptyReads(open: char, close: char, v: Value, gap: string, rest: string)
    requires AllBlank(gap) && !IsSpace(close)
    ensures ParseEmpty([open] + (gap + ([close] + rest)), open, close, v) == Got(v, rest)
  {
    var t := [close] + rest;
    assert ([open] + (gap + t))[1..] == gap + t && t[1..] == rest;
    BlanksSkipped(gap, t);
    SkipNone(t);
  }

  lemma CloserOnly(gap: string, close: string, rest: string)
    requires AllBlank(gap) && (close == "]" || close == "}")
    ensures ParseItems(gap + (close + rest)).Fail? && ParseMembers(gap + (close + rest)).Fail?
  {
    var t := close + rest;
    assert t[0] == close[0];
    hide ParseItems, ParseMembers;
    BlanksSkipped(gap, t);
    ItemsSkip(gap + t, t);
    MembersSkip(gap + t, t);
    NothingAtCloser(t);
  }

  lemma {:induction false} ListReads(items: seq<Item>, gap: string, rest: string)
    requires ItemsOk(items) && AllBlank(gap)
    ensures ParseChoice(WriteBody(List(items, gap)) + rest) == Got(Arr(DenotesItems(items)), rest)
    decreases items, 1
  {
    var inner := if items == [] then gap else WriteItems(items);
    var s := WriteBody(List(items, gap)) + rest;
    assert WriteBody(List(items, gap)) == "[" + (inner + "]");
    InBrackets("[", inner, "]", rest);
    ChoiceAtBracket(s);
    assert ("]" + rest)[1..] == rest;
    hide ParseChoice, ParseItems, WriteBody, WriteItems;
    if items == [] {
      CloserOnly(gap, "]", rest);
      EmptyReads('[', ']', Arr([]), gap, rest);
    } else {
      ItemsRead(items, "]" + rest);
    }
  }

  lemma AfterItem(after: string, next: string)
    requires AllBlank(after) && next != "" && !IsSpace(next[0]) && next[0] in ",]}"
    ensures Stops(after + next) && Skip(after + next) == next
  {
    BlanksSkipped(after, next);
    SkipNone(next);
    assert after != "" ==> (after + next)[0] == after[0];
    assert after == "" ==> after + next == next;
  }

  /** The elements, up to the bracket that closes them. */
  lemma {:induction false} ItemsRead(items: seq<Item>, close: string)
    requires items != [] && ItemsOk(items) && (StartsWith(close, ']') || StartsWith(close, '}'))
    ensures var p := ParseItems(WriteItems(items) + close);
            p.Got? && p.value == DenotesItems(items) && Skip(p.rest) == close
    decreases items, 0
  {
    var d, after := items[0].doc, items[0].after;
    var next := if |items| == 1 then close else "," + (WriteItems(items[1..]) + close);
    var v := Denotes(d.body);
    ItemsStart(items, close);
    assert [v] + [] == [v];
    AfterItem(after, next);
    StopsEnds(d.body, after + next);
    DocReads(d, after + next);
    hide ParseItems, WriteItems, Write, DocOk, Skip, Stops;
    if |items| == 1 {
      ItemsStep(WriteItems(items) + close, v, after + next, [], "");
    } else {
      ItemsRead(items[1..], close);
      var p := ParseItems(WriteItems(items[1..]) + close);
      assert next[1..] == WriteItems(items[1..]) + close;
      ItemsStep(WriteItems(items) + close, v, after + next, p.value, p.rest);
    }
  }

  lemma ItemsStart(items: seq<Item>, close: string)
    requires items != []
    ensures WriteItems(items) + close
         == Write(items[0].doc) + (items[0].after
            + (if |items| == 1 then close else "," + (WriteItems(items[1..]) + close)))
  {
    var text, after, more := Write(items[0].doc), items[0].after, WriteItems(items[1..]);
    assert WriteItems(items) == if |items| == 1 then text + after else text + (after + ("," + more));
    hide *;
    if |items| == 1 {
      Assoc(text, after, close);
    } else {
      Assoc(text, after + ("," + more), close);
      Assoc(after, "," + more, close);
      Assoc(",", more, close);
    }
  }

  lemma {:induction false} TableReads(entries: seq<Entry>, gap: string, rest: string)
    requires EntriesOk(entries) && AllBlank(gap)
    ensures ParseChoice(WriteBody(Table(entries, gap)) + rest) == Got(Obj(DenotesEntries(entries)), rest)
    decreases entries, 1
  {
    var inner := if entries == [] then gap else WriteEntries(entries);
    var s := WriteBody(Table(entries, gap)) + rest;
    assert WriteBody(Table(entries, gap)) == "{" + (inner + "}");
    InBrackets("{", inner, "}", rest);
    ChoiceAtBrace(s);
    assert ("}" + rest)[1..] == rest;
    hide ParseChoice, ParseMembers, WriteBody, WriteEntries;
    if entries == [] {
      CloserOnly(gap, "}", rest);
      EmptyReads('{', '}', Obj([]), gap, rest);
    } else {
      EntriesRead(entries, "}" + rest);
    }
  }

  lemma {:induction false} EntryReads(e: Entry, tail: string)
    requires EntryOk(e) && Stops(tail)
    ensures ParseMember(WriteEntry(e) + tail) == Got(KeyVal(S.Meaning(e.key), Denotes(e.doc.body)), tail)
    decreases e, 0
  {
    var text := Write(e.doc) + tail;
    var colon := e.colon + (":" + text);
    var key := S.QuotedPieces(e.key) + colon;
    EntrySplits(e, tail);
    assert (":" + text)[1..] == text;
    assert key[0] == '"';
    StopsEnds(e.doc.body, tail);
    DocReads(e.doc, tail);
    S.StringReads(e.key, colon);
    hide ParseValue, ParseString, WriteEntry, Write, S.QuotedPieces, Stops;
    BlanksSkipped(e.pad, key);
    SkipNone(key);
    BlanksSkipped(e.colon, ":" + text);
    SkipNone(":" + text);
    MemberStep(WriteEntry(e) + tail, S.Meaning(e.key), colon, Denotes(e.doc.body), tail);
  }

  lemma EntrySplits(e: Entry, tail: string)
    ensures WriteEntry(e) + tail
         == e.pad + (S.QuotedPieces(e.key) + (e.colon + (":" + (Write(e.doc) + tail))))
  {
    var key, text := S.QuotedPieces(e.key), Write(e.doc);
    assert WriteEntry(e) == e.pad + (key + (e.colon + (":" + text)));
    hide *;
    Assoc(e.pad, key + (e.colon + (":" + text)), tail);
    Assoc(key, e.colon + (":" + text), tail);
    Assoc(e.colon, ":" + text, tail);
    Assoc(":", text, tail);
  }

  lemma {:induction false} EntriesRead(entries: seq<Entry>, close: string)
    requires entries != [] && EntriesOk(entries) && (StartsWith(close, ']') || StartsWith(close, '}'))
    ensures var p := ParseMembers(WriteEntries(entries) + close);
            p.Got? && p.value == DenotesEntries(entries) && Skip(p.rest) == close
    decreases entries, 0
  {
    var e := entries[0];
    var next := if |entries| == 1 then close else "," + (WriteEntries(entries[1..]) + close);
    var kv := KeyVal(S.Meaning(e.key), Denotes(e.doc.body));
    EntriesStart(entries, close);
    assert [kv] + [] == [kv];
    AfterItem(e.after, next);
    EntryReads(e, e.after + next);
    hide ParseMembers, WriteEntries, WriteEntry, EntryOk, Skip, Stops;
    if |entries| == 1 {
      MembersStep(WriteEntries(entries) + close, kv, e.after + next, [], "");
    } else {
      EntriesRead(entries[1..], close);
      var p := ParseMembers(WriteEntries(entries[1..]) + close);
      assert next[1..] == WriteEntries(entries[1..]) + close;
      MembersStep(WriteEntries(entries) + close, kv, e.after + next, p.value, p.rest);
    }
  }

  lemma EntriesStart(entries: seq<Entry>, close: string)
    requires entries != []
    ensures WriteEntries(entries) + close
         == WriteEntry(entries[0]) + (entries[0].after
            + (if |entries| == 1 then close else "," + (WriteEntries(entries[1..]) + close)))
  {
    var text, after, more := WriteEntry(entries[0]), entries[0].after, WriteEntries(entries[1..]);
    assert WriteEntries(entries) == if |entries| == 1 then text + after else text + (after + ("," + more));
    hide *;
    if |entries| == 1 {
      Assoc(text, after, close);
    } else {
      Assoc(text, after + ("," + more), close);
      Assoc(after, "," + more, close);
      Assoc(",", more, close);
    }
  }

  // ----- what is read was written so

  lemma {:induction false} DocIsWritten(s: string) returns (d: Doc)
    requires ParseValue(s).Got?
    ensures DocOk(d) && Ends(d.body, ParseValue(s).rest) && s == Write(d) + ParseValue(s).rest
    ensures ParseValue(s).value == Denotes(d.body)
    decreases |s|, 2
  {
    var pad := SkipSplits(s);
    var b := BodyIsWritten(Skip(s));
    d := Doc(pad, b);
    Assoc(pad, WriteBody(b), ParseValue(s).rest);
    hide ParseChoice, WriteBody, BodyOk, Ends;
  }

  lemma WordIsWritten(s: string, word: string)
    requires word <= s
    ensures s == word + s[|word|..]
  {}

  lemma {:induction false} BodyIsWritten(s: string) returns (b: Body)
    requires ParseChoice(s).Got?
    ensures BodyOk(b) && Ends(b, ParseChoice(s).rest) && s == WriteBody(b) + ParseChoice(s).rest
    ensures ParseChoice(s).value == Denotes(b)
    decreases |s|, 1
  {
    hide ParseNumber, ParseString, ParseArray, ParseObject, ParseEmpty;
    if ParseNumber(s).Got? {
      var n := NumberIsSpelled(s);
      b := Number(n);
    } else if ParseBool(s).Got? {
      b := if ParseLiteral(s, "true", Bool(true)).Got? then TrueWord else FalseWord;
      WordIsWritten(s, if b.TrueWord? then "true" else "false");
    } else if ParseString(s).Got? {
      var ps := S.StringIsSpelled(s);
      b := Text(ps);
    } else if ParseObject(s).Got? {
      b := ObjectIsWritten(s);
    } else if ParseArray(s).Got? {
      b := ArrayIsWritten(s);
    } else if ParseLiteral(s, "null", Null).Got? {
      b := NullWord;
      WordIsWritten(s, "null");
    } else if ParseEmpty(s, '[', ']', Arr([])).Got? {
      var gap := EmptyIsWritten(s, '[', ']', Arr([]));
      b := List([], gap);
    } else {
      var gap := EmptyIsWritten(s, '{', '}', Obj([]));
      b := Table([], gap);
    }
  }

  lemma EmptyIsWritten(s: string, open: char, close: char, v: Value) returns (gap: string)
    requires ParseEmpty(s, open, close, v).Got?
    ensures AllBlank(gap) && s == [open] + (gap + [close]) + ParseEmpty(s, open, close, v).rest
    ensures ParseEmpty(s, open, close, v).value == v
  {
    var t := Skip(s[1..]);
    var rest := t[1..];
    FirstThenRest(s);
    FirstThenRest(t);
    assert s[0] == open && t[0] == close && ParseEmpty(s, open, close, v) == Got(v, rest);
    hide *;
    gap := SkipSplits(s[1..]);
    Assoc([open], gap + [close], rest);
    Assoc(gap, [close], rest);
  }

  lemma FirstThenRest(s: string)
    requires s != ""
    ensures s == [s[0]] + s[1..]
  {
  }

  lemma {:induction false} ArrayIsWritten(s: string) returns (b: Body)
    requires ParseArray(s).Got?
    ensures BodyOk(b) && !b.Number? && s == WriteBody(b) + ParseArray(s).rest
    ensures ParseArray(s).value == Denotes(b)
    decreases |s|, 0
  {
    var items := ItemsAreWritten(s[1..]);
    b := List(items, "");
    var t := Skip(ParseItems(s[1..]).rest);
    assert s == "[" + s[1..] && t == "]" + t[1..];
    InBrackets("[", WriteItems(items), "]", t[1..]);
    hide WriteItems, ParseItems, ItemsOk;
  }

  lemma {:induction false} ItemsAreWritten(s: string) returns (items: seq<Item>)
    requires ParseItems(s).Got? && StartsWith(Skip(ParseItems(s).rest), ']')
    ensures items != [] && ItemsOk(items) && s == WriteItems(items) + Skip(ParseItems(s).rest)
    ensures ParseItems(s).value == DenotesItems(items)
    decreases |s|, 3
  {
    var p := ParseValue(s);
    var d := DocIsWritten(s);
    var after := SkipSplits(p.rest);
    var next := Skip(p.rest);
    if StartsWith(next, ',') {
      var more := ItemsAreWritten(next[1..]);
      items := [Item(d, after)] + more;
      assert items[1..] == more && next == "," + next[1..];
      ItemsStart(items, Skip(ParseItems(s).rest));
      hide WriteItems, Write, DocOk, ParseValue;
    } else {
      items := [Item(d, after)];
      assert items[1..] == [];
      ItemsStart(items, next);
      hide WriteItems, Write, DocOk, ParseValue;
    }
  }

  lemma {:induction false} ObjectIsWritten(s: string) returns (b: Body)
    requires ParseObject(s).Got?
    ensures BodyOk(b) && !b.Number? && s == WriteBody(b) + ParseObject(s).rest
    ensures ParseObject(s).value == Denotes(b)
    decreases |s|, 0
  {
    var entries := EntriesAreWritten(s[1..]);
    b := Table(entries, "");
    var t := Skip(ParseMembers(s[1..]).rest);
    assert s == "{" + s[1..] && t == "}" + t[1..];
    InBrackets("{", WriteEntries(entries), "}", t[1..]);
    hide WriteEntries, ParseMembers, EntriesOk;
  }

  lemma {:induction false} EntryIsWritten(s: string, after: string) returns (e: Entry)
    requires ParseMember(s).Got? && AllBlank(after)
    ensures EntryOk(e) && e.after == after
    ensures s == WriteEntry(e) + ParseMember(s).rest
    ensures ParseMember(s).value == KeyVal(S.Meaning(e.key), Denotes(e.doc.body))
    decreases |s|, 3
  {
    var r := ParseString(Skip(s)).rest;
    var t := Skip(r);
    var value := ParseValue(t[1..]);
    FirstThenRest(t);
    MemberParts(s);
    hide ParseString, ParseMember, ParseValue, Write, WriteEntry, S.QuotedPieces, S.Spelled, Skip, Ends;
    var pad := SkipSplits(s);
    var key := S.StringIsSpelled(Skip(s));
    var colon := SkipSplits(r);
    var d := DocIsWritten(t[1..]);
    e := Entry(pad, key, colon, d, after);
    EntrySplits(e, value.rest);
  }

  lemma MemberParts(s: string)
    requires ParseMember(s).Got?
    ensures var key := ParseString(Skip(s));
            && key.Got? && StartsWith(Skip(key.rest), ':')
            && var value := ParseValue(Skip(key.rest)[1..]);
            && value.Got? && ParseMember(s) == Got(KeyVal(key.value, value.value), value.rest)
  {
    hide ParseString, ParseValue, Skip;
  }

  lemma {:induction false} EntriesAreWritten(s: string) returns (entries: seq<Entry>)
    requires ParseMembers(s).Got? && StartsWith(Skip(ParseMembers(s).rest), '}')
    ensures entries != [] && EntriesOk(entries) && s == WriteEntries(entries) + Skip(ParseMembers(s).rest)
    ensures ParseMembers(s).value == DenotesEntries(entries)
    decreases |s|, 4
  {
    var p := ParseMember(s);
    var after := SkipSplits(p.rest);
    var next := Skip(p.rest);
    var e := EntryIsWritten(s, after);
    if StartsWith(next, ',') {
      var more := EntriesAreWritten(next[1..]);
      entries := [e] + more;
      assert entries[1..] == more && next == "," + next[1..];
      EntriesStart(entries, Skip(ParseMembers(s).rest));
      hide WriteEntries, WriteEntry, EntryOk, ParseMember;
    } else {
      entries := [e];
      assert entries[1..] == [];
      EntriesStart(entries, next);
      hide WriteEntries, WriteEntry, EntryOk, ParseMember;
    }
  }

  /** The parser takes a value and leaves a rest exactly when the text is a document that denotes the
    * value, followed by that rest, and the rest does not go on with the document's number. */
  lemma ReadsExactlyTheDocuments(s: string, v: Value, rest: string)
    ensures ParseValue(s) == Got(v, rest)
       <==> exists d: Doc :: DocOk(d) && Ends(d.body, rest) && Denotes(d.body) == v && s == Write(d) + rest
  {
    hide ParseValue, DocOk, Ends, Denotes, Write;
    if ParseValue(s) == Got(v, rest) {
      var d := DocIsWritten(s);
      assert DocOk(d) && Ends(d.body, rest) && Denotes(d.body) == v && s == Write(d) + rest;
    }
    forall d: Doc | DocOk(d) && Ends(d.body, rest) && Denotes(d.body) == v && s == Write(d) + rest
      ensures ParseValue(s) == Got(v, rest)
    {
      DocReads(d, rest);
    }
  }

  /** `read` gives the value of a document at the start of the text. */
  lemma ReadsADocument(d: Doc, rest: string)
    requires DocOk(d) && Ends(d.body, rest)
    ensures Read(Write(d) + rest) == Got(Denotes(d.body), Skip(rest))
  {
    DocReads(d, rest);
    hide ParseValue, Write, DocOk, Denotes;
  }
}
