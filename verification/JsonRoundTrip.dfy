/** Parsing undoes printing, in either layout: exactly for the values whose strings hold
  * no quote, no live escape and only ASCII, and whose numbers are whole millionths. */
module JsonRoundTrip {
  import opened JsonValue
  import opened JsonGrammar
  import opened JsonTokens

  // ----- values

  predicate Clean(v: Value)
    decreases v
  {
    match v
    case Num(x) => WholeMillionths(x)
    case Str(s) => Printable(s)
    case Obj(keys) => CleanMembers(keys)
    case Arr(vals) => CleanItems(vals)
    case _ => true
  }

  predicate CleanItems(vals: seq<Value>)
    decreases vals
  {
    vals == [] || (Clean(vals[0]) && CleanItems(vals[1..]))
  }

  predicate CleanMembers(keys: seq<KeyVal>)
    decreases keys
  {
    keys == [] || (Printable(keys[0].key) && Clean(keys[0].val) && CleanMembers(keys[1..]))
  }

  lemma RenderStart(st: Style, v: Value)
    ensures Render(st, v) != "" && !IsSpace(Render(st, v)[0])
  {
    if v.Num? {
      NatTextDigits(RoundMillionths(Abs(v.n)) / 1000000);
    }
  }

  lemma NoNumberAt(s: string)
    requires s != "" && !IsDigit(s[0]) && s[0] != '.' && s[0] != '-' && s[0] != '+'
    ensures ParseNumber(s).Fail?
  {
    assert s[0..] == s;
  }

  predicate OpensArray(s: string) { StartsWith(s, '[') }

  predicate OpensObject(s: string) { StartsWith(s, '{') }

  predicate OpensString(s: string) { StartsWith(s, '"') }

  predicate Closes(s: string) { StartsWith(s, ']') || StartsWith(s, '}') }

  lemma ChoiceAtBracket(s: string)
    requires OpensArray(s)
    ensures ParseChoice(s) ==
            if ParseArray(s).Got? then ParseArray(s) else ParseEmpty(s, '[', ']', Arr([]))
  {
    NoNumberAt(s);
    hide ParseNumber;
  }

  lemma ChoiceAtBrace(s: string)
    requires OpensObject(s)
    ensures ParseChoice(s) ==
            if ParseObject(s).Got? then ParseObject(s) else ParseEmpty(s, '{', '}', Obj([]))
  {
    NoNumberAt(s);
    hide ParseNumber;
  }

  lemma ChoiceAtQuote(s: string)
    requires OpensString(s)
    ensures ParseChoice(s) == ParseStr(s)
  {
    NoNumberAt(s);
    hide ParseNumber;
  }

  lemma LiteralAtStart(word: string, v: Value, rest: string)
    requires word != ""
    ensures ParseLiteral(word + rest, word, v) == Got(v, rest)
  {
    assert (word + rest)[|word|..] == rest;
  }

  lemma ChoiceAtWord(s: string)
    requires StartsWith(s, 'n') || StartsWith(s, 't') || StartsWith(s, 'f')
    ensures ParseChoice(s) == if s[0] == 'n' then ParseLiteral(s, "null", Null) else ParseBool(s)
  {
    NoNumberAt(s);
    hide ParseNumber;
    assert s[0] == 'n' ==> ParseBool(s).Fail?;
    assert s[0] != 'n' ==> ParseLiteral(s, "null", Null).Fail?;
  }

  /** Printing and then parsing gives back the value and leaves the rest of the text. */
  lemma {:induction false} CleanSurvives(st: Style, v: Value, rest: string)
    requires Clean(v) && !ExtendsNumber(rest)
    ensures ParseValue(Render(st, v) + rest) == Got(v, rest)
    decreases v, 0
  {
    var s := Render(st, v) + rest;
    RenderStart(st, v);
    SkipNone(s);
    match v
    case Null => {
      ChoiceAtWord(s);
      LiteralAtStart("null", Null, rest);
    }
    case Bool(b) => {
      ChoiceAtWord(s);
      LiteralAtStart(Render(st, v), v, rest);
    }
    case Num(x) => NumberRoundTrip(x, rest);
    case Str(t) => StringRoundTrip(t, rest);
    case Arr(vals) => ArraySurvives(st, vals, rest);
    case Obj(keys) => ObjectSurvives(st, keys, rest);
  }

  // A parse looks at its text through Skip only.
  lemma ValueSkip(s: string, t: string)
    requires Skip(s) == Skip(t)
    ensures ParseValue(s) == ParseValue(t)
  {}

  lemma ItemsSkip(s: string, t: string)
    requires Skip(s) == Skip(t)
    ensures ParseItems(s) == ParseItems(t)
  {}

  lemma MembersSkip(s: string, t: string)
    requires Skip(s) == Skip(t)
    ensures ParseMembers(s) == ParseMembers(t)
  {}

  lemma ItemsStep(s: string, v: Value, r: string, vals: seq<Value>, end: string)
    requires ParseValue(s) == Got(v, r)
    ensures !StartsWith(Skip(r), ',') ==> ParseItems(s) == Got([v], r)
    ensures StartsWith(Skip(r), ',') && ParseItems(Skip(r)[1..]) == Got(vals, end)
        ==> ParseItems(s) == Got([v] + vals, end)
  {}

  lemma MembersStep(s: string, kv: KeyVal, r: string, keys: seq<KeyVal>, end: string)
    requires ParseMember(s) == Got(kv, r)
    ensures !StartsWith(Skip(r), ',') ==> ParseMembers(s) == Got([kv], r)
    ensures StartsWith(Skip(r), ',') && ParseMembers(Skip(r)[1..]) == Got(keys, end)
        ==> ParseMembers(s) == Got([kv] + keys, end)
  {}

  lemma MemberStep(s: string, key: string, colon: string, v: Value, r: string)
    requires ParseString(Skip(s)) == Got(key, colon)
    requires StartsWith(Skip(colon), ':') && ParseValue(Skip(colon)[1..]) == Got(v, r)
    ensures ParseMember(s) == Got(KeyVal(key, v), r)
  {}

  lemma NothingAtCloser(s: string)
    requires Closes(s)
    ensures ParseValue(s).Fail? && ParseItems(s).Fail? && ParseMembers(s).Fail?
  {
    SkipNone(s);
    NoNumberAt(s);
    hide ParseNumber;
    assert ParseChoice(s).Fail?;
    assert ParseMember(s).Fail?;
  }

  /** Text that ends a list: blanks and then a closing bracket. */
  ghost predicate ClosesList(s: string) {
    !ExtendsNumber(s) && Skip(s) != "" && (Skip(s)[0] == ']' || Skip(s)[0] == '}')
  }

  lemma ClosingText(pad: string, close: string, rest: string)
    requires AllSpace(pad) && (close == "]" || close == "}")
    ensures Skip(pad + (close + rest)) == close + rest
    ensures ClosesList(pad + (close + rest))
    ensures (close + rest)[1..] == rest
  {
    SkipBlanks(pad, close + rest);
  }

  lemma BracketedSplit(st: Style, open: string, body: string, close: string, rest: string)
    ensures Bracketed(st, open, body, close) + rest
         == open + (st.Newline() + (body + (st.ClosePad() + (close + rest))))
  {
    var pad := st.ClosePad() + close;
    Assoc(open, st.Newline() + (body + pad), rest);
    Assoc(st.Newline(), body + pad, rest);
    Assoc(body, pad, rest);
    Assoc(st.ClosePad(), close, rest);
  }

  /** Inside the brackets: blanks go, the entries stay, and then the list is closed. */
  lemma InsideBrackets(st: Style, open: string, body: string, close: string, rest: string)
    requires |open| == 1 && (close == "]" || close == "}")
    ensures var s := Bracketed(st, open, body, close) + rest;
            var after := st.ClosePad() + (close + rest);
            && s[0] == open[0]
            && Skip(s[1..]) == Skip(body + after)
            && ClosesList(after)
            && Skip(st.Newline() + after) == close + rest
            && (close + rest)[1..] == rest
  {
    var s := Bracketed(st, open, body, close) + rest;
    var after := st.ClosePad() + (close + rest);
    BracketedSplit(st, open, body, close, rest);
    assert s[1..] == st.Newline() + (body + after);
    PadsAreBlank(st);
    SkipBlanks(st.Newline(), body + after);
    ClosingText(st.ClosePad(), close, rest);
    SkipBlanks(st.Newline(), after);
  }

  lemma {:induction false} ArraySurvives(st: Style, vals: seq<Value>, rest: string)
    requires CleanItems(vals)
    ensures ParseChoice(Render(st, Arr(vals)) + rest) == Got(Arr(vals), rest)
    decreases vals, 1
  {
    var s := Render(st, Arr(vals)) + rest;
    hide ParseChoice, ParseItems, ParseMembers;
    if vals == [] {
      EmptyArraySurvives(rest);
    } else {
      ChoiceAtBracket(s);
      var after := st.ClosePad() + ("]" + rest);
      InsideBrackets(st, "[", RenderItems(st, vals), "]", rest);
      ItemsSurvive(st, vals, after);
      ItemsSkip(s[1..], RenderItems(st, vals) + after);
    }
  }

  lemma EmptyArraySurvives(rest: string)
    ensures ParseChoice("[]" + rest) == Got(Arr([]), rest)
  {
    var s := "[]" + rest;
    assert s[1..] == "]" + rest;
    ChoiceAtBracket(s);
    hide ParseChoice, ParseItems, ParseMembers;
    ClosingText("", "]", rest);
    NothingAtCloser("]" + rest);
  }

  lemma EmptyObjectSurvives(rest: string)
    ensures ParseChoice("{}" + rest) == Got(Obj([]), rest)
  {
    var s := "{}" + rest;
    assert s[1..] == "}" + rest;
    ChoiceAtBrace(s);
    hide ParseChoice, ParseItems, ParseMembers;
    ClosingText("", "}", rest);
    NothingAtCloser("}" + rest);
  }

  lemma {:induction false} ObjectSurvives(st: Style, keys: seq<KeyVal>, rest: string)
    requires CleanMembers(keys)
    ensures ParseChoice(Render(st, Obj(keys)) + rest) == Got(Obj(keys), rest)
    decreases keys, 1
  {
    var s := Render(st, Obj(keys)) + rest;
    hide ParseChoice, ParseItems, ParseMembers;
    if keys == [] {
      EmptyObjectSurvives(rest);
    } else {
      ChoiceAtBrace(s);
      var after := st.ClosePad() + ("}" + rest);
      InsideBrackets(st, "{", RenderMembers(st, keys), "}", rest);
      MembersSurvive(st, keys, after);
      MembersSkip(s[1..], RenderMembers(st, keys) + after);
    }
  }

  /** What follows one list entry: the separator, the later entries, and the closing text. */
  function Tail(st: Style, last: bool, more: string, close: string): string {
    st.Separator(last) + (more + close)
  }

  lemma NumbersEndAt(nl: string, close: string)
    requires (nl == "" || nl == "\n") && !ExtendsNumber(close)
    ensures !ExtendsNumber(nl + close)
  {
    assert nl == "" ==> nl + close == close;
    assert nl != "" ==> (nl + close)[0] == nl[0];
  }

  lemma LastTail(st: Style, close: string)
    requires ClosesList(close)
    ensures var tail := Tail(st, true, "", close);
            tail == st.Newline() + close && !ExtendsNumber(tail) && !StartsWith(Skip(tail), ',')
  {
    assert "" + close == close && "" + st.Newline() == st.Newline();
    assert Tail(st, true, "", close) == st.Newline() + close;
    assert !ExtendsNumber(close) && !StartsWith(Skip(close), ',');
    assert st.Newline() == "" || st.Newline() == "\n";
    PadsAreBlank(st);
    hide *;
    SkipBlanks(st.Newline(), close);
    NumbersEndAt(st.Newline(), close);
  }

  lemma CommaTail(st: Style, more: string, close: string)
    ensures var tail := Tail(st, false, more, close);
            tail != "" && !ExtendsNumber(tail) && StartsWith(Skip(tail), ',') && Skip(tail) == tail
            && Skip(tail[1..]) == Skip(more + close)
  {
    PadsAreBlank(st);
    hide Skip, AllSpace;
    AfterComma(st.Newline(), more + close);
    SkipBlanks(st.Newline(), more + close);
  }

  lemma AfterComma(nl: string, rest: string)
    ensures var tail := ("," + nl) + rest;
            tail != "" && !ExtendsNumber(tail) && StartsWith(tail, ',') && Skip(tail) == tail && tail[1..] == nl + rest
  {
    Assoc(",", nl, rest);
    assert ("," + (nl + rest))[1..] == nl + rest;
  }

  lemma TailSkips(st: Style, last: bool, more: string, close: string)
    requires ClosesList(close) && (last ==> more == "")
    ensures var tail := Tail(st, last, more, close);
            && !ExtendsNumber(tail)
            && (last ==> tail == st.Newline() + close && !StartsWith(Skip(tail), ','))
            && (!last ==> tail != "" && Skip(tail) == tail && StartsWith(Skip(tail), ',')
                          && Skip(tail[1..]) == Skip(more + close))
  {
    hide *;
    if last {
      LastTail(st, close);
    } else {
      CommaTail(st, more, close);
    }
  }

  lemma ItemsSplit(st: Style, vals: seq<Value>, close: string)
    requires vals != []
    ensures Skip(RenderItems(st, vals) + close)
         == Render(st.Inner(), vals[0]) + Tail(st, |vals| == 1, RenderItems(st, vals[1..]), close)
  {
    var first, more := Render(st.Inner(), vals[0]), RenderItems(st, vals[1..]);
    var sep := st.Separator(|vals| == 1);
    Assoc(st.ItemPad() + first, sep + more, close);
    Assoc(sep, more, close);
    Assoc(st.ItemPad(), first, sep + (more + close));
    PadsAreBlank(st);
    SkipBlanks(st.ItemPad(), first + (sep + (more + close)));
    RenderStart(st.Inner(), vals[0]);
    SkipNone(first + (sep + (more + close)));
  }

  lemma ItemFirst(st: Style, vals: seq<Value>, close: string, tail: string)
    requires vals != []
    requires tail == Tail(st, |vals| == 1, RenderItems(st, vals[1..]), close)
    ensures ParseValue(RenderItems(st, vals) + close) == ParseValue(Render(st.Inner(), vals[0]) + tail)
  {
    hide ParseChoice;
    ItemsSplit(st, vals, close);
    RenderStart(st.Inner(), vals[0]);
    SkipNone(Render(st.Inner(), vals[0]) + tail);
    ValueSkip(RenderItems(st, vals) + close, Render(st.Inner(), vals[0]) + tail);
  }

  lemma ItemsFromFirst(st: Style, vals: seq<Value>, close: string, tail: string)
    requires vals != [] && ClosesList(close)
    requires tail == Tail(st, |vals| == 1, RenderItems(st, vals[1..]), close)
    requires ParseValue(RenderItems(st, vals) + close) == Got(vals[0], tail)
    requires |vals| > 1 ==> ParseItems(RenderItems(st, vals[1..]) + close) == Got(vals[1..], st.Newline() + close)
    ensures ParseItems(RenderItems(st, vals) + close) == Got(vals, st.Newline() + close)
  {
    if |vals| == 1 {
      assert vals == [vals[0]] && RenderItems(st, vals[1..]) == "";
      hide *;
      TailSkips(st, true, "", close);
      ItemsStep(RenderItems(st, vals) + close, vals[0], tail, [], "");
    } else {
      assert vals == [vals[0]] + vals[1..];
      hide *;
      TailSkips(st, false, RenderItems(st, vals[1..]), close);
      ItemsSkip(tail[1..], RenderItems(st, vals[1..]) + close);
      ItemsStep(RenderItems(st, vals) + close, vals[0], tail, vals[1..], st.Newline() + close);
    }
  }

  lemma {:induction false} ItemsSurvive(st: Style, vals: seq<Value>, close: string)
    requires vals != [] && CleanItems(vals) && ClosesList(close)
    ensures ParseItems(RenderItems(st, vals) + close) == Got(vals, st.Newline() + close)
    decreases vals, 0
  {
    hide ParseChoice;
    var more := RenderItems(st, vals[1..]);
    TailSkips(st, |vals| == 1, more, close);
    var tail := Tail(st, |vals| == 1, more, close);
    CleanSurvives(st.Inner(), vals[0], tail);
    if |vals| > 1 {
      ItemsSurvive(st, vals[1..], close);
    }
    ItemFirst(st, vals, close, tail);
    ItemsFromFirst(st, vals, close, tail);
  }

  lemma MembersSplit(st: Style, keys: seq<KeyVal>, close: string)
    requires keys != []
    ensures Skip(RenderMembers(st, keys) + close)
         == Quoted(keys[0].key) + (":" + (Render(st.Inner(), keys[0].val)
            + Tail(st, |keys| == 1, RenderMembers(st, keys[1..]), close)))
  {
    var key, val := Quoted(keys[0].key), Render(st.Inner(), keys[0].val);
    var more, sep := RenderMembers(st, keys[1..]), st.Separator(|keys| == 1);
    var tail := sep + (more + close);
    Assoc(RenderMember(st, keys[0]), sep + more, close);
    Assoc(sep, more, close);
    Assoc(st.KeyPad(), key + (":" + val), tail);
    Assoc(key, ":" + val, tail);
    Assoc(":", val, tail);
    PadsAreBlank(st);
    SkipBlanks(st.KeyPad(), key + (":" + (val + tail)));
    SkipNone(key + (":" + (val + tail)));
  }

  lemma MemberFirst(st: Style, keys: seq<KeyVal>, close: string, tail: string)
    requires keys != [] && Printable(keys[0].key)
    requires tail == Tail(st, |keys| == 1, RenderMembers(st, keys[1..]), close)
    requires ParseValue(Render(st.Inner(), keys[0].val) + tail) == Got(keys[0].val, tail)
    ensures ParseMember(RenderMembers(st, keys) + close) == Got(keys[0], tail)
  {
    hide ParseChoice;
    var colon := ":" + (Render(st.Inner(), keys[0].val) + tail);
    MembersSplit(st, keys, close);
    StringRoundTrip(keys[0].key, colon);
    SkipNone(colon);
    assert colon[1..] == Render(st.Inner(), keys[0].val) + tail;
    MemberStep(RenderMembers(st, keys) + close, keys[0].key, colon, keys[0].val, tail);
  }

  lemma MembersFromFirst(st: Style, keys: seq<KeyVal>, close: string, tail: string)
    requires keys != [] && ClosesList(close)
    requires tail == Tail(st, |keys| == 1, RenderMembers(st, keys[1..]), close)
    requires ParseMember(RenderMembers(st, keys) + close) == Got(keys[0], tail)
    requires |keys| > 1 ==> ParseMembers(RenderMembers(st, keys[1..]) + close) == Got(keys[1..], st.Newline() + close)
    ensures ParseMembers(RenderMembers(st, keys) + close) == Got(keys, st.Newline() + close)
  {
    if |keys| == 1 {
      assert keys == [keys[0]] && RenderMembers(st, keys[1..]) == "";
      hide *;
      TailSkips(st, true, "", close);
      MembersStep(RenderMembers(st, keys) + close, keys[0], tail, [], "");
    } else {
      assert keys == [keys[0]] + keys[1..];
      hide *;
      TailSkips(st, false, RenderMembers(st, keys[1..]), close);
      MembersSkip(tail[1..], RenderMembers(st, keys[1..]) + close);
      MembersStep(RenderMembers(st, keys) + close, keys[0], tail, keys[1..], st.Newline() + close);
    }
  }

  lemma {:induction false} MembersSurvive(st: Style, keys: seq<KeyVal>, close: string)
    requires keys != [] && CleanMembers(keys) && ClosesList(close)
    ensures ParseMembers(RenderMembers(st, keys) + close) == Got(keys, st.Newline() + close)
    decreases keys, 0
  {
    hide ParseChoice;
    var more := RenderMembers(st, keys[1..]);
    TailSkips(st, |keys| == 1, more, close);
    var tail := Tail(st, |keys| == 1, more, close);
    CleanSurvives(st.Inner(), keys[0].val, tail);
    if |keys| > 1 {
      MembersSurvive(st, keys[1..], close);
    }
    MemberFirst(st, keys, close, tail);
    MembersFromFirst(st, keys, close, tail);
  }

  // ----- and only clean values survive

  lemma {:induction false} SurvivorIsClean(st: Style, v: Value, rest: string)
    requires !ExtendsNumber(rest)
    requires ParseValue(Render(st, v) + rest).Got? && ParseValue(Render(st, v) + rest).value == v
    ensures Clean(v)
    decreases v, 0
  {
    var s := Render(st, v) + rest;
    RenderStart(st, v);
    SkipNone(s);
    match v
    case Num(x) => NumberRoundTrip(x, rest);
    case Str(t) => {
      StringRoundTrip(t, rest);
      ChoiceAtQuote(s);
    }
    case Arr(vals) => {
      ChoiceAtBracket(s);
      if vals != [] {
        var after := st.ClosePad() + ("]" + rest);
        InsideBrackets(st, "[", RenderItems(st, vals), "]", rest);
        ItemsSkip(s[1..], RenderItems(st, vals) + after);
        SurvivingItemsAreClean(st, vals, after);
      }
    }
    case Obj(keys) => {
      ChoiceAtBrace(s);
      if keys != [] {
        var after := st.ClosePad() + ("}" + rest);
        InsideBrackets(st, "{", RenderMembers(st, keys), "}", rest);
        MembersSkip(s[1..], RenderMembers(st, keys) + after);
        SurvivingMembersAreClean(st, keys, after);
      }
    }
    case _ =>
  }

  lemma {:induction false} SurvivingItemsAreClean(st: Style, vals: seq<Value>, close: string)
    requires vals != [] && ClosesList(close)
    requires ParseItems(RenderItems(st, vals) + close).Got?
    requires ParseItems(RenderItems(st, vals) + close).value == vals
    ensures CleanItems(vals)
    decreases vals, 0
  {
    var s, more := RenderItems(st, vals) + close, RenderItems(st, vals[1..]);
    var tail := Tail(st, |vals| == 1, more, close);
    ItemFirst(st, vals, close, tail);
    TailSkips(st, |vals| == 1, more, close);
    assert ParseValue(s).value == vals[0];
    SurvivorIsClean(st.Inner(), vals[0], tail);
    CleanSurvives(st.Inner(), vals[0], tail);
    if |vals| > 1 {
      ItemsSkip(tail[1..], more + close);
      assert vals[1..] == ParseItems(tail[1..]).value;
      SurvivingItemsAreClean(st, vals[1..], close);
    }
  }

  lemma {:induction false} SurvivingMembersAreClean(st: Style, keys: seq<KeyVal>, close: string)
    requires keys != [] && ClosesList(close)
    requires ParseMembers(RenderMembers(st, keys) + close).Got?
    requires ParseMembers(RenderMembers(st, keys) + close).value == keys
    ensures CleanMembers(keys)
    decreases keys, 0
  {
    var s, more := RenderMembers(st, keys) + close, RenderMembers(st, keys[1..]);
    var tail := Tail(st, |keys| == 1, more, close);
    var colon := ":" + (Render(st.Inner(), keys[0].val) + tail);
    MembersSplit(st, keys, close);
    TailSkips(st, |keys| == 1, more, close);
    StringRoundTrip(keys[0].key, colon);
    assert ParseMember(s).value == keys[0];
    assert colon[1..] == Render(st.Inner(), keys[0].val) + tail;
    SurvivorIsClean(st.Inner(), keys[0].val, tail);
    CleanSurvives(st.Inner(), keys[0].val, tail);
    if |keys| > 1 {
      MembersSkip(tail[1..], more + close);
      assert keys[1..] == ParseMembers(tail[1..]).value;
      SurvivingMembersAreClean(st, keys[1..], close);
    }
  }

  /** The parser undoes the printer, compact or pretty, on exactly the clean values. */
  lemma RoundTrip(st: Style, v: Value, rest: string)
    requires !ExtendsNumber(rest)
    ensures ParseValue(Render(st, v) + rest) == Got(v, rest) <==> Clean(v)
  {
    if Clean(v) {
      CleanSurvives(st, v, rest);
    }
    if ParseValue(Render(st, v) + rest) == Got(v, rest) {
      SurvivorIsClean(st, v, rest);
    }
  }

  /** `read` of a printed value gives it back exactly when it is clean. */
  lemma ReadUndoesPrint(st: Style, v: Value)
    ensures Read(Render(st, v)) == Got(v, "") <==> Clean(v)
  {
    assert Render(st, v) + "" == Render(st, v);
    RoundTrip(st, v, "");
    if Read(Render(st, v)) == Got(v, "") {
      SurvivorIsClean(st, v, "");
    }
  }
}
