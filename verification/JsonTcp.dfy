/** The TCP connection: values written one after another, framed, parsed and received. */
module JsonTcp {
  import opened JsonValue
  import opened JsonGrammar
  import opened JsonPretty
  import opened JsonRoundTrip
  import opened JsonTokens
  import opened Framer
  import Rpc

  // ----- printed text seen by the framer

  /** Depth never falls below d. */
  predicate AtLeast(p: Pos, s: string, d: int)
    decreases |s|
  {
    s == "" || (Move(p, s[0]).depth >= d && AtLeast(Move(p, s[0]), s[1..], d))
  }

  /** Text that leaves depth d as it found it and never goes below it. */
  predicate Level(d: int, s: string) {
    AtLeast(Pos(d, false), s, d) && MoveAll(Pos(d, false), s) == Pos(d, false)
  }

  lemma {:induction false} AtLeastAppend(p: Pos, a: string, b: string, d: int)
    ensures AtLeast(p, a + b, d) <==> AtLeast(p, a, d) && AtLeast(MoveAll(p, a), b, d)
    decreases |a|
  {
    if a == "" {
      assert a + b == b;
    } else {
      assert (a + b)[1..] == a[1..] + b;
      AtLeastAppend(Move(p, a[0]), a[1..], b, d);
    }
  }

  lemma LevelAppend(d: int, a: string, b: string)
    requires Level(d, a) && Level(d, b)
    ensures Level(d, a + b)
  {
    AtLeastAppend(Pos(d, false), a, b, d);
    MoveAppend(Pos(d, false), a, b);
  }

  /** Text in which the depth never changes. */
  predicate Flat(p: Pos, s: string)
    decreases |s|
  {
    s == "" || (Move(p, s[0]).depth == p.depth && Flat(Move(p, s[0]), s[1..]))
  }

  lemma {:induction false} FlatKeepsDepth(p: Pos, s: string, d: int)
    requires Flat(p, s)
    ensures MoveAll(p, s).depth == p.depth
    ensures d <= p.depth ==> AtLeast(p, s, d)
    ensures p.depth <= 0 ==> Outside(p, s)
    decreases |s|
  {
    if s != "" {
      FlatKeepsDepth(Move(p, s[0]), s[1..], d);
    }
  }

  predicate Plain(s: string) {
    s == "" || (s[0] !in "{}[]\"" && Plain(s[1..]))
  }

  lemma {:induction false} PlainAppend(a: string, b: string)
    requires Plain(a) && Plain(b)
    ensures Plain(a + b)
  {
    if a == "" {
      assert a + b == b;
    } else {
      assert (a + b)[1..] == a[1..] + b;
      PlainAppend(a[1..], b);
    }
  }

  lemma {:induction false} PlainIsFlat(d: int, s: string)
    requires Plain(s)
    ensures Flat(Pos(d, false), s) && MoveAll(Pos(d, false), s) == Pos(d, false)
  {
    if s != "" {
      PlainIsFlat(d, s[1..]);
    }
  }

  lemma {:induction false} BlanksArePlain(s: string)
    requires AllSpace(s)
    ensures Plain(s)
  {
    if s != "" {
      assert IsSpace(s[0]) && AllSpace(s[1..]);
      BlanksArePlain(s[1..]);
    }
  }

  lemma {:induction false} DigitsArePlain(s: string)
    requires AllDigits(s)
    ensures Plain(s)
  {
    if s != "" {
      DigitsArePlain(s[1..]);
    }
  }

  lemma NumTextIsPlain(x: real)
    ensures Plain(NumText(x))
  {
    var m := RoundMillionths(Abs(x));
    var sign := if x < 0.0 then "-" else "";
    var whole, decimals := NatText(m / 1000000), PaddedText(m % 1000000, 6);
    NatTextDigits(m / 1000000);
    PaddedTextDigits(m % 1000000, 6);
    DigitsArePlain(whole);
    DigitsArePlain(decimals);
    PlainAppend(sign, whole);
    PlainAppend(sign + whole, ".");
    PlainAppend(sign + whole + ".", decimals);
  }

  lemma {:induction false} InsideQuotesIsFlat(d: int, s: string)
    requires NoQuote(s)
    ensures Flat(Pos(d, true), s + "\"") && MoveAll(Pos(d, true), s + "\"") == Pos(d, false)
  {
    var t := s + "\"";
    if s != "" {
      assert t[1..] == s[1..] + "\"" && s[0] in s && NoQuote(s[1..]);
      InsideQuotesIsFlat(d, s[1..]);
    } else {
      assert t[1..] == "";
    }
  }

  lemma QuotedIsFlat(d: int, s: string)
    requires NoQuote(s)
    ensures Flat(Pos(d, false), Quoted(s)) && MoveAll(Pos(d, false), Quoted(s)) == Pos(d, false)
  {
    InsideQuotesIsFlat(d, s);
    assert Quoted(s)[1..] == s + "\"";
  }

  predicate IsContainer(v: Value) {
    v.Obj? || v.Arr?
  }

  lemma ScalarIsFlat(st: Style, v: Value, d: int)
    requires NoQuotes(v) && !IsContainer(v)
    ensures Flat(Pos(d, false), Render(st, v)) && MoveAll(Pos(d, false), Render(st, v)) == Pos(d, false)
  {
    match v
    case Str(s) => QuotedIsFlat(d, s);
    case Num(x) => NumTextIsPlain(x); PlainIsFlat(d, NumText(x));
    case Bool(b) => WordIsPlain(Render(st, v)); PlainIsFlat(d, Render(st, v));
    case Null => WordIsPlain("null"); PlainIsFlat(d, "null");
    case _ => {}
  }

  lemma WordIsPlain(s: string)
    requires s == "null" || s == "true" || s == "false"
    ensures Plain(s)
  {
    PlainChars(s);
  }

  lemma {:induction false} PlainChars(s: string)
    requires forall i :: 0 <= i < |s| ==> s[i] !in "{}[]\""
    ensures Plain(s)
  {
    if s != "" {
      PlainChars(s[1..]);
    }
  }

  lemma FlatIsLevel(d: int, s: string)
    requires Flat(Pos(d, false), s) && !MoveAll(Pos(d, false), s).quote
    ensures Level(d, s)
  {
    FlatKeepsDepth(Pos(d, false), s, d);
  }

  lemma PlainIsLevel(d: int, s: string)
    requires Plain(s)
    ensures Level(d, s)
  {
    PlainIsFlat(d, s);
    FlatIsLevel(d, s);
  }

  lemma {:induction false} AtLeastIsInside(p: Pos, s: string, d: int)
    requires AtLeast(p, s, d) && d > 0
    ensures Inside(p, s)
    decreases |s|
  {
    if s != "" {
      AtLeastIsInside(Move(p, s[0]), s[1..], d);
    }
  }

  lemma {:induction false} AtLeastWeaken(p: Pos, s: string, d: int, e: int)
    requires AtLeast(p, s, d) && e <= d
    ensures AtLeast(p, s, e)
    decreases |s|
  {
    if s != "" {
      AtLeastWeaken(Move(p, s[0]), s[1..], d, e);
    }
  }

  lemma BracketsLevel(d: int, open: string, body: string, close: string)
    requires (open == "{" && close == "}") || (open == "[" && close == "]")
    requires Level(d + 1, body)
    ensures Level(d, open + (body + close))
    ensures d == 0 ==> IsFrame(open + (body + close))
  {
    var s := open + (body + close);
    assert s[1..] == body + close;
    AtLeastWeaken(Pos(d + 1, false), body, d + 1, d);
    AtLeastAppend(Pos(d + 1, false), body, close, d);
    MoveAppend(Pos(d + 1, false), body, close);
    assert close[1..] == "";
    if d == 0 {
      AtLeastIsInside(Pos(1, false), body, 1);
      assert s[..|s| - 1] == open + body;
      assert (open + body)[1..] == body;
    }
  }

  lemma BracketedIsBrackets(st: Style, open: string, body: string, close: string)
    ensures Bracketed(st, open, body, close) == open + ((st.Newline() + (body + st.ClosePad())) + close)
  {
    Assoc(st.Newline(), body + st.ClosePad(), close);
    Assoc(body, st.ClosePad(), close);
  }

  lemma BodyLevel(st: Style, body: string, d: int)
    requires Level(d, body)
    ensures Level(d, st.Newline() + (body + st.ClosePad()))
  {
    BlanksArePlain(st.ClosePad());
    BlanksArePlain(st.Newline());
    PlainIsLevel(d, st.ClosePad());
    PlainIsLevel(d, st.Newline());
    LevelAppend(d, body, st.ClosePad());
    LevelAppend(d, st.Newline(), body + st.ClosePad());
  }

  lemma {:induction false} RenderLevel(st: Style, v: Value, d: int)
    requires NoQuotes(v)
    ensures Level(d, Render(st, v))
    ensures d == 0 && IsContainer(v) ==> IsFrame(Render(st, v))
    decreases v, 0
  {
    match v
    case Arr(vals) =>
      if vals == [] {
        BracketsLevel(d, "[", "", "]");
        assert "[" + ("" + "]") == "[]";
      } else {
        ItemsLevel(st, vals, d + 1);
        BodyLevel(st, RenderItems(st, vals), d + 1);
        BracketedIsBrackets(st, "[", RenderItems(st, vals), "]");
        BracketsLevel(d, "[", st.Newline() + (RenderItems(st, vals) + st.ClosePad()), "]");
      }
    case Obj(keys) =>
      if keys == [] {
        BracketsLevel(d, "{", "", "}");
        assert "{" + ("" + "}") == "{}";
      } else {
        MembersLevel(st, keys, d + 1);
        BodyLevel(st, RenderMembers(st, keys), d + 1);
        BracketedIsBrackets(st, "{", RenderMembers(st, keys), "}");
        BracketsLevel(d, "{", st.Newline() + (RenderMembers(st, keys) + st.ClosePad()), "}");
      }
    case _ =>
      ScalarIsFlat(st, v, d);
      FlatIsLevel(d, Render(st, v));
  }

  lemma SeparatorLevel(st: Style, last: bool, d: int)
    ensures Level(d, st.Separator(last))
  {
    var comma := if last then "" else ",";
    BlanksArePlain(st.Newline());
    PlainAppend(comma, st.Newline());
    PlainIsLevel(d, st.Separator(last));
  }

  lemma {:induction false} ItemsLevel(st: Style, vals: seq<Value>, d: int)
    requires NoQuotesInItems(vals)
    ensures Level(d, RenderItems(st, vals))
    decreases vals
  {
    if vals != [] {
      RenderLevel(st.Inner(), vals[0], d);
      BlanksArePlain(st.ItemPad());
      PlainIsLevel(d, st.ItemPad());
      LevelAppend(d, st.ItemPad(), Render(st.Inner(), vals[0]));
      SeparatorLevel(st, |vals| == 1, d);
      ItemsLevel(st, vals[1..], d);
      LevelAppend(d, st.Separator(|vals| == 1), RenderItems(st, vals[1..]));
      LevelAppend(d, RenderItem(st, vals[0]), st.Separator(|vals| == 1) + RenderItems(st, vals[1..]));
    }
  }

  lemma {:induction false} MembersLevel(st: Style, keys: seq<KeyVal>, d: int)
    requires NoQuotesInMembers(keys)
    ensures Level(d, RenderMembers(st, keys))
    decreases keys
  {
    if keys != [] {
      RenderLevel(st.Inner(), keys[0].val, d);
      MemberLevel(st, keys[0], d);
      SeparatorLevel(st, |keys| == 1, d);
      MembersLevel(st, keys[1..], d);
      LevelAppend(d, st.Separator(|keys| == 1), RenderMembers(st, keys[1..]));
      LevelAppend(d, RenderMember(st, keys[0]), st.Separator(|keys| == 1) + RenderMembers(st, keys[1..]));
    }
  }

  lemma MemberLevel(st: Style, kv: KeyVal, d: int)
    requires NoQuote(kv.key) && Level(d, Render(st.Inner(), kv.val))
    ensures Level(d, RenderMember(st, kv))
  {
    BlanksArePlain(st.KeyPad());
    PlainIsLevel(d, st.KeyPad());
    assert Plain(":");
    PlainIsLevel(d, ":");
    QuotedIsFlat(d, kv.key);
    FlatIsLevel(d, Quoted(kv.key));
    LevelAppend(d, ":", Render(st.Inner(), kv.val));
    LevelAppend(d, Quoted(kv.key), ":" + Render(st.Inner(), kv.val));
    LevelAppend(d, st.KeyPad(), Quoted(kv.key) + (":" + Render(st.Inner(), kv.val)));
  }

  // ----- a stream of printed values

  function Stream(vs: seq<Value>): string {
    if vs == [] then "" else CompactText(vs[0]) + Stream(vs[1..])
  }

  function Containers(vs: seq<Value>): seq<Value> {
    if vs == [] then []
    else if IsContainer(vs[0]) then [vs[0]] + Containers(vs[1..]) else Containers(vs[1..])
  }

  function FramesOf(vs: seq<Value>): seq<string> {
    if vs == [] then []
    else if IsContainer(vs[0]) then [CompactText(vs[0])] + FramesOf(vs[1..]) else FramesOf(vs[1..])
  }

  predicate AllNoQuotes(vs: seq<Value>) {
    vs == [] || (NoQuotes(vs[0]) && AllNoQuotes(vs[1..]))
  }

  lemma OneText(done: seq<string>, v: Value)
    requires NoQuotes(v)
    ensures Run(Start.(frames := done), CompactText(v))
         == Start.(frames := if IsContainer(v) then done + [CompactText(v)] else done)
  {
    if IsContainer(v) {
      RenderLevel(Compact, v, 0);
      RunFrame(done, CompactText(v));
    } else {
      ScalarIsFlat(Compact, v, 0);
      FlatKeepsDepth(Pos(0, false), CompactText(v), 0);
      RunGap(Start.(frames := done), CompactText(v));
    }
  }

  /** Re-framing a stream of printed values: each object or array is one frame, scalars are
    * dropped, and the scan ends as it began. */
  lemma {:induction false} StreamFrames(done: seq<string>, vs: seq<Value>)
    requires AllNoQuotes(vs)
    ensures Run(Start.(frames := done), Stream(vs)) == Start.(frames := done + FramesOf(vs))
    decreases vs
  {
    if vs == [] {
      assert done + FramesOf(vs) == done;
    } else {
      var text, done' := CompactText(vs[0]), if IsContainer(vs[0]) then done + [CompactText(vs[0])] else done;
      OneText(done, vs[0]);
      hide CompactText, NoQuotes, Run;
      RunAppend(Start.(frames := done), text, Stream(vs[1..]));
      StreamFrames(done', vs[1..]);
      assert done' + FramesOf(vs[1..]) == done + FramesOf(vs) by {
        assert done + [text] + FramesOf(vs[1..]) == done + ([text] + FramesOf(vs[1..]));
      }
    }
  }

  lemma {:induction false} StreamAppend(a: seq<Value>, b: seq<Value>)
    ensures Stream(a + b) == Stream(a) + Stream(b)
    decreases |a|
  {
    hide CompactText;
    if a == [] {
      assert a + b == b;
    } else {
      assert (a + b)[1..] == a[1..] + b && (a + b)[0] == a[0];
      StreamAppend(a[1..], b);
      assert CompactText(a[0]) + (Stream(a[1..]) + Stream(b)) == CompactText(a[0]) + Stream(a[1..]) + Stream(b);
    }
  }

  /** What the loop makes of the frames: each is read and handed over; the first that cannot be
    * read, or whose value `on_receive` refuses, ends it. */
  datatype Delivery = Delivery(values: seq<Value>, threw: bool)

  function Deliver(frames: seq<string>): Delivery {
    if frames == [] then Delivery([], false)
    else
      var p := Read(frames[0]);
      if p.Fail? then Delivery([], true)
      else if !Rpc.Accepted(p.value) then Delivery([p.value], true)
      else
        var d := Deliver(frames[1..]);
        d.(values := [p.value] + d.values)
  }

  /** By index: every value handed over is its frame's, each but the last is one that is taken, and the
    * loop throws exactly when the last is not, or the frame after it cannot be read. */
  lemma {:induction false} DeliverByIndex(frames: seq<string>)
    ensures var d, n := Deliver(frames), |Deliver(frames).values|;
            && n <= |frames|
            && (forall i :: 0 <= i < n ==> Read(frames[i]).Got? && Read(frames[i]).value == d.values[i])
            && (forall i :: 0 <= i < n - 1 ==> Rpc.Accepted(d.values[i]))
            && (d.threw <==>
                  || (n > 0 && !Rpc.Accepted(d.values[n - 1]))
                  || (n < |frames| && Read(frames[n]).Fail?))
            && (n < |frames| ==> d.threw)
  {
    hide Read, Rpc.Accepted;
    if frames != [] {
      DeliverByIndex(frames[1..]);
      assert forall i :: 0 < i < |frames| ==> frames[i] == frames[1..][i - 1];
    }
  }

  lemma {:induction false} DeliverAppend(a: seq<string>, b: seq<string>)
    ensures Deliver(a + b) == if Deliver(a).threw then Deliver(a)
                              else Delivery(Deliver(a).values + Deliver(b).values, Deliver(b).threw)
  {
    hide Read, Rpc.Accepted;
    if a == [] {
      assert a + b == b;
    } else {
      assert (a + b)[1..] == a[1..] + b;
      DeliverAppend(a[1..], b);
    }
  }

  predicate AllAccepted(vs: seq<Value>) {
    vs == [] || (Rpc.Accepted(vs[0]) && AllAccepted(vs[1..]))
  }

  /** The messages up to the first refused one, and that one. */
  function UpToRefused(vs: seq<Value>): seq<Value> {
    if vs == [] then []
    else if Rpc.Accepted(vs[0]) then [vs[0]] + UpToRefused(vs[1..]) else [vs[0]]
  }

  lemma {:induction false} AllUpToRefused(vs: seq<Value>)
    requires AllAccepted(vs)
    ensures UpToRefused(vs) == vs
  {
    if vs != [] {
      AllUpToRefused(vs[1..]);
    }
  }

  predicate AllClean(vs: seq<Value>) {
    vs == [] || (Clean(vs[0]) && AllClean(vs[1..]))
  }

  lemma {:induction false} PrintableNoQuote(s: string)
    requires Printable(s)
    ensures NoQuote(s)
  {
    if s != "" {
      PrintableNoQuote(s[1..]);
    }
  }

  lemma {:induction false} CleanNoQuotes(v: Value)
    requires Clean(v)
    ensures NoQuotes(v)
    decreases v
  {
    match v
    case Str(s) => PrintableNoQuote(s);
    case Arr(vals) => CleanItemsNoQuotes(vals);
    case Obj(keys) => CleanMembersNoQuotes(keys);
    case _ =>
  }

  lemma {:induction false} CleanItemsNoQuotes(vals: seq<Value>)
    requires CleanItems(vals)
    ensures NoQuotesInItems(vals)
    decreases vals
  {
    if vals != [] {
      CleanNoQuotes(vals[0]);
      CleanItemsNoQuotes(vals[1..]);
    }
  }

  lemma {:induction false} CleanMembersNoQuotes(keys: seq<KeyVal>)
    requires CleanMembers(keys)
    ensures NoQuotesInMembers(keys)
    decreases keys
  {
    if keys != [] {
      PrintableNoQuote(keys[0].key);
      CleanNoQuotes(keys[0].val);
      CleanMembersNoQuotes(keys[1..]);
    }
  }

  lemma {:induction false} FramesDeliver(vs: seq<Value>)
    requires AllClean(vs)
    ensures AllNoQuotes(vs)
    ensures Deliver(FramesOf(vs)) == Delivery(UpToRefused(Containers(vs)), !AllAccepted(Containers(vs)))
  {
    hide Clean, NoQuotes, Rpc.Accepted, CompactText, Read;
    if vs != [] {
      CleanNoQuotes(vs[0]);
      FramesDeliver(vs[1..]);
      if IsContainer(vs[0]) {
        ReadCompact(vs[0]);
        assert FramesOf(vs)[1..] == FramesOf(vs[1..]) && Containers(vs)[1..] == Containers(vs[1..]);
      }
    }
  }

  lemma ReadCompact(v: Value)
    requires Clean(v)
    ensures Read(CompactText(v)) == Got(v, "")
  {
    ReadUndoesPrint(Compact, v);
  }

  /** End to end: of clean values sent one after another on one stream, the objects and arrays
    * arrive in order up to the first that `on_receive` refuses, and all of them, with no exception,
    * exactly when none is refused; the framer is left in its start state. */
  lemma EndToEnd(vs: seq<Value>)
    requires AllClean(vs)
    ensures Run(Start, Stream(vs)) == Start.(frames := FramesOf(vs))
    ensures var d := Deliver(Run(Start, Stream(vs)).frames);
            && d == Delivery(UpToRefused(Containers(vs)), !AllAccepted(Containers(vs)))
            && (d == Delivery(Containers(vs), false) <==> AllAccepted(Containers(vs)))
  {
    hide Deliver, AllClean, Run;
    FramesDeliver(vs);
    StreamFrames([], vs);
    assert Start.(frames := []) == Start && [] + FramesOf(vs) == FramesOf(vs);
    if AllAccepted(Containers(vs)) {
      AllUpToRefused(Containers(vs));
    }
  }

  /** An array is clean and framed, but `on_receive` refuses it: what follows it is never read. */
  lemma ArrayEndsTheLoop()
    ensures var vs := [Arr([]), Obj([])];
            AllClean(vs) && Containers(vs) == vs && Deliver(FramesOf(vs)) == Delivery([Arr([])], true)
  {
    var vs := [Arr([]), Obj([])];
    assert vs[1..] == [Obj([])] && [Obj([])][1..] == [];
    assert Clean(Arr([])) && Clean(Obj([]));
    hide Deliver, CompactText, Clean, FramesOf;
    assert Containers([Obj([])]) == [Obj([])] + Containers([]);
    assert Containers(vs) == [Arr([])] + [Obj([])];
    assert AllClean([Obj([])]);
    FramesDeliver(vs);
  }

  // ----- the frames of a stream read so far

  lemma {:induction false} FramesGrow(st: Scan, s: string)
    ensures st.frames <= Run(st, s).frames
    decreases |s|
  {
    if s != "" {
      FramesGrow(Step(st, s[0]), s[1..]);
    }
  }

  lemma MoreFrames(input: string, i: nat) returns (more: seq<string>)
    requires i <= |input|
    ensures Run(Start, input).frames == Run(Start, input[..i]).frames + more
  {
    var st := Run(Start, input[..i]);
    assert input == input[..i] + input[i..];
    RunAppend(Start, input[..i], input[i..]);
    FramesGrow(st, input[i..]);
    more := Run(st, input[i..]).frames[|st.frames|..];
  }

  lemma LastFrame(input: string, i: nat, frames: seq<string>)
    requires i <= |input| && Run(Start, input[..i]).frames == frames && Deliver(frames).threw
    ensures Deliver(Run(Start, input).frames) == Deliver(frames)
  {
    hide Read, Run, Deliver;
    var more := MoreFrames(input, i);
    DeliverAppend(frames, more);
  }

  lemma OneFrame(buf: string)
    ensures Deliver([buf]) ==
            match Read(buf)
            case Fail => Delivery([], true)
            case Got(v, _) => Delivery([v], !Rpc.Accepted(v))
  {
    assert [buf][1..] == [];
    hide Read, Rpc.Accepted;
  }

  /** One turn of the loop, on its own variables. */
  lemma ScanStep(depth: int, quote: int, found: bool, buf: string, frames: seq<string>, c: char)
    requires quote == 0 || quote == 1
    ensures var depth' := if quote == 1 then depth else if c == '{' || c == '[' then depth + 1
                          else if c == '}' || c == ']' then depth - 1 else depth;
            var quote' := if c == '"' then 1 - quote else quote;
            var found' := found || (quote == 0 && depth' > 0);
            var buf' := if found' then buf + [c] else buf;
            Step(Scan(Pos(depth, quote == 1), found, buf, frames), c) ==
            if found' && depth' == 0 then Scan(Pos(depth', quote' == 1), false, "", frames + [buf'])
            else Scan(Pos(depth', quote' == 1), found', buf', frames)
  {}

  lemma OneMoreChar(input: string, i: nat)
    requires i < |input|
    ensures Run(Start, input[..i + 1]) == Step(Run(Start, input[..i]), input[i])
  {
    assert input[..i + 1] == input[..i] + [input[i]];
    RunAppend(Start, input[..i], [input[i]]);
    assert [input[i]][1..] == "";
  }
}
