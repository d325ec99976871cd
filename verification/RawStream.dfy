/** `pack`, `unpack` and the two-pass `pack_vec` of the raw codec over datastreams. */
module RawStream {
  import opened Bytes
  import opened Wrappers
  import opened Varint
  import opened Datastream
  import opened RawCodec

  // ----- the put and write calls that packing makes

  function SizeCalls(n: nat): seq<bytes> {
    Singles(EncodeSize(n))
  }

  function TextCalls(text: bytes): seq<bytes> {
    SizeCalls(|text|) + (if text == [] then [] else [text])
  }

  function Calls(v: Value): seq<bytes>
    decreases v, 0
  {
    match v
    case FixedV(width, n) => [LittleEndian(n, width)]
    case UVarV(u) => Singles(EncodeUVar(u))
    case SVarV(i) => Singles(EncodeSVar(i))
    case FlagV(b) => [[if b then 1 else 0]]
    case TextV(text) => TextCalls(text)
    case NoneV => [[0]]
    case SomeV(some) => [[1]] + Calls(some)
    case ListV(items) => SizeCalls(|items|) + AllCalls(items)
    case SetV(elements) => SizeCalls(|elements|) + AllCalls(elements)
    case MapV(entries) => SizeCalls(|entries|) + AllCalls(entries)
    case PairV(fst, snd) => Calls(fst) + Calls(snd)
    case StructV(members) => MembersCalls(members)
  }

  function AllCalls(vs: seq<Value>): seq<bytes>
    decreases vs
  {
    if vs == [] then [] else Calls(vs[0]) + AllCalls(vs[1..])
  }

  function MemberCalls(v: Value): seq<bytes>
    decreases v, 1
  {
    match v
    case NoneV => []
    case SomeV(some) => Calls(some)
    case _ => Calls(v)
  }

  function MembersCalls(vs: seq<Value>): seq<bytes>
    decreases vs
  {
    if vs == [] then [] else MemberCalls(vs[0]) + MembersCalls(vs[1..])
  }

  /** Every chunk fits the signed 32-bit size that `write` compares. */
  predicate Writable(v: Value)
    decreases v
  {
    match v
    case FixedV(width, _) => width < TWO_31
    case TextV(text) => |text| < TWO_31
    case SomeV(some) => Writable(some)
    case ListV(items) => AllWritable(items)
    case SetV(elements) => AllWritable(elements)
    case MapV(entries) => AllWritable(entries)
    case PairV(fst, snd) => Writable(fst) && Writable(snd)
    case StructV(members) => AllWritable(members)
    case _ => true
  }

  predicate AllWritable(vs: seq<Value>)
    decreases vs
  {
    vs == [] || (Writable(vs[0]) && AllWritable(vs[1..]))
  }

  lemma FlattenSize(n: nat, calls: seq<bytes>)
    ensures Flatten(SizeCalls(n) + calls) == EncodeSize(n) + Flatten(calls)
  {
    FlattenAppend(SizeCalls(n), calls);
    FlattenSingles(EncodeSize(n));
  }

  /** The chunks of all calls, joined, are the encoding. */
  lemma {:induction false} CallsEncode(v: Value)
    ensures Flatten(Calls(v)) == Encode(v)
    decreases v, 0
  {
    match v
    case FixedV(width, n) => FeedOne(Sizing(0), LittleEndian(n, width));
    case UVarV(u) => FlattenSingles(EncodeUVar(u));
    case SVarV(i) => FlattenSingles(EncodeSVar(i));
    case FlagV(b) => FeedOne(Sizing(0), [if b then 1 else 0]);
    case TextV(text) => {
      FlattenSize(|text|, if text == [] then [] else [text]);
      FeedOne(Sizing(0), text);
    }
    case NoneV => FeedOne(Sizing(0), [0]);
    case SomeV(some) => {
      CallsEncode(some);
      FlattenAppend([[1]], Calls(some));
      FeedOne(Sizing(0), [1]);
    }
    case ListV(items) => {
      AllCallsEncode(items);
      FlattenSize(|items|, AllCalls(items));
    }
    case SetV(elements) => {
      AllCallsEncode(elements);
      FlattenSize(|elements|, AllCalls(elements));
    }
    case MapV(entries) => {
      AllCallsEncode(entries);
      FlattenSize(|entries|, AllCalls(entries));
    }
    case PairV(fst, snd) => {
      CallsEncode(fst);
      CallsEncode(snd);
      FlattenAppend(Calls(fst), Calls(snd));
    }
    case StructV(members) => MembersCallsEncode(members);
  }

  lemma {:induction false} AllCallsEncode(vs: seq<Value>)
    ensures Flatten(AllCalls(vs)) == EncodeAll(vs)
    decreases vs, 0
  {
    if vs != [] {
      CallsEncode(vs[0]);
      AllCallsEncode(vs[1..]);
      FlattenAppend(Calls(vs[0]), AllCalls(vs[1..]));
    }
  }

  lemma {:induction false} MembersCallsEncode(vs: seq<Value>)
    ensures Flatten(MembersCalls(vs)) == EncodeMembers(vs)
    decreases vs, 0
  {
    if vs != [] {
      MemberCallsEncode(vs[0]);
      MembersCallsEncode(vs[1..]);
      FlattenAppend(MemberCalls(vs[0]), MembersCalls(vs[1..]));
    }
  }

  lemma {:induction false} MemberCallsEncode(v: Value)
    ensures Flatten(MemberCalls(v)) == EncodeMember(v)
    decreases v, 1
  {
    if v.SomeV? {
      CallsEncode(v.some);
    } else if !v.NoneV? {
      CallsEncode(v);
    }
  }

  // ----- packing

  method PackSize(s: OutStream, n: nat)
    modifies s, s.data
    ensures s.State() == Feed(old(s.State()), SizeCalls(n))
  {
    PutVarint(s, n % TWO_32);
  }

  method PackText(s: OutStream, text: bytes)
    requires |text| < TWO_31
    modifies s, s.data
    ensures s.State() == Feed(old(s.State()), TextCalls(text))
  {
    PackSize(s, |text|);
    FeedAppend(old(s.State()), SizeCalls(|text|), if text == [] then [] else [text]);
    FeedOne(s.State(), text);
    if |text| > 0 {
      var ok := s.Write(text);
    }
  }

  method PackScalar(s: OutStream, v: Value)
    requires v.FixedV? || v.UVarV? || v.SVarV? || v.FlagV? || v.TextV?
    requires Writable(v)
    modifies s, s.data
    ensures s.State() == Feed(old(s.State()), Calls(v))
  {
    match v {
      case FixedV(width, n) =>
        var ok := s.Write(LittleEndian(n, width));
        FeedOne(old(s.State()), LittleEndian(n, width));
      case UVarV(u) => PutVarint(s, u % TWO_32);
      case SVarV(i) => PutVarint(s, if IsInt32(i) then Zigzag(i) else 0);
      case FlagV(b) =>
        var byte: byte := if b then 1 else 0;
        var ok := s.Write([byte]);
        FeedOne(old(s.State()), [byte]);
      case TextV(text) => PackText(s, text);
    }
  }

  /** Packing makes exactly the calls of `Calls`, in order, whatever the stream does with them. */
  method Pack(s: OutStream, v: Value)
    requires Writable(v)
    modifies s, s.data
    ensures s.State() == Feed(old(s.State()), Calls(v))
    decreases v, 1
  {
    match v {
      case NoneV =>
        var ok := s.Write([0]);
        FeedOne(old(s.State()), [0]);
      case SomeV(some) =>
        var ok := s.Write([1]);
        FeedOne(old(s.State()), [1]);
        FeedAppend(old(s.State()), [[1]], Calls(some));
        Pack(s, some);
      case PairV(fst, snd) =>
        FeedAppend(s.State(), Calls(fst), Calls(snd));
        Pack(s, fst);
        Pack(s, snd);
      case ListV(items) => PackContainer(s, items);
      case SetV(elements) => PackContainer(s, elements);
      case MapV(entries) => PackContainer(s, entries);
      case StructV(members) => PackMembers(s, members);
      case FixedV(_, _) => PackScalar(s, v);
      case UVarV(_) => PackScalar(s, v);
      case SVarV(_) => PackScalar(s, v);
      case FlagV(_) => PackScalar(s, v);
      case TextV(_) => PackScalar(s, v);
    }
  }

  lemma {:induction false} AllCallsAppend(a: seq<Value>, b: seq<Value>)
    ensures AllCalls(a + b) == AllCalls(a) + AllCalls(b)
    ensures MembersCalls(a + b) == MembersCalls(a) + MembersCalls(b)
    ensures AllWritable(a + b) ==> AllWritable(b)
  {
    hide Calls, MemberCalls, Writable;
    if a == [] {
      assert a + b == b;
    } else {
      assert (a + b)[1..] == a[1..] + b;
      AllCallsAppend(a[1..], b);
    }
  }

  lemma AllCallsStep(vs: seq<Value>, i: nat)
    requires i < |vs|
    ensures AllCalls(vs[..i + 1]) == AllCalls(vs[..i]) + Calls(vs[i])
    ensures MembersCalls(vs[..i + 1]) == MembersCalls(vs[..i]) + MemberCalls(vs[i])
    ensures AllWritable(vs) ==> Writable(vs[i])
  {
    assert vs[..i + 1] == vs[..i] + [vs[i]] && vs == vs[..i] + vs[i..];
    AllCallsAppend(vs[..i], [vs[i]]);
    AllCallsAppend(vs[..i], vs[i..]);
    AllCallsOne(vs[i]);
    assert vs[i..][0] == vs[i];
    hide Calls, MemberCalls;
  }

  lemma AllCallsOne(v: Value)
    ensures AllCalls([v]) == Calls(v) && MembersCalls([v]) == MemberCalls(v)
  {
    assert [v][1..] == [];
    assert Calls(v) + [] == Calls(v) && MemberCalls(v) + [] == MemberCalls(v);
  }

  /** The iterator loop over a container. */
  method PackContainer(s: OutStream, vs: seq<Value>)
    requires AllWritable(vs)
    modifies s, s.data
    ensures s.State() == Feed(old(s.State()), SizeCalls(|vs|) + AllCalls(vs))
    decreases vs, 0
  {
    ghost var start := s.State();
    PackSize(s, |vs|);
    ghost var sized := s.State();
    assert vs[..0] == [] && AllCalls([]) == [] && vs[..|vs|] == vs;
    for i := 0 to |vs|
      invariant s.State() == Feed(sized, AllCalls(vs[..i]))
    {
      AllCallsStep(vs, i);
      Pack(s, vs[i]);
      FeedAppend(sized, AllCalls(vs[..i]), Calls(vs[i]));
    }
    FeedAppend(start, SizeCalls(|vs|), AllCalls(vs));
  }

  /** The object visitor: each member in turn, and an optional member only if it is set. */
  method PackMembers(s: OutStream, vs: seq<Value>)
    requires AllWritable(vs)
    modifies s, s.data
    ensures s.State() == Feed(old(s.State()), MembersCalls(vs))
    decreases vs, 0
  {
    ghost var start := s.State();
    assert vs[..0] == [] && MembersCalls([]) == [] && vs[..|vs|] == vs;
    for i := 0 to |vs|
      invariant s.State() == Feed(start, MembersCalls(vs[..i]))
    {
      AllCallsStep(vs, i);
      match vs[i] {
        case NoneV =>
        case SomeV(some) => Pack(s, some);
        case FixedV(_, _) => Pack(s, vs[i]);
        case UVarV(_) => Pack(s, vs[i]);
        case SVarV(_) => Pack(s, vs[i]);
        case FlagV(_) => Pack(s, vs[i]);
        case TextV(_) => Pack(s, vs[i]);
        case ListV(_) => Pack(s, vs[i]);
        case SetV(_) => Pack(s, vs[i]);
        case MapV(_) => Pack(s, vs[i]);
        case PairV(_, _) => Pack(s, vs[i]);
        case StructV(_) => Pack(s, vs[i]);
      }
      FeedAppend(start, MembersCalls(vs[..i]), MemberCalls(vs[i]));
    }
  }

  // ----- two passes

  /** The sizing run counts the encoding. */
  lemma SizingPass(v: Value)
    requires |Encode(v)| < TWO_32
    ensures Feed(Sizing(0), Calls(v)) == Sizing(|Encode(v)|)
  {
    CallsEncode(v);
    FeedSizing(0, Calls(v));
  }

  /** The writing run over a buffer of that size fills it with the encoding and drops nothing. */
  lemma WritingPass(v: Value, room: bytes)
    requires |room| == |Encode(v)|
    ensures Feed(Writing(room, 0, 0), Calls(v)) == Writing(Encode(v), |Encode(v)|, 0)
  {
    CallsEncode(v);
    FeedWriting(room, 0, 0, Calls(v));
    assert room[..0] + Encode(v) + room[|room|..] == Encode(v);
  }

  /** In a buffer that is too small the writing run drops at least one call. */
  lemma {:induction false} TooSmallDrops(data: bytes, pos: nat, dropped: nat, calls: seq<bytes>)
    requires pos <= |data| < pos + |Flatten(calls)|
    ensures var end := Feed(Writing(data, pos, dropped), calls); end.Writing? && end.dropped > dropped
    decreases |calls|
  {
    var st := Offer(Writing(data, pos, dropped), calls[0]);
    if pos + |calls[0]| <= |data| {
      TooSmallDrops(st.data, st.pos, dropped, calls[1..]);
    } else {
      DropsGrow(st, calls[1..]);
    }
  }

  lemma {:induction false} DropsGrow(st: OutState, calls: seq<bytes>)
    requires st.Writing?
    ensures Feed(st, calls).Writing? && Feed(st, calls).dropped >= st.dropped
    decreases |calls|
  {
    if calls != [] {
      DropsGrow(Offer(st, calls[0]), calls[1..]);
    }
  }

  method PackVec(v: Value) returns (s: array<byte>, ghost dropped: nat)
    requires Writable(v) && |Encode(v)| < TWO_31
    ensures fresh(s) && s[..] == Encode(v) && dropped == 0
  {
    var ps := new OutStream.Count();
    Pack(ps, v);
    SizingPass(v);
    var size := ps.Tell();
    s := new byte[size](_ => 0);
    WritingPass(v, s[..]);
    dropped := 0;
    if s.Length > 0 {
      var ds := new OutStream.Over(s);
      Pack(ds, v);
      dropped := ds.dropped;
    }
  }

  // ----- unpacking

  method Unpack(s: InStream, sc: Schema) returns (v: Value)
    requires s.Valid() && Decode(sc, s.Rest()).Some?
    modifies s`pos
    ensures var r := Decode(sc, old(s.Rest())).value; v == r.value && s.Rest() == r.rest
    decreases sc, 2, 0
  {
    match sc {
      case Fixed(_, _) => v := UnpackScalar(s, sc);
      case UVar => v := UnpackScalar(s, sc);
      case SVar => v := UnpackScalar(s, sc);
      case Flag => v := UnpackScalar(s, sc);
      case Text => v := UnpackScalar(s, sc);
      case Opt(of) =>
        var ok, c := s.Get(0);
        if c != 0 {
          var x := Unpack(s, of);
          v := SomeV(x);
        } else {
          v := NoneV;
        }
      case List(_) => v := UnpackContainer(s, sc);
      case Set(_) => v := UnpackContainer(s, sc);
      case Map(_, _) => v := UnpackContainer(s, sc);
      case Pair(first, second) =>
        var x := Unpack(s, first);
        var y := Unpack(s, second);
        v := PairV(x, y);
      case Struct(fields) =>
        var vs := UnpackMembers(s, fields);
        v := StructV(vs);
    }
  }

  method UnpackScalar(s: InStream, sc: Schema) returns (v: Value)
    requires sc.Fixed? || sc.UVar? || sc.SVar? || sc.Flag? || sc.Text?
    requires s.Valid() && Decode(sc, s.Rest()).Some?
    modifies s`pos
    ensures var r := Decode(sc, old(s.Rest())).value; v == r.value && s.Rest() == r.rest
  {
    assert sc.UVar? || sc.SVar? || sc.Flag? ==> s.Rest() != [];
    hide ReadVarint;
    match sc {
      case Fixed(width, signed) =>
        assert s.Rest()[..0] == [] && s.Rest()[0..] == s.Rest();
        var ok, d := s.Read(width);
        v := FixedV(width, ReadFixed(d, signed));
      case UVar =>
        var n, endless := GetVarint(s);
        v := UVarV(n);
      case SVar =>
        var n, endless := GetVarint(s);
        v := SVarV(Unzigzag(n));
      case Flag =>
        var ok, c := s.Get(0);
        v := FlagV(c != 0);
      case Text => v := UnpackText(s);
    }
  }

  method UnpackText(s: InStream) returns (v: Value)
    requires s.Valid() && Decode(Text, s.Rest()).Some?
    modifies s`pos
    ensures var r := Decode(Text, old(s.Rest())).value; v == r.value && s.Rest() == r.rest
  {
    var n, endless := GetVarint(s);
    assert s.Rest()[..0] == [] && s.Rest()[0..] == s.Rest();
    var d := [];
    if n > 0 {
      var ok;
      ok, d := s.Read(n);
    }
    v := TextV(d);
  }

  lemma ContainerStart(sc: Schema, b: bytes)
    requires (sc.List? || sc.Set? || sc.Map?) && Decode(sc, b).Some?
    ensures b != [] && ReadVarint(b).Some?
    ensures var n, r := ReadVarint(b).value, Decode(sc, b).value;
            match sc
            case List(of) => DecodeAll(of, n.value, n.rest).Some?
              && r == Read(ListV(DecodeAll(of, n.value, n.rest).value.value), DecodeAll(of, n.value, n.rest).value.rest)
            case Set(of) => DecodeSet(of, n.value, [], n.rest).Some?
              && r == Read(SetV(DecodeSet(of, n.value, [], n.rest).value.value),
                           DecodeSet(of, n.value, [], n.rest).value.rest)
            case Map(_, _) => DecodeMap(sc, n.value, [], n.rest).Some?
              && r == Read(MapV(DecodeMap(sc, n.value, [], n.rest).value.value),
                           DecodeMap(sc, n.value, [], n.rest).value.rest)
            case _ => true
  {}

  method UnpackContainer(s: InStream, sc: Schema) returns (v: Value)
    requires sc.List? || sc.Set? || sc.Map?
    requires s.Valid() && Decode(sc, s.Rest()).Some?
    modifies s`pos
    ensures var r := Decode(sc, old(s.Rest())).value; v == r.value && s.Rest() == r.rest
    decreases sc, 1, TWO_32
  {
    ContainerStart(sc, s.Rest());
    VarintMinimal(s.Rest());
    hide *;
    var n, endless := GetVarint(s);
    match sc {
      case List(of) =>
        var vs := UnpackList(s, of, n);
        v := ListV(vs);
      case Set(of) =>
        var vs := UnpackSet(s, of, n);
        v := SetV(vs);
      case Map(_, _) =>
        var vs := UnpackMap(s, sc, n);
        v := MapV(vs);
    }
  }

  lemma MoveFirst<T>(done: seq<T>, more: seq<T>)
    requires more != []
    ensures (done + [more[0]]) + more[1..] == done + more
  {}

  /** Decoding the n entries left gives `more`, and then `rest` remains. */
  ghost predicate ListLeft(sc: Schema, n: nat, b: bytes, more: seq<Value>, rest: bytes) {
    DecodeAll(sc, n, b) == Some(Read(more, rest))
  }

  lemma ListStart(sc: Schema, n: nat, b: bytes)
    requires DecodeAll(sc, n, b).Some?
    ensures var r := DecodeAll(sc, n, b).value; ListLeft(sc, n, b, r.value, r.rest)
  {}

  lemma ListStep(sc: Schema, n: nat, b: bytes, more: seq<Value>, rest: bytes)
    requires ListLeft(sc, n, b, more, rest)
    ensures n == 0 ==> more == [] && b == rest
    ensures n > 0 ==>
              && Decode(sc, b).Some? && more != [] && more[0] == Decode(sc, b).value.value
              && ListLeft(sc, n - 1, Decode(sc, b).value.rest, more[1..], rest)
  {}

  method UnpackList(s: InStream, sc: Schema, n: nat) returns (vs: seq<Value>)
    requires s.Valid() && DecodeAll(sc, n, s.Rest()).Some?
    modifies s`pos
    ensures var r := DecodeAll(sc, n, old(s.Rest())).value; vs == r.value && s.Rest() == r.rest
    decreases sc, 3, n
  {
    hide *;
    vs := [];
    ghost var goal := DecodeAll(sc, n, s.Rest()).value;
    ghost var more := goal.value;
    ListStart(sc, n, s.Rest());
    assert [] + more == goal.value;
    for i := 0 to n
      invariant ListLeft(sc, n - i, s.Rest(), more, goal.rest)
      invariant vs + more == goal.value
    {
      ListStep(sc, n - i, s.Rest(), more, goal.rest);
      var v := Unpack(s, sc);
      MoveFirst(vs, more);
      vs, more := vs + [v], more[1..];
    }
    ListStep(sc, 0, s.Rest(), more, goal.rest);
    assert vs + [] == vs;
  }

  lemma SetStep(sc: Schema, n: nat, acc: seq<Value>, b: bytes)
    requires DecodeSet(sc, n, acc, b).Some?
    ensures n == 0 ==> DecodeSet(sc, n, acc, b).value == Read(acc, b)
    ensures n > 0 ==>
              && Decode(sc, b).Some?
              && DecodeSet(sc, n, acc, b)
                 == DecodeSet(sc, n - 1, Insert(false, acc, Decode(sc, b).value.value), Decode(sc, b).value.rest)
  {}

  method UnpackSet(s: InStream, sc: Schema, n: nat) returns (vs: seq<Value>)
    requires s.Valid() && DecodeSet(sc, n, [], s.Rest()).Some?
    modifies s`pos
    ensures var r := DecodeSet(sc, n, [], old(s.Rest())).value; vs == r.value && s.Rest() == r.rest
    decreases sc, 3, n
  {
    hide *;
    vs := [];
    ghost var goal := DecodeSet(sc, n, [], s.Rest());
    for i := 0 to n
      invariant DecodeSet(sc, n - i, vs, s.Rest()) == goal
    {
      SetStep(sc, n - i, vs, s.Rest());
      var v := Unpack(s, sc);
      vs := Insert(false, vs, v);
    }
    SetStep(sc, 0, vs, s.Rest());
  }

  lemma MapStep(sc: Schema, n: nat, acc: seq<Value>, b: bytes)
    requires sc.Map? && DecodeMap(sc, n, acc, b).Some?
    ensures n == 0 ==> DecodeMap(sc, n, acc, b).value == Read(acc, b)
    ensures n > 0 ==>
              && Decode(sc.key, b).Some?
              && var k := Decode(sc.key, b).value;
              && Decode(sc.of, k.rest).Some?
              && var v := Decode(sc.of, k.rest).value;
              && DecodeMap(sc, n, acc, b) == DecodeMap(sc, n - 1, Insert(true, acc, PairV(k.value, v.value)), v.rest)
  {}

  method UnpackMap(s: InStream, sc: Schema, n: nat) returns (es: seq<Value>)
    requires sc.Map? && s.Valid()
    requires DecodeMap(sc, n, [], s.Rest()) != None
    modifies s`pos
    ensures var r := DecodeMap(sc, n, [], old(s.Rest())).value; es == r.value && s.Rest() == r.rest
    decreases sc, 1, n
  {
    hide *;
    es := [];
    ghost var goal := DecodeMap(sc, n, [], s.Rest());
    for i := 0 to n
      invariant DecodeMap(sc, n - i, es, s.Rest()) == goal
    {
      MapStep(sc, n - i, es, s.Rest());
      var k := Unpack(s, sc.key);
      var v := Unpack(s, sc.of);
      es := Insert(true, es, PairV(k, v));
    }
    MapStep(sc, 0, es, s.Rest());
  }

  /** Decoding the members left gives `more`, and then `rest` remains. */
  ghost predicate MembersLeft(fields: seq<Schema>, b: bytes, more: seq<Value>, rest: bytes) {
    DecodeMembers(fields, b) == Some(Read(more, rest))
  }

  lemma MembersStart(fields: seq<Schema>, b: bytes)
    requires DecodeMembers(fields, b).Some?
    ensures var r := DecodeMembers(fields, b).value; MembersLeft(fields[0..], b, r.value, r.rest)
  {
    assert fields[0..] == fields;
  }

  lemma MembersStep(fields: seq<Schema>, i: nat, b: bytes, more: seq<Value>, rest: bytes)
    requires i <= |fields| && MembersLeft(fields[i..], b, more, rest)
    ensures i == |fields| ==> more == [] && b == rest
    ensures i < |fields| ==>
              && Decode(fields[i], b).Some? && more != [] && more[0] == Decode(fields[i], b).value.value
              && MembersLeft(fields[i + 1..], Decode(fields[i], b).value.rest, more[1..], rest)
  {
    if i < |fields| {
      assert fields[i..][1..] == fields[i + 1..];
    }
  }

  method UnpackMembers(s: InStream, fields: seq<Schema>) returns (vs: seq<Value>)
    requires s.Valid() && DecodeMembers(fields, s.Rest()).Some?
    modifies s`pos
    ensures var r := DecodeMembers(fields, old(s.Rest())).value; vs == r.value && s.Rest() == r.rest
    decreases fields, 4, 0
  {
    hide *;
    vs := [];
    ghost var goal := DecodeMembers(fields, s.Rest()).value;
    ghost var more := goal.value;
    MembersStart(fields, s.Rest());
    assert [] + more == goal.value;
    for i := 0 to |fields|
      invariant MembersLeft(fields[i..], s.Rest(), more, goal.rest)
      invariant vs + more == goal.value
    {
      MembersStep(fields, i, s.Rest(), more, goal.rest);
      var v := Unpack(s, fields[i]);
      MoveFirst(vs, more);
      vs, more := vs + [v], more[1..];
    }
    MembersStep(fields, |fields|, s.Rest(), more, goal.rest);
    assert vs + [] == vs;
  }

  /** `unpack_vec`: an empty buffer leaves the target as it is. */
  method UnpackVec(buffer: array<byte>, sc: Schema, target: Value) returns (v: Value)
    requires buffer.Length > 0 ==> Decode(sc, buffer[..]).Some?
    ensures v == if buffer.Length == 0 then target else Decode(sc, buffer[..]).value.value
  {
    hide Decode;
    v := target;
    if buffer.Length > 0 {
      var ds := new InStream(buffer, 0, buffer.Length);
      assert buffer[0..buffer.Length] == buffer[..];
      v := Unpack(ds, sc);
    }
  }
}
