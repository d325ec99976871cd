/** Unpacking undoes packing. Signed varints outside [-2^30, 2^30) come back with bit 0 flipped, sets
  * and maps are rebuilt in the order of what is read, and a value survives exactly when that
  * rebuilt value is the value itself and no class member is directly an optional. */
module RawRoundTrip {
  import opened Bytes
  import opened Wrappers
  import opened Varint
  import opened RawCodec
  import opened RawOrder

  // ----- what unpacking gives

  /** The value unpacked for v: flipped varints, and containers that insert what they read. */
  function AsRead(v: Value): Value
    decreases v
  {
    match v
    case SVarV(i) => SVarV(ReadBack(i))
    case SomeV(some) => SomeV(AsRead(some))
    case ListV(items) => ListV(AllAsRead(items))
    case SetV(elements) => SetV(InsertAll(false, [], AllAsRead(elements)))
    case MapV(entries) => MapV(InsertAll(true, [], AllAsRead(entries)))
    case PairV(fst, snd) => PairV(AsRead(fst), AsRead(snd))
    case StructV(members) => StructV(AllAsRead(members))
    case FixedV(_, _) => v
    case UVarV(_) => v
    case FlagV(_) => v
    case TextV(_) => v
    case NoneV => v
  }

  function AllAsRead(vs: seq<Value>): (r: seq<Value>)
    ensures |r| == |vs|
    decreases vs
  {
    if vs == [] then [] else [AsRead(vs[0])] + AllAsRead(vs[1..])
  }

  lemma {:induction false} AllAsReadAt(vs: seq<Value>, i: nat)
    requires i < |vs|
    ensures AllAsRead(vs)[i] == AsRead(vs[i])
  {
    if i > 0 {
      AllAsReadAt(vs[1..], i - 1);
    }
  }

  /** No signed varint in v lies outside [-2^30, 2^30). */
  predicate Exact(v: Value)
    decreases v
  {
    match v
    case SVarV(i) => -0x4000_0000 <= i < 0x4000_0000
    case SomeV(some) => Exact(some)
    case ListV(items) => AllExact(items)
    case SetV(elements) => AllExact(elements)
    case MapV(entries) => AllExact(entries)
    case PairV(fst, snd) => Exact(fst) && Exact(snd)
    case StructV(members) => AllExact(members)
    case FixedV(_, _) => true
    case UVarV(_) => true
    case FlagV(_) => true
    case TextV(_) => true
    case NoneV => true
  }

  predicate AllExact(vs: seq<Value>)
    decreases vs
  {
    vs == [] || (Exact(vs[0]) && AllExact(vs[1..]))
  }

  /** How many members of reflected classes in v are optionals. */
  function DirectOptionals(v: Value): nat
    decreases v, 0
  {
    match v
    case SomeV(some) => DirectOptionals(some)
    case ListV(items) => AllDirectOptionals(items)
    case SetV(elements) => AllDirectOptionals(elements)
    case MapV(entries) => AllDirectOptionals(entries)
    case PairV(fst, snd) => DirectOptionals(fst) + DirectOptionals(snd)
    case StructV(members) => MemberOptionals(members)
    case _ => 0
  }

  function AllDirectOptionals(vs: seq<Value>): nat
    decreases vs, 0
  {
    if vs == [] then 0 else DirectOptionals(vs[0]) + AllDirectOptionals(vs[1..])
  }

  function MemberOptionals(vs: seq<Value>): nat
    decreases vs, 0
  {
    if vs == [] then 0
    else (if vs[0].NoneV? || vs[0].SomeV? then 1 else 0) + DirectOptionals(vs[0]) + MemberOptionals(vs[1..])
  }

  // ----- what is read has the type, and no two values are read as one

  lemma {:induction false} AsReadTyped(sc: Schema, v: Value)
    requires HasType(sc, v)
    ensures HasType(sc, AsRead(v))
    decreases v
  {
    hide InFixed, Ascending, Insert;
    match v
    case SomeV(some) => AsReadTyped(sc.of, some);
    case ListV(items) => AllAsReadTyped(sc.of, items);
    case SetV(elements) =>
      AllAsReadTyped(sc.of, elements);
      InsertAllTyped(false, sc.of, [], AllAsRead(elements));
      EmptyAscends(false);
      InsertAllAscends(false, [], AllAsRead(elements));
    case MapV(entries) =>
      AllAsReadTyped(Pair(sc.key, sc.of), entries);
      InsertAllTyped(true, Pair(sc.key, sc.of), [], AllAsRead(entries));
      EmptyAscends(true);
      InsertAllAscends(true, [], AllAsRead(entries));
    case PairV(fst, snd) =>
      AsReadTyped(sc.first, fst);
      AsReadTyped(sc.second, snd);
    case StructV(members) => MembersAsReadTyped(sc.fields, members);
    case _ => {}
  }

  lemma EmptyAscends(map_: bool)
    ensures Ascending(map_, [])
  {}

  lemma {:induction false} AllAsReadTyped(sc: Schema, vs: seq<Value>)
    requires AllTyped(sc, vs)
    ensures AllTyped(sc, AllAsRead(vs))
    decreases vs
  {
    if vs != [] {
      AsReadTyped(sc, vs[0]);
      AllAsReadTyped(sc, vs[1..]);
      assert AllAsRead(vs)[1..] == AllAsRead(vs[1..]);
    }
  }

  lemma {:induction false} MembersAsReadTyped(fields: seq<Schema>, vs: seq<Value>)
    requires MembersTyped(fields, vs)
    ensures MembersTyped(fields, AllAsRead(vs))
    decreases vs
  {
    if vs != [] {
      AsReadTyped(fields[0], vs[0]);
      MembersAsReadTyped(fields[1..], vs[1..]);
      assert AllAsRead(vs)[1..] == AllAsRead(vs[1..]);
    }
  }

  lemma ReadBackInjective(i: int, j: int)
    requires ReadBack(i) == ReadBack(j)
    ensures i == j
  {}

  /** The type of a container's entries, and of their keys. */
  function EntryType(sc: Schema): Schema {
    if sc.Map? then Pair(sc.key, sc.of) else if sc.Set? then sc.of else sc
  }

  function KeyType(sc: Schema): Schema {
    if sc.Map? then sc.key else if sc.Set? then sc.of else sc
  }

  lemma {:induction false} AsReadInjective(sc: Schema, v: Value, w: Value)
    requires HasType(sc, v) && HasType(sc, w) && AsRead(v) == AsRead(w)
    ensures v == w
    decreases sc, 3, 0
  {
    hide InFixed, Ascending, Insert, InsertAll;
    match v
    case SVarV(i) => ReadBackInjective(i, w.i);
    case SomeV(some) => AsReadInjective(sc.of, some, w.some);
    case ListV(items) => AllAsReadInjective(sc.of, items, w.items);
    case SetV(elements) => SameEntries(sc, elements, w.elements);
    case MapV(entries) => SameEntries(sc, entries, w.entries);
    case PairV(fst, snd) =>
      AsReadInjective(sc.first, fst, w.fst);
      AsReadInjective(sc.second, snd, w.snd);
    case StructV(members) => MembersAsReadInjective(sc.fields, members, w.members);
    case _ => {}
  }

  lemma {:induction false} AllAsReadInjective(sc: Schema, vs: seq<Value>, ws: seq<Value>)
    requires AllTyped(sc, vs) && AllTyped(sc, ws) && AllAsRead(vs) == AllAsRead(ws)
    ensures vs == ws
    decreases sc, 4, |vs|
  {
    assert |vs| == |ws|;
    if vs != [] {
      assert AllAsRead(vs)[0] == AsRead(vs[0]) && AllAsRead(ws)[0] == AsRead(ws[0]);
      assert AllAsRead(vs)[1..] == AllAsRead(vs[1..]) && AllAsRead(ws)[1..] == AllAsRead(ws[1..]);
      AsReadInjective(sc, vs[0], ws[0]);
      AllAsReadInjective(sc, vs[1..], ws[1..]);
      assert vs == [vs[0]] + vs[1..] && ws == [ws[0]] + ws[1..];
    }
  }

  lemma {:induction false} MembersAsReadInjective(fields: seq<Schema>, vs: seq<Value>, ws: seq<Value>)
    requires MembersTyped(fields, vs) && MembersTyped(fields, ws) && AllAsRead(vs) == AllAsRead(ws)
    ensures vs == ws
    decreases fields, 4, |vs|
  {
    if vs != [] {
      assert AllAsRead(vs)[0] == AsRead(vs[0]) && AllAsRead(ws)[0] == AsRead(ws[0]);
      assert AllAsRead(vs)[1..] == AllAsRead(vs[1..]) && AllAsRead(ws)[1..] == AllAsRead(ws[1..]);
      AsReadInjective(fields[0], vs[0], ws[0]);
      MembersAsReadInjective(fields[1..], vs[1..], ws[1..]);
      assert vs == [vs[0]] + vs[1..] && ws == [ws[0]] + ws[1..];
    }
  }

  // ----- keys that differ are read as keys that differ

  lemma KeyAsRead(sc: Schema, e: Value)
    requires (sc.Set? || sc.Map?) && HasType(EntryType(sc), e)
    ensures KeyOf(sc.Map?, AsRead(e)) == AsRead(KeyOf(sc.Map?, e)) && HasType(KeyType(sc), KeyOf(sc.Map?, e))
  {}

  lemma {:induction false} KeysApart(sc: Schema, k: Value, l: Value)
    requires HasType(sc, k) && HasType(sc, l) && Less(k, l)
    ensures Less(AsRead(k), AsRead(l)) || Less(AsRead(l), AsRead(k))
    decreases sc, 4, 0
  {
    AsReadTyped(sc, k);
    AsReadTyped(sc, l);
    LessTotal(sc, AsRead(k), AsRead(l));
    LessAsymmetric(k, l);
    if AsRead(k) == AsRead(l) {
      AsReadInjective(sc, k, l);
    }
  }

  /** A key below all others is apart from them when read. */
  lemma {:induction false} NewUnder(sc: Schema, done: seq<Value>, e: Value, es: seq<Value>)
    requires (sc.Set? || sc.Map?) && HasType(EntryType(sc), e) && AllTyped(EntryType(sc), es)
    requires Below(sc.Map?, KeyOf(sc.Map?, e), es)
    requires AllNew(sc.Map?, done, AllAsRead(es))
    ensures AllNew(sc.Map?, Insert(sc.Map?, done, AsRead(e)), AllAsRead(es))
    decreases sc, 0, |es|
  {
    if es != [] {
      var m := sc.Map?;
      assert AllAsRead(es)[0] == AsRead(es[0]) && AllAsRead(es)[1..] == AllAsRead(es[1..]);
      KeyAsRead(sc, e);
      KeyAsRead(sc, es[0]);
      hide Insert, AsRead, HasType, Less;
      NewUnder(sc, done, e, es[1..]);
      KeysApart(KeyType(sc), KeyOf(m, e), KeyOf(m, es[0]));
      InsertKeys(m, done, AsRead(e), KeyOf(m, AsRead(es[0])));
    }
  }

  predicate AllNew(map_: bool, done: seq<Value>, es: seq<Value>) {
    es == [] || (!HasKey(map_, done, KeyOf(map_, es[0])) && AllNew(map_, done, es[1..]))
  }

  lemma {:induction false} ReadKeysNew(sc: Schema, done: seq<Value>, es: seq<Value>)
    requires (sc.Set? || sc.Map?) && AllTyped(EntryType(sc), es) && Ascending(sc.Map?, es)
    requires AllNew(sc.Map?, done, AllAsRead(es))
    ensures KeysNew(sc.Map?, done, AllAsRead(es))
    decreases sc, 1, |es|
  {
    if es != [] {
      assert AllAsRead(es)[0] == AsRead(es[0]) && AllAsRead(es)[1..] == AllAsRead(es[1..]);
      NewUnder(sc, done, es[0], es[1..]);
      ReadKeysNew(sc, Insert(sc.Map?, done, AsRead(es[0])), es[1..]);
    }
  }

  lemma {:induction false} AllNewToNothing(map_: bool, es: seq<Value>)
    ensures AllNew(map_, [], es)
  {
    if es != [] {
      AllNewToNothing(map_, es[1..]);
    }
  }

  lemma {:induction false} EntryInjective(sc: Schema, e: Value, f: Value)
    requires (sc.Set? || sc.Map?) && HasType(EntryType(sc), e) && HasType(EntryType(sc), f) && AsRead(e) == AsRead(f)
    ensures e == f
    decreases sc, 0, 0
  {
    if sc.Set? {
      AsReadInjective(sc.of, e, f);
    } else {
      AsReadInjective(sc.key, e.fst, f.fst);
      AsReadInjective(sc.of, e.snd, f.snd);
    }
  }

  lemma {:induction false} EntryAmong(sc: Schema, a: seq<Value>, b: seq<Value>, x: Value)
    requires (sc.Set? || sc.Map?) && AllTyped(EntryType(sc), a) && AllTyped(EntryType(sc), b) && x in a
    requires forall y :: y in AllAsRead(a) ==> y in AllAsRead(b)
    ensures x in b
    decreases sc, 1, 0
  {
    var i :| 0 <= i < |a| && a[i] == x;
    AllAsReadAt(a, i);
    assert AllAsRead(a)[i] in AllAsRead(b);
    var j :| 0 <= j < |b| && AllAsRead(b)[j] == AsRead(x);
    AllAsReadAt(b, j);
    TypedAt(EntryType(sc), a, i);
    TypedAt(EntryType(sc), b, j);
    EntryInjective(sc, x, b[j]);
  }

  /** Entries that are read into the same container are the same entries. */
  lemma {:induction false} SameEntries(sc: Schema, a: seq<Value>, b: seq<Value>)
    requires sc.Set? || sc.Map?
    requires AllTyped(EntryType(sc), a) && Ascending(sc.Map?, a)
    requires AllTyped(EntryType(sc), b) && Ascending(sc.Map?, b)
    requires InsertAll(sc.Map?, [], AllAsRead(a)) == InsertAll(sc.Map?, [], AllAsRead(b))
    ensures a == b
    decreases sc, 2, 0
  {
    var m := sc.Map?;
    hide *;
    AllNewToNothing(m, AllAsRead(a));
    AllNewToNothing(m, AllAsRead(b));
    ReadKeysNew(sc, [], a);
    ReadKeysNew(sc, [], b);
    InsertAllMembers(m, [], AllAsRead(a));
    InsertAllMembers(m, [], AllAsRead(b));
    assert forall x :: x in AllAsRead(a) <==> x in AllAsRead(b);
    forall x
      ensures x in a <==> x in b
    {
      if x in a {
        EntryAmong(sc, a, b, x);
      }
      if x in b {
        EntryAmong(sc, b, a, x);
      }
    }
    SameMembersSameList(m, a, b);
  }

  // ----- packing and then unpacking

  lemma {:induction false} LittleEndianInverse(n: int, width: nat)
    requires -(PowerOf256(width) as int) <= n < PowerOf256(width)
    ensures FromLittleEndian(LittleEndian(n, width)) == if n < 0 then n + PowerOf256(width) else n
    decreases width
  {
    if width > 0 {
      LittleEndianInverse(n / 256, width - 1);
      assert LittleEndian(n, width)[1..] == LittleEndian(n / 256, width - 1);
    }
  }

  lemma FixedSurvives(n: int, width: nat, signed: bool, rest: bytes)
    requires InFixed(n, width, signed) && width < TWO_31
    ensures Decode(Fixed(width, signed), LittleEndian(n, width) + rest) == Some(Read(FixedV(width, n), rest))
  {
    LittleEndianInverse(n, width);
    var b := LittleEndian(n, width) + rest;
    assert b[..width] == LittleEndian(n, width) && b[width..] == rest;
  }

  lemma SizeSurvives(n: nat, rest: bytes)
    requires n < TWO_32
    ensures ReadVarint(EncodeSize(n) + rest) == Some(VarintRead(n, rest))
  {
    hide *;
    SizeBytes(n);
    VarintRoundTrip(n, rest);
  }

  lemma Assoc(a: bytes, b: bytes, c: bytes)
    ensures (a + b) + c == a + (b + c)
  {}

  lemma TextSurvives(text: bytes, rest: bytes)
    requires |text| < TWO_31
    ensures Decode(Text, EncodeSize(|text|) + text + rest) == Some(Read(TextV(text), rest))
  {
    Assoc(EncodeSize(|text|), text, rest);
    SizeSurvives(|text|, text + rest);
    assert (text + rest)[..|text|] == text && (text + rest)[|text|..] == rest;
  }

  lemma SVarSurvives(i: int, rest: bytes)
    requires IsInt32(i)
    ensures Decode(SVar, EncodeSVar(i) + rest) == Some(Read(SVarV(ReadBack(i)), rest))
  {
    assert EncodeSVar(i) == EncodeVarint(Zigzag(i));
    VarintRoundTrip(Zigzag(i), rest);
    ZigzagRoundTrip(i);
    hide EncodeVarint, ReadVarint, Zigzag, Unzigzag, ReadBack;
  }

  lemma UVarSurvives(u: nat, rest: bytes)
    requires u < TWO_32
    ensures Decode(UVar, EncodeUVar(u) + rest) == Some(Read(UVarV(u), rest))
  {
    assert EncodeUVar(u) == EncodeVarint(u);
    VarintRoundTrip(u, rest);
    hide EncodeVarint, ReadVarint;
  }

  predicate IsScalar(v: Value) {
    v.FixedV? || v.UVarV? || v.SVarV? || v.FlagV? || v.TextV? || v.NoneV?
  }

  lemma ScalarSurvives(sc: Schema, v: Value, rest: bytes)
    requires HasType(sc, v) && IsScalar(v)
    ensures Decode(sc, Encode(v) + rest) == Some(Read(AsRead(v), rest))
  {
    hide LittleEndian, EncodeUVar, EncodeSVar, EncodeSize, ReadVarint, ReadFixed, ReadBack, Unzigzag, TakeBytes;
    match v
    case FixedV(_, n) => FixedSurvives(n, sc.width, sc.signed, rest);
    case UVarV(u) => UVarSurvives(u, rest);
    case SVarV(i) => SVarSurvives(i, rest);
    case TextV(text) => TextSurvives(text, rest);
    case FlagV(_) => assert (Encode(v) + rest)[1..] == rest;
    case NoneV => assert (Encode(v) + rest)[1..] == rest;
    case _ => {}
  }

  lemma SomeFromPart(sc: Schema, v: Value, x: Value, rest: bytes)
    requires sc.Opt? && v.SomeV? && Decode(sc.of, Encode(v.some) + rest) == Some(Read(x, rest))
    ensures Decode(sc, Encode(v) + rest) == Some(Read(SomeV(x), rest))
  {
    assert Encode(v) == [1] + Encode(v.some);
    hide *;
    PresentPart(sc, Encode(v.some) + rest, x, rest);
    Assoc([1], Encode(v.some), rest);
  }

  lemma PresentPart(sc: Schema, b: bytes, x: Value, rest: bytes)
    requires sc.Opt? && Decode(sc.of, b) == Some(Read(x, rest))
    ensures Decode(sc, [1] + b) == Some(Read(SomeV(x), rest))
  {
    assert ([1] + b)[1..] == b;
  }

  lemma StructFromParts(sc: Schema, v: Value, out: seq<Value>, rest: bytes)
    requires sc.Struct? && v.StructV?
    requires DecodeMembers(sc.fields, EncodeMembers(v.members) + rest) == Some(Read(out, rest))
    ensures Decode(sc, Encode(v) + rest) == Some(Read(StructV(out), rest))
  {
    hide DecodeMembers, EncodeMembers;
  }

  lemma PairFromParts(sc: Schema, v: Value, x: Value, y: Value, rest: bytes)
    requires sc.Pair? && v.PairV?
    requires Decode(sc.first, Encode(v.fst) + (Encode(v.snd) + rest)) == Some(Read(x, Encode(v.snd) + rest))
    requires Decode(sc.second, Encode(v.snd) + rest) == Some(Read(y, rest))
    ensures Decode(sc, Encode(v) + rest) == Some(Read(PairV(x, y), rest))
  {
    assert Encode(v) == Encode(v.fst) + Encode(v.snd);
    hide *;
    Assoc(Encode(v.fst), Encode(v.snd), rest);
    DecodePair(sc, Encode(v) + rest, x, Encode(v.snd) + rest, y, rest);
  }

  lemma DecodePair(sc: Schema, b: bytes, x: Value, more: bytes, y: Value, rest: bytes)
    requires sc.Pair? && Decode(sc.first, b) == Some(Read(x, more)) && Decode(sc.second, more) == Some(Read(y, rest))
    ensures Decode(sc, b) == Some(Read(PairV(x, y), rest))
  {}

  /** Packed bytes followed by anything unpack to what is read for v, and leave the rest. */
  lemma {:induction false} Survives(sc: Schema, v: Value, rest: bytes)
    requires HasType(sc, v) && DirectOptionals(v) == 0
    ensures Decode(sc, Encode(v) + rest) == Some(Read(AsRead(v), rest))
    decreases v, 1
  {
    hide Decode, Encode, InFixed, Ascending, InsertAll;
    if IsScalar(v) {
      ScalarSurvives(sc, v, rest);
      return;
    }
    match v
    case SomeV(some) =>
      Survives(sc.of, some, rest);
      SomeFromPart(sc, v, AsRead(some), rest);
    case PairV(fst, snd) =>
      Survives(sc.first, fst, Encode(snd) + rest);
      Survives(sc.second, snd, rest);
      PairFromParts(sc, v, AsRead(fst), AsRead(snd), rest);
    case StructV(members) =>
      MembersSurvive(sc.fields, members, rest);
      StructFromParts(sc, v, AllAsRead(members), rest);
    case ListV(items) =>
      AllSurvive(sc.of, items, rest);
      ContainerFromParts(sc, v, AllAsRead(items), rest);
    case SetV(elements) =>
      SetSurvives(sc.of, [], elements, rest);
      ContainerFromParts(sc, v, InsertAll(false, [], AllAsRead(elements)), rest);
    case MapV(entries) =>
      AllNewToNothing(true, AllAsRead(entries));
      ReadKeysNew(sc, [], entries);
      MapSurvives(sc, [], entries, rest);
      ContainerFromParts(sc, v, InsertAll(true, [], AllAsRead(entries)), rest);
    case _ => {}
  }

  function Parts(v: Value): seq<Value>
    requires v.ListV? || v.SetV? || v.MapV?
  {
    match v case ListV(items) => items case SetV(elements) => elements case MapV(entries) => entries
  }

  lemma ContainerFromParts(sc: Schema, v: Value, out: seq<Value>, rest: bytes)
    requires (sc.List? && v.ListV?) || (sc.Set? && v.SetV?) || (sc.Map? && v.MapV?)
    requires |Parts(v)| < TWO_32
    requires var b, n := EncodeAll(Parts(v)) + rest, |Parts(v)|;
             (if sc.List? then DecodeAll(sc.of, n, b) else if sc.Set? then DecodeSet(sc.of, n, [], b)
              else DecodeMap(sc, n, [], b)) == Some(Read(out, rest))
    ensures Decode(sc, Encode(v) + rest)
         == Some(Read(if sc.List? then ListV(out) else if sc.Set? then SetV(out) else MapV(out), rest))
  {
    assert Encode(v) == EncodeSize(|Parts(v)|) + EncodeAll(Parts(v));
    hide *;
    var b := EncodeAll(Parts(v)) + rest;
    Assoc(EncodeSize(|Parts(v)|), EncodeAll(Parts(v)), rest);
    SizeSurvives(|Parts(v)|, b);
    DecodeContainer(sc, Encode(v) + rest, |Parts(v)|, b, out, rest);
  }

  lemma DecodeContainer(sc: Schema, b: bytes, n: nat, more: bytes, out: seq<Value>, rest: bytes)
    requires (sc.List? || sc.Set? || sc.Map?) && ReadVarint(b) == Some(VarintRead(n, more))
    requires (if sc.List? then DecodeAll(sc.of, n, more) else if sc.Set? then DecodeSet(sc.of, n, [], more)
              else DecodeMap(sc, n, [], more)) == Some(Read(out, rest))
    ensures Decode(sc, b) == Some(Read(if sc.List? then ListV(out) else if sc.Set? then SetV(out) else MapV(out), rest))
  {
    hide ReadVarint, DecodeAll, DecodeSet, DecodeMap;
  }

  lemma AllStep(sc: Schema, n: nat, b: bytes, v: Value, more: bytes, vs: seq<Value>, rest: bytes)
    requires n > 0 && Decode(sc, b) == Some(Read(v, more)) && DecodeAll(sc, n - 1, more) == Some(Read(vs, rest))
    ensures DecodeAll(sc, n, b) == Some(Read([v] + vs, rest))
  {
    hide Decode;
  }

  lemma {:induction false} AllSurvive(sc: Schema, vs: seq<Value>, rest: bytes)
    requires AllTyped(sc, vs) && AllDirectOptionals(vs) == 0
    ensures DecodeAll(sc, |vs|, EncodeAll(vs) + rest) == Some(Read(AllAsRead(vs), rest))
    decreases vs, 0
  {
    hide Decode, Encode, AsRead, HasType, DirectOptionals;
    if vs == [] {
      assert EncodeAll(vs) + rest == rest;
    } else {
      var more := EncodeAll(vs[1..]) + rest;
      Survives(sc, vs[0], more);
      AllSurvive(sc, vs[1..], rest);
      FirstEncoded(vs, rest);
      AllStep(sc, |vs|, EncodeAll(vs) + rest, AsRead(vs[0]), more, AllAsRead(vs[1..]), rest);
    }
  }

  lemma MembersStep(fields: seq<Schema>, b: bytes, v: Value, more: bytes, vs: seq<Value>, rest: bytes)
    requires fields != [] && Decode(fields[0], b) == Some(Read(v, more))
    requires DecodeMembers(fields[1..], more) == Some(Read(vs, rest))
    ensures DecodeMembers(fields, b) == Some(Read([v] + vs, rest))
  {
    hide Decode;
  }

  lemma FirstMember(vs: seq<Value>, rest: bytes)
    requires vs != [] && !vs[0].NoneV? && !vs[0].SomeV?
    ensures EncodeMembers(vs) + rest == Encode(vs[0]) + (EncodeMembers(vs[1..]) + rest)
  {
    Assoc(Encode(vs[0]), EncodeMembers(vs[1..]), rest);
    hide Encode;
  }

  lemma {:induction false} MembersSurvive(fields: seq<Schema>, vs: seq<Value>, rest: bytes)
    requires MembersTyped(fields, vs) && MemberOptionals(vs) == 0
    ensures DecodeMembers(fields, EncodeMembers(vs) + rest) == Some(Read(AllAsRead(vs), rest))
    decreases vs, 0
  {
    hide Decode, Encode, AsRead, HasType, DirectOptionals;
    if vs == [] {
      assert EncodeMembers(vs) + rest == rest;
    } else {
      var more := EncodeMembers(vs[1..]) + rest;
      Survives(fields[0], vs[0], more);
      MembersSurvive(fields[1..], vs[1..], rest);
      FirstMember(vs, rest);
      MembersStep(fields, EncodeMembers(vs) + rest, AsRead(vs[0]), more, AllAsRead(vs[1..]), rest);
    }
  }

  lemma SetStep(sc: Schema, n: nat, acc: seq<Value>, b: bytes, v: Value, more: bytes)
    requires n > 0 && Decode(sc, b) == Some(Read(v, more))
    ensures DecodeSet(sc, n, acc, b) == DecodeSet(sc, n - 1, Insert(false, acc, v), more)
  {
    hide Decode, Insert;
  }

  lemma MapStep(sc: Schema, n: nat, acc: seq<Value>, b: bytes, k: Value, v: Value, more: bytes)
    requires sc.Map? && n > 0 && Decode(Pair(sc.key, sc.of), b) == Some(Read(PairV(k, v), more))
    requires !HasKey(true, acc, k)
    ensures DecodeMap(sc, n, acc, b) == DecodeMap(sc, n - 1, Insert(true, acc, PairV(k, v)), more)
  {
    hide HasKey, Insert;
  }

  lemma FirstEncoded(vs: seq<Value>, rest: bytes)
    requires vs != []
    ensures EncodeAll(vs) + rest == Encode(vs[0]) + (EncodeAll(vs[1..]) + rest)
  {
    Assoc(Encode(vs[0]), EncodeAll(vs[1..]), rest);
    hide Encode;
  }

  lemma {:induction false} SetSurvives(sc: Schema, acc: seq<Value>, vs: seq<Value>, rest: bytes)
    requires AllTyped(sc, vs) && AllDirectOptionals(vs) == 0
    ensures DecodeSet(sc, |vs|, acc, EncodeAll(vs) + rest) == Some(Read(InsertAll(false, acc, AllAsRead(vs)), rest))
    decreases vs, 0
  {
    hide Insert, Decode, Encode;
    if vs == [] {
      assert EncodeAll(vs) + rest == rest;
    } else {
      var x, more := AsRead(vs[0]), EncodeAll(vs[1..]) + rest;
      assert AllAsRead(vs)[0] == x && AllAsRead(vs)[1..] == AllAsRead(vs[1..]);
      Survives(sc, vs[0], more);
      FirstEncoded(vs, rest);
      SetStep(sc, |vs|, acc, EncodeAll(vs) + rest, x, more);
      SetSurvives(sc, Insert(false, acc, x), vs[1..], rest);
    }
  }

  lemma {:induction false} MapSurvives(sc: Schema, acc: seq<Value>, es: seq<Value>, rest: bytes)
    requires sc.Map? && AllTyped(Pair(sc.key, sc.of), es) && AllDirectOptionals(es) == 0
    requires KeysNew(true, acc, AllAsRead(es))
    ensures DecodeMap(sc, |es|, acc, EncodeAll(es) + rest) == Some(Read(InsertAll(true, acc, AllAsRead(es)), rest))
    decreases es, 0
  {
    hide Insert, HasKey, Decode, Encode;
    if es == [] {
      assert EncodeAll(es) + rest == rest;
    } else {
      var x, more := AsRead(es[0]), EncodeAll(es[1..]) + rest;
      assert AllAsRead(es)[0] == x && AllAsRead(es)[1..] == AllAsRead(es[1..]);
      assert es[0].PairV? && x == PairV(AsRead(es[0].fst), AsRead(es[0].snd));
      Survives(Pair(sc.key, sc.of), es[0], more);
      FirstEncoded(es, rest);
      MapStep(sc, |es|, acc, EncodeAll(es) + rest, x.fst, x.snd, more);
      MapSurvives(sc, Insert(true, acc, x), es[1..], rest);
    }
  }

  // ----- bytes taken

  /** The size v would have if every optional carried its presence byte. */
  function FullSize(v: Value): nat
    decreases v
  {
    match v
    case SomeV(some) => 1 + FullSize(some)
    case ListV(items) => |EncodeSize(|items|)| + AllFullSize(items)
    case SetV(elements) => |EncodeSize(|elements|)| + AllFullSize(elements)
    case MapV(entries) => |EncodeSize(|entries|)| + AllFullSize(entries)
    case PairV(fst, snd) => FullSize(fst) + FullSize(snd)
    case StructV(members) => AllFullSize(members)
    case _ => |Encode(v)|
  }

  function AllFullSize(vs: seq<Value>): nat
    decreases vs
  {
    if vs == [] then 0 else FullSize(vs[0]) + AllFullSize(vs[1..])
  }

  lemma {:induction false} FullSizeGap(v: Value)
    ensures FullSize(v) == |Encode(v)| + DirectOptionals(v)
    decreases v, 0
  {
    match v
    case SomeV(some) => FullSizeGap(some);
    case ListV(items) => AllFullSizeGap(items);
    case SetV(elements) => AllFullSizeGap(elements);
    case MapV(entries) => AllFullSizeGap(entries);
    case PairV(fst, snd) => {
      FullSizeGap(fst);
      FullSizeGap(snd);
    }
    case StructV(members) => MemberFullSizeGap(members);
    case _ =>
  }

  lemma {:induction false} AllFullSizeGap(vs: seq<Value>)
    ensures AllFullSize(vs) == |EncodeAll(vs)| + AllDirectOptionals(vs)
    decreases vs, 0
  {
    if vs != [] {
      FullSizeGap(vs[0]);
      AllFullSizeGap(vs[1..]);
    }
  }

  lemma {:induction false} MemberFullSizeGap(vs: seq<Value>)
    ensures AllFullSize(vs) == |EncodeMembers(vs)| + MemberOptionals(vs)
    decreases vs, 0
  {
    if vs != [] {
      FullSizeGap(vs[0]);
      MemberFullSizeGap(vs[1..]);
    }
  }

  lemma {:induction false} InsertFullSize(map_: bool, vs: seq<Value>, v: Value)
    ensures |Insert(map_, vs, v)| <= |vs| + 1
    ensures AllFullSize(Insert(map_, vs, v)) <= AllFullSize(vs) + FullSize(v)
  {
    if vs == [] || Less(KeyOf(map_, v), KeyOf(map_, vs[0])) {
      assert ([v] + vs)[1..] == vs;
    } else if Less(KeyOf(map_, vs[0]), KeyOf(map_, v)) {
      InsertFullSize(map_, vs[1..], v);
      assert ([vs[0]] + Insert(map_, vs[1..], v))[1..] == Insert(map_, vs[1..], v);
    }
  }

  lemma SizeTaken(b: bytes, m: nat)
    requires ReadVarint(b).Some? && m <= ReadVarint(b).value.value
    ensures |EncodeSize(m)| <= |b| - |ReadVarint(b).value.rest|
  {
    VarintMinimal(b);
    LengthMonotone(m, ReadVarint(b).value.value);
  }

  lemma SVarTaken(b: bytes)
    requires Decode(SVar, b).Some?
    ensures var r := Decode(SVar, b).value; |Encode(r.value)| + |r.rest| <= |b|
  {
    var u := ReadVarint(b).value.value;
    VarintMinimal(b);
    if u < TWO_31 {
      UnzigzagInverse(u);
    } else {
      VarintLength(u);
      VarintLength(Zigzag(Unzigzag(u)));
    }
  }

  lemma ScalarTaken(sc: Schema, b: bytes)
    requires sc.Fixed? || sc.UVar? || sc.SVar? || sc.Flag? || sc.Text?
    requires Decode(sc, b).Some?
    ensures var r := Decode(sc, b).value; FullSize(r.value) + |r.rest| <= |b|
  {
    match sc
    case SVar => SVarTaken(b);
    case UVar => SizeTaken(b, ReadVarint(b).value.value);
    case Text => SizeTaken(b, ReadVarint(b).value.value);
    case _ =>
  }

  lemma ContainerParts(sc: Schema, b: bytes)
    requires sc.List? || sc.Set? || sc.Map?
    requires Decode(sc, b).Some?
    ensures ReadVarint(b).Some?
    ensures var n, r := ReadVarint(b).value, Decode(sc, b).value;
            match sc
            case List(of) => r.value.ListV? && DecodeAll(of, n.value, n.rest) == Some(Read(r.value.items, r.rest))
            case Set(of) => r.value.SetV? && DecodeSet(of, n.value, [], n.rest) == Some(Read(r.value.elements, r.rest))
            case Map(_, _) => r.value.MapV? && DecodeMap(sc, n.value, [], n.rest) == Some(Read(r.value.entries, r.rest))
            case _ => true
  {}

  lemma {:induction false} ContainerTaken(sc: Schema, b: bytes)
    requires sc.List? || sc.Set? || sc.Map?
    requires Decode(sc, b).Some?
    ensures var r := Decode(sc, b).value; FullSize(r.value) + |r.rest| <= |b|
    decreases sc, 1, (if ReadVarint(b).Some? then ReadVarint(b).value.value else 0) + 1
  {
    ContainerParts(sc, b);
    hide Decode, DecodeAll, DecodeSet, DecodeMap, ReadVarint, Encode;
    var n, v := ReadVarint(b).value, Decode(sc, b).value.value;
    match sc
    case List(of) => {
      AllTaken(of, n.value, n.rest);
      SizeTaken(b, |v.items|);
    }
    case Set(of) => {
      SetTaken(of, n.value, [], n.rest);
      SizeTaken(b, |v.elements|);
    }
    case Map(_, _) => {
      MapTaken(sc, n.value, [], n.rest);
      SizeTaken(b, |v.entries|);
    }
  }

  /** Unpacking takes at least the full size of what it yields. */
  lemma {:induction false} BytesTaken(sc: Schema, b: bytes)
    requires Decode(sc, b).Some?
    ensures var r := Decode(sc, b).value; FullSize(r.value) + |r.rest| <= |b|
    decreases sc, 2, 0
  {
    match sc
    case Opt(of) => if b[0] != 0 { BytesTaken(of, b[1..]); }
    case Pair(first, second) => {
      BytesTaken(first, b);
      BytesTaken(second, Decode(first, b).value.rest);
    }
    case Struct(fields) => MembersTaken(fields, b);
    case List(of) => ContainerTaken(sc, b);
    case Set(of) => ContainerTaken(sc, b);
    case Map(key, of) => ContainerTaken(sc, b);
    case _ => ScalarTaken(sc, b);
  }

  lemma {:induction false} AllTaken(sc: Schema, n: nat, b: bytes)
    requires DecodeAll(sc, n, b).Some?
    ensures var r := DecodeAll(sc, n, b).value; |r.value| == n && AllFullSize(r.value) + |r.rest| <= |b|
    decreases sc, 3, n
  {
    if n > 0 {
      BytesTaken(sc, b);
      AllTaken(sc, n - 1, Decode(sc, b).value.rest);
      var r := DecodeAll(sc, n, b).value;
      assert r.value[1..] == DecodeAll(sc, n - 1, Decode(sc, b).value.rest).value.value;
    }
  }

  lemma {:induction false} MembersTaken(fields: seq<Schema>, b: bytes)
    requires DecodeMembers(fields, b).Some?
    ensures var r := DecodeMembers(fields, b).value; AllFullSize(r.value) + |r.rest| <= |b|
    decreases fields, 4, 0
  {
    if fields != [] {
      BytesTaken(fields[0], b);
      MembersTaken(fields[1..], Decode(fields[0], b).value.rest);
      var r := DecodeMembers(fields, b).value;
      assert r.value[1..] == DecodeMembers(fields[1..], Decode(fields[0], b).value.rest).value.value;
    }
  }

  lemma {:induction false} SetTaken(sc: Schema, n: nat, acc: seq<Value>, b: bytes)
    requires DecodeSet(sc, n, acc, b).Some?
    ensures var r := DecodeSet(sc, n, acc, b).value;
            |r.value| <= |acc| + n && AllFullSize(r.value) + |r.rest| <= AllFullSize(acc) + |b|
    decreases sc, 3, n
  {
    hide Decode, Insert, AllFullSize;
    if n > 0 {
      BytesTaken(sc, b);
      var v := Decode(sc, b).value;
      InsertFullSize(false, acc, v.value);
      SetTaken(sc, n - 1, Insert(false, acc, v.value), v.rest);
    }
  }

  lemma {:induction false} MapTaken(sc: Schema, n: nat, acc: seq<Value>, b: bytes)
    requires sc.Map? && DecodeMap(sc, n, acc, b).Some?
    ensures var r := DecodeMap(sc, n, acc, b).value;
            |r.value| <= |acc| + n && AllFullSize(r.value) + |r.rest| <= AllFullSize(acc) + |b|
    decreases sc, 1, n
  {
    hide Decode, Insert, AllFullSize, HasKey;
    if n > 0 {
      BytesTaken(sc.key, b);
      var k := Decode(sc.key, b).value;
      BytesTaken(sc.of, k.rest);
      var v := Decode(sc.of, k.rest).value;
      InsertFullSize(true, acc, PairV(k.value, v.value));
      MapTaken(sc, n - 1, Insert(true, acc, PairV(k.value, v.value)), v.rest);
    }
  }

  // ----- when the value itself comes back

  lemma {:induction false} ExactIsReadBack(sc: Schema, v: Value)
    requires HasType(sc, v) && Exact(v)
    ensures AsRead(v) == v
    decreases v
  {
    hide InFixed, Ascending, InsertAll;
    match v
    case SomeV(some) => ExactIsReadBack(sc.of, some);
    case ListV(items) => AllExactIsReadBack(sc.of, items);
    case SetV(elements) =>
      AllExactIsReadBack(sc.of, elements);
      assert [] + elements == elements;
      InsertAscending(false, [], elements);
    case MapV(entries) =>
      AllExactIsReadBack(Pair(sc.key, sc.of), entries);
      assert [] + entries == entries;
      InsertAscending(true, [], entries);
    case PairV(fst, snd) =>
      ExactIsReadBack(sc.first, fst);
      ExactIsReadBack(sc.second, snd);
    case StructV(members) => MembersExactIsReadBack(sc.fields, members);
    case _ => {}
  }

  lemma {:induction false} AllExactIsReadBack(sc: Schema, vs: seq<Value>)
    requires AllTyped(sc, vs) && AllExact(vs)
    ensures AllAsRead(vs) == vs
    decreases vs
  {
    if vs != [] {
      ExactIsReadBack(sc, vs[0]);
      AllExactIsReadBack(sc, vs[1..]);
      assert vs == [vs[0]] + vs[1..];
    }
  }

  lemma {:induction false} MembersExactIsReadBack(fields: seq<Schema>, vs: seq<Value>)
    requires MembersTyped(fields, vs) && AllExact(vs)
    ensures AllAsRead(vs) == vs
    decreases vs
  {
    if vs != [] {
      ExactIsReadBack(fields[0], vs[0]);
      MembersExactIsReadBack(fields[1..], vs[1..]);
      assert vs == [vs[0]] + vs[1..];
    }
  }

  /** Every value of the schema, packed and followed by anything, unpacks to itself and leaves the
    * rest exactly when no class member is directly an optional and its varints, read back with
    * their low bits flipped and reordered by the containers they are in, make the same value. */
  lemma RoundTrip(sc: Schema, v: Value, rest: bytes)
    requires HasType(sc, v)
    ensures Decode(sc, Encode(v) + rest) == Some(Read(v, rest)) <==> AsRead(v) == v && DirectOptionals(v) == 0
    ensures Exact(v) ==> AsRead(v) == v
  {
    hide Decode, Encode, HasType, AsRead, Exact;
    if DirectOptionals(v) == 0 {
      Survives(sc, v, rest);
    } else if Decode(sc, Encode(v) + rest) == Some(Read(v, rest)) {
      BytesTaken(sc, Encode(v) + rest);
      FullSizeGap(v);
    }
    if Exact(v) {
      ExactIsReadBack(sc, v);
    }
  }

  /** The encodings of one schema are prefix-free. */
  lemma PrefixFree(sc: Schema, v: Value, w: Value, s: bytes, t: bytes)
    requires HasType(sc, v) && DirectOptionals(v) == 0
    requires HasType(sc, w) && DirectOptionals(w) == 0
    requires Encode(v) + s == Encode(w) + t
    ensures v == w && s == t
  {
    hide *;
    Survives(sc, v, s);
    Survives(sc, w, t);
    AsReadInjective(sc, v, w);
  }

  /** Two neighbours whose low bits differ trade places, and the set comes back as it was. */
  lemma SwappedPairSurvives()
    ensures var sc, v := Set(SVar), SetV([SVarV(0x4000_0000), SVarV(0x4000_0001)]);
            HasType(sc, v) && !Exact(v) && AsRead(v) == v
  {
    var x, y := SVarV(0x4000_0000), SVarV(0x4000_0001);
    assert [x, y][1..] == [y] && [y][1..] == [] && [y, x][1..] == [x] && [x][1..] == [];
    assert AllAsRead([y]) == [x] && AllAsRead([x, y]) == [y, x];
    assert Insert(false, [], y) == [y] && Insert(false, [y], x) == [x, y];
    assert InsertAll(false, [], [y, x]) == InsertAll(false, [y], [x]) == InsertAll(false, [x, y], []);
  }

  lemma OptionalMember()
    ensures MembersTyped([Opt(Flag)], [NoneV]) && EncodeMembers([NoneV]) == [] && DecodeMembers([Opt(Flag)], []).None?
    ensures Decode(Flag, [1]) == Some(Read(FlagV(true), []))
  {
    assert [NoneV][1..] == [] && [Opt(Flag)][1..] == [];
  }

  /** A class with an optional member does not survive: its bytes even run out. */
  lemma OptionalMemberIsLost()
    ensures var sc, v := Struct([Flag, Opt(Flag)]), StructV([FlagV(true), NoneV]);
            HasType(sc, v) && Encode(v) == [1] && Decode(sc, Encode(v)) == None
  {
    var fs, vs := [Flag, Opt(Flag)], [FlagV(true), NoneV];
    assert vs[1..] == [NoneV] && fs[1..] == [Opt(Flag)];
    OptionalMember();
    assert EncodeMembers(vs) == [1] + EncodeMembers(vs[1..]);
    assert DecodeMembers(fs, [1]).None?;
  }
}
