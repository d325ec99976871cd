/** Typed data survives the way through JSON values, and through JSON text. */
module ValueRoundTrip {
  import opened Bytes
  import opened Wrappers
  import opened JsonValue
  import opened JsonObject
  import opened JsonGrammar
  import JsonRoundTrip
  import JsonTokens
  import Base64
  import opened ValueIo

  // ----- typing

  predicate DistinctNames(dict: seq<Named>) {
    forall i, j :: 0 <= i < j < |dict| ==> dict[i].name != dict[j].name
  }

  predicate DistinctMembers(members: seq<Member>) {
    forall i, j :: 0 <= i < j < |members| ==> members[i].name != members[j].name
  }

  predicate DistinctKeys(entries: seq<Data>) {
    && (forall i :: 0 <= i < |entries| ==> entries[i].PairV?)
    && (forall i, j :: 0 <= i < j < |entries| ==> entries[i].first != entries[j].first)
  }

  const EXACT: int := 0x20_0000_0000_0000  // 2^53: up to here every integer is a double

  /** v has the type. Optionals are set, except where they are members of a struct. */
  predicate HasType(ty: Type, v: Data)
    decreases v, 1
  {
    match v
    case FlagV(_) => ty.Flag?
    case WholeV(n) => ty.Whole? && Fits(n, ty.bits, ty.signed) && -EXACT <= n <= EXACT
    case RealV(_) => ty.Real?
    case TextV(_) => ty.Text?
    case BlobV(_) => ty.Blob?
    case ListV(items) => ty.List? && ItemsTyped(ty.of, items)
    case PairV(first, second) => ty.Pair? && HasType(ty.key, first) && HasType(ty.of, second)
    case MapV(entries) => ty.Map? && ItemsTyped(Pair(ty.key, ty.of), entries) && DistinctKeys(entries)
    case DictV(dict) => ty.Dict? && DictTyped(ty.of, dict) && DistinctNames(dict)
    case TupleV(parts) => ty.Tuple? && PartsTyped(ty.types, parts)
    case StructV(values) => ty.Struct? && DistinctMembers(ty.members) && MembersTyped(ty.members, values)
    case NoneV => false
    case SomeV(some) => ty.Opt? && HasType(ty.of, some)
  }

  predicate ItemsTyped(ty: Type, items: seq<Data>)
    decreases items
  {
    items == [] || (HasType(ty, items[0]) && ItemsTyped(ty, items[1..]))
  }

  predicate DictTyped(ty: Type, dict: seq<Named>)
    decreases dict
  {
    dict == [] || (HasType(ty, dict[0].val) && DictTyped(ty, dict[1..]))
  }

  predicate PartsTyped(types: seq<Type>, parts: seq<Data>)
    decreases parts
  {
    |types| == |parts| && (parts == [] || (HasType(types[0], parts[0]) && PartsTyped(types[1..], parts[1..])))
  }

  predicate MemberTyped(ty: Type, v: Data)
    decreases v, 2
  {
    if v.NoneV? then ty.Opt? else HasType(ty, v)
  }

  predicate MembersTyped(members: seq<Member>, values: seq<Data>)
    decreases values, 0
  {
    |members| == |values| && forall i :: 0 <= i < |values| ==> MemberTyped(members[i].ty, values[i])
  }

  /** No byte vector in v is empty: packing an empty one leaves null, which does not unpack. */
  predicate Solid(v: Data)
    decreases v
  {
    match v
    case BlobV(data) => data != []
    case ListV(items) => AllSolid(items)
    case PairV(first, second) => Solid(first) && Solid(second)
    case MapV(entries) => AllSolid(entries)
    case DictV(dict) => DictSolid(dict)
    case TupleV(parts) => AllSolid(parts)
    case StructV(values) => AllSolid(values)
    case SomeV(some) => Solid(some)
    case FlagV(_) => true
    case WholeV(_) => true
    case RealV(_) => true
    case TextV(_) => true
    case NoneV => true
  }

  predicate AllSolid(vs: seq<Data>)
    decreases vs
  {
    vs == [] || (Solid(vs[0]) && AllSolid(vs[1..]))
  }

  predicate DictSolid(dict: seq<Named>)
    decreases dict
  {
    dict == [] || (Solid(dict[0].val) && DictSolid(dict[1..]))
  }

  // ----- through JSON values

  function If<T>(ok: bool, v: T): Option<T> {
    if ok then Some(v) else None
  }

  lemma {:induction false} Survives(ty: Type, v: Data)
    requires HasType(ty, v)
    ensures FromJson(ty, Default(ty), ToJson(ty, v)) == If(Solid(v), v)
    decreases v, 1
  {
    match v
    case FlagV(_) => {}
    case WholeV(n) => WholeTruncates(n);
    case RealV(_) => {}
    case TextV(_) => {}
    case BlobV(data) => Base64.RoundTrip(data);
    case ListV(items) =>
      ItemsSurvive(ty.of, items);
      assert [] + items == items;
    case PairV(_, _) => PairSurvives(ty, v);
    case MapV(entries) => EntriesSurvive(ty, [], entries);
      assert [] + entries == entries;
    case DictV(dict) =>
      DictKeysInOrder(ty.of, dict);
      DictSurvives(ty.of, [], dict);
      assert [] + dict == dict;
    case TupleV(parts) => PartsSurvive(ty.types, parts);
    case StructV(_) => StructSurvives(ty, v);
    case SomeV(some) => Survives(ty.of, some);
    case NoneV => {}
  }

  lemma {:induction false} PairSurvives(ty: Type, v: Data)
    requires v.PairV? && HasType(ty, v)
    ensures FromJson(ty, Default(ty), ToJson(ty, v)) == If(Solid(v), v)
    decreases v, 0
  {
    Survives(ty.key, v.first);
    Survives(ty.of, v.second);
    PairLookups(ToJson(ty.key, v.first), ToJson(ty.of, v.second));
  }

  lemma {:induction false} StructSurvives(ty: Type, v: Data)
    requires v.StructV? && HasType(ty, v)
    ensures FromJson(ty, Default(ty), ToJson(ty, v)) == If(Solid(v), v)
    decreases v, 0
  {
    var values, keys := v.values, MemberKeys(ty.members, v.values);
    forall i | 0 <= i < |values|
      ensures MemberFromJson(ty.members[i], Default(ty.members[i].ty), keys) == If(Solid(values[i]), values[i])
    {
      MemberSurvives(ty.members, values, i);
    }
    MembersSurvive(ty.members, values, keys);
  }

  lemma {:induction false} ItemsSurvive(ty: Type, items: seq<Data>)
    requires ItemsTyped(ty, items)
    ensures ItemsFromJson(ty, ItemsToJson(ty, items)) == If(AllSolid(items), items)
    decreases items
  {
    if items != [] {
      Survives(ty, items[0]);
      ItemsSurvive(ty, items[1..]);
      assert [items[0]] + items[1..] == items;
      assert ItemsToJson(ty, items)[1..] == ItemsToJson(ty, items[1..]);
      hide ToJson, FromJson, Solid, HasType;
    }
  }

  lemma PairLookups(first: Value, second: Value)
    ensures var keys := PairKeys(first, second);
            && HasKey(keys, "first") && Lookup(keys, "first") == first
            && HasKey(keys, "second") && Lookup(keys, "second") == second
  {
    SetThenLookup([], "first", first, "first");
    SetThenLookup(SetKey([], "first", first), "second", second, "first");
    SetThenLookup(SetKey([], "first", first), "second", second, "second");
  }

  lemma {:induction false} AssignNew(done: seq<Data>, p: Data)
    requires p.PairV? && forall i :: 0 <= i < |done| && done[i].PairV? ==> done[i].first != p.first
    ensures Assign(done, p) == done + [p]
  {
    if done != [] {
      AssignNew(done[1..], p);
    }
  }

  lemma {:induction false} EntrySurvives(ty: Type, p: Data)
    requires ty.Map? && HasType(Pair(ty.key, ty.of), p)
    ensures PairFromJson(ty, Default(ty.key), Default(ty.of), ToJson(Pair(ty.key, ty.of), p)) == If(Solid(p), p)
    decreases p, 2
  {
    Survives(ty.key, p.first);
    Survives(ty.of, p.second);
    PairLookups(ToJson(ty.key, p.first), ToJson(ty.of, p.second));
    hide FromJson, Solid, HasType;
  }

  lemma {:induction false} EntriesSurvive(ty: Type, done: seq<Data>, entries: seq<Data>)
    requires ty.Map? && ItemsTyped(Pair(ty.key, ty.of), entries) && DistinctKeys(done + entries)
    ensures EntriesFromJson(ty, done, ItemsToJson(Pair(ty.key, ty.of), entries))
            == If(AllSolid(entries), done + entries)
    decreases entries
  {
    if entries == [] {
      assert done + [] == done;
    } else {
      var p := entries[0];
      var js := ItemsToJson(Pair(ty.key, ty.of), entries);
      EntrySurvives(ty, p);
      assert js[1..] == ItemsToJson(Pair(ty.key, ty.of), entries[1..]) && js[0] == ToJson(Pair(ty.key, ty.of), p);
      assert p == (done + entries)[|done|];
      forall i | 0 <= i < |done|
        ensures done[i].PairV? && done[i].first != p.first
      {
        assert (done + entries)[i] == done[i];
      }
      AssignNew(done, p);
      assert done + [p] + entries[1..] == done + entries;
      EntriesSurvive(ty, done + [p], entries[1..]);
      hide ToJson, PairFromJson, Solid, HasType, Default;
    }
  }

  // ----- maps with string keys

  function DictList(ty: Type, dict: seq<Named>): (keys: seq<KeyVal>)
    ensures |keys| == |dict|
  {
    seq(|dict|, i requires 0 <= i < |dict| => KeyVal(dict[i].name, ToJson(ty, dict[i].val)))
  }

  /** Distinct keys come out in the map's order. */
  lemma {:induction false} DictKeysInOrder(ty: Type, dict: seq<Named>)
    requires DistinctNames(dict)
    ensures DictKeys(ty, dict) == DictList(ty, dict)
    decreases |dict|
  {
    if dict != [] {
      var n := |dict| - 1;
      DictKeysInOrder(ty, dict[..n]);
      NoKey(DictList(ty, dict[..n]), dict[n].name);
      hide ToJson;
    }
  }

  lemma {:induction false} StoreNew(ty: Type, done: seq<Named>, name: string, v: Data)
    requires forall i :: 0 <= i < |done| ==> done[i].name != name
    ensures Store(done, name, v) == done + [Named(name, v)] && Slot(ty, done, name) == Default(ty)
  {
    if done != [] {
      StoreNew(ty, done[1..], name, v);
    }
  }

  lemma {:induction false} DictSurvives(ty: Type, done: seq<Named>, dict: seq<Named>)
    requires DictTyped(ty, dict) && DistinctNames(done + dict)
    ensures DictFromJson(ty, done, DictList(ty, dict)) == If(DictSolid(dict), done + dict)
    decreases dict
  {
    if dict == [] {
      assert done + [] == done;
    } else {
      var e := dict[0];
      var keys := DictList(ty, dict);
      Survives(ty, e.val);
      assert keys[1..] == DictList(ty, dict[1..]) && keys[0] == KeyVal(e.name, ToJson(ty, e.val));
      assert (done + dict)[|done|] == e;
      forall i | 0 <= i < |done|
        ensures done[i].name != e.name
      {
        assert (done + dict)[i] == done[i];
      }
      StoreNew(ty, done, e.name, e.val);
      assert done + [e] + dict[1..] == done + dict;
      DictSurvives(ty, done + [e], dict[1..]);
      hide ToJson, FromJson, Solid, HasType, Default;
    }
  }

  // ----- fusion sequences and structs

  lemma {:induction false} PartsSurvive(types: seq<Type>, parts: seq<Data>)
    requires PartsTyped(types, parts)
    ensures PartsFromJson(types, Defaults(types), PartsToJson(types, parts)) == If(AllSolid(parts), parts)
    decreases parts
  {
    if parts != [] {
      Survives(types[0], parts[0]);
      PartsSurvive(types[1..], parts[1..]);
      assert [parts[0]] + parts[1..] == parts;
      assert PartsToJson(types, parts)[1..] == PartsToJson(types[1..], parts[1..]);
      assert Defaults(types)[1..] == Defaults(types[1..]);
      hide ToJson, FromJson, Solid, HasType, Default;
    }
  }

  predicate Skipped(m: Member, v: Data) {
    m.ty.Opt? && v.NoneV?
  }

  predicate PackedAs(m: Member, v: Data, name: string) {
    m.name == name && !Skipped(m, v)
  }

  predicate SomePackedAs(members: seq<Member>, values: seq<Data>, name: string)
    requires |members| == |values|
  {
    exists i :: 0 <= i < |members| && PackedAs(members[i], values[i], name)
  }

  lemma LastMember(members: seq<Member>, values: seq<Data>, name: string)
    requires |members| == |values| && members != []
    ensures var n := |members| - 1;
            SomePackedAs(members, values, name)
            <==> SomePackedAs(members[..n], values[..n], name) || PackedAs(members[n], values[n], name)
  {
    var n := |members| - 1;
    assert forall i :: 0 <= i < n ==> members[..n][i] == members[i] && values[..n][i] == values[i];
    hide PackedAs;
  }

  /** Each member that is not skipped is found under its own name, and nothing else is. */
  lemma {:induction false} MemberLookup(members: seq<Member>, values: seq<Data>, name: string)
    requires |members| == |values| && DistinctMembers(members)
    ensures var keys := MemberKeys(members, values);
            && (HasKey(keys, name) <==> SomePackedAs(members, values, name))
            && forall i :: 0 <= i < |members| && PackedAs(members[i], values[i], name)
                 ==> HasKey(keys, name) && Lookup(keys, name) == ToJson(members[i].ty, values[i])
    decreases |members|
  {
    assert !HasKey([], name);
    hide ToJson, SetKey, Lookup, HasKey;
    if members != [] {
      var n := |members| - 1;
      var before, keys := MemberKeys(members[..n], values[..n]), MemberKeys(members, values);
      MemberLookup(members[..n], values[..n], name);
      LastMember(members, values, name);
      SetThenLookup(before, members[n].name, ToJson(members[n].ty, values[n]), name);
      forall i | 0 <= i < |members| && PackedAs(members[i], values[i], name)
        ensures HasKey(keys, name) && Lookup(keys, name) == ToJson(members[i].ty, values[i])
      {
        if i < n {
          assert members[..n][i] == members[i] && values[..n][i] == values[i];
          assert members[n].name != name;
        }
      }
      assert HasKey(keys, name) <==> HasKey(before, name) || PackedAs(members[n], values[n], name);
      hide SomePackedAs, DistinctMembers, MemberKeys;
    }
  }

  lemma {:induction false} MemberSurvives(members: seq<Member>, values: seq<Data>, i: nat)
    requires DistinctMembers(members) && MembersTyped(members, values) && i < |values|
    ensures MemberFromJson(members[i], Default(members[i].ty), MemberKeys(members, values))
            == If(Solid(values[i]), values[i])
    decreases values[i], 2
  {
    var m, v := members[i], values[i];
    assert MemberTyped(m.ty, v);
    MemberLookup(members, values, m.name);
    if Skipped(m, v) {
      assert forall k :: 0 <= k < |members| && members[k].name == m.name ==> k == i;
    } else {
      Survives(m.ty, v);
    }
    hide ToJson, FromJson, HasType, MemberKeys;
  }

  lemma {:induction false} MembersSurvive(members: seq<Member>, values: seq<Data>, keys: seq<KeyVal>)
    requires |members| == |values|
    requires forall i :: 0 <= i < |values| ==>
               MemberFromJson(members[i], Default(members[i].ty), keys) == If(Solid(values[i]), values[i])
    ensures MembersFromJson(members, MemberDefaults(members), keys) == If(AllSolid(values), values)
    decreases |members|
  {
    if members != [] {
      forall i | 0 <= i < |values| - 1
        ensures MemberFromJson(members[1..][i], Default(members[1..][i].ty), keys)
                == If(Solid(values[1..][i]), values[1..][i])
      {
        assert members[1..][i] == members[i + 1] && values[1..][i] == values[i + 1];
      }
      MembersSurvive(members[1..], values[1..], keys);
      assert [values[0]] + values[1..] == values;
      assert MemberDefaults(members)[1..] == MemberDefaults(members[1..]);
      hide MemberFromJson, Solid, Default;
    }
  }

  // ----- through text

  function ToText(st: Style, ty: Type, v: Data): string {
    Render(st, ToJson(ty, v))
  }

  function FromText(ty: Type, target: Data, text: string): Option<Data> {
    match Read(text)
    case Got(j, _) => FromJson(ty, target, j)
    case Fail => None
  }

  /** Every real is a multiple of one millionth, and every string and name keeps its characters. */
  predicate Plain(ty: Type, v: Data)
    decreases v, 1
  {
    match v
    case RealV(x) => JsonTokens.WholeMillionths(x)
    case TextV(s) => JsonTokens.Printable(s)
    case ListV(items) => ItemsPlain(ElementType(ty), items)
    case PairV(first, second) => Plain(KeyType(ty), first) && Plain(ElementType(ty), second)
    case MapV(entries) => ItemsPlain(if ty.Map? then Pair(ty.key, ty.of) else ty, entries)
    case DictV(dict) => DictPlain(ElementType(ty), dict)
    case TupleV(parts) => PartsPlain(if ty.Tuple? then ty.types else [], parts)
    case StructV(values) => MembersPlain(if ty.Struct? then ty.members else [], values)
    case SomeV(some) => Plain(ElementType(ty), some)
    case FlagV(_) => true
    case WholeV(_) => true
    case BlobV(_) => true
    case NoneV => true
  }

  predicate ItemsPlain(ty: Type, items: seq<Data>)
    decreases items, 0
  {
    items == [] || (Plain(ty, items[0]) && ItemsPlain(ty, items[1..]))
  }

  predicate PartsPlain(types: seq<Type>, parts: seq<Data>)
    decreases parts, 0
  {
    parts == [] || types == [] || (Plain(types[0], parts[0]) && PartsPlain(types[1..], parts[1..]))
  }

  predicate DictPlain(ty: Type, dict: seq<Named>)
    decreases dict, 0
  {
    dict == []
    || var n := |dict| - 1;
       DictPlain(ty, dict[..n]) && JsonTokens.Printable(dict[n].name) && Plain(ty, dict[n].val)
  }

  predicate MembersPlain(members: seq<Member>, values: seq<Data>)
    decreases values, 0
  {
    values == [] || |members| != |values|
    || var n := |values| - 1;
       && MembersPlain(members[..n], values[..n])
       && (Skipped(members[n], values[n])
           || (JsonTokens.Printable(members[n].name) && Plain(members[n].ty, values[n])))
  }

  lemma {:induction false} EncodedCharacters(data: bytes)
    ensures forall i :: 0 <= i < |Base64.Encode(data)| ==>
              Base64.IsBase64(Base64.Encode(data)[i]) || Base64.Encode(data)[i] == '='
    decreases |data|
  {
    if |data| >= 3 {
      EncodedCharacters(data[3..]);
      var head, tail := Base64.Text4(data[0], data[1], data[2]), Base64.Encode(data[3..]);
      assert Base64.Encode(data) == head + tail;
      hide Base64.Encode, Base64.Text4, Base64.IsBase64;
    }
  }

  /** Base64 text survives printing and reading, whatever the bytes. */
  lemma EncodedIsPrintable(data: bytes)
    ensures JsonTokens.Printable(Base64.Encode(data))
  {
    EncodedCharacters(data);
    hide Base64.Encode;
    JsonTokens.OrdinaryIsPrintable(Base64.Encode(data));
  }

  lemma WholeIsClean(n: int)
    ensures JsonTokens.WholeMillionths(n as real)
  {
    assert n as real == (n * 1000000) as real / 1000000.0;
    JsonTokens.WholeMillionthsMeaning(n as real, n * 1000000);
  }

  lemma {:induction false} CleanSnoc(keys: seq<KeyVal>, kv: KeyVal)
    ensures JsonRoundTrip.CleanMembers(keys + [kv])
       <==> JsonRoundTrip.CleanMembers(keys) && JsonTokens.Printable(kv.key) && JsonRoundTrip.Clean(kv.val)
  {
    if keys == [] {
      assert [] + [kv] == [kv] && [kv][1..] == [];
    } else {
      assert (keys + [kv])[1..] == keys[1..] + [kv];
      CleanSnoc(keys[1..], kv);
    }
    hide JsonRoundTrip.Clean, JsonTokens.Printable;
  }

  lemma PairClean(first: Value, second: Value)
    ensures JsonRoundTrip.Clean(Obj(PairKeys(first, second)))
            <==> JsonRoundTrip.Clean(first) && JsonRoundTrip.Clean(second)
  {
    NoKey([], "first");
    NoKey([KeyVal("first", first)], "second");
    JsonTokens.OrdinaryIsPrintable("first");
    JsonTokens.OrdinaryIsPrintable("second");
    CleanSnoc([], KeyVal("first", first));
    CleanSnoc([KeyVal("first", first)], KeyVal("second", second));
    assert [] + [KeyVal("first", first)] == [KeyVal("first", first)];
    hide JsonTokens.Printable;
  }

  /** The JSON form of typed data is clean exactly when the data is plain. */
  lemma {:induction false} CleanIffPlain(ty: Type, v: Data)
    requires HasType(ty, v)
    ensures JsonRoundTrip.Clean(ToJson(ty, v)) <==> Plain(ty, v)
    decreases v, 1
  {
    match v
    case WholeV(n) => WholeIsClean(n);
    case BlobV(data) => EncodedIsPrintable(data);
    case ListV(items) => ItemsClean(ty.of, items);
    case PairV(first, second) =>
      CleanIffPlain(ty.key, first);
      CleanIffPlain(ty.of, second);
      PairClean(ToJson(ty.key, first), ToJson(ty.of, second));
    case MapV(entries) => ItemsClean(Pair(ty.key, ty.of), entries);
    case DictV(dict) => DictClean(ty.of, dict);
    case TupleV(parts) => PartsClean(ty.types, parts);
    case StructV(values) => MembersClean(ty.members, values);
    case SomeV(some) => CleanIffPlain(ty.of, some);
    case FlagV(_) => {}
    case RealV(_) => {}
    case TextV(_) => {}
    case NoneV => {}
  }

  lemma {:induction false} ItemsClean(ty: Type, items: seq<Data>)
    requires ItemsTyped(ty, items)
    ensures JsonRoundTrip.CleanItems(ItemsToJson(ty, items)) <==> ItemsPlain(ty, items)
    decreases items, 0
  {
    if items != [] {
      CleanIffPlain(ty, items[0]);
      ItemsClean(ty, items[1..]);
      assert ItemsToJson(ty, items)[1..] == ItemsToJson(ty, items[1..]);
      hide ToJson, Plain, HasType, JsonRoundTrip.Clean;
    }
  }

  lemma {:induction false} PartsClean(types: seq<Type>, parts: seq<Data>)
    requires PartsTyped(types, parts)
    ensures JsonRoundTrip.CleanItems(PartsToJson(types, parts)) <==> PartsPlain(types, parts)
    decreases parts, 0
  {
    if parts != [] {
      CleanIffPlain(types[0], parts[0]);
      PartsClean(types[1..], parts[1..]);
      assert PartsToJson(types, parts)[1..] == PartsToJson(types[1..], parts[1..]);
      hide ToJson, Plain, HasType, JsonRoundTrip.Clean;
    }
  }

  lemma {:induction false} DictTypedAt(ty: Type, dict: seq<Named>, i: nat)
    requires DictTyped(ty, dict) && i < |dict|
    ensures HasType(ty, dict[i].val) && DictTyped(ty, dict[..i])
    decreases i
  {
    if i > 0 {
      DictTypedAt(ty, dict[1..], i - 1);
      assert dict[..i][1..] == dict[1..][..i - 1];
    }
    hide HasType;
  }

  lemma {:induction false} DictClean(ty: Type, dict: seq<Named>)
    requires DictTyped(ty, dict) && DistinctNames(dict)
    ensures JsonRoundTrip.CleanMembers(DictKeys(ty, dict)) <==> DictPlain(ty, dict)
    decreases dict, 0
  {
    if dict != [] {
      var n := |dict| - 1;
      DictTypedAt(ty, dict, n);
      DictClean(ty, dict[..n]);
      CleanIffPlain(ty, dict[n].val);
      DictKeysInOrder(ty, dict[..n]);
      NoKey(DictList(ty, dict[..n]), dict[n].name);
      CleanSnoc(DictKeys(ty, dict[..n]), KeyVal(dict[n].name, ToJson(ty, dict[n].val)));
      hide ToJson, Plain, HasType, JsonRoundTrip.Clean, JsonRoundTrip.CleanMembers;
    }
  }

  lemma {:induction false} NoKeySnoc(keys: seq<KeyVal>, k: string, v: Value)
    requires !HasKey(keys, k)
    ensures SetKey(keys, k, v) == keys + [KeyVal(k, v)]
  {
    if keys != [] {
      NoKeySnoc(keys[1..], k, v);
    }
  }

  lemma {:induction false} MembersClean(members: seq<Member>, values: seq<Data>)
    requires DistinctMembers(members) && MembersTyped(members, values)
    ensures JsonRoundTrip.CleanMembers(MemberKeys(members, values)) <==> MembersPlain(members, values)
    decreases values, 0
  {
    if values != [] {
      var n := |values| - 1;
      var keys := MemberKeys(members[..n], values[..n]);
      MembersClean(members[..n], values[..n]);
      if !Skipped(members[n], values[n]) {
        assert MemberTyped(members[n].ty, values[n]);
        CleanIffPlain(members[n].ty, values[n]);
        MemberLookup(members[..n], values[..n], members[n].name);
        NoKeySnoc(keys, members[n].name, ToJson(members[n].ty, values[n]));
        CleanSnoc(keys, KeyVal(members[n].name, ToJson(members[n].ty, values[n])));
      }
      hide ToJson, Plain, HasType, JsonRoundTrip.Clean, JsonRoundTrip.CleanMembers, SetKey, Lookup;
    }
  }

  /** Typed data printed in either layout and read into a fresh target comes back, when it is plain
    * and has no empty byte vector; and reading gives the printed JSON value only if it is plain. */
  lemma TextRoundTrip(st: Style, ty: Type, v: Data)
    requires HasType(ty, v)
    ensures Plain(ty, v) ==> FromText(ty, Default(ty), ToText(st, ty, v)) == If(Solid(v), v)
    ensures Read(ToText(st, ty, v)) == Got(ToJson(ty, v), "") <==> Plain(ty, v)
  {
    CleanIffPlain(ty, v);
    JsonRoundTrip.ReadUndoesPrint(st, ToJson(ty, v));
    Survives(ty, v);
    hide ToJson, FromJson, HasType, Plain, Solid, Read, Render, JsonRoundTrip.Clean;
  }

  /** Any byte vector that is not empty survives the way through text. */
  lemma BytesSurviveText(st: Style, data: bytes)
    requires data != []
    ensures FromText(Blob, Default(Blob), ToText(st, Blob, BlobV(data))) == Some(BlobV(data))
  {
    TextRoundTrip(st, Blob, BlobV(data));
    hide FromText, ToText;
  }
}
