/** Typed data as JSON values: scalars, containers, pairs, both map forms, byte vectors, fusion
  * sequences and reflected structs. */
module ValueIo {
  import opened Bytes
  import opened Wrappers
  import opened JsonValue
  import opened JsonObject
  import Base64

  datatype Type =
    | Flag
    | Whole(bits: nat, signed: bool)
    | Real
    | Text
    | Blob                              // std::vector<char>
    | List(of: Type)                    // any other std::vector
    | Pair(key: Type, of: Type)
    | Map(key: Type, of: Type)          // an array of pairs
    | Dict(of: Type)                    // std::map with string keys, an object
    | Tuple(types: seq<Type>)           // a fusion sequence
    | Struct(members: seq<Member>)      // a reflected class
    | Opt(of: Type)

  datatype Member = Member(name: string, ty: Type)

  /** A map is the list of its entries, each a pair. */
  datatype Data =
    | FlagV(b: bool)
    | WholeV(n: int)
    | RealV(x: real)
    | TextV(s: string)
    | BlobV(data: bytes)
    | ListV(items: seq<Data>)
    | PairV(first: Data, second: Data)
    | MapV(entries: seq<Data>)
    | DictV(dict: seq<Named>)
    | TupleV(parts: seq<Data>)
    | StructV(values: seq<Data>)
    | NoneV
    | SomeV(some: Data)

  datatype Named = Named(name: string, val: Data)

  // ----- to JSON

  function ToJson(ty: Type, v: Data): Value
    decreases v, 0
  {
    match v
    case FlagV(b) => Bool(b)
    case WholeV(n) => Num(n as real)
    case RealV(x) => Num(x)
    case TextV(s) => Str(s)
    case BlobV(data) => if data == [] then Null else Str(Base64.Encode(data))
    case ListV(items) => Arr(ItemsToJson(ElementType(ty), items))
    case PairV(first, second) => Obj(PairKeys(ToJson(KeyType(ty), first), ToJson(ElementType(ty), second)))
    case MapV(entries) => Arr(ItemsToJson(if ty.Map? then Pair(ty.key, ty.of) else ty, entries))
    case DictV(dict) => Obj(DictKeys(ElementType(ty), dict))
    case TupleV(parts) => Arr(PartsToJson(if ty.Tuple? then ty.types else [], parts))
    case StructV(values) => Obj(MemberKeys(if ty.Struct? then ty.members else [], values))
    case NoneV => Null
    case SomeV(some) => ToJson(ElementType(ty), some)
  }

  function ElementType(ty: Type): Type {
    if ty.List? || ty.Pair? || ty.Map? || ty.Dict? || ty.Opt? then ty.of else ty
  }

  function KeyType(ty: Type): Type {
    if ty.Pair? || ty.Map? then ty.key else ty
  }

  function PairKeys(first: Value, second: Value): seq<KeyVal> {
    SetKey(SetKey([], "first", first), "second", second)
  }

  function ItemsToJson(ty: Type, items: seq<Data>): (js: seq<Value>)
    ensures |js| == |items|
    decreases items, 0
  {
    if items == [] then [] else [ToJson(ty, items[0])] + ItemsToJson(ty, items[1..])
  }

  function PartsToJson(types: seq<Type>, parts: seq<Data>): (js: seq<Value>)
    ensures |js| == |parts|
    decreases parts, 0
  {
    if parts == [] then []
    else if types == [] then [Null] + PartsToJson([], parts[1..])
    else [ToJson(types[0], parts[0])] + PartsToJson(types[1..], parts[1..])
  }

  /** `o[itr->first]`, entry after entry. */
  function DictKeys(ty: Type, dict: seq<Named>): seq<KeyVal>
    decreases dict, 0
  {
    if dict == [] then []
    else
      var n := |dict| - 1;
      SetKey(DictKeys(ty, dict[..n]), dict[n].name, ToJson(ty, dict[n].val))
  }

  /** `obj[name]`, member after member; an optional that is not set leaves no key. */
  function MemberKeys(members: seq<Member>, values: seq<Data>): seq<KeyVal>
    decreases values, 0
  {
    if values == [] || |members| != |values| then []
    else
      var n := |values| - 1;
      var keys := MemberKeys(members[..n], values[..n]);
      if members[n].ty.Opt? && values[n].NoneV? then keys
      else SetKey(keys, members[n].name, ToJson(members[n].ty, values[n]))
  }

  // ----- from JSON, into a target

  function Default(ty: Type): Data
    decreases ty, 0
  {
    match ty
    case Flag => FlagV(false)
    case Whole(_, _) => WholeV(0)
    case Real => RealV(0.0)
    case Text => TextV("")
    case Blob => BlobV([])
    case List(_) => ListV([])
    case Pair(key, of) => PairV(Default(key), Default(of))
    case Map(_, _) => MapV([])
    case Dict(_) => DictV([])
    case Tuple(types) => TupleV(Defaults(types))
    case Struct(members) => StructV(MemberDefaults(members))
    case Opt(_) => NoneV
  }

  function Defaults(types: seq<Type>): (vs: seq<Data>)
    ensures |vs| == |types|
    decreases types, 0
  {
    if types == [] then [] else [Default(types[0])] + Defaults(types[1..])
  }

  function MemberDefaults(members: seq<Member>): (vs: seq<Data>)
    ensures |vs| == |members|
    decreases members, 0
  {
    if members == [] then [] else [Default(members[0].ty)] + MemberDefaults(members[1..])
  }

  function Pow2(k: nat): (p: nat)
    ensures p > 0
  {
    if k == 0 then 1 else 2 * Pow2(k - 1)
  }

  predicate Fits(n: int, bits: nat, signed: bool) {
    if signed then -(Pow2(bits) as int) <= 2 * n < Pow2(bits) else 0 <= n < Pow2(bits)
  }

  /** What `unpack` leaves in the target. None where it raises, and where the conversion of a number
    * or a read past an array's end has no defined result. */
  function FromJson(ty: Type, target: Data, j: Value): Option<Data>
    decreases ty, 1, 0
  {
    match ty
    case Flag => if j.Bool? then Some(FlagV(j.b)) else None
    case Whole(bits, signed) =>
      if j.Num? && Fits(Truncate(j.n), bits, signed) then Some(WholeV(Truncate(j.n))) else None
    case Real => if j.Num? then Some(RealV(j.n)) else None
    case Text => if j.Str? then Some(TextV(j.s)) else None
    case Blob => if j.Str? then Some(BlobV(Base64.Decode(j.s))) else None
    case List(of) =>
      if !j.Arr? then None
      else
        var vs := ItemsFromJson(of, j.vals);
        if vs.None? then None else Some(ListV((if target.ListV? then target.items else []) + vs.value))
    case Pair(key, of) =>
      PairFromJson(ty, if target.PairV? then target.first else Default(key),
                   if target.PairV? then target.second else Default(of), j)
    case Map(key, of) =>
      if !j.Arr? then None
      else
        var es := EntriesFromJson(ty, [], j.vals);
        if es.None? then None else Some(MapV(es.value))
    case Dict(of) =>
      if !j.Obj? then None
      else
        var dict := DictFromJson(of, [], j.keys);
        if dict.None? then None else Some(DictV(dict.value))
    case Tuple(types) =>
      if !j.Arr? then None
      else
        var vs := PartsFromJson(types, if target.TupleV? then target.parts else [], j.vals);
        if vs.None? then None else Some(TupleV(vs.value))
    case Struct(members) =>
      if !j.Obj? then None
      else
        var vs := MembersFromJson(members, if target.StructV? then target.values else [], j.keys);
        if vs.None? then None else Some(StructV(vs.value))
    case Opt(of) =>
      var v := FromJson(of, Default(of), j);
      if v.None? then None else Some(SomeV(v.value))
  }

  /** The elements are appended to what the vector holds. */
  function ItemsFromJson(ty: Type, js: seq<Value>): (r: Option<seq<Data>>)
    ensures r.Some? ==> |r.value| == |js|
    decreases ty, 2, |js|
  {
    if js == [] then Some([])
    else
      var v := FromJson(ty, Default(ty), js[0]);
      var vs := ItemsFromJson(ty, js[1..]);
      if v.None? || vs.None? then None else Some([v.value] + vs.value)
  }

  function PairFromJson(ty: Type, first: Data, second: Data, j: Value): (r: Option<Data>)
    requires ty.Pair? || ty.Map?
    ensures r.Some? ==> r.value.PairV?
    decreases ty, 0, 0
  {
    if !j.Obj? || !HasKey(j.keys, "first") || !HasKey(j.keys, "second") then None
    else
      var k := FromJson(ty.key, first, Lookup(j.keys, "first"));
      var v := FromJson(ty.of, second, Lookup(j.keys, "second"));
      if k.None? || v.None? then None else Some(PairV(k.value, v.value))
  }

  /** `value[p.first] = p.second`. */
  function Assign(entries: seq<Data>, p: Data): seq<Data> {
    if entries == [] then [p]
    else if p.PairV? && entries[0].PairV? && entries[0].first == p.first then [p] + entries[1..]
    else [entries[0]] + Assign(entries[1..], p)
  }

  function EntriesFromJson(ty: Type, done: seq<Data>, js: seq<Value>): Option<seq<Data>>
    requires ty.Map?
    decreases ty, 0, |js| + 1
  {
    if js == [] then Some(done)
    else
      var p := PairFromJson(ty, Default(ty.key), Default(ty.of), js[0]);
      if p.None? then None else EntriesFromJson(ty, Assign(done, p.value), js[1..])
  }

  /** The element `val[name]` is, and what it becomes. */
  function Slot(ty: Type, dict: seq<Named>, name: string): Data {
    if dict == [] then Default(ty) else if dict[0].name == name then dict[0].val else Slot(ty, dict[1..], name)
  }

  function Store(dict: seq<Named>, name: string, v: Data): seq<Named> {
    if dict == [] then [Named(name, v)]
    else if dict[0].name == name then [Named(name, v)] + dict[1..]
    else [dict[0]] + Store(dict[1..], name, v)
  }

  function DictFromJson(ty: Type, done: seq<Named>, keys: seq<KeyVal>): Option<seq<Named>>
    decreases ty, 2, |keys|
  {
    if keys == [] then Some(done)
    else
      var v := FromJson(ty, Slot(ty, done, keys[0].key), keys[0].val);
      if v.None? then None else DictFromJson(ty, Store(done, keys[0].key, v.value), keys[1..])
  }

  function PartsFromJson(types: seq<Type>, targets: seq<Data>, js: seq<Value>): Option<seq<Data>>
    decreases types, 2, 0
  {
    if types == [] then Some([])
    else if js == [] then None
    else
      var v := FromJson(types[0], if targets == [] then Default(types[0]) else targets[0], js[0]);
      var vs := PartsFromJson(types[1..], if targets == [] then [] else targets[1..], js[1..]);
      if v.None? || vs.None? then None else Some([v.value] + vs.value)
  }

  /** A member without a key keeps what it has. */
  function MemberFromJson(m: Member, target: Data, keys: seq<KeyVal>): Option<Data>
    decreases m, 2, 0
  {
    if HasKey(keys, m.name) then FromJson(m.ty, target, Lookup(keys, m.name)) else Some(target)
  }

  function MembersFromJson(members: seq<Member>, targets: seq<Data>, keys: seq<KeyVal>): Option<seq<Data>>
    decreases members, 2, 0
  {
    if members == [] then Some([])
    else
      var v := MemberFromJson(members[0], if targets == [] then Default(members[0].ty) else targets[0], keys);
      var vs := MembersFromJson(members[1..], if targets == [] then [] else targets[1..], keys);
      if v.None? || vs.None? then None else Some([v.value] + vs.value)
  }
}
