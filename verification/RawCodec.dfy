/** The raw binary codec: schema-directed, self-delimiting, over a datastream. */
module RawCodec {
  import opened Bytes
  import opened Wrappers
  import opened Varint

  /** The types the overloads of `pack` and `unpack` tell apart. `Text` is both std::string and
    * std::vector<char>; `List` any other sequence container; `Struct` a reflected class. */
  datatype Schema =
    | Fixed(width: nat, signed: bool)
    | UVar
    | SVar
    | Flag
    | Text
    | Opt(of: Schema)
    | List(of: Schema)
    | Set(of: Schema)
    | Map(key: Schema, of: Schema)
    | Pair(first: Schema, second: Schema)
    | Struct(fields: seq<Schema>)

  /** Sets and maps are listed in their iteration order; the entries of a map are pairs. */
  datatype Value =
    | FixedV(width: nat, n: int)
    | UVarV(u: nat)
    | SVarV(i: int)
    | FlagV(b: bool)
    | TextV(text: bytes)
    | NoneV
    | SomeV(some: Value)
    | ListV(items: seq<Value>)
    | SetV(elements: seq<Value>)
    | MapV(entries: seq<Value>)
    | PairV(fst: Value, snd: Value)
    | StructV(members: seq<Value>)

  // ----- encoding

  /** Little-endian two's complement, as a copy of the object's bytes. */
  function LittleEndian(n: int, width: nat): (b: bytes)
    ensures |b| == width
    decreases width
  {
    if width == 0 then [] else [n % 256] + LittleEndian(n / 256, width - 1)
  }

  /** `unsigned_int(value.size())` narrows the size to 32 bits. */
  function EncodeSize(n: nat): bytes {
    EncodeVarint(n % TWO_32)
  }

  lemma SizeBytes(n: nat)
    requires n < TWO_32
    ensures EncodeSize(n) == EncodeVarint(n)
  {
    hide EncodeVarint;
  }

  function EncodeUVar(n: nat): bytes {
    EncodeVarint(n % TWO_32)
  }

  function EncodeSVar(n: int): bytes {
    EncodeVarint(if IsInt32(n) then Zigzag(n) else 0)
  }

  function Encode(v: Value): bytes
    decreases v, 0
  {
    match v
    case FixedV(width, n) => LittleEndian(n, width)
    case UVarV(u) => EncodeUVar(u)
    case SVarV(i) => EncodeSVar(i)
    case FlagV(b) => [if b then 1 else 0]
    case TextV(text) => EncodeSize(|text|) + text
    case NoneV => [0]
    case SomeV(some) => [1] + Encode(some)
    case ListV(items) => EncodeSize(|items|) + EncodeAll(items)
    case SetV(elements) => EncodeSize(|elements|) + EncodeAll(elements)
    case MapV(entries) => EncodeSize(|entries|) + EncodeAll(entries)
    case PairV(fst, snd) => Encode(fst) + Encode(snd)
    case StructV(members) => EncodeMembers(members)
  }

  function EncodeAll(vs: seq<Value>): bytes
    decreases vs
  {
    if vs == [] then [] else Encode(vs[0]) + EncodeAll(vs[1..])
  }

  /** The object visitor: a member that is itself an optional is packed without a presence byte. */
  function EncodeMember(v: Value): bytes
    decreases v, 1
  {
    match v
    case NoneV => []
    case SomeV(some) => Encode(some)
    case _ => Encode(v)
  }

  function EncodeMembers(vs: seq<Value>): bytes
    decreases vs
  {
    if vs == [] then [] else EncodeMember(vs[0]) + EncodeMembers(vs[1..])
  }

  // ----- decoding into a fresh target

  datatype Read<+T> = Read(value: T, rest: bytes)

  function FromLittleEndian(b: bytes): (n: nat) {
    if b == [] then 0 else b[0] + 256 * FromLittleEndian(b[1..])
  }

  function PowerOf256(k: nat): (p: nat)
    ensures p > 0
  {
    if k == 0 then 1 else 256 * PowerOf256(k - 1)
  }

  /** A signed object whose top bit is set is negative. */
  function ReadFixed(b: bytes, signed: bool): int {
    var n := FromLittleEndian(b);
    if signed && 2 * n >= PowerOf256(|b|) then n - PowerOf256(|b|) else n
  }

  function TakeBytes(b: bytes, n: nat): Option<Read<bytes>> {
    if n <= |b| && n < TWO_31 then Some(Read(b[..n], b[n..])) else None
  }

  /** What `unpack` makes of the bytes. None where a read runs past the end, a varint has no
    * defined result, a size does not fit a signed 32-bit number, or a map key comes twice. */
  function Decode(sc: Schema, b: bytes): (r: Option<Read<Value>>)
    ensures r.Some? ==> |r.value.rest| <= |b|
    decreases sc, 2, 0
  {
    match sc
    case Fixed(width, signed) =>
      var t := TakeBytes(b, width);
      if t.None? then None else Some(Read(FixedV(width, ReadFixed(t.value.value, signed)), t.value.rest))
    case UVar =>
      var n := ReadVarint(b);
      if n.None? then None else Some(Read(UVarV(n.value.value), n.value.rest))
    case SVar =>
      var n := ReadVarint(b);
      if n.None? || n.value.value >= TWO_32 then None
      else Some(Read(SVarV(Unzigzag(n.value.value)), n.value.rest))
    case Flag =>
      if b == [] then None else Some(Read(FlagV(b[0] != 0), b[1..]))
    case Text =>
      var n := ReadVarint(b);
      if n.None? then None else
      var t := TakeBytes(n.value.rest, n.value.value);
      if t.None? then None else Some(Read(TextV(t.value.value), t.value.rest))
    case Opt(of) =>
      if b == [] then None
      else if b[0] == 0 then Some(Read(NoneV, b[1..]))
      else
        var v := Decode(of, b[1..]);
        if v.None? then None else Some(Read(SomeV(v.value.value), v.value.rest))
    case List(of) =>
      var n := ReadVarint(b);
      if n.None? then None else
      var vs := DecodeAll(of, n.value.value, n.value.rest);
      if vs.None? then None else Some(Read(ListV(vs.value.value), vs.value.rest))
    case Set(of) =>
      var n := ReadVarint(b);
      if n.None? then None else
      var vs := DecodeSet(of, n.value.value, [], n.value.rest);
      if vs.None? then None else Some(Read(SetV(vs.value.value), vs.value.rest))
    case Map(key, of) =>
      var n := ReadVarint(b);
      if n.None? then None else
      var es := DecodeMap(sc, n.value.value, [], n.value.rest);
      if es.None? then None else Some(Read(MapV(es.value.value), es.value.rest))
    case Pair(first, second) =>
      var x := Decode(first, b);
      if x.None? then None else
      var y := Decode(second, x.value.rest);
      if y.None? then None else Some(Read(PairV(x.value.value, y.value.value), y.value.rest))
    case Struct(fields) =>
      var vs := DecodeMembers(fields, b);
      if vs.None? then None else Some(Read(StructV(vs.value.value), vs.value.rest))
  }

  function DecodeAll(sc: Schema, n: nat, b: bytes): (r: Option<Read<seq<Value>>>)
    ensures r.Some? ==> |r.value.rest| <= |b|
    decreases sc, 3, n
  {
    if n == 0 then Some(Read([], b)) else
    var v := Decode(sc, b);
    if v.None? then None else
    var vs := DecodeAll(sc, n - 1, v.value.rest);
    if vs.None? then None else Some(Read([v.value.value] + vs.value.value, vs.value.rest))
  }

  function DecodeSet(sc: Schema, n: nat, acc: seq<Value>, b: bytes): (r: Option<Read<seq<Value>>>)
    ensures r.Some? ==> |r.value.rest| <= |b|
    decreases sc, 3, n
  {
    if n == 0 then Some(Read(acc, b)) else
    var v := Decode(sc, b);
    if v.None? then None else DecodeSet(sc, n - 1, Insert(false, acc, v.value.value), v.value.rest)
  }

  function DecodeMap(sc: Schema, n: nat, acc: seq<Value>, b: bytes): (r: Option<Read<seq<Value>>>)
    requires sc.Map?
    ensures r.Some? ==> |r.value.rest| <= |b|
    decreases sc, 1, n
  {
    if n == 0 then Some(Read(acc, b)) else
    var k := Decode(sc.key, b);
    if k.None? then None else
    var v := Decode(sc.of, k.value.rest);
    if v.None? || HasKey(true, acc, k.value.value) then None
    else DecodeMap(sc, n - 1, Insert(true, acc, PairV(k.value.value, v.value.value)), v.value.rest)
  }

  function DecodeMembers(fields: seq<Schema>, b: bytes): (r: Option<Read<seq<Value>>>)
    ensures r.Some? ==> |r.value.rest| <= |b|
    decreases fields, 4, 0
  {
    if fields == [] then Some(Read([], b)) else
    var v := Decode(fields[0], b);
    if v.None? then None else
    var vs := DecodeMembers(fields[1..], v.value.rest);
    if vs.None? then None else Some(Read([v.value.value] + vs.value.value, vs.value.rest))
  }

  // ----- ordered containers

  function Rank(v: Value): nat {
    match v
    case FixedV(_, _) => 0 case UVarV(_) => 1 case SVarV(_) => 2 case FlagV(_) => 3 case TextV(_) => 4
    case NoneV => 5 case SomeV(_) => 6 case ListV(_) => 7 case SetV(_) => 8 case MapV(_) => 9
    case PairV(_, _) => 10 case StructV(_) => 11
  }

  predicate BytesLess(a: bytes, b: bytes) {
    b != [] && (a == [] || a[0] < b[0] || (a[0] == b[0] && BytesLess(a[1..], b[1..])))
  }

  /** `std::less`: numbers by size, everything else lexicographically. */
  predicate Less(a: Value, b: Value)
    decreases a
  {
    match (a, b)
    case (FixedV(_, m), FixedV(_, n)) => m < n
    case (UVarV(m), UVarV(n)) => m < n
    case (SVarV(m), SVarV(n)) => m < n
    case (FlagV(p), FlagV(q)) => !p && q
    case (TextV(s), TextV(t)) => BytesLess(s, t)
    case (SomeV(x), SomeV(y)) => Less(x, y)
    case (ListV(x), ListV(y)) => AllLess(x, y)
    case (SetV(x), SetV(y)) => AllLess(x, y)
    case (StructV(x), StructV(y)) => AllLess(x, y)
    case (MapV(x), MapV(y)) => AllLess(x, y)
    case (PairV(x, x'), PairV(y, y')) => Less(x, y) || (x == y && Less(x', y'))
    case _ => Rank(a) < Rank(b)
  }

  predicate AllLess(a: seq<Value>, b: seq<Value>)
    decreases a
  {
    b != [] && (a == [] || Less(a[0], b[0]) || (a[0] == b[0] && AllLess(a[1..], b[1..])))
  }

  /** What a container is ordered by: the element of a set, the first half of a map's entry. */
  function KeyOf(map_: bool, e: Value): Value {
    if map_ && e.PairV? then e.fst else e
  }

  /** `insert` into an ordered container: an entry whose key is neither less nor greater than one
    * present is not added. */
  function Insert(map_: bool, es: seq<Value>, e: Value): seq<Value> {
    if es == [] || Less(KeyOf(map_, e), KeyOf(map_, es[0])) then [e] + es
    else if Less(KeyOf(map_, es[0]), KeyOf(map_, e)) then [es[0]] + Insert(map_, es[1..], e)
    else es
  }

  function InsertAll(map_: bool, done: seq<Value>, es: seq<Value>): seq<Value>
    decreases |es|
  {
    if es == [] then done else InsertAll(map_, Insert(map_, done, es[0]), es[1..])
  }

  predicate HasKey(map_: bool, es: seq<Value>, k: Value) {
    es != [] && ((!Less(k, KeyOf(map_, es[0])) && !Less(KeyOf(map_, es[0]), k)) || HasKey(map_, es[1..], k))
  }

  /** k is less than every key. */
  predicate Below(map_: bool, k: Value, es: seq<Value>) {
    es == [] || (Less(k, KeyOf(map_, es[0])) && Below(map_, k, es[1..]))
  }

  predicate Ascending(map_: bool, es: seq<Value>) {
    es == [] || (Below(map_, KeyOf(map_, es[0]), es[1..]) && Ascending(map_, es[1..]))
  }
}
