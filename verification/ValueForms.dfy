/** The JSON form of typed data, part by part, and what unpacking leaves in a target that already holds
  * something. */
module ValueForms {
  import opened Bytes
  import opened Wrappers
  import opened JsonValue
  import opened JsonObject
  import opened ValueIo
  import opened ValueRoundTrip
  import Base64

  // ----- scalars

  /** A conversion to an integer drops the fraction, towards zero. */
  lemma TruncateMeaning(x: real, n: int)
    ensures Truncate(x) == n <==>
            if x >= 0.0 then n as real <= x < n as real + 1.0 else n as real - 1.0 < x <= n as real
  {}

  /** The values of an integer type of so many bits. */
  predicate InRange(n: int, bits: nat, signed: bool) {
    match (bits, signed)
    case (8, false) => 0 <= n <= 255
    case (16, false) => 0 <= n <= 65535
    case (32, false) => 0 <= n <= 4294967295
    case (64, false) => 0 <= n <= 18446744073709551615
    case (8, true) => -128 <= n <= 127
    case (16, true) => -32768 <= n <= 32767
    case (32, true) => -2147483648 <= n <= 2147483647
    case (64, true) => -9223372036854775808 <= n <= 9223372036854775807
    case _ => false
  }

  lemma EightMore(k: nat)
    ensures Pow2(k + 8) == 256 * Pow2(k)
  {
    assert Pow2(k + 2) == 4 * Pow2(k);
    assert Pow2(k + 4) == 4 * Pow2(k + 2);
    assert Pow2(k + 6) == 4 * Pow2(k + 4);
  }

  lemma WordSizes()
    ensures Pow2(8) == 256 && Pow2(16) == 65536 && Pow2(32) == 4294967296 && Pow2(64) == 18446744073709551616
  {
    assert Pow2(0) == 1;
    hide Pow2;
    EightMore(0);
    EightMore(8);
    EightMore(16);
    EightMore(24);
    EightMore(32);
    EightMore(40);
    EightMore(48);
    EightMore(56);
  }

  /** An integer is read from a number whose whole part is in its type's range, as that whole part, and
    * from nothing else; what the target held does not matter. */
  lemma WholeIsRead(bits: nat, signed: bool, target: Data, j: Value, n: int)
    requires bits == 8 || bits == 16 || bits == 32 || bits == 64
    ensures FromJson(Whole(bits, signed), target, j) == Some(WholeV(n))
       <==> && j.Num? && InRange(n, bits, signed)
            && if j.n >= 0.0 then n as real <= j.n < n as real + 1.0 else n as real - 1.0 < j.n <= n as real
  {
    Fitting(bits, signed, n);
    var ty := Whole(bits, signed);
    assert FromJson(ty, target, j) ==
           if j.Num? && Fits(Truncate(j.n), bits, signed) then Some(WholeV(Truncate(j.n))) else None;
    hide Fits, InRange, FromJson, Truncate;
    if j.Num? {
      TruncateMeaning(j.n, n);
    }
  }

  lemma Fitting(bits: nat, signed: bool, n: int)
    requires bits == 8 || bits == 16 || bits == 32 || bits == 64
    ensures Fits(n, bits, signed) <==> InRange(n, bits, signed)
  {
    WordSizes();
    hide Pow2;
  }

  /** The other scalars: a flag is true or false, a number itself, a string itself, and a byte vector the
    * base64 text of its bytes, or null if it has none. */
  lemma FlagForm(b: bool, target: Data, j: Value)
    ensures ToJson(Flag, FlagV(b)) == Bool(b)
    ensures FromJson(Flag, target, j) == Some(FlagV(b)) <==> j == Bool(b)
  {}

  lemma RealForm(x: real, target: Data, j: Value)
    ensures ToJson(Real, RealV(x)) == Num(x)
    ensures FromJson(Real, target, j) == Some(RealV(x)) <==> j == Num(x)
  {}

  lemma TextForm(s: string, target: Data, j: Value)
    ensures ToJson(Text, TextV(s)) == Str(s)
    ensures FromJson(Text, target, j) == Some(TextV(s)) <==> j == Str(s)
  {}

  lemma WholeForm(bits: nat, signed: bool, n: int)
    ensures ToJson(Whole(bits, signed), WholeV(n)) == Num(n as real)
  {}

  lemma BlobForm(data: bytes, target: Data, j: Value)
    ensures ToJson(Blob, BlobV(data)) == if |data| == 0 then Null else Str(Base64.Encode(data))
    ensures FromJson(Blob, target, j) == Some(BlobV(data)) <==> j.Str? && Base64.Decode(j.s) == data
  {
    hide Base64.Encode, Base64.Decode;
  }

  // ----- sequences, by index

  lemma {:induction false} ItemForm(ty: Type, items: seq<Data>, i: nat)
    requires i < |items|
    ensures ItemsToJson(ty, items)[i] == ToJson(ty, items[i])
  {
    if i > 0 {
      ItemForm(ty, items[1..], i - 1);
    }
  }

  /** A vector is the array of its elements. */
  lemma ListForm(of: Type, items: seq<Data>)
    ensures var j := ToJson(List(of), ListV(items));
            && j.Arr? && |j.vals| == |items|
            && forall i :: 0 <= i < |items| ==> j.vals[i] == ToJson(of, items[i])
  {
    forall i | 0 <= i < |items|
      ensures ItemsToJson(of, items)[i] == ToJson(of, items[i])
    {
      ItemForm(of, items, i);
    }
  }

  lemma {:induction false} ItemsAreRead(ty: Type, js: seq<Value>)
    ensures var r := ItemsFromJson(ty, js);
            && (r.Some? <==> forall i :: 0 <= i < |js| ==> FromJson(ty, Default(ty), js[i]).Some?)
            && (r.Some? ==> forall i :: 0 <= i < |js| ==> FromJson(ty, Default(ty), js[i]) == Some(r.value[i]))
    decreases |js|
  {
    hide FromJson, Default;
    if js != [] {
      ItemsAreRead(ty, js[1..]);
      assert forall i :: 0 < i < |js| ==> js[i] == js[1..][i - 1];
    }
  }

  /** Reading an array into a vector appends: the old elements stay in front, and each element of the
    * array, read on its own, follows. */
  lemma ListOverTarget(of: Type, old_: seq<Data>, js: seq<Value>)
    ensures var r := FromJson(List(of), ListV(old_), Arr(js));
            && (r.Some? <==> forall i :: 0 <= i < |js| ==> FromJson(of, Default(of), js[i]).Some?)
            && (r.Some? ==>
                  && r.value.ListV? && |r.value.items| == |old_| + |js|
                  && (forall i :: 0 <= i < |old_| ==> r.value.items[i] == old_[i])
                  && (forall i :: 0 <= i < |js| ==>
                        FromJson(of, Default(of), js[i]) == Some(r.value.items[|old_| + i])))
  {
    ItemsAreRead(of, js);
    assert FromJson(List(of), ListV(old_), Arr(js)) ==
           var vs := ItemsFromJson(of, js); if vs.None? then None else Some(ListV(old_ + vs.value));
    hide FromJson, Default;
  }

  // ----- pairs, tuples and optionals

  /** A pair is an object with the keys first and second. */
  lemma PairForm(key: Type, of: Type, first: Data, second: Data)
    ensures var j := ToJson(Pair(key, of), PairV(first, second));
            && j.Obj? && |j.keys| == 2 && HasKey(j.keys, "first") && HasKey(j.keys, "second")
            && Lookup(j.keys, "first") == ToJson(key, first) && Lookup(j.keys, "second") == ToJson(of, second)
  {
    var x, y := ToJson(key, first), ToJson(of, second);
    assert ToJson(Pair(key, of), PairV(first, second)) == Obj(PairKeys(x, y));
    hide ToJson;
    PairLookups(x, y);
    SetKeepsOrder([], "first", x);
    SetThenLookup([], "first", x, "second");
    SetKeepsOrder(SetKey([], "first", x), "second", y);
    hide SetKey;
  }

  /** Each half of a pair is read into what the target's half holds. */
  lemma PairOverTarget(key: Type, of: Type, first: Data, second: Data, keys: seq<KeyVal>, x: Data, y: Data)
    ensures FromJson(Pair(key, of), PairV(first, second), Obj(keys)) == Some(PairV(x, y))
       <==> && HasKey(keys, "first") && FromJson(key, first, Lookup(keys, "first")) == Some(x)
            && HasKey(keys, "second") && FromJson(of, second, Lookup(keys, "second")) == Some(y)
  {
    assert FromJson(Pair(key, of), PairV(first, second), Obj(keys))
        == PairFromJson(Pair(key, of), first, second, Obj(keys));
    hide FromJson, Lookup, HasKey;
  }

  lemma {:induction false} PartForm(types: seq<Type>, parts: seq<Data>, i: nat)
    requires |types| == |parts| && i < |parts|
    ensures PartsToJson(types, parts)[i] == ToJson(types[i], parts[i])
  {
    if i > 0 {
      PartForm(types[1..], parts[1..], i - 1);
    }
  }

  /** A fusion sequence is the array of its parts. */
  lemma TupleForm(types: seq<Type>, parts: seq<Data>)
    requires |types| == |parts|
    ensures var j := ToJson(Tuple(types), TupleV(parts));
            && j.Arr? && |j.vals| == |parts|
            && forall i :: 0 <= i < |parts| ==> j.vals[i] == ToJson(types[i], parts[i])
  {
    forall i | 0 <= i < |parts|
      ensures PartsToJson(types, parts)[i] == ToJson(types[i], parts[i])
    {
      PartForm(types, parts, i);
    }
  }

  lemma {:induction false} PartsAreRead(types: seq<Type>, targets: seq<Data>, js: seq<Value>)
    requires |types| == |targets|
    ensures var r := PartsFromJson(types, targets, js);
            && (r.Some? <==>
                  && |types| <= |js|
                  && forall i :: 0 <= i < |types| ==> FromJson(types[i], targets[i], js[i]).Some?)
            && (r.Some? ==> |r.value| == |types|
                            && forall i :: 0 <= i < |types| ==>
                                 FromJson(types[i], targets[i], js[i]) == Some(r.value[i]))
    decreases |types|
  {
    hide FromJson, Default;
    if types != [] && js != [] {
      PartsAreRead(types[1..], targets[1..], js[1..]);
      assert forall i :: 0 < i < |types| ==> types[i] == types[1..][i - 1] && targets[i] == targets[1..][i - 1];
      assert forall i :: 0 < i < |js| ==> js[i] == js[1..][i - 1];
    }
  }

  /** The parts of a fusion sequence are read from the elements at their positions, each into what the
    * target holds there; an array that is too short cannot be read, and what it has beyond is ignored. */
  lemma TupleOverTarget(types: seq<Type>, targets: seq<Data>, js: seq<Value>)
    requires |types| == |targets|
    ensures var r := FromJson(Tuple(types), TupleV(targets), Arr(js));
            && (r.Some? <==>
                  && |types| <= |js|
                  && forall i :: 0 <= i < |types| ==> FromJson(types[i], targets[i], js[i]).Some?)
            && (r.Some? ==>
                  && r.value.TupleV? && |r.value.parts| == |types|
                  && forall i :: 0 <= i < |types| ==> FromJson(types[i], targets[i], js[i]) == Some(r.value.parts[i]))
  {
    PartsAreRead(types, targets, js);
    assert FromJson(Tuple(types), TupleV(targets), Arr(js)) ==
           var vs := PartsFromJson(types, targets, js); if vs.None? then None else Some(TupleV(vs.value));
    hide FromJson, Default;
  }

  // ----- reflected classes

  /** What a member becomes when an object's keys are read into it: itself, if its name is no key. */
  predicate BecomesMember(m: Member, target: Data, keys: seq<KeyVal>, v: Data) {
    if HasKey(keys, m.name) then FromJson(m.ty, target, Lookup(keys, m.name)) == Some(v) else v == target
  }

  lemma {:induction false} MembersAreRead(members: seq<Member>, targets: seq<Data>, keys: seq<KeyVal>)
    requires |members| == |targets|
    ensures var r := MembersFromJson(members, targets, keys);
            && (r.Some? <==> forall i :: 0 <= i < |members| && HasKey(keys, members[i].name) ==>
                               FromJson(members[i].ty, targets[i], Lookup(keys, members[i].name)).Some?)
            && (r.Some? ==> |r.value| == |members|
                            && forall i :: 0 <= i < |members| ==>
                                 BecomesMember(members[i], targets[i], keys, r.value[i]))
    decreases |members|
  {
    hide FromJson, Default, Lookup, HasKey;
    if members != [] {
      MembersAreRead(members[1..], targets[1..], keys);
      assert forall i :: 0 < i < |members| ==> members[i] == members[1..][i - 1] && targets[i] == targets[1..][i - 1];
    }
  }

  /** Reading an object into a class: each member whose name is a key is read from that key's value into
    * what it holds, and every other member keeps what it holds. */
  lemma StructOverTarget(members: seq<Member>, targets: seq<Data>, keys: seq<KeyVal>)
    requires |members| == |targets|
    ensures var r := FromJson(Struct(members), StructV(targets), Obj(keys));
            && (r.Some? <==> forall i :: 0 <= i < |members| && HasKey(keys, members[i].name) ==>
                               FromJson(members[i].ty, targets[i], Lookup(keys, members[i].name)).Some?)
            && (r.Some? ==>
                  && r.value.StructV? && |r.value.values| == |members|
                  && forall i :: 0 <= i < |members| ==>
                       if HasKey(keys, members[i].name)
                       then
                         FromJson(members[i].ty, targets[i], Lookup(keys, members[i].name)) == Some(r.value.values[i])
                       else r.value.values[i] == targets[i])
  {
    MembersAreRead(members, targets, keys);
    assert FromJson(Struct(members), StructV(targets), Obj(keys)) ==
           var vs := MembersFromJson(members, targets, keys); if vs.None? then None else Some(StructV(vs.value));
    hide FromJson, Default, Lookup, HasKey;
  }

  /** Packing one object of a class and unpacking it over another: a member whose optional was not set
    * keeps what it holds, and every other is read from its own packed form. */
  lemma StructOverStruct(members: seq<Member>, values: seq<Data>, targets: seq<Data>)
    requires |members| == |values| == |targets| && DistinctMembers(members)
    ensures var r := FromJson(Struct(members), StructV(targets), ToJson(Struct(members), StructV(values)));
            r.Some? ==>
              && r.value.StructV? && |r.value.values| == |members|
              && forall i :: 0 <= i < |members| ==>
                   if members[i].ty.Opt? && values[i].NoneV? then r.value.values[i] == targets[i]
                   else FromJson(members[i].ty, targets[i], ToJson(members[i].ty, values[i])) == Some(r.value.values[i])
  {
    var keys := MemberKeys(members, values);
    assert ToJson(Struct(members), StructV(values)) == Obj(keys);
    StructOverTarget(members, targets, keys);
    var r := FromJson(Struct(members), StructV(targets), Obj(keys));
    hide FromJson, ToJson, MemberKeys;
    if r.Some? {
      forall i | 0 <= i < |members|
        ensures if members[i].ty.Opt? && values[i].NoneV? then r.value.values[i] == targets[i]
                else FromJson(members[i].ty, targets[i], ToJson(members[i].ty, values[i])) == Some(r.value.values[i])
      {
        MemberLookup(members, values, members[i].name);
        if Skipped(members[i], values[i]) {
          assert forall k :: 0 <= k < |members| && members[k].name == members[i].name ==> k == i;
        } else {
          assert PackedAs(members[i], values[i], members[i].name);
        }
        hide Lookup, HasKey;
      }
    }
  }

  /** Scalars, byte vectors, both kinds of map, and optionals do not depend on what the target holds. */
  lemma TargetIsReplaced(ty: Type, target: Data, other: Data, j: Value)
    requires !ty.List? && !ty.Pair? && !ty.Tuple? && !ty.Struct?
    ensures FromJson(ty, target, j) == FromJson(ty, other, j)
  {}

  /** A set optional has the form of its value, and is set to what that is read as on its own. */
  lemma OptionalForm(of: Type, v: Data)
    ensures ToJson(Opt(of), SomeV(v)) == ToJson(of, v)
  {}

  lemma OptionalIsRead(of: Type, v: Data, target: Data, j: Value)
    ensures FromJson(Opt(of), target, j) == Some(SomeV(v)) <==> FromJson(of, Default(of), j) == Some(v)
  {
    var x := FromJson(of, Default(of), j);
    assert FromJson(Opt(of), target, j) == if x.None? then None else Some(SomeV(x.value));
    hide *;
  }

  // ----- maps

  /** A map is the array of its entries, each a pair. */
  lemma MapForm(key: Type, of: Type, entries: seq<Data>)
    ensures var j := ToJson(Map(key, of), MapV(entries));
            && j.Arr? && |j.vals| == |entries|
            && forall i :: 0 <= i < |entries| ==> j.vals[i] == ToJson(Pair(key, of), entries[i])
  {
    forall i | 0 <= i < |entries|
      ensures ItemsToJson(Pair(key, of), entries)[i] == ToJson(Pair(key, of), entries[i])
    {
      ItemForm(Pair(key, of), entries, i);
    }
  }

  /** What a list of entries holds under a key. */
  function Held(entries: seq<Data>, k: Data): Option<Data> {
    if entries == [] then None
    else if entries[0].PairV? && entries[0].first == k then Some(entries[0].second) else Held(entries[1..], k)
  }

  lemma {:induction false} AssignThenHeld(entries: seq<Data>, p: Data, k: Data)
    requires p.PairV?
    ensures Held(Assign(entries, p), k) == if k == p.first then Some(p.second) else Held(entries, k)
  {
    if entries != [] {
      AssignThenHeld(entries[1..], p, k);
      assert ([p] + entries[1..])[1..] == entries[1..];
      assert ([entries[0]] + Assign(entries[1..], p))[1..] == Assign(entries[1..], p);
    }
  }

  /** The pair that an element of the array is read as. */
  function PairAt(key: Type, of: Type, j: Value): Option<Data> {
    FromJson(Pair(key, of), PairV(Default(key), Default(of)), j)
  }

  /** Reading an array of pairs into a map: under each key it holds the value of the last pair with that
    * key, and nothing if there is none. */
  lemma {:induction false} EntriesAreRead(key: Type, of: Type, done: seq<Data>, js: seq<Value>, k: Data)
    ensures var r := EntriesFromJson(Map(key, of), done, js);
            && (r.Some? <==> forall i :: 0 <= i < |js| ==> PairAt(key, of, js[i]).Some?)
            && (r.Some? ==> Held(r.value, k) == LastHeld(key, of, js, k, Held(done, k)))
    decreases |js|
  {
    if js != [] {
      PairAtIs(key, of, js[0]);
    }
    hide PairFromJson, PairAt, Default, Assign;
    if js != [] && PairAt(key, of, js[0]).Some? {
      var p := PairAt(key, of, js[0]).value;
      AssignThenHeld(done, p, k);
      EntriesAreRead(key, of, Assign(done, p), js[1..], k);
      assert forall i :: 0 < i < |js| ==> js[i] == js[1..][i - 1];
    }
  }

  lemma PairAtIs(key: Type, of: Type, j: Value)
    ensures PairAt(key, of, j) == PairFromJson(Map(key, of), Default(key), Default(of), j)
    ensures PairAt(key, of, j).Some? ==> PairAt(key, of, j).value.PairV?
  {
    var x, y := Default(key), Default(of);
    assert FromJson(Pair(key, of), PairV(x, y), j) == PairFromJson(Pair(key, of), x, y, j);
    hide FromJson, Default, Lookup, HasKey;
    assert PairFromJson(Pair(key, of), x, y, j) == PairFromJson(Map(key, of), x, y, j);
  }

  /** The value of the last pair of js with the key k, or else what was there before. */
  function LastHeld(key: Type, of: Type, js: seq<Value>, k: Data, before: Option<Data>): Option<Data>
    decreases |js|
  {
    if js == [] then before
    else
      var p := PairAt(key, of, js[0]);
      var hit := p.Some? && p.value.PairV? && p.value.first == k;
      LastHeld(key, of, js[1..], k, if hit then Some(p.value.second) else before)
  }

  /** A map is cleared first, and then holds, under each key, the value of the last pair with it. */
  lemma MapOverTarget(key: Type, of: Type, target: Data, js: seq<Value>, k: Data)
    ensures var r := FromJson(Map(key, of), target, Arr(js));
            && (r.Some? <==> forall i :: 0 <= i < |js| ==> PairAt(key, of, js[i]).Some?)
            && (r.Some? ==> r.value.MapV? && Held(r.value.entries, k) == LastHeld(key, of, js, k, None))
  {
    EntriesAreRead(key, of, [], js, k);
    assert FromJson(Map(key, of), target, Arr(js)) ==
           var es := EntriesFromJson(Map(key, of), [], js); if es.None? then None else Some(MapV(es.value));
    hide FromJson, PairAt, LastHeld;
  }

  // ----- maps with string keys

  /** What is found under a name. */
  function Under(dict: seq<Named>, name: string): Option<Data> {
    if dict == [] then None else if dict[0].name == name then Some(dict[0].val) else Under(dict[1..], name)
  }

  lemma {:induction false} SlotIsUnder(ty: Type, dict: seq<Named>, name: string)
    ensures Slot(ty, dict, name) == if Under(dict, name).Some? then Under(dict, name).value else Default(ty)
  {
    hide Default;
    if dict != [] {
      SlotIsUnder(ty, dict[1..], name);
    }
  }

  lemma {:induction false} StoreThenUnder(dict: seq<Named>, name: string, v: Data, other: string)
    ensures Under(Store(dict, name, v), other) == if other == name then Some(v) else Under(dict, other)
  {
    if dict != [] {
      StoreThenUnder(dict[1..], name, v, other);
      assert ([Named(name, v)] + dict[1..])[1..] == dict[1..];
      assert ([dict[0]] + Store(dict[1..], name, v))[1..] == Store(dict[1..], name, v);
    }
  }

  /** The values under a name, in the order of the object's keys. */
  function ValuesUnder(keys: seq<KeyVal>, name: string): seq<Value> {
    if keys == [] then []
    else (if keys[0].key == name then [keys[0].val] else []) + ValuesUnder(keys[1..], name)
  }

  /** Values read one after the other into the same element, the first of them into what is there or a default
    * value. */
  function ReadInTurn(of: Type, before: Option<Data>, js: seq<Value>): Option<Data>
    decreases |js|
  {
    if js == [] then before
    else ReadInTurn(of, FromJson(of, if before.Some? then before.value else Default(of), js[0]), js[1..])
  }

  lemma {:induction false} KeysAreRead(of: Type, done: seq<Named>, keys: seq<KeyVal>, name: string)
    ensures var r := DictFromJson(of, done, keys);
            r.Some? ==> Under(r.value, name) == ReadInTurn(of, Under(done, name), ValuesUnder(keys, name))
    decreases |keys|
  {
    if keys != [] {
      var k := keys[0].key;
      SlotIsUnder(of, done, k);
      var v := FromJson(of, Slot(of, done, k), keys[0].val);
      if v.Some? {
        StoreThenUnder(done, k, v.value, name);
        KeysAreRead(of, Store(done, k, v.value), keys[1..], name);
      }
      NextUnder(keys, name);
    }
    hide FromJson, Default, Store, Slot, ValuesUnder;
  }

  lemma NextUnder(keys: seq<KeyVal>, name: string)
    requires keys != []
    ensures keys[0].key != name ==> ValuesUnder(keys, name) == ValuesUnder(keys[1..], name)
    ensures keys[0].key == name ==>
              && ValuesUnder(keys, name) != [] && ValuesUnder(keys, name)[0] == keys[0].val
              && ValuesUnder(keys, name)[1..] == ValuesUnder(keys[1..], name)
  {}

  /** The value of key i can be read, into what the same key left before it. */
  predicate KeyReads(of: Type, done: seq<Named>, keys: seq<KeyVal>, i: nat)
    requires i < |keys|
  {
    ReadInTurn(of, Under(done, keys[i].key), ValuesUnder(keys[..i + 1], keys[i].key)).Some?
  }

  lemma FirstKeyReads(of: Type, done: seq<Named>, keys: seq<KeyVal>)
    requires keys != []
    ensures KeyReads(of, done, keys, 0) <==> FromJson(of, Slot(of, done, keys[0].key), keys[0].val).Some?
  {
    var k := keys[0].key;
    SlotIsUnder(of, done, k);
    assert keys[..1][1..] == [];
    NextUnder(keys[..1], k);
    var js := ValuesUnder(keys[..1], k);
    assert js[1..] == ValuesUnder([], k) == [];
    assert ReadInTurn(of, Under(done, k), js)
        == ReadInTurn(of, FromJson(of, Slot(of, done, k), js[0]), []) == FromJson(of, Slot(of, done, k), js[0]);
    hide FromJson, Default, Slot, ValuesUnder, Under;
  }

  lemma LaterKeyReads(of: Type, done: seq<Named>, keys: seq<KeyVal>, v: Data, i: nat)
    requires i + 1 < |keys|
    requires FromJson(of, Slot(of, done, keys[0].key), keys[0].val) == Some(v)
    ensures KeyReads(of, done, keys, i + 1) <==> KeyReads(of, Store(done, keys[0].key, v), keys[1..], i)
  {
    var k, name := keys[0].key, keys[i + 1].key;
    SlotIsUnder(of, done, k);
    StoreThenUnder(done, k, v, name);
    NextUnder(keys[..i + 2], name);
    assert keys[..i + 2][1..] == keys[1..][..i + 1];
    hide FromJson, Default, Slot, Store, ValuesUnder, Under;
  }

  lemma {:induction false} AllKeysRead(of: Type, done: seq<Named>, keys: seq<KeyVal>)
    ensures DictFromJson(of, done, keys).Some? <==> forall i :: 0 <= i < |keys| ==> KeyReads(of, done, keys, i)
    decreases |keys|
  {
    if keys != [] {
      FirstKeyReads(of, done, keys);
      var v := FromJson(of, Slot(of, done, keys[0].key), keys[0].val);
      if v.Some? {
        AllKeysRead(of, Store(done, keys[0].key, v.value), keys[1..]);
        forall i | 0 <= i < |keys| - 1
          ensures KeyReads(of, done, keys, i + 1) <==> KeyReads(of, Store(done, keys[0].key, v.value), keys[1..], i)
        {
          LaterKeyReads(of, done, keys, v.value, i);
        }
        assert forall i :: 0 < i < |keys| ==>
            (KeyReads(of, done, keys, i) <==> KeyReads(of, Store(done, keys[0].key, v.value), keys[1..], i - 1));
      }
    }
    hide FromJson, Default, Slot, Store, KeyReads;
  }

  /** A map with string keys is cleared first. Then it holds, under each key of the object, what the values
    * under it are read as, one into the other, and nothing under any other name; it cannot be read if one of
    * those values cannot. */
  lemma DictOverTarget(of: Type, target: Data, keys: seq<KeyVal>, name: string)
    ensures var r := FromJson(Dict(of), target, Obj(keys));
            && (r.Some? <==> forall i :: 0 <= i < |keys| ==> KeyReads(of, [], keys, i))
            && (r.Some? ==> r.value.DictV?
                            && Under(r.value.dict, name) == ReadInTurn(of, None, ValuesUnder(keys, name)))
  {
    KeysAreRead(of, [], keys, name);
    AllKeysRead(of, [], keys);
    assert FromJson(Dict(of), target, Obj(keys)) ==
           var dict := DictFromJson(of, [], keys); if dict.None? then None else Some(DictV(dict.value));
    hide FromJson, DictFromJson, ReadInTurn, ValuesUnder, KeyReads;
  }

  // ----- default values

  /** A value that nothing was read into. */
  predicate IsBlank(ty: Type, v: Data)
    decreases ty
  {
    match ty
    case Flag => v == FlagV(false)
    case Whole(_, _) => v == WholeV(0)
    case Real => v == RealV(0.0)
    case Text => v == TextV("")
    case Blob => v == BlobV([])
    case List(_) => v == ListV([])
    case Map(_, _) => v == MapV([])
    case Dict(_) => v == DictV([])
    case Opt(_) => v == NoneV
    case Pair(key, of) => v.PairV? && IsBlank(key, v.first) && IsBlank(of, v.second)
    case Tuple(types) =>
      v.TupleV? && |v.parts| == |types| && forall i :: 0 <= i < |types| ==> IsBlank(types[i], v.parts[i])
    case Struct(members) =>
      v.StructV? && |v.values| == |members| && forall i :: 0 <= i < |members| ==> IsBlank(members[i].ty, v.values[i])
  }

  lemma {:induction false} DefaultIsBlank(ty: Type)
    ensures IsBlank(ty, Default(ty))
    decreases ty
  {
    match ty
    case Pair(key, of) =>
      DefaultIsBlank(key);
      DefaultIsBlank(of);
    case Tuple(types) => DefaultsAreBlank(types);
    case Struct(members) => MembersAreBlank(members);
    case _ =>
  }

  lemma {:induction false} DefaultsAreBlank(types: seq<Type>)
    ensures forall i :: 0 <= i < |types| ==> IsBlank(types[i], Defaults(types)[i])
    decreases types
  {
    hide IsBlank, Default;
    if types != [] {
      DefaultIsBlank(types[0]);
      DefaultsAreBlank(types[1..]);
      assert forall i :: 0 < i < |types| ==> types[i] == types[1..][i - 1];
    }
  }

  lemma {:induction false} MembersAreBlank(members: seq<Member>)
    ensures forall i :: 0 <= i < |members| ==> IsBlank(members[i].ty, MemberDefaults(members)[i])
    decreases members
  {
    hide IsBlank, Default;
    if members != [] {
      MemberIsBlank(members[0]);
      MembersAreBlank(members[1..]);
      assert forall i :: 0 < i < |members| ==> members[i] == members[1..][i - 1];
    }
  }

  lemma {:induction false} MemberIsBlank(m: Member)
    ensures IsBlank(m.ty, Default(m.ty))
    decreases m
  {
    DefaultIsBlank(m.ty);
  }
}
