/** `pack` and `unpack` between typed data and JSON values, loop by loop. */
module ValuePack {
  import opened Bytes
  import opened Wrappers
  import opened JsonValue
  import opened JsonObject
  import Base64
  import opened ValueIo

  // ----- pack

  method Pack(ty: Type, v: Data) returns (jsv: Value)
    ensures jsv == ToJson(ty, v)
    decreases v, 1
  {
    jsv := Null;
    match v {
      case FlagV(b) => jsv := Bool(b);
      case WholeV(n) => jsv := Num(n as real);
      case RealV(x) => jsv := Num(x);
      case TextV(s) => jsv := Str(s);
      case BlobV(data) =>
        if |data| > 0 {
          var text := Base64.Base64Encode(data);
          jsv := Str(text);
        }
      case ListV(items) =>
        var a := PackItems(ElementType(ty), items);
        jsv := Arr(a);
      case PairV(first, second) =>
        var o := new Object([]);
        var x := Pack(KeyType(ty), first);
        o.Assign("first", x);
        var y := Pack(ElementType(ty), second);
        o.Assign("second", y);
        jsv := Obj(o.keys);
      case MapV(entries) =>
        var a := PackItems(if ty.Map? then ValueIo.Pair(ty.key, ty.of) else ty, entries);
        jsv := Arr(a);
      case DictV(dict) => jsv := PackDict(ElementType(ty), dict);
      case TupleV(parts) =>
        var a := PackParts(if ty.Tuple? then ty.types else [], parts);
        jsv := Arr(a);
      case StructV(values) =>
        var members := if ty.Struct? then ty.members else [];
        if |members| == |values| {
          jsv := PackMembers(members, values);
        } else {
          jsv := Obj([]);
        }
      case NoneV =>
      case SomeV(some) => jsv := Pack(ElementType(ty), some);
    }
  }

  lemma {:induction false} ItemsToJsonAt(ty: Type, items: seq<Data>, i: nat)
    requires i < |items|
    ensures ItemsToJson(ty, items)[i] == ToJson(ty, items[i])
    decreases |items|
  {
    if i > 0 {
      ItemsToJsonAt(ty, items[1..], i - 1);
    }
  }

  /** The array is resized first, and then filled by index. */
  method PackItems(ty: Type, items: seq<Data>) returns (a: seq<Value>)
    ensures a == ItemsToJson(ty, items)
    decreases items, 1
  {
    a := Repeat(Null, |items|);
    ghost var goal := ItemsToJson(ty, items);
    hide ToJson, ItemsToJson;
    for i := 0 to |items|
      invariant |a| == |goal| && a[..i] == goal[..i]
    {
      var x := Pack(ty, items[i]);
      ItemsToJsonAt(ty, items, i);
      a := a[i := x];
    }
  }

  lemma {:induction false} PartsToJsonAt(types: seq<Type>, parts: seq<Data>, i: nat)
    requires i < |parts|
    ensures PartsToJson(types, parts)[i] == if i < |types| then ToJson(types[i], parts[i]) else Null
    decreases |parts|
  {
    if i > 0 {
      PartsToJsonAt(if types == [] then [] else types[1..], parts[1..], i - 1);
    }
  }

  /** Each part of a sequence is pushed back, and packed in place. */
  method PackParts(types: seq<Type>, parts: seq<Data>) returns (a: seq<Value>)
    ensures a == PartsToJson(types, parts)
    decreases parts, 1
  {
    a := [];
    ghost var goal := PartsToJson(types, parts);
    hide ToJson, PartsToJson;
    for i := 0 to |parts|
      invariant a == goal[..i]
    {
      PartsToJsonAt(types, parts, i);
      a := a + [Null];
      if i < |types| {
        var x := Pack(types[i], parts[i]);
        a := a[i := x];
      }
    }
  }

  method PackDict(ty: Type, dict: seq<Named>) returns (jsv: Value)
    ensures jsv == Obj(DictKeys(ty, dict))
    decreases dict, 1
  {
    var o := new Object([]);
    hide ToJson, SetKey;
    assert dict[..|dict|] == dict;
    for i := 0 to |dict|
      invariant o.keys == DictKeys(ty, dict[..i])
    {
      assert dict[..i + 1][..i] == dict[..i];
      var x := Pack(ty, dict[i].val);
      o.Assign(dict[i].name, x);
    }
    jsv := Obj(o.keys);
  }

  /** `pack_object_visitor`: every member under its name, and an optional only if it is set. */
  method PackMembers(members: seq<Member>, values: seq<Data>) returns (jsv: Value)
    requires |members| == |values|
    ensures jsv == Obj(MemberKeys(members, values))
    decreases values, 1
  {
    var o := new Object([]);
    hide ToJson, SetKey;
    assert members[..|members|] == members && values[..|values|] == values;
    for i := 0 to |members|
      invariant o.keys == MemberKeys(members[..i], values[..i])
    {
      assert members[..i + 1][..i] == members[..i] && values[..i + 1][..i] == values[..i];
      if !(members[i].ty.Opt? && values[i].NoneV?) {
        var x := Pack(members[i].ty, values[i]);
        o.Assign(members[i].name, x);
      }
    }
    jsv := Obj(o.keys);
  }

  // ----- unpack

  method UnpackScalar(ty: Type, target: Data, jsv: Value) returns (r: Option<Data>)
    requires ty.Flag? || ty.Whole? || ty.Real? || ty.Text? || ty.Blob?
    ensures r == FromJson(ty, target, jsv)
  {
    r := None;
    match ty {
      case Flag => if jsv.Bool? { r := Some(FlagV(jsv.b)); }
      case Whole(bits, signed) =>
        if jsv.Num? && Fits(Truncate(jsv.n), bits, signed) {
          r := Some(WholeV(Truncate(jsv.n)));
        }
      case Real => if jsv.Num? { r := Some(RealV(jsv.n)); }
      case Text => if jsv.Str? { r := Some(TextV(jsv.s)); }
      case Blob =>
        if jsv.Str? {
          var data := Base64.Base64Decode(jsv.s);
          r := Some(BlobV(data));
        }
    }
  }

  method Unpack(ty: Type, target: Data, jsv: Value) returns (r: Option<Data>)
    ensures r == FromJson(ty, target, jsv)
    decreases ty, 2, 0
  {
    r := None;
    match ty {
      case Flag => r := UnpackScalar(ty, target, jsv);
      case Whole(_, _) => r := UnpackScalar(ty, target, jsv);
      case Real => r := UnpackScalar(ty, target, jsv);
      case Text => r := UnpackScalar(ty, target, jsv);
      case Blob => r := UnpackScalar(ty, target, jsv);
      case List(of) =>
        if jsv.Arr? {
          r := UnpackList(of, if target.ListV? then target.items else [], jsv.vals);
        }
      case Pair(key, of) =>
        r := UnpackPair(ty, if target.PairV? then target.first else Default(key),
                        if target.PairV? then target.second else Default(of), jsv);
      case Map(key, of) =>
        if jsv.Arr? {
          r := UnpackMap(ty, jsv.vals);
        }
      case Dict(of) =>
        if jsv.Obj? {
          r := UnpackDict(of, jsv.keys);
        }
      case Tuple(types) =>
        if jsv.Arr? {
          r := UnpackTuple(types, if target.TupleV? then target.parts else [], jsv.vals);
        }
      case Struct(members) =>
        if jsv.Obj? {
          r := UnpackStruct(members, if target.StructV? then target.values else [], jsv.keys);
        }
      case Opt(of) =>
        var v := Unpack(of, Default(of), jsv);
        if v.Some? {
          r := Some(SomeV(v.value));
        }
    }
  }

  /** What is done, and then what remains, if that can be read. */
  function After(done: seq<Data>, more: Option<seq<Data>>): Option<seq<Data>> {
    if more.None? then None else Some(done + more.value)
  }

  lemma AfterOne(done: seq<Data>, v: Data, more: Option<seq<Data>>)
    ensures After(done, After([v], more)) == After(done + [v], more)
  {
    if more.Some? {
      assert done + ([v] + more.value) == done + [v] + more.value;
    }
  }

  lemma ItemsStep(ty: Type, js: seq<Value>, i: nat)
    requires i < |js|
    ensures var v := FromJson(ty, Default(ty), js[i]);
            ItemsFromJson(ty, js[i..]) == if v.None? then None else After([v.value], ItemsFromJson(ty, js[i + 1..]))
  {
    assert js[i..][1..] == js[i + 1..];
    hide FromJson;
  }

  /** Each element is unpacked into a fresh one and pushed back. */
  method UnpackList(ty: Type, value: seq<Data>, js: seq<Value>) returns (r: Option<Data>)
    ensures var vs := ItemsFromJson(ty, js); r == if vs.None? then None else Some(ListV(value + vs.value))
    decreases ty, 3, 0
  {
    var items := value;
    ghost var done: seq<Data>, goal := [], ItemsFromJson(ty, js);
    assert js[0..] == js && ItemsFromJson(ty, []) == Some([]);
    assert goal == After([], goal) by { if goal.Some? { assert [] + goal.value == goal.value; } }
    hide FromJson, ItemsFromJson, After, Default;
    for i := 0 to |js|
      invariant goal == After(done, ItemsFromJson(ty, js[i..])) && items == value + done
    {
      ItemsStep(ty, js, i);
      var v := Unpack(ty, Default(ty), js[i]);
      if v.None? {
        assert goal == None by { NothingAfter(done); }
        return None;
      }
      AfterOne(done, v.value, ItemsFromJson(ty, js[i + 1..]));
      items, done := items + [v.value], done + [v.value];
    }
    assert js[|js|..] == [];
    NothingAfter(done);
    r := Some(ListV(items));
  }

  lemma NothingAfter(done: seq<Data>)
    ensures After(done, None) == None && After(done, Some([])) == Some(done)
  {
    assert done + [] == done;
  }

  function Found(keys: seq<KeyVal>, k: string): Option<Value> {
    if HasKey(keys, k) then Some(Lookup(keys, k)) else None
  }

  lemma PairParts(ty: Type, first: Data, second: Data, keys: seq<KeyVal>, x: Option<Value>, y: Option<Value>)
    requires ty.Pair? || ty.Map?
    requires x == Found(keys, "first") && y == Found(keys, "second")
    ensures PairFromJson(ty, first, second, Obj(keys)) ==
            if x.None? || y.None? then None
            else
              var k := FromJson(ty.key, first, x.value);
              var v := FromJson(ty.of, second, y.value);
              if k.None? || v.None? then None else Some(PairV(k.value, v.value))
  {
    hide FromJson, HasKey, Lookup;
  }

  method Lookups(keys: seq<KeyVal>) returns (x: Option<Value>, y: Option<Value>)
    ensures x == Found(keys, "first") && y == Found(keys, "second")
  {
    var o := new Object(keys);
    x := o.At("first");
    y := o.At("second");
  }

  method UnpackPair(ty: Type, first: Data, second: Data, jsv: Value) returns (r: Option<Data>)
    requires ty.Pair? || ty.Map?
    ensures r == PairFromJson(ty, first, second, jsv)
    decreases ty, 0, 0
  {
    r := None;
    if !jsv.Obj? {
      return;
    } else {
      var x, y := Lookups(jsv.keys);
      PairParts(ty, first, second, jsv.keys, x, y);
      hide *;
      if x.Some? && y.Some? {
        var k := Unpack(ty.key, first, x.value);
        if k.Some? {
          var v := Unpack(ty.of, second, y.value);
          if v.Some? {
            r := Some(PairV(k.value, v.value));
          }
        }
      }
    }
  }

  method UnpackMap(ty: Type, js: seq<Value>) returns (r: Option<Data>)
    requires ty.Map?
    ensures var es := EntriesFromJson(ty, [], js); r == if es.None? then None else Some(MapV(es.value))
    decreases ty, 1, 0
  {
    var entries: seq<Data> := [];
    ghost var goal := EntriesFromJson(ty, [], js);
    assert js[0..] == js;
    hide PairFromJson, Assign;
    for i := 0 to |js|
      invariant EntriesFromJson(ty, entries, js[i..]) == goal
    {
      assert js[i..][1..] == js[i + 1..];
      var p := UnpackPair(ty, Default(ty.key), Default(ty.of), js[i]);
      if p.None? {
        return None;
      }
      entries := Assign(entries, p.value);
    }
    r := Some(MapV(entries));
  }

  method UnpackDict(ty: Type, keys: seq<KeyVal>) returns (r: Option<Data>)
    ensures var dict := DictFromJson(ty, [], keys); r == if dict.None? then None else Some(DictV(dict.value))
    decreases ty, 3, 0
  {
    var dict: seq<Named> := [];
    ghost var goal := DictFromJson(ty, [], keys);
    assert keys[0..] == keys;
    hide FromJson, Slot, Store;
    for i := 0 to |keys|
      invariant DictFromJson(ty, dict, keys[i..]) == goal
    {
      assert keys[i..][1..] == keys[i + 1..];
      var v := Unpack(ty, Slot(ty, dict, keys[i].key), keys[i].val);
      if v.None? {
        return None;
      }
      dict := Store(dict, keys[i].key, v.value);
    }
    r := Some(DictV(dict));
  }

  function Rest<T>(s: seq<T>, i: nat): seq<T> {
    if i <= |s| then s[i..] else []
  }

  function TargetAt(ty: Type, targets: seq<Data>, i: nat): Data {
    if i < |targets| then targets[i] else Default(ty)
  }

  lemma PartsStep(types: seq<Type>, targets: seq<Data>, js: seq<Value>, i: nat)
    requires i < |types|
    ensures PartsFromJson(types[i..], Rest(targets, i), Rest(js, i)) ==
            if i >= |js| then None
            else
              var v := FromJson(types[i], TargetAt(types[i], targets, i), js[i]);
              if v.None? then None
              else After([v.value], PartsFromJson(types[i + 1..], Rest(targets, i + 1), Rest(js, i + 1)))
  {
    assert types[i..][1..] == types[i + 1..] && types[i..][0] == types[i];
    if i < |js| {
      assert js[i..][1..] == js[i + 1..];
    }
    if i < |targets| {
      assert targets[i..][1..] == targets[i + 1..];
    }
    hide FromJson, Default;
  }

  /** The parts in order, along the array's iterator. */
  method UnpackTuple(types: seq<Type>, targets: seq<Data>, js: seq<Value>) returns (r: Option<Data>)
    ensures var vs := PartsFromJson(types, targets, js); r == if vs.None? then None else Some(TupleV(vs.value))
    decreases types, 2, 0
  {
    var parts: seq<Data> := [];
    ghost var goal := PartsFromJson(types, targets, js);
    assert types[0..] == types && Rest(targets, 0) == targets && Rest(js, 0) == js;
    assert goal == After([], goal) by { if goal.Some? { assert [] + goal.value == goal.value; } }
    assert forall t, j :: PartsFromJson([], t, j) == Some([]);
    hide FromJson, PartsFromJson, After, Rest;
    for i := 0 to |types|
      invariant goal == After(parts, PartsFromJson(types[i..], Rest(targets, i), Rest(js, i)))
    {
      PartsStep(types, targets, js, i);
      NothingAfter(parts);
      if i >= |js| {
        return None;
      }
      var v := Unpack(types[i], TargetAt(types[i], targets, i), js[i]);
      if v.None? {
        return None;
      }
      AfterOne(parts, v.value, PartsFromJson(types[i + 1..], Rest(targets, i + 1), Rest(js, i + 1)));
      parts := parts + [v.value];
    }
    assert types[|types|..] == [];
    NothingAfter(parts);
    r := Some(TupleV(parts));
  }

  lemma MembersStep(members: seq<Member>, targets: seq<Data>, keys: seq<KeyVal>, i: nat)
    requires i < |members|
    ensures MembersFromJson(members[i..], Rest(targets, i), keys) ==
            var v := MemberFromJson(members[i], TargetAt(members[i].ty, targets, i), keys);
            if v.None? then None
            else After([v.value], MembersFromJson(members[i + 1..], Rest(targets, i + 1), keys))
  {
    assert members[i..][1..] == members[i + 1..] && members[i..][0] == members[i];
    if i < |targets| {
      assert targets[i..][1..] == targets[i + 1..];
    }
    hide MemberFromJson, Default;
  }

  method UnpackMember(m: Member, target: Data, o: Object) returns (r: Option<Data>)
    ensures r == MemberFromJson(m, target, o.keys)
    decreases m, 3, 0
  {
    var found := o.Contains(m.name);
    r := Some(target);
    if found {
      var j := o.At(m.name);
      r := Unpack(m.ty, target, j.value);
    }
  }

  /** `unpack_object_visitor`: every member whose name is a key. */
  method UnpackStruct(members: seq<Member>, targets: seq<Data>, keys: seq<KeyVal>) returns (r: Option<Data>)
    ensures var vs := MembersFromJson(members, targets, keys); r == if vs.None? then None else Some(StructV(vs.value))
    decreases members, 2, 0
  {
    var o := new Object(keys);
    var values: seq<Data> := [];
    ghost var goal := MembersFromJson(members, targets, keys);
    assert members[0..] == members && Rest(targets, 0) == targets;
    assert goal == After([], goal) by { if goal.Some? { assert [] + goal.value == goal.value; } }
    assert forall t :: MembersFromJson([], t, keys) == Some([]);
    hide MemberFromJson, MembersFromJson, After, Rest;
    for i := 0 to |members|
      invariant o.keys == keys
      invariant goal == After(values, MembersFromJson(members[i..], Rest(targets, i), keys))
    {
      MembersStep(members, targets, keys, i);
      NothingAfter(values);
      var v := UnpackMember(members[i], TargetAt(members[i].ty, targets, i), o);
      if v.None? {
        return None;
      }
      AfterOne(values, v.value, MembersFromJson(members[i + 1..], Rest(targets, i + 1), keys));
      values := values + [v.value];
    }
    assert members[|members|..] == [];
    NothingAfter(values);
    r := Some(StructV(values));
  }
}
