/** The packing and unpacking visitors of the protocol-buffer codec over datastreams. */
module ProtoStream {
  import opened Bytes
  import opened Varint
  import opened Datastream
  import Raw = RawCodec
  import opened ProtoBuf
  import opened ProtoRecords
  import opened ProtoRoundTrip

  // ----- the put and write calls that packing makes

  function BaseCalls(base: Base, v: BaseValue): seq<bytes>
    decreases v, 0
  {
    match v
    case ScalarV(n) => [Payload(base, v)]
    case UVarV(_) => Singles(Payload(base, v))
    case SVarV(_) => Singles(Payload(base, v))
    case TextV(text) => Singles(Raw.EncodeSize(|text|)) + [text]
    case MessageV(slots) =>
      var fields := if base.Message? then base.fields else [];
      Singles(Raw.EncodeSize(|Encode(fields, slots)|)) + MessageCalls(fields, slots)
  }

  function FieldCalls(key: nat, base: Base, v: BaseValue): seq<bytes>
    decreases v, 1
  {
    Singles(Tag(key, WireType(base))) + BaseCalls(base, v)
  }

  function SlotCalls(f: Field, s: Slot): seq<bytes>
    decreases s, 2
  {
    match s
    case Holds(v) => FieldCalls(f.key, f.ty.base, v)
    case May(option) => if option.None? then [] else FieldCalls(f.key, f.ty.base, option.value)
    case Many(items) => ItemsCalls(f, items)
  }

  function ItemsCalls(f: Field, items: seq<BaseValue>): seq<bytes>
    decreases items
  {
    if items == [] then [] else ItemsCalls(f, items[..|items| - 1]) + FieldCalls(f.key, f.ty.base, items[|items| - 1])
  }

  function MessageCalls(fields: seq<Field>, slots: seq<Slot>): seq<bytes>
    decreases slots
  {
    if fields == [] || |fields| != |slots| then []
    else
      var n := |fields| - 1;
      MessageCalls(fields[..n], slots[..n]) + SlotCalls(fields[n], slots[n])
  }

  lemma {:induction false} BaseCallsEncode(base: Base, v: BaseValue)
    requires HasType(base, v)
    ensures Flatten(BaseCalls(base, v)) == Payload(base, v)
    decreases v, 0
  {
    match v
    case ScalarV(n) => FeedOne(Sizing(0), Payload(base, v));
    case UVarV(_) => FlattenSingles(Payload(base, v));
    case SVarV(_) => FlattenSingles(Payload(base, v));
    case TextV(text) =>
      FlattenSingles(Raw.EncodeSize(|text|));
      FlattenAppend(Singles(Raw.EncodeSize(|text|)), [text]);
      FeedOne(Sizing(0), text);
    case MessageV(slots) =>
      var size := Raw.EncodeSize(|Encode(base.fields, slots)|);
      FlattenSingles(size);
      FlattenAppend(Singles(size), MessageCalls(base.fields, slots));
      MessageCallsEncode(base.fields, slots);
  }

  lemma {:induction false} FieldCallsEncode(f: Field, v: BaseValue)
    requires HasType(f.ty.base, v)
    ensures Flatten(FieldCalls(f.key, f.ty.base, v)) == RecordBytes(ItemRecord(f, v))
    decreases v, 1
  {
    FlattenSingles(Tag(f.key, WireType(f.ty.base)));
    FlattenAppend(Singles(Tag(f.key, WireType(f.ty.base))), BaseCalls(f.ty.base, v));
    BaseCallsEncode(f.ty.base, v);
  }

  lemma JoinOne(r: Record)
    ensures Join([r]) == RecordBytes(r)
  {
    assert [r][1..] == [];
    assert RecordBytes(r) + [] == RecordBytes(r);
  }

  lemma {:induction false} JoinAppend(a: seq<Record>, b: seq<Record>)
    ensures Join(a + b) == Join(a) + Join(b)
  {
    if a == [] {
      assert a + b == b;
    } else {
      assert (a + b)[1..] == a[1..] + b;
      JoinAppend(a[1..], b);
    }
  }

  lemma {:induction false} SlotCallsEncode(f: Field, s: Slot)
    requires SlotTyped(f.ty, s)
    ensures Flatten(SlotCalls(f, s)) == Join(SlotRecords(f, s))
    decreases s, 2
  {
    match s
    case Holds(v) =>
      FieldCallsEncode(f, v);
      JoinOne(ItemRecord(f, v));
    case May(option) =>
      if option.Some? {
        FieldCallsEncode(f, option.value);
        JoinOne(ItemRecord(f, option.value));
      }
    case Many(items) => ItemsCallsEncode(f, items);
  }

  lemma {:induction false} ItemsSnoc(f: Field, items: seq<BaseValue>, v: BaseValue)
    ensures ItemRecords(f, items + [v]) == ItemRecords(f, items) + [ItemRecord(f, v)]
    ensures ItemsTyped(f.ty.base, items + [v]) <==> ItemsTyped(f.ty.base, items) && HasType(f.ty.base, v)
    ensures ItemsComplete(f.ty.base, items + [v]) <==> ItemsComplete(f.ty.base, items) && BaseComplete(f.ty.base, v)
    decreases |items|
  {
    if items == [] {
      assert [] + [v] == [v] && [v][1..] == [];
    } else {
      assert (items + [v])[1..] == items[1..] + [v];
      ItemsSnoc(f, items[1..], v);
    }
    hide Payload, HasType, BaseComplete;
  }

  lemma {:induction false} ItemsCallsEncode(f: Field, items: seq<BaseValue>)
    requires ItemsTyped(f.ty.base, items)
    ensures Flatten(ItemsCalls(f, items)) == Join(ItemRecords(f, items))
    decreases items
  {
    if items != [] {
      var n := |items| - 1;
      assert items[..n] + [items[n]] == items;
      ItemsSnoc(f, items[..n], items[n]);
      ItemsCallsEncode(f, items[..n]);
      FieldCallsEncode(f, items[n]);
      FlattenAppend(ItemsCalls(f, items[..n]), FieldCalls(f.key, f.ty.base, items[n]));
      JoinAppend(ItemRecords(f, items[..n]), [ItemRecord(f, items[n])]);
      JoinOne(ItemRecord(f, items[n]));
      hide Payload, HasType, BaseComplete, FieldCalls, RecordBytes, Join, ItemRecords;
    }
  }

  lemma {:induction false} FieldsSnoc(fields: seq<Field>, slots: seq<Slot>, f: Field, s: Slot)
    requires |fields| == |slots|
    ensures Records(fields + [f], slots + [s]) == Records(fields, slots) + SlotRecords(f, s)
    ensures SlotsTyped(fields + [f], slots + [s]) <==> SlotsTyped(fields, slots) && SlotTyped(f.ty, s)
    ensures Complete(fields + [f], slots + [s]) <==> Complete(fields, slots) && SlotComplete(f.ty, s)
    decreases |fields|
  {
    if fields == [] {
      assert [] + [f] == [f] && [f][1..] == [] && [] + [s] == [s] && [s][1..] == [];
      assert SlotRecords(f, s) + [] == SlotRecords(f, s);
    } else {
      assert (fields + [f])[1..] == fields[1..] + [f] && (slots + [s])[1..] == slots[1..] + [s];
      FieldsSnoc(fields[1..], slots[1..], f, s);
    }
    hide SlotRecords, SlotTyped, SlotComplete;
  }

  /** The chunks of all calls, joined, are the encoding. */
  lemma {:induction false} MessageCallsEncode(fields: seq<Field>, slots: seq<Slot>)
    requires SlotsTyped(fields, slots)
    ensures Flatten(MessageCalls(fields, slots)) == Encode(fields, slots)
    decreases slots
  {
    if fields != [] {
      var n := |fields| - 1;
      assert fields[..n] + [fields[n]] == fields && slots[..n] + [slots[n]] == slots;
      FieldsSnoc(fields[..n], slots[..n], fields[n], slots[n]);
      MessageCallsEncode(fields[..n], slots[..n]);
      SlotCallsEncode(fields[n], slots[n]);
      FlattenAppend(MessageCalls(fields[..n], slots[..n]), SlotCalls(fields[n], slots[n]));
      JoinAppend(Records(fields[..n], slots[..n]), SlotRecords(fields[n], slots[n]));
      hide SlotRecords, SlotTyped, SlotComplete, SlotCalls, Join, Records, SlotsTyped;
    }
  }

  // ----- packing

  lemma MessageParts(base: Base, v: BaseValue)
    requires BaseOk(base) && HasType(base, v) && v.MessageV?
    ensures base.Message? && SchemaOk(base.fields) && SlotsTyped(base.fields, v.slots)
    ensures |Encode(base.fields, v.slots)| < TWO_31
    ensures BaseComplete(base, v) <==> Complete(base.fields, v.slots)
    ensures BaseCalls(base, v)
         == Singles(Raw.EncodeSize(|Encode(base.fields, v.slots)|)) + MessageCalls(base.fields, v.slots)
  {
    hide Encode, SlotsTyped, Complete, MessageCalls, FieldsOk, DistinctKeys;
  }

  /** The value after a tag. A message is packed once to learn its size, and once more to be written. */
  method PackBase(os: OutStream, base: Base, v: BaseValue) returns (ok: bool)
    requires BaseOk(base) && HasType(base, v)
    modifies os, os.data
    ensures ok <==> BaseComplete(base, v)
    ensures ok ==> os.State() == Feed(old(os.State()), BaseCalls(base, v))
    decreases v, 1
  {
    match v {
      case ScalarV(_) =>
        FeedOne(os.State(), Payload(base, v));
        assert |Payload(base, v)| < TWO_31;
        var written := os.Write(Payload(base, v));
      case UVarV(u) => PutVarint(os, u % TWO_32);
      case SVarV(i) => PutVarint(os, Zigzag(i));
      case TextV(text) =>
        FeedAppend(os.State(), Singles(Raw.EncodeSize(|text|)), [text]);
        PutVarint(os, |text| % TWO_32);
        FeedOne(os.State(), text);
        var written := os.Write(text);
      case MessageV(slots) =>
        MessageParts(base, v);
        hide *;
        var size;
        ok, size := PackSize(base.fields, slots);
        if !ok {
          return;
        }
        FeedAppend(os.State(), Singles(EncodeVarint(size)), MessageCalls(base.fields, slots));
        PutVarint(os, size);
        ok := PackMessage(os, base.fields, slots);
        return;
    }
    ok := true;
  }

  method PackField(os: OutStream, key: nat, base: Base, v: BaseValue) returns (ok: bool)
    requires BaseOk(base) && HasType(base, v)
    modifies os, os.data
    ensures ok <==> BaseComplete(base, v)
    ensures ok ==> os.State() == Feed(old(os.State()), FieldCalls(key, base, v))
    decreases v, 2
  {
    FeedAppend(os.State(), Singles(Tag(key, WireType(base))), BaseCalls(base, v));
    PutVarint(os, ((key * 8) % TWO_32 + WireType(base)) % TWO_32);
    ok := PackBase(os, base, v);
  }

  /** `packsize`: the whole packing on a stream that only counts. */
  method PackSize(fields: seq<Field>, slots: seq<Slot>) returns (ok: bool, size: nat)
    requires SchemaOk(fields) && SlotsTyped(fields, slots) && |Encode(fields, slots)| < TWO_31
    ensures ok <==> Complete(fields, slots)
    ensures ok ==> size == |Encode(fields, slots)|
    ensures ok ==> EncodeVarint(size) == Raw.EncodeSize(|Encode(fields, slots)|)
    decreases slots, 4
  {
    assert 0 < TWO_32;
    hide *;
    var ps := new OutStream.Count();
    ok := PackMessage(ps, fields, slots);
    if ok {
      MessageCallsEncode(fields, slots);
      FeedSizing(0, MessageCalls(fields, slots));
      SmallSize(|Encode(fields, slots)|);
      size := SizeOf(ps, |Encode(fields, slots)|);
    } else {
      size := 0;
    }
  }

  lemma SmallSize(n: nat)
    requires n < TWO_31
    ensures (0 + n) % TWO_32 == n && EncodeVarint(n) == Raw.EncodeSize(n)
  {}

  method SizeOf(ps: OutStream, ghost n: nat) returns (size: nat)
    requires n < TWO_31 && ps.State() == Sizing(n)
    ensures size == n
  {
    size := ps.Tell();
  }

  lemma FieldsStep(fields: seq<Field>, slots: seq<Slot>, i: nat)
    requires FieldsOk(fields) && SlotsTyped(fields, slots) && i < |fields|
    ensures FieldOk(fields[i]) && SlotTyped(fields[i].ty, slots[i])
    ensures Complete(fields[..i + 1], slots[..i + 1])
            <==> Complete(fields[..i], slots[..i]) && SlotComplete(fields[i].ty, slots[i])
    ensures Complete(fields, slots) ==> Complete(fields[..i + 1], slots[..i + 1])
    ensures MessageCalls(fields[..i + 1], slots[..i + 1])
            == MessageCalls(fields[..i], slots[..i]) + SlotCalls(fields[i], slots[i])
  {
    assert fields[..i + 1] == fields[..i] + [fields[i]] && slots[..i + 1] == slots[..i] + [slots[i]];
    FieldsSnoc(fields[..i], slots[..i], fields[i], slots[i]);
    TypedAt(fields, slots, i);
    CompletePrefix(fields, slots, i + 1);
    hide SlotCalls, SlotComplete, SlotTyped, SlotRecords;
  }

  lemma {:induction false} TypedAt(fields: seq<Field>, slots: seq<Slot>, i: nat)
    requires FieldsOk(fields) && SlotsTyped(fields, slots) && i < |fields|
    ensures FieldOk(fields[i]) && SlotTyped(fields[i].ty, slots[i])
    decreases i
  {
    if i > 0 {
      TypedAt(fields[1..], slots[1..], i - 1);
    }
  }

  lemma {:induction false} CompletePrefix(fields: seq<Field>, slots: seq<Slot>, n: nat)
    requires |fields| == |slots| && n <= |fields|
    ensures Complete(fields, slots) ==> Complete(fields[..n], slots[..n])
    decreases n
  {
    if n > 0 {
      assert fields[..n][1..] == fields[1..][..n - 1] && slots[..n][1..] == slots[1..][..n - 1];
      CompletePrefix(fields[1..], slots[1..], n - 1);
    }
    hide SlotComplete;
  }

  /** The visitor meets each field in turn; a required field that is not set raises. */
  method PackMessage(os: OutStream, fields: seq<Field>, slots: seq<Slot>) returns (ok: bool)
    requires SchemaOk(fields) && SlotsTyped(fields, slots)
    modifies os, os.data
    ensures ok <==> Complete(fields, slots)
    ensures ok ==> os.State() == Feed(old(os.State()), MessageCalls(fields, slots))
    decreases slots, 3
  {
    ghost var start := os.State();
    assert FieldsOk(fields) && |fields| == |slots|;
    assert fields[..0] == [] && slots[..0] == [] && fields[..|fields|] == fields && slots[..|slots|] == slots;
    assert Complete([], []) && MessageCalls([], []) == [] && Feed(start, []) == start;
    hide *;
    for i := 0 to |fields|
      invariant Complete(fields[..i], slots[..i])
      invariant os.State() == Feed(start, MessageCalls(fields[..i], slots[..i]))
    {
      FieldsStep(fields, slots, i);
      ok := PackSlot(os, fields[i], slots[i]);
      if !ok {
        return;
      }
      FeedAppend(start, MessageCalls(fields[..i], slots[..i]), SlotCalls(fields[i], slots[i]));
    }
    ok := true;
  }

  method PackSlot(os: OutStream, f: Field, s: Slot) returns (ok: bool)
    requires FieldOk(f) && SlotTyped(f.ty, s)
    modifies os, os.data
    ensures ok <==> SlotComplete(f.ty, s)
    ensures ok ==> os.State() == Feed(old(os.State()), SlotCalls(f, s))
    decreases s, 3
  {
    match s {
      case Holds(v) => ok := PackField(os, f.key, f.ty.base, v);
      case May(option) =>
        if option.Some? {
          ok := PackField(os, f.key, f.ty.base, option.value);
        } else {
          ok := !f.ty.Required?;
        }
      case Many(items) => ok := PackItems(os, f, items);
    }
  }

  lemma ItemsStep(f: Field, items: seq<BaseValue>, i: nat)
    requires ItemsTyped(f.ty.base, items) && i < |items|
    ensures HasType(f.ty.base, items[i])
    ensures ItemsComplete(f.ty.base, items[..i + 1])
            <==> ItemsComplete(f.ty.base, items[..i]) && BaseComplete(f.ty.base, items[i])
    ensures ItemsComplete(f.ty.base, items) ==> ItemsComplete(f.ty.base, items[..i + 1])
    ensures ItemsCalls(f, items[..i + 1]) == ItemsCalls(f, items[..i]) + FieldCalls(f.key, f.ty.base, items[i])
  {
    assert items[..i + 1] == items[..i] + [items[i]] && items[..i + 1][..i] == items[..i];
    ItemsSnoc(f, items[..i], items[i]);
    ItemsPrefix(f.ty.base, items, i + 1);
    ItemsSnoc(f, items[..i], items[i]);
    hide HasType, BaseComplete, FieldCalls, Payload;
  }

  lemma {:induction false} ItemsPrefix(base: Base, items: seq<BaseValue>, n: nat)
    requires n <= |items|
    ensures ItemsComplete(base, items) ==> ItemsComplete(base, items[..n])
    ensures ItemsTyped(base, items) ==> ItemsTyped(base, items[..n])
    decreases n
  {
    if n > 0 {
      assert items[..n][1..] == items[1..][..n - 1];
      ItemsPrefix(base, items[1..], n - 1);
    }
    hide HasType, BaseComplete;
  }

  /** The iterator loop over a repeated field: each element under its own tag. */
  method PackItems(os: OutStream, f: Field, items: seq<BaseValue>) returns (ok: bool)
    requires FieldOk(f) && ItemsTyped(f.ty.base, items)
    modifies os, os.data
    ensures ok <==> ItemsComplete(f.ty.base, items)
    ensures ok ==> os.State() == Feed(old(os.State()), ItemsCalls(f, items))
    decreases items
  {
    ghost var start := os.State();
    assert items[..0] == [] && items[..|items|] == items && BaseOk(f.ty.base);
    assert ItemsComplete(f.ty.base, []) && ItemsCalls(f, []) == [] && Feed(start, []) == start;
    hide *;
    for i := 0 to |items|
      invariant ItemsComplete(f.ty.base, items[..i])
      invariant os.State() == Feed(start, ItemsCalls(f, items[..i]))
    {
      ItemsStep(f, items, i);
      ok := PackField(os, f.key, f.ty.base, items[i]);
      if !ok {
        return;
      }
      FeedAppend(start, ItemsCalls(f, items[..i]), FieldCalls(f.key, f.ty.base, items[i]));
    }
    ok := true;
  }

  /** `pack` to a vector: the sizing run, one allocation, and a writing run that drops nothing. */
  method Pack(fields: seq<Field>, slots: seq<Slot>) returns (ok: bool, msg: array<byte>, ghost dropped: nat)
    requires SchemaOk(fields) && SlotsTyped(fields, slots) && |Encode(fields, slots)| < TWO_31
    ensures ok <==> Complete(fields, slots)
    ensures ok ==> fresh(msg) && msg[..] == Encode(fields, slots) && dropped == 0
  {
    var size;
    ok, size := PackSize(fields, slots);
    msg := new byte[size](_ => 0);
    dropped := 0;
    if ok {
      WritingPass(fields, slots, msg[..]);
      hide *;
      var os := new OutStream.Over(msg);
      ok := PackMessage(os, fields, slots);
      dropped := Dropped(os, msg, Encode(fields, slots));
    }
  }

  lemma Dropped(os: OutStream, msg: array<byte>, b: bytes) returns (dropped: nat)
    requires os.data == msg && os.State() == Writing(b, |b|, 0)
    ensures dropped == 0 && msg[..] == b
  {
    dropped := os.dropped;
  }

  lemma WritingPass(fields: seq<Field>, slots: seq<Slot>, room: bytes)
    requires SlotsTyped(fields, slots) && |room| == |Encode(fields, slots)|
    ensures var b := Encode(fields, slots);
            Feed(Writing(room, 0, 0), MessageCalls(fields, slots)) == Writing(b, |b|, 0)
  {
    MessageCallsEncode(fields, slots);
    var b := Encode(fields, slots);
    hide *;
    FeedWriting(room, 0, 0, MessageCalls(fields, slots));
    assert room[..0] + b + room[|room|..] == b;
  }
}
