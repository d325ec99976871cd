/** Unpacking a packed message gives the message back. */
module ProtoRoundTrip {
  import opened Bytes
  import opened Wrappers
  import opened Varint
  import Raw = RawCodec
  import RawOrder
  import RawRoundTrip
  import opened ProtoBuf
  import opened ProtoRecords

  // ----- schemas and the messages they describe

  predicate SchemaOk(fields: seq<Field>)
    decreases fields
  {
    DistinctKeys(fields) && FieldsOk(fields)
  }

  predicate FieldsOk(fields: seq<Field>)
    decreases fields
  {
    fields == [] || (FieldOk(fields[0]) && FieldsOk(fields[1..]))
  }

  predicate FieldOk(f: Field)
    decreases f
  {
    f.key < 0x2000_0000 && BaseOk(f.ty.base) && (f.ty.Repeated? ==> f.ty.base.Text? || f.ty.base.Message?)
  }

  predicate BaseOk(base: Base)
    decreases base
  {
    match base
    case Scalar(width, _) => width in {1, 2, 4, 8}
    case Message(fields) => DistinctKeys(fields) && FieldsOk(fields)
    case UVar => true
    case SVar => true
    case Text => true
  }

  /** v has the type, and every string and message in it is under 2^31 bytes. */
  predicate HasType(base: Base, v: BaseValue)
    decreases v
  {
    match v
    case ScalarV(n) => base.Scalar? && RawOrder.InFixed(n, base.width, base.signed)
    case UVarV(u) => base.UVar? && u < TWO_32
    case SVarV(i) => base.SVar? && IsInt32(i)
    case TextV(text) => base.Text? && |text| < TWO_31
    case MessageV(slots) => base.Message? && SlotsTyped(base.fields, slots) && |Encode(base.fields, slots)| < TWO_31
  }

  predicate SlotTyped(ty: FieldType, s: Slot)
    decreases s
  {
    match s
    case Holds(v) => ty.One? && HasType(ty.base, v)
    case May(option) => (ty.Optional? || ty.Required?) && (option.Some? ==> HasType(ty.base, option.value))
    case Many(items) => ty.Repeated? && ItemsTyped(ty.base, items)
  }

  predicate ItemsTyped(base: Base, items: seq<BaseValue>)
    decreases items
  {
    items == [] || (HasType(base, items[0]) && ItemsTyped(base, items[1..]))
  }

  predicate SlotsTyped(fields: seq<Field>, slots: seq<Slot>)
    decreases slots
  {
    |fields| == |slots| && (slots == [] || (SlotTyped(fields[0].ty, slots[0]) && SlotsTyped(fields[1..], slots[1..])))
  }

  // ----- what comes back: signed varints outside [-2^30, 2^30) have bit 0 flipped

  function AsRead(v: BaseValue): BaseValue
    decreases v
  {
    match v
    case SVarV(i) => SVarV(ReadBack(i))
    case MessageV(slots) => MessageV(SlotsAsRead(slots))
    case ScalarV(_) => v
    case UVarV(_) => v
    case TextV(_) => v
  }

  function SlotAsRead(s: Slot): Slot
    decreases s
  {
    match s
    case Holds(v) => Holds(AsRead(v))
    case May(option) => if option.None? then s else May(Some(AsRead(option.value)))
    case Many(items) => Many(ItemsAsRead(items))
  }

  function ItemsAsRead(items: seq<BaseValue>): (r: seq<BaseValue>)
    ensures |r| == |items|
    decreases items
  {
    if items == [] then [] else [AsRead(items[0])] + ItemsAsRead(items[1..])
  }

  function SlotsAsRead(slots: seq<Slot>): (r: seq<Slot>)
    ensures |r| == |slots|
    decreases slots
  {
    if slots == [] then [] else [SlotAsRead(slots[0])] + SlotsAsRead(slots[1..])
  }

  /** Every signed varint lies in [-2^30, 2^30). */
  predicate Exact(v: BaseValue)
    decreases v
  {
    match v
    case SVarV(i) => -0x4000_0000 <= i < 0x4000_0000
    case MessageV(slots) => SlotsExact(slots)
    case ScalarV(_) => true
    case UVarV(_) => true
    case TextV(_) => true
  }

  predicate SlotExact(s: Slot)
    decreases s
  {
    match s
    case Holds(v) => Exact(v)
    case May(option) => option.Some? ==> Exact(option.value)
    case Many(items) => ItemsExact(items)
  }

  predicate ItemsExact(items: seq<BaseValue>)
    decreases items
  {
    items == [] || (Exact(items[0]) && ItemsExact(items[1..]))
  }

  predicate SlotsExact(slots: seq<Slot>)
    decreases slots
  {
    slots == [] || (SlotExact(slots[0]) && SlotsExact(slots[1..]))
  }

  lemma {:induction false} ExactMeansAsRead(v: BaseValue)
    ensures AsRead(v) == v <==> Exact(v)
    decreases v
  {
    match v
    case MessageV(slots) => SlotsExactMeansAsRead(slots);
    case SVarV(_) => {}
    case ScalarV(_) => {}
    case UVarV(_) => {}
    case TextV(_) => {}
  }

  lemma {:induction false} SlotExactMeansAsRead(s: Slot)
    ensures SlotAsRead(s) == s <==> SlotExact(s)
    decreases s
  {
    match s
    case Holds(v) => ExactMeansAsRead(v);
    case May(option) =>
      if option.Some? {
        ExactMeansAsRead(option.value);
      }
    case Many(items) => ItemsExactMeansAsRead(items);
  }

  lemma {:induction false} ItemsExactMeansAsRead(items: seq<BaseValue>)
    ensures ItemsAsRead(items) == items <==> ItemsExact(items)
    decreases items
  {
    if items != [] {
      ExactMeansAsRead(items[0]);
      ItemsExactMeansAsRead(items[1..]);
      assert items == [items[0]] + items[1..];
      assert ItemsAsRead(items)[0] == AsRead(items[0]) && ItemsAsRead(items)[1..] == ItemsAsRead(items[1..]);
    }
  }

  lemma {:induction false} SlotsExactMeansAsRead(slots: seq<Slot>)
    ensures SlotsAsRead(slots) == slots <==> SlotsExact(slots)
    decreases slots
  {
    if slots != [] {
      SlotExactMeansAsRead(slots[0]);
      SlotsExactMeansAsRead(slots[1..]);
      assert slots == [slots[0]] + slots[1..];
      assert SlotsAsRead(slots)[0] == SlotAsRead(slots[0]) && SlotsAsRead(slots)[1..] == SlotsAsRead(slots[1..]);
    }
  }

  // ----- one value

  function Body(base: Base, v: BaseValue): bytes
    requires HasType(base, v) && (v.TextV? || v.MessageV?)
  {
    if v.TextV? then v.text else Encode(base.fields, v.slots)
  }

  lemma BodyAfterLength(base: Base, v: BaseValue)
    requires HasType(base, v) && (v.TextV? || v.MessageV?)
    ensures |Body(base, v)| < TWO_31 && Payload(base, v) == EncodeVarint(|Body(base, v)|) + Body(base, v)
  {
    hide Encode, SlotsTyped, EncodeVarint;
  }

  /** The length written before a string or message is the number of bytes that follow it. */
  lemma LengthPrefix(base: Base, v: BaseValue)
    requires HasType(base, v) && (v.TextV? || v.MessageV?)
    ensures ReadVarint(Payload(base, v)) == Some(VarintRead(|Body(base, v)|, Body(base, v)))
    ensures Payload(base, v) != [] && ReadSize(Payload(base, v)) == Size(|Body(base, v)|, Body(base, v))
  {
    BodyAfterLength(base, v);
    hide Body, Payload, HasType, EncodeVarint, ReadVarint;
    VarintRoundTrip(|Body(base, v)|, Body(base, v));
  }

  lemma FixedReads(base: Base, n: int)
    requires base.Scalar? && RawOrder.InFixed(n, base.width, base.signed)
    ensures Raw.ReadFixed(Raw.LittleEndian(n, base.width), base.signed) == n
  {
    RawRoundTrip.LittleEndianInverse(n, base.width);
  }

  lemma FixedFieldReads(base: Base, v: BaseValue, target: BaseValue)
    requires HasType(base, v) && BaseOk(base) && v.ScalarV?
    ensures UnpackBase(base, target, WireType(base), Payload(base, v)) == Done(v, []) && Payload(base, v) != []
  {
    var b := Payload(base, v);
    FixedReads(base, v.n);
    assert |b| == base.width && b[..base.width] == b && b[base.width..] == [];
    hide Raw.LittleEndian, Raw.ReadFixed;
  }

  lemma VarintPayload(base: Base, v: BaseValue)
    requires HasType(base, v) && (v.UVarV? || v.SVarV?)
    ensures var n := if v.UVarV? then v.u else Zigzag(v.i);
            n < TWO_32 && n % TWO_32 == n && Payload(base, v) == EncodeVarint(n)
  {
    hide Zigzag, EncodeVarint;
  }

  lemma VarintFieldReads(base: Base, v: BaseValue, target: BaseValue)
    requires HasType(base, v) && (v.UVarV? || v.SVarV?)
    ensures UnpackBase(base, target, WireType(base), Payload(base, v)) == Done(AsRead(v), []) && Payload(base, v) != []
  {
    var n := if v.UVarV? then v.u else Zigzag(v.i);
    VarintPayload(base, v);
    hide ReadSize, EncodeVarint, Zigzag, Unzigzag, ReadBack, Payload;
    NumberReads(n);
    if v.SVarV? {
      ZigzagRoundTrip(v.i);
    }
  }

  lemma TextFieldReads(base: Base, v: BaseValue, target: BaseValue)
    requires HasType(base, v) && v.TextV?
    ensures UnpackBase(base, target, WireType(base), Payload(base, v)) == Done(v, []) && Payload(base, v) != []
  {
    LengthPrefix(base, v);
    assert v.text[..|v.text|] == v.text && v.text[|v.text|..] == [];
    hide Payload, ReadSize, ReadVarint;
  }

  lemma NumberReads(n: nat)
    requires n < TWO_32
    ensures EncodeVarint(n) != [] && ReadSize(EncodeVarint(n)) == Size(n, [])
  {
    assert EncodeVarint(n) + [] == EncodeVarint(n);
    VarintRoundTrip(n, []);
  }

  /** A message that unpacks from defaults to itself is read as a field in full. */
  lemma MessageReads(base: Base, v: BaseValue)
    requires HasType(base, v) && v.MessageV?
    requires UnpackMessage(base.fields, Defaults(base.fields), Encode(base.fields, v.slots))
            == Done(SlotsAsRead(v.slots), [])
    ensures UnpackBase(base, Default(base), WireType(base), Payload(base, v)) == Done(AsRead(v), [])
    ensures Payload(base, v) != []
  {
    LengthPrefix(base, v);
    var body := Encode(base.fields, v.slots);
    assert Body(base, v) == body && body[..|body|] == body && body[|body|..] == [];
    hide Encode, ReadVarint, UnpackMessage, ReadSize, Payload, Body, SlotsTyped;
  }

  lemma {:induction false} ValueReads(base: Base, v: BaseValue)
    requires HasType(base, v) && BaseOk(base) && BaseComplete(base, v)
    ensures UnpackBase(base, Default(base), WireType(base), Payload(base, v)) == Done(AsRead(v), [])
    ensures Payload(base, v) != []
    decreases v, 0
  {
    if v.MessageV? {
      MessageRoundTrip(base.fields, v.slots);
      MessageReads(base, v);
    } else {
      match v
      case ScalarV(_) => FixedFieldReads(base, v, Default(base));
      case UVarV(_) => VarintFieldReads(base, v, Default(base));
      case SVarV(_) => VarintFieldReads(base, v, Default(base));
      case TextV(_) => TextFieldReads(base, v, Default(base));
    }
  }

  // ----- one field

  lemma {:induction false} SlotFolds(f: Field, s: Slot)
    requires FieldOk(f) && SlotTyped(f.ty, s) && SlotComplete(f.ty, s)
    ensures Fold(f.ty, DefaultSlot(f), SlotRecords(f, s)) == Some(SlotAsRead(s))
    decreases s, 0
  {
    match s
    case Holds(v) =>
      ValueReads(f.ty.base, v);
      FoldOne(f.ty, DefaultSlot(f), SlotRecords(f, s)[0]);
    case May(option) =>
      if option.Some? {
        ValueReads(f.ty.base, option.value);
        FoldOne(f.ty, DefaultSlot(f), SlotRecords(f, s)[0]);
      }
    case Many(items) =>
      ItemsFold(f, [], items);
      assert [] + ItemsAsRead(items) == ItemsAsRead(items);
  }

  lemma FoldOne(ty: FieldType, s: Slot, r: Record)
    ensures Fold(ty, s, [r]) == ReadRecord(ty, s, r)
  {
    assert [r][1..] == [];
    hide ReadRecord;
  }

  lemma FoldStep(ty: FieldType, s: Slot, r: Record, rs: seq<Record>)
    requires ReadRecord(ty, s, r).Some?
    ensures Fold(ty, s, [r] + rs) == Fold(ty, ReadRecord(ty, s, r).value, rs)
  {
    assert ([r] + rs)[1..] == rs;
    hide ReadRecord;
  }

  function ItemRecord(f: Field, v: BaseValue): Record {
    Record(f.key, WireType(f.ty.base), Payload(f.ty.base, v))
  }

  lemma ItemsParts(f: Field, items: seq<BaseValue>)
    requires items != [] && ItemsTyped(f.ty.base, items) && ItemsComplete(f.ty.base, items)
    ensures ItemRecords(f, items) == [ItemRecord(f, items[0])] + ItemRecords(f, items[1..])
    ensures ItemsAsRead(items) == [AsRead(items[0])] + ItemsAsRead(items[1..])
    ensures HasType(f.ty.base, items[0]) && ItemsTyped(f.ty.base, items[1..])
    ensures BaseComplete(f.ty.base, items[0]) && ItemsComplete(f.ty.base, items[1..])
  {
    hide Payload, HasType, BaseComplete, AsRead;
  }

  lemma {:induction false} ItemsFold(f: Field, done: seq<BaseValue>, items: seq<BaseValue>)
    requires FieldOk(f) && f.ty.Repeated? && ItemsTyped(f.ty.base, items) && ItemsComplete(f.ty.base, items)
    ensures Fold(f.ty, Many(done), ItemRecords(f, items)) == Some(Many(done + ItemsAsRead(items)))
    decreases items
  {
    if items == [] {
      assert done + [] == done;
    } else {
      ItemsParts(f, items);
      assert BaseOk(f.ty.base);
      hide *;
      var v, rest := items[0], items[1..];
      ItemsFold(f, done + [AsRead(v)], rest);
      ValueReads(f.ty.base, v);
      ItemReads(f, done, v);
      FoldStep(f.ty, Many(done), ItemRecord(f, v), ItemRecords(f, rest));
      Regroup(done, AsRead(v), ItemsAsRead(rest));
    }
  }

  lemma Regroup<T>(a: seq<T>, x: T, b: seq<T>)
    ensures (a + [x]) + b == a + ([x] + b)
  {}

  lemma ItemParts(base: Base, done: seq<BaseValue>, v: BaseValue)
    requires HasType(base, v) && (v.TextV? || v.MessageV?)
    requires v.MessageV? ==>
             UnpackMessage(base.fields, Defaults(base.fields), Body(base, v)) == Done(SlotsAsRead(v.slots), [])
    ensures UnpackItem(base, done, LENGTH_DELIMITED, Payload(base, v)) == Done(Many(done + [AsRead(v)]), [])
  {
    var body := Body(base, v);
    LengthPrefix(base, v);
    assert body[..|body|] == body && body[|body|..] == [];
    assert v.TextV? ==> body == v.text;
    hide Payload, UnpackMessage, ReadVarint, ReadSize, Body, SlotsTyped, Encode, SlotsAsRead;
  }

  lemma NestedBody(base: Base, v: BaseValue)
    requires HasType(base, v) && v.MessageV?
    requires UnpackBase(base, Default(base), WireType(base), Payload(base, v)) == Done(AsRead(v), [])
    ensures UnpackMessage(base.fields, Defaults(base.fields), Body(base, v)) == Done(SlotsAsRead(v.slots), [])
  {
    var body := Body(base, v);
    LengthPrefix(base, v);
    assert body[..|body|] == body && body[|body|..] == [];
    hide Payload, UnpackMessage, ReadVarint, ReadSize, Body, SlotsTyped, Encode, SlotsAsRead;
  }

  lemma RepeatedRecord(ty: FieldType, done: seq<BaseValue>, r: Record, grown: seq<BaseValue>)
    requires ty.Repeated? && r.payload != []
    requires UnpackItem(ty.base, done, r.wire, r.payload) == Done(Many(grown), [])
    ensures ReadRecord(ty, Many(done), r) == Some(Many(grown))
  {
    hide UnpackItem;
  }

  lemma RepeatedBase(f: Field, v: BaseValue)
    requires FieldOk(f) && f.ty.Repeated? && HasType(f.ty.base, v)
    ensures (v.TextV? || v.MessageV?) && WireType(f.ty.base) == LENGTH_DELIMITED
  {
    hide BaseOk, SlotsTyped, Encode;
  }

  lemma ItemReads(f: Field, done: seq<BaseValue>, v: BaseValue)
    requires FieldOk(f) && f.ty.Repeated? && HasType(f.ty.base, v)
    requires UnpackBase(f.ty.base, Default(f.ty.base), WireType(f.ty.base), Payload(f.ty.base, v))
            == Done(AsRead(v), [])
    ensures ReadRecord(f.ty, Many(done), ItemRecord(f, v)) == Some(Many(done + [AsRead(v)]))
  {
    assert ItemRecord(f, v) == Record(f.key, WireType(f.ty.base), Payload(f.ty.base, v));
    hide *;
    RepeatedBase(f, v);
    if v.MessageV? {
      NestedBody(f.ty.base, v);
    }
    ItemParts(f.ty.base, done, v);
    LengthPrefix(f.ty.base, v);
    RepeatedRecord(f.ty, done, ItemRecord(f, v), done + [AsRead(v)]);
  }

  // ----- a message

  lemma {:induction false} OfAppend(a: seq<Record>, b: seq<Record>, key: nat)
    ensures Of(a + b, key) == Of(a, key) + Of(b, key)
  {
    if a == [] {
      assert a + b == b;
    } else {
      assert (a + b)[1..] == a[1..] + b && (a + b)[0] == a[0];
      OfAppend(a[1..], b, key);
      var first := if a[0].key == key then [a[0]] else [];
      assert Of(a + b, key) == first + (Of(a[1..], key) + Of(b, key));
      assert Of(a, key) == first + Of(a[1..], key);
    }
  }

  lemma {:induction false} ItemsOf(f: Field, items: seq<BaseValue>, key: nat)
    ensures Of(ItemRecords(f, items), key) == if key == f.key then ItemRecords(f, items) else []
  {
    if items != [] {
      assert ItemRecords(f, items)[1..] == ItemRecords(f, items[1..]);
      ItemsOf(f, items[1..], key);
    }
  }

  lemma SlotOf(f: Field, s: Slot, key: nat)
    ensures Of(SlotRecords(f, s), key) == if key == f.key then SlotRecords(f, s) else []
  {
    hide Payload;
    match s
    case Many(items) => ItemsOf(f, items, key);
    case Holds(v) => assert SlotRecords(f, s)[1..] == [];
    case May(option) => assert option.Some? ==> SlotRecords(f, s)[1..] == [];
  }

  lemma {:induction false} NoneOf(fields: seq<Field>, slots: seq<Slot>, key: nat)
    requires |fields| == |slots| && Find(fields, key) == |fields|
    ensures Of(Records(fields, slots), key) == []
  {
    if fields != [] {
      SlotOf(fields[0], slots[0], key);
      OfAppend(SlotRecords(fields[0], slots[0]), Records(fields[1..], slots[1..]), key);
      NoneOf(fields[1..], slots[1..], key);
    }
  }

  /** The records of the i-th field are exactly those its slot writes. */
  lemma {:induction false} FieldOf(fields: seq<Field>, slots: seq<Slot>, i: nat)
    requires DistinctKeys(fields) && |fields| == |slots| && i < |fields|
    ensures Of(Records(fields, slots), fields[i].key) == SlotRecords(fields[i], slots[i])
  {
    hide SlotRecords, Find;
    var head, tail := SlotRecords(fields[0], slots[0]), Records(fields[1..], slots[1..]);
    SlotOf(fields[0], slots[0], fields[i].key);
    OfAppend(head, tail, fields[i].key);
    FindsItself(fields, i);
    if i == 0 {
      NoneOf(fields[1..], slots[1..], fields[0].key);
    } else {
      FieldOf(fields[1..], slots[1..], i - 1);
    }
  }

  lemma {:induction false} SlotAt(fields: seq<Field>, slots: seq<Slot>, i: nat)
    requires FieldsOk(fields) && SlotsTyped(fields, slots) && Complete(fields, slots) && i < |fields|
    ensures FieldOk(fields[i]) && SlotTyped(fields[i].ty, slots[i]) && SlotComplete(fields[i].ty, slots[i])
    ensures Defaults(fields)[i] == DefaultSlot(fields[i]) && SlotsAsRead(slots)[i] == SlotAsRead(slots[i])
    decreases i
  {
    if i > 0 {
      SlotAt(fields[1..], slots[1..], i - 1);
    }
  }

  lemma {:induction false} RecordsTaggable(fields: seq<Field>, slots: seq<Slot>)
    requires FieldsOk(fields)
    ensures AllTaggable(Records(fields, slots))
  {
    if fields != [] && slots != [] {
      RecordsTaggable(fields[1..], slots[1..]);
      SlotTaggable(fields[0], slots[0]);
      TaggableAppend(SlotRecords(fields[0], slots[0]), Records(fields[1..], slots[1..]));
    }
  }

  lemma SlotTaggable(f: Field, s: Slot)
    requires FieldOk(f)
    ensures AllTaggable(SlotRecords(f, s))
  {
    if s.Many? {
      ItemsTaggable(f, s.items);
    }
    hide Payload;
  }

  lemma {:induction false} ItemsTaggable(f: Field, items: seq<BaseValue>)
    requires FieldOk(f)
    ensures AllTaggable(ItemRecords(f, items))
  {
    if items != [] {
      ItemsTaggable(f, items[1..]);
      assert ItemRecords(f, items)[1..] == ItemRecords(f, items[1..]);
    }
  }

  lemma {:induction false} TaggableAppend(a: seq<Record>, b: seq<Record>)
    requires AllTaggable(a) && AllTaggable(b)
    ensures AllTaggable(a + b)
  {
    if a == [] {
      assert a + b == b;
    } else {
      assert (a + b)[1..] == a[1..] + b;
      TaggableAppend(a[1..], b);
    }
  }

  lemma {:induction false} RecordsFold(fields: seq<Field>, slots: seq<Slot>)
    requires SchemaOk(fields) && SlotsTyped(fields, slots) && Complete(fields, slots)
    ensures ApplyAll(fields, Defaults(fields), Records(fields, slots)) == Some(SlotsAsRead(slots))
    decreases slots, 0
  {
    var rs := Records(fields, slots);
    forall i | 0 <= i < |fields|
      ensures Fold(fields[i].ty, Defaults(fields)[i], Of(rs, fields[i].key)) == Some(SlotsAsRead(slots)[i])
    {
      SlotAt(fields, slots, i);
      SlotFolds(fields[i], slots[i]);
      FieldOf(fields, slots, i);
    }
    forall key: nat | Find(fields, key) == |fields|
      ensures Of(rs, key) == []
    {
      NoneOf(fields, slots, key);
    }
    KnownByFields(fields, rs);
    ApplyAllIsFolds(fields, Defaults(fields), rs, SlotsAsRead(slots));
  }

  lemma {:induction false} MessageRoundTrip(fields: seq<Field>, slots: seq<Slot>)
    requires SchemaOk(fields) && SlotsTyped(fields, slots) && Complete(fields, slots)
    ensures UnpackMessage(fields, Defaults(fields), Encode(fields, slots)) == Done(SlotsAsRead(slots), [])
    decreases slots, 1
  {
    RecordsFold(fields, slots);
    RecordsTaggable(fields, slots);
    UnpackIsApplyAll(fields, Defaults(fields), Records(fields, slots));
  }

  /** Round trip: a packed message unpacks, and gives itself back exactly when its signed varints
    * lie in [-2^30, 2^30). */
  lemma RoundTrip(fields: seq<Field>, slots: seq<Slot>)
    requires SchemaOk(fields) && SlotsTyped(fields, slots) && Complete(fields, slots)
    ensures UnpackMessage(fields, Defaults(fields), Encode(fields, slots)).Done?
    ensures UnpackMessage(fields, Defaults(fields), Encode(fields, slots)) == Done(slots, []) <==> SlotsExact(slots)
  {
    MessageRoundTrip(fields, slots);
    SlotsExactMeansAsRead(slots);
  }

  /** The records of a packed message may be sent in any order that keeps each field's own. */
  lemma AnyOrder(fields: seq<Field>, slots: seq<Slot>, rs: seq<Record>)
    requires SchemaOk(fields) && SlotsTyped(fields, slots) && Complete(fields, slots) && AllTaggable(rs)
    requires forall key: nat :: Of(rs, key) == Of(Records(fields, slots), key)
    ensures UnpackMessage(fields, Defaults(fields), Join(rs))
            == UnpackMessage(fields, Defaults(fields), Encode(fields, slots))
  {
    RecordsFold(fields, slots);
    RecordsTaggable(fields, slots);
    OrderDoesNotMatter(fields, Defaults(fields), Records(fields, slots), rs);
  }
}
