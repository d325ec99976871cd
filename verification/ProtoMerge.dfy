/** Unpacking a packed message over one that already holds something: the two are merged. */
module ProtoMerge {
  import opened Wrappers
  import opened Varint
  import opened ProtoBuf
  import opened ProtoRecords
  import opened ProtoRoundTrip

  // ----- message objects of a type

  predicate Shaped(base: Base, t: BaseValue)
    decreases t
  {
    base.Message? ==> t.MessageV? && SlotsShaped(base.fields, t.slots)
  }

  predicate SlotShaped(ty: FieldType, s: Slot)
    decreases s
  {
    match s
    case Holds(v) => ty.One? && Shaped(ty.base, v)
    case May(option) => (ty.Optional? || ty.Required?) && (option.Some? ==> Shaped(ty.base, option.value))
    case Many(_) => ty.Repeated?
  }

  predicate SlotsShaped(fields: seq<Field>, slots: seq<Slot>)
    decreases slots
  {
    |fields| == |slots| && (slots == [] || (SlotShaped(fields[0].ty, slots[0]) && SlotsShaped(fields[1..], slots[1..])))
  }

  // ----- merging

  /** A value replaces what is there, except that a message is merged into it. */
  function Merged(base: Base, target: BaseValue, v: BaseValue): BaseValue
    decreases v
  {
    if base.Message? && target.MessageV? && v.MessageV?
    then MessageV(SlotsMerged(base.fields, target.slots, v.slots)) else AsRead(v)
  }

  /** An unset optional leaves what is there; a set one is merged into it, or into a default value if there
    * is none; and the elements of a repeated field are added to those there. */
  function SlotMerged(ty: FieldType, target: Slot, s: Slot): Slot
    decreases s
  {
    match s
    case Holds(v) => Holds(Merged(ty.base, if target.Holds? then target.value else Default(ty.base), v))
    case May(option) =>
      if option.None? then target
      else
        May(Some(Merged(ty.base, if target.May? && target.option.Some? then target.option.value else Default(ty.base),
                        option.value)))
    case Many(items) => Many((if target.Many? then target.items else []) + ItemsAsRead(items))
  }

  function SlotsMerged(fields: seq<Field>, targets: seq<Slot>, slots: seq<Slot>): (r: seq<Slot>)
    ensures |fields| == |targets| == |slots| ==> |r| == |slots|
    decreases slots
  {
    if fields == [] || targets == [] || slots == [] then []
    else [SlotMerged(fields[0].ty, targets[0], slots[0])] + SlotsMerged(fields[1..], targets[1..], slots[1..])
  }

  lemma {:induction false} DefaultShaped(base: Base)
    ensures Shaped(base, Default(base))
    decreases base
  {
    if base.Message? {
      DefaultsShaped(base.fields);
    }
  }

  lemma {:induction false} DefaultsShaped(fields: seq<Field>)
    ensures SlotsShaped(fields, Defaults(fields))
    decreases fields
  {
    if fields != [] {
      DefaultSlotShaped(fields[0]);
      DefaultsShaped(fields[1..]);
    }
  }

  lemma {:induction false} DefaultSlotShaped(f: Field)
    ensures SlotShaped(f.ty, DefaultSlot(f))
    decreases f
  {
    DefaultShaped(f.ty.base);
  }

  lemma {:induction false} ReadShaped(base: Base, v: BaseValue)
    requires HasType(base, v)
    ensures Shaped(base, AsRead(v))
    decreases v
  {
    if v.MessageV? {
      ReadSlotsShaped(base.fields, v.slots);
    }
  }

  lemma {:induction false} ReadSlotShaped(ty: FieldType, s: Slot)
    requires SlotTyped(ty, s)
    ensures SlotShaped(ty, SlotAsRead(s))
    decreases s
  {
    match s
    case Holds(v) => ReadShaped(ty.base, v);
    case May(option) =>
      if option.Some? {
        ReadShaped(ty.base, option.value);
      }
    case Many(_) =>
  }

  lemma {:induction false} ReadSlotsShaped(fields: seq<Field>, slots: seq<Slot>)
    requires SlotsTyped(fields, slots)
    ensures SlotsShaped(fields, SlotsAsRead(slots))
    decreases slots
  {
    if slots != [] {
      ReadSlotShaped(fields[0].ty, slots[0]);
      ReadSlotsShaped(fields[1..], slots[1..]);
      assert SlotsAsRead(slots)[1..] == SlotsAsRead(slots[1..]);
    }
  }

  // ----- unpacking merges

  /** A message over a target is read as a field in full. */
  lemma NestedMerges(base: Base, target: BaseValue, v: BaseValue)
    requires HasType(base, v) && v.MessageV? && target.MessageV?
    requires UnpackMessage(base.fields, target.slots, Encode(base.fields, v.slots))
          == Done(SlotsMerged(base.fields, target.slots, v.slots), [])
    ensures UnpackBase(base, target, WireType(base), Payload(base, v)) == Done(Merged(base, target, v), [])
    ensures Payload(base, v) != []
  {
    LengthPrefix(base, v);
    var body := Encode(base.fields, v.slots);
    assert Body(base, v) == body && body[..|body|] == body && body[|body|..] == [];
    hide Encode, ReadVarint, UnpackMessage, ReadSize, Payload, Body, SlotsTyped, SlotsMerged;
  }

  lemma {:induction false} ValueMerges(base: Base, target: BaseValue, v: BaseValue)
    requires HasType(base, v) && BaseOk(base) && BaseComplete(base, v) && Shaped(base, target)
    ensures UnpackBase(base, target, WireType(base), Payload(base, v)) == Done(Merged(base, target, v), [])
    ensures Payload(base, v) != []
    decreases v, 0
  {
    if v.MessageV? {
      MessageMerges(base.fields, target.slots, v.slots);
      NestedMerges(base, target, v);
    } else {
      match v
      case ScalarV(_) => FixedFieldReads(base, v, target);
      case UVarV(_) => VarintFieldReads(base, v, target);
      case SVarV(_) => VarintFieldReads(base, v, target);
      case TextV(_) => TextFieldReads(base, v, target);
    }
  }

  /** One record of a field that does not repeat. */
  lemma SingleMerges(ty: FieldType, target: Slot, r: Record, v: BaseValue)
    requires !ty.Repeated? && r.payload != []
    requires UnpackBase(ty.base, Current(ty.base, target), r.wire, r.payload) == Done(v, [])
    ensures Fold(ty, target, [r]) == Some(if ty.One? then Holds(v) else May(Some(v)))
  {
    FoldOne(ty, target, r);
    hide UnpackBase, Fold, Current;
  }

  lemma {:induction false} SlotMerges(f: Field, target: Slot, s: Slot)
    requires FieldOk(f) && SlotTyped(f.ty, s) && SlotComplete(f.ty, s) && SlotShaped(f.ty, target)
    ensures Fold(f.ty, target, SlotRecords(f, s)) == Some(SlotMerged(f.ty, target, s))
    decreases s, 0
  {
    var base, now := f.ty.base, Current(f.ty.base, target);
    DefaultShaped(base);
    match s
    case Holds(v) =>
      ValueMerges(base, now, v);
      SingleMerges(f.ty, target, SlotRecords(f, s)[0], Merged(base, now, v));
    case May(option) =>
      if option.Some? {
        ValueMerges(base, now, option.value);
        SingleMerges(f.ty, target, SlotRecords(f, s)[0], Merged(base, now, option.value));
      }
    case Many(items) => ItemsFold(f, target.items, items);
  }

  lemma {:induction false} MergedAt(fields: seq<Field>, targets: seq<Slot>, slots: seq<Slot>, i: nat)
    requires |fields| == |targets| == |slots| && i < |fields| && SlotsShaped(fields, targets)
    ensures SlotShaped(fields[i].ty, targets[i])
    ensures SlotsMerged(fields, targets, slots)[i] == SlotMerged(fields[i].ty, targets[i], slots[i])
    decreases i
  {
    hide SlotMerged;
    if i > 0 {
      MergedAt(fields[1..], targets[1..], slots[1..], i - 1);
    }
  }

  lemma {:induction false} RecordsMerge(fields: seq<Field>, targets: seq<Slot>, slots: seq<Slot>)
    requires SchemaOk(fields) && SlotsTyped(fields, slots) && Complete(fields, slots) && SlotsShaped(fields, targets)
    ensures |targets| == |fields| == |slots|
    ensures ApplyAll(fields, targets, Records(fields, slots)) == Some(SlotsMerged(fields, targets, slots))
    decreases slots, 0
  {
    var rs := Records(fields, slots);
    forall i | 0 <= i < |fields|
      ensures Fold(fields[i].ty, targets[i], Of(rs, fields[i].key)) == Some(SlotsMerged(fields, targets, slots)[i])
    {
      SlotAt(fields, slots, i);
      MergedAt(fields, targets, slots, i);
      SlotMerges(fields[i], targets[i], slots[i]);
      FieldOf(fields, slots, i);
    }
    forall key: nat | Find(fields, key) == |fields|
      ensures Of(rs, key) == []
    {
      NoneOf(fields, slots, key);
    }
    KnownByFields(fields, rs);
    ApplyAllIsFolds(fields, targets, rs, SlotsMerged(fields, targets, slots));
  }

  /** A packed message, of any nesting, unpacked over any message object of its type is merged into it. */
  lemma {:induction false} MessageMerges(fields: seq<Field>, targets: seq<Slot>, slots: seq<Slot>)
    requires SchemaOk(fields) && SlotsTyped(fields, slots) && Complete(fields, slots) && SlotsShaped(fields, targets)
    ensures UnpackMessage(fields, targets, Encode(fields, slots)) == Done(SlotsMerged(fields, targets, slots), [])
    decreases slots, 1
  {
    RecordsMerge(fields, targets, slots);
    RecordsTaggable(fields, slots);
    UnpackIsApplyAll(fields, targets, Records(fields, slots));
  }

  /** The bytes of one message after another unpack as the second merged into the first. */
  lemma JoinedMessages(fields: seq<Field>, first: seq<Slot>, second: seq<Slot>)
    requires SchemaOk(fields) && SlotsTyped(fields, first) && Complete(fields, first)
    requires SlotsTyped(fields, second) && Complete(fields, second)
    ensures UnpackMessage(fields, Defaults(fields), Encode(fields, first) + Encode(fields, second))
         == Done(SlotsMerged(fields, SlotsAsRead(first), second), [])
  {
    var a, b := Records(fields, first), Records(fields, second);
    ReadSlotsShaped(fields, first);
    RecordsFold(fields, first);
    RecordsMerge(fields, SlotsAsRead(first), second);
    RecordsTaggable(fields, first);
    RecordsTaggable(fields, second);
    TaggableAppend(a, b);
    JoinAppend(a, b);
    ApplyAppend(fields, Defaults(fields), a, b);
    hide *;
    UnpackIsApplyAll(fields, Defaults(fields), a + b);
  }

  lemma {:induction false} JoinAppend(a: seq<Record>, b: seq<Record>)
    ensures Join(a + b) == Join(a) + Join(b)
  {
    hide RecordBytes;
    if a == [] {
      assert a + b == b;
    } else {
      assert (a + b)[1..] == a[1..] + b && (a + b)[0] == a[0];
      JoinAppend(a[1..], b);
      assert RecordBytes(a[0]) + (Join(a[1..]) + Join(b)) == RecordBytes(a[0]) + Join(a[1..]) + Join(b);
    }
  }

  lemma {:induction false} ApplyAppend(fields: seq<Field>, slots: seq<Slot>, a: seq<Record>, b: seq<Record>)
    requires |fields| == |slots| && ApplyAll(fields, slots, a).Some?
    ensures ApplyAll(fields, slots, a + b) == ApplyAll(fields, ApplyAll(fields, slots, a).value, b)
    decreases |a|
  {
    hide Apply;
    if a == [] {
      assert a + b == b;
    } else {
      assert (a + b)[1..] == a[1..] + b && (a + b)[0] == a[0];
      ApplyAppend(fields, Apply(fields, slots, a[0]).value, a[1..], b);
    }
  }
}
