/** The bytes of the protocol-buffer codec, spelled out: tags by number, and what is done with bytes that
  * no packing wrote. */
module ProtoWire {
  import opened Bytes
  import opened Wrappers
  import opened Varint
  import opened ProtoBuf
  import opened ProtoRecords
  import Raw = RawCodec

  /** The low three bits of a tag: 3, 4, 5 and 1 for one, two, four and eight bytes, 0 for a varint, and 2
    * for what has a length. */
  predicate HasKind(base: Base, kind: int) {
    match base
    case Scalar(width, _) =>
      || (width == 1 && kind == 3) || (width == 2 && kind == 4)
      || (width == 4 && kind == 5) || (width == 8 && kind == 1)
    case UVar => kind == 0
    case SVar => kind == 0
    case Text => kind == 2
    case Message(_) => kind == 2
  }

  lemma KindIsWireType(base: Base, kind: int)
    requires HasKind(base, kind)
    ensures WireType(base) == kind && 0 <= kind < 8
  {}

  /** The value that a slot's first record holds. */
  function FirstValue(s: Slot): Option<BaseValue> {
    match s
    case Holds(v) => Some(v)
    case May(option) => option
    case Many(items) => if items == [] then None else Some(items[0])
  }

  lemma FirstRecord(f: Field, s: Slot)
    ensures SlotRecords(f, s) == [] <==> FirstValue(s) == None
    ensures SlotRecords(f, s) != [] ==>
              SlotRecords(f, s)[0] == Record(f.key, WireType(f.ty.base), Payload(f.ty.base, FirstValue(s).value))
  {
    hide Payload, WireType;
  }

  /** What stands for a slot that holds something starts with 8 times its field's key plus the kind, as one
    * varint, followed by the first value. */
  lemma FieldStarts(f: Field, s: Slot, kind: int, rest: bytes)
    requires HasKind(f.ty.base, kind) && f.key < 0x2000_0000 && FirstValue(s) != None
    ensures var b, v := Join(SlotRecords(f, s)) + rest, FirstValue(s).value;
            EncodeVarint(8 * f.key + kind) + Payload(f.ty.base, v) <= b
    ensures var r := ReadVarint(Join(SlotRecords(f, s)) + rest);
            r.Some? && r.value.value == 8 * f.key + kind && Payload(f.ty.base, FirstValue(s).value) <= r.value.rest
  {
    var rs := SlotRecords(f, s);
    FirstRecord(f, s);
    KindIsWireType(f.ty.base, kind);
    SmallTag(f.key, kind);
    var tag, payload, more := Tag(f.key, kind), Payload(f.ty.base, FirstValue(s).value), Join(rs[1..]);
    JoinFirst(rs);
    hide *;
    Regroup(tag, payload, more, rest);
    VarintRoundTrip(8 * f.key + kind, payload + (more + rest));
  }

  lemma Regroup(tag: bytes, payload: bytes, more: bytes, rest: bytes)
    ensures ((tag + payload) + more) + rest == tag + (payload + (more + rest))
    ensures tag + payload <= ((tag + payload) + more) + rest && payload <= payload + (more + rest)
  {}

  lemma JoinFirst(rs: seq<Record>)
    requires rs != []
    ensures Join(rs) == (Tag(rs[0].key, rs[0].wire) + rs[0].payload) + Join(rs[1..])
  {
    hide Tag;
  }

  // ----- what the reader does with a tag

  lemma AtTag(fields: seq<Field>, slots: seq<Slot>, key: nat, low: nat, b: bytes)
    requires |fields| == |slots| && key < 0x2000_0000 && low < 8
    ensures var m := UnpackMessage(fields, slots, EncodeVarint(8 * key + low) + b);
            match UnpackField(fields, slots, key, low, b)
            case Done(next, rest) => m == UnpackMessage(fields, next, rest)
            case Stopped(next) => m == Stopped(next)
            case Raised(e) => m == Raised(e)
            case Endless => m == Endless
  {
    SmallTag(key, low);
    hide UnpackField, UnpackMessage, EncodeVarint, ReadVarint;
    TagReads(Record(key, low, []), b);
    LoopStep(fields, slots, Tag(key, low) + b);
  }

  /** A key that no field has raises. */
  lemma UnknownKey(fields: seq<Field>, slots: seq<Slot>, key: nat, low: nat, b: bytes)
    requires |fields| == |slots| && key < 0x2000_0000 && low < 8
    requires forall i :: 0 <= i < |fields| ==> fields[i].key != key
    ensures UnpackMessage(fields, slots, EncodeVarint(8 * key + low) + b) == Raised(FieldNotFound)
  {
    AtTag(fields, slots, key, low, b);
    hide UnpackMessage, EncodeVarint;
  }

  /** The slot that a value read into a field leaves. */
  function Filled(ty: FieldType, v: BaseValue): Slot {
    if ty.One? then Holds(v) else May(Some(v))
  }

  /** What a field that does not repeat reads into: what it holds, or a default value. */
  function Into(ty: FieldType, s: Slot): BaseValue {
    if s.Holds? then s.value else if s.May? && s.option.Some? then s.option.value else Default(ty.base)
  }

  lemma SingleField(fields: seq<Field>, slots: seq<Slot>, i: nat, low: nat, b: bytes)
    requires |fields| == |slots| && i < |fields| && fields[i].key < 0x2000_0000 && low < 8
    requires (forall j :: 0 <= j < i ==> fields[j].key != fields[i].key) && !fields[i].ty.Repeated?
    ensures var ty := fields[i].ty;
            UnpackField(fields, slots, fields[i].key, low, b) ==
            match UnpackBase(ty.base, Into(ty, slots[i]), low, b)
            case Done(v, rest) => Done(slots[i := Filled(ty, v)], rest)
            case Stopped(v) => Stopped(slots[i := Filled(ty, v)])
            case Raised(e) => Raised(e)
            case Endless => Endless
  {
    assert Find(fields, fields[i].key) == i;
    hide UnpackBase, Find, Default;
  }

  /** A scalar field takes a record exactly when its tag's low three bits are the kind of its width; then it
    * gets the little-endian number of its bytes, and if they are not all there it is left alone and what
    * bytes there are are read as the next tag. */
  lemma ScalarField(fields: seq<Field>, slots: seq<Slot>, i: nat, kind: nat, low: nat, b: bytes)
    requires |fields| == |slots| && i < |fields| && fields[i].key < 0x2000_0000 && low < 8
    requires (forall j :: 0 <= j < i ==> fields[j].key != fields[i].key) && !fields[i].ty.Repeated?
    requires fields[i].ty.base.Scalar? && HasKind(fields[i].ty.base, kind)
    ensures var ty, width := fields[i].ty, fields[i].ty.base.width;
            UnpackMessage(fields, slots, EncodeVarint(8 * fields[i].key + low) + b) ==
            if low != kind then Raised(KeyTypeMismatch)
            else if width <= |b| then
              var v := ScalarV(Raw.ReadFixed(b[..width], ty.base.signed));
              UnpackMessage(fields, slots[i := Filled(ty, v)], b[width..])
            else UnpackMessage(fields, slots[i := Filled(ty, Into(ty, slots[i]))], b)
  {
    KindIsWireType(fields[i].ty.base, kind);
    SingleField(fields, slots, i, low, b);
    AtTag(fields, slots, fields[i].key, low, b);
    hide UnpackMessage, UnpackField, EncodeVarint, Raw.ReadFixed, WireType, Find;
  }

  /** A varint field takes records of kind 0, and gets the number, or the number it is the zigzag form of. */
  lemma VarintField(fields: seq<Field>, slots: seq<Slot>, i: nat, low: nat, n: nat, b: bytes)
    requires |fields| == |slots| && i < |fields| && fields[i].key < 0x2000_0000 && low < 8 && n < 0x1_0000_0000
    requires (forall j :: 0 <= j < i ==> fields[j].key != fields[i].key) && !fields[i].ty.Repeated?
    requires fields[i].ty.base.UVar? || fields[i].ty.base.SVar?
    ensures var ty := fields[i].ty;
            UnpackMessage(fields, slots, EncodeVarint(8 * fields[i].key + low) + (EncodeVarint(n) + b)) ==
            if low > 0 then Raised(KeyTypeMismatch)
            else
              var v := if ty.base.UVar? then UVarV(n) else SVarV(Unzigzag(n));
              UnpackMessage(fields, slots[i := Filled(ty, v)], b)
  {
    var base, target := fields[i].ty.base, Into(fields[i].ty, slots[i]);
    hide UnpackMessage, UnpackField, UnpackBase, EncodeVarint, Filled, Into, Unzigzag;
    VarintBase(base, target, low, n, b);
    SingleField(fields, slots, i, low, EncodeVarint(n) + b);
    AtTag(fields, slots, fields[i].key, low, EncodeVarint(n) + b);
  }

  lemma VarintBase(base: Base, target: BaseValue, low: nat, n: nat, b: bytes)
    requires n < 0x1_0000_0000 && (base.UVar? || base.SVar?)
    ensures UnpackBase(base, target, low, EncodeVarint(n) + b) ==
            if low > 0 then Raised(KeyTypeMismatch) else Done(if base.UVar? then UVarV(n) else SVarV(Unzigzag(n)), b)
  {
    SizeOf(n, b);
    assert n % TWO_32 == n;
    hide EncodeVarint, ReadSize, Unzigzag;
  }

  lemma SizeOf(n: nat, b: bytes)
    requires n < 0x1_0000_0000
    ensures ReadSize(EncodeVarint(n) + b) == Size(n, b)
  {
    VarintRoundTrip(n, b);
    hide ReadVarint;
  }

  /** A string field takes records of kind 2, and gets as many bytes as the length before them says; with
    * fewer there, unpacking is given up and the field keeps what it holds. */
  lemma TextField(fields: seq<Field>, slots: seq<Slot>, i: nat, low: nat, n: nat, b: bytes)
    requires |fields| == |slots| && i < |fields| && fields[i].key < 0x2000_0000 && low < 8 && n < 0x1_0000_0000
    requires (forall j :: 0 <= j < i ==> fields[j].key != fields[i].key) && !fields[i].ty.Repeated?
    requires fields[i].ty.base.Text?
    ensures var ty := fields[i].ty;
            UnpackMessage(fields, slots, EncodeVarint(8 * fields[i].key + low) + (EncodeVarint(n) + b)) ==
            if low != 2 then Raised(KeyTypeMismatch)
            else if n <= |b| then UnpackMessage(fields, slots[i := Filled(ty, TextV(b[..n]))], b[n..])
            else Stopped(slots[i := Filled(ty, Into(ty, slots[i]))])
  {
    var base, target := fields[i].ty.base, Into(fields[i].ty, slots[i]);
    hide UnpackMessage, UnpackField, UnpackBase, EncodeVarint, Filled, Into;
    TextBase(base, target, low, n, b);
    SingleField(fields, slots, i, low, EncodeVarint(n) + b);
    AtTag(fields, slots, fields[i].key, low, EncodeVarint(n) + b);
  }

  lemma TextBase(base: Base, target: BaseValue, low: nat, n: nat, b: bytes)
    requires n < 0x1_0000_0000 && base.Text?
    ensures UnpackBase(base, target, low, EncodeVarint(n) + b) ==
            if low != 2 then Raised(KeyTypeMismatch)
            else if n <= |b| then Done(TextV(b[..n]), b[n..]) else Stopped(target)
  {
    SizeOf(n, b);
    hide EncodeVarint, ReadSize;
  }

  /** A message field takes records of kind 2. The length says how many bytes are its own: with fewer there
    * it raises, and otherwise what is unpacked from them, into what the field holds, decides. */
  lemma MessageField(fields: seq<Field>, slots: seq<Slot>, i: nat, low: nat, n: nat, b: bytes)
    requires |fields| == |slots| && i < |fields| && fields[i].key < 0x2000_0000 && low < 8 && n < 0x1_0000_0000
    requires (forall j :: 0 <= j < i ==> fields[j].key != fields[i].key) && !fields[i].ty.Repeated?
    requires fields[i].ty.base.Message? && Into(fields[i].ty, slots[i]).MessageV?
    ensures var ty := fields[i].ty;
            var m := UnpackMessage(fields, slots, EncodeVarint(8 * fields[i].key + low) + (EncodeVarint(n) + b));
            if low != 2 then m == Raised(KeyTypeMismatch)
            else if n > |b| then m == Raised(FieldSizeLargerThanBuffer)
            else
              match UnpackMessage(ty.base.fields, Into(ty, slots[i]).slots, b[..n])
              case Done(inner, _) => m == UnpackMessage(fields, slots[i := Filled(ty, MessageV(inner))], b[n..])
              case Stopped(inner) => m == Stopped(slots[i := Filled(ty, MessageV(inner))])
              case Raised(e) => m == Raised(e)
              case Endless => m == Endless
  {
    hide *;
    var base, target := fields[i].ty.base, Into(fields[i].ty, slots[i]);
    var more := EncodeVarint(n) + b;
    MessageBase(base, target, low, n, b);
    SingleField(fields, slots, i, low, more);
    AtTag(fields, slots, fields[i].key, low, more);
    if low == 2 && n <= |b| {
      match UnpackMessage(base.fields, target.slots, b[..n])
      case Done(_, _) =>
      case Stopped(_) =>
      case Raised(_) =>
      case Endless =>
    }
  }

  lemma MessageBase(base: Base, target: BaseValue, low: nat, n: nat, b: bytes)
    requires n < 0x1_0000_0000 && base.Message? && target.MessageV?
    ensures var r := UnpackBase(base, target, low, EncodeVarint(n) + b);
            if low != 2 then r == Raised(KeyTypeMismatch)
            else if n > |b| then r == Raised(FieldSizeLargerThanBuffer)
            else
              match UnpackMessage(base.fields, target.slots, b[..n])
              case Done(inner, _) => r == Done(MessageV(inner), b[n..])
              case Stopped(inner) => r == Stopped(MessageV(inner))
              case Raised(e) => r == Raised(e)
              case Endless => r == Endless
  {
    SizeOf(n, b);
    hide EncodeVarint, ReadSize, UnpackMessage;
  }

  /** A repeated field takes records of kind 2, each one element more: a string, or a message read into
    * default values. An element that cannot be read is not kept. */
  lemma RepeatedField(fields: seq<Field>, slots: seq<Slot>, i: nat, low: nat, n: nat, b: bytes)
    requires |fields| == |slots| && i < |fields| && fields[i].key < 0x2000_0000 && low < 8 && n < 0x1_0000_0000
    requires (forall j :: 0 <= j < i ==> fields[j].key != fields[i].key) && fields[i].ty.Repeated? && slots[i].Many?
    ensures var base, items := fields[i].ty.base, slots[i].items;
            var m := UnpackMessage(fields, slots, EncodeVarint(8 * fields[i].key + low) + (EncodeVarint(n) + b));
            if low != 2 then m == Raised(KeyTypeMismatch)
            else if !base.Message? then
              if n <= |b| then m == UnpackMessage(fields, slots[i := Many(items + [TextV(b[..n])])], b[n..])
              else m == Stopped(slots)
            else if n > |b| then m == Raised(FieldSizeLargerThanBuffer)
            else
              match UnpackMessage(base.fields, Defaults(base.fields), b[..n])
              case Done(inner, _) => m == UnpackMessage(fields, slots[i := Many(items + [MessageV(inner)])], b[n..])
              case Stopped(_) => m == Stopped(slots)
              case Raised(e) => m == Raised(e)
              case Endless => m == Endless
  {
    hide *;
    var base, items := fields[i].ty.base, slots[i].items;
    var more := EncodeVarint(n) + b;
    assert slots[i := Many(items)] == slots;
    OneMore(fields, slots, i, low, more);
    ItemBase(base, items, low, n, b);
    AtTag(fields, slots, fields[i].key, low, more);
    if low == 2 && base.Message? && n <= |b| {
      match UnpackMessage(base.fields, Defaults(base.fields), b[..n])
      case Done(_, _) =>
      case Stopped(_) =>
      case Raised(_) =>
      case Endless =>
    }
  }

  lemma OneMore(fields: seq<Field>, slots: seq<Slot>, i: nat, low: nat, b: bytes)
    requires |fields| == |slots| && i < |fields|
    requires (forall j :: 0 <= j < i ==> fields[j].key != fields[i].key) && fields[i].ty.Repeated? && slots[i].Many?
    ensures UnpackField(fields, slots, fields[i].key, low, b) ==
            match UnpackItem(fields[i].ty.base, slots[i].items, low, b)
            case Done(s, rest) => Done(slots[i := s], rest)
            case Stopped(s) => Stopped(slots[i := s])
            case Raised(e) => Raised(e)
            case Endless => Endless
  {
    assert Find(fields, fields[i].key) == i;
    hide UnpackItem, Find;
  }

  lemma ItemBase(base: Base, items: seq<BaseValue>, low: nat, n: nat, b: bytes)
    requires n < 0x1_0000_0000
    ensures var r := UnpackItem(base, items, low, EncodeVarint(n) + b);
            if low != 2 then r == Raised(KeyTypeMismatch)
            else if !base.Message? then
              if n <= |b| then r == Done(Many(items + [TextV(b[..n])]), b[n..]) else r == Stopped(Many(items))
            else if n > |b| then r == Raised(FieldSizeLargerThanBuffer)
            else
              match UnpackMessage(base.fields, Defaults(base.fields), b[..n])
              case Done(inner, _) => r == Done(Many(items + [MessageV(inner)]), b[n..])
              case Stopped(_) => r == Stopped(Many(items))
              case Raised(e) => r == Raised(e)
              case Endless => r == Endless
  {
    SizeOf(n, b);
    hide EncodeVarint, ReadSize, UnpackMessage, Defaults;
  }

  /** The number 7 in four bytes as field 1, 150 as a varint there, and two letters as field 2. */
  lemma SampleFixed()
    ensures Encode([Field(1, One(Scalar(4, false)))], [Holds(ScalarV(7))]) == [0x0D, 7, 0, 0, 0]
  {
    OneRecord(Field(1, One(Scalar(4, false))), ScalarV(7));
    assert Raw.LittleEndian(0, 2) == [0, 0];
    assert Raw.LittleEndian(0, 3) == [0, 0, 0];
    assert Raw.LittleEndian(7, 4) == [7, 0, 0, 0] && Tag(1, BIT32) == [0x0D];
    hide Encode, Raw.LittleEndian, Tag;
  }

  lemma SampleVarint()
    ensures Encode([Field(1, One(UVar))], [Holds(UVarV(150))]) == [0x08, 0x96, 0x01]
  {
    OneRecord(Field(1, One(UVar)), UVarV(150));
    assert EncodeVarint(1) == [1];
    assert EncodeVarint(150) == [0x96, 0x01] && Tag(1, VARINT) == [0x08];
    hide Encode, EncodeVarint, Tag;
  }

  lemma SampleText()
    ensures Encode([Field(2, One(Text))], [Holds(TextV([0x68, 0x69]))]) == [0x12, 2, 0x68, 0x69]
  {
    OneRecord(Field(2, One(Text)), TextV([0x68, 0x69]));
    assert EncodeVarint(2) == [2] && Tag(2, LENGTH_DELIMITED) == [0x12];
    hide Encode, EncodeVarint, Tag;
  }

  lemma OneRecord(f: Field, v: BaseValue)
    ensures Encode([f], [Holds(v)]) == Tag(f.key, WireType(f.ty.base)) + Payload(f.ty.base, v)
  {
    var r := Record(f.key, WireType(f.ty.base), Payload(f.ty.base, v));
    assert Records([f][1..], [Holds(v)][1..]) == [];
    assert Records([f], [Holds(v)]) == [r] + [] == [r];
    assert [r][1..] == [] && Join([]) == [];
    assert Join([r]) == RecordBytes(r) + [] == RecordBytes(r);
    hide Payload, Tag;
  }

  // ----- bytes that end too soon

  /** A tag with nothing after it. A fixed-width or message field keeps what it holds, a varint field gets
    * zero, a string no bytes, and a repeated field one default element; only after a fixed width is that
    * not an error. */
  lemma TagAtEnd(fields: seq<Field>, slots: seq<Slot>, i: nat, kind: nat)
    requires |fields| == |slots| && i < |fields| && fields[i].key < 0x2000_0000
    requires forall j :: 0 <= j < i ==> fields[j].key != fields[i].key
    requires HasKind(fields[i].ty.base, kind) && (fields[i].ty.Repeated? ==> slots[i].Many?)
    ensures var ty, s := fields[i].ty, slots[i];
            var m := UnpackMessage(fields, slots, EncodeVarint(8 * fields[i].key + kind));
            if ty.Repeated? then
              if kind != 2 then m == Raised(KeyTypeMismatch)
              else m == Stopped(slots[i := Many(s.items + [Default(ty.base)])])
            else
              match ty.base
              case Scalar(_, _) => m == Done(slots[i := Filled(ty, Into(ty, s))], [])
              case UVar => m == Stopped(slots[i := Filled(ty, UVarV(0))])
              case SVar => m == Stopped(slots[i := Filled(ty, SVarV(0))])
              case Text => m == Stopped(slots[i := Filled(ty, TextV([]))])
              case Message(_) => Into(ty, s).MessageV? ==> m == Stopped(slots[i := Filled(ty, Into(ty, s))])
  {
    var ty, s, tag := fields[i].ty, slots[i], EncodeVarint(8 * fields[i].key + kind);
    assert tag + [] == tag;
    KindIsWireType(ty.base, kind);
    AtTag(fields, slots, fields[i].key, kind, []);
    if ty.Repeated? {
      OneMore(fields, slots, i, kind, []);
    } else {
      SingleField(fields, slots, i, kind, []);
    }
    hide UnpackField, EncodeVarint, Find, Default;
  }

  // ----- required fields and default values

  /** A place in a message: a field, and an element of it if it repeats. */
  datatype Place = Place(field: nat, item: nat)

  /** The value at a place of a slot. */
  function ValueAt(s: Slot, item: nat): Option<BaseValue> {
    match s
    case Holds(v) => Some(v)
    case May(option) => option
    case Many(items) => if item < |items| then Some(items[item]) else None
  }

  /** The path leads, through sub-messages, to a required field that is not set. */
  predicate Misses(fields: seq<Field>, slots: seq<Slot>, path: seq<Place>)
    decreases |path|
  {
    && path != [] && path[0].field < |fields| && path[0].field < |slots|
    && var ty, s := fields[path[0].field].ty, slots[path[0].field];
    if |path| == 1 then ty.Required? && s == May(None)
    else
      var v := ValueAt(s, path[0].item);
      ty.base.Message? && v.Some? && v.value.MessageV? && Misses(ty.base.fields, v.value.slots, path[1..])
  }

  lemma {:induction false} ItemsCompleteAt(base: Base, items: seq<BaseValue>)
    ensures ItemsComplete(base, items) <==> forall k :: 0 <= k < |items| ==> BaseComplete(base, items[k])
  {
    hide BaseComplete;
    if items != [] {
      ItemsCompleteAt(base, items[1..]);
      assert forall k :: 0 < k < |items| ==> items[k] == items[1..][k - 1];
    }
  }

  lemma {:induction false} CompleteAt(fields: seq<Field>, slots: seq<Slot>)
    ensures Complete(fields, slots) <==>
            forall i :: 0 <= i < |fields| && i < |slots| ==> SlotComplete(fields[i].ty, slots[i])
  {
    hide SlotComplete;
    if fields != [] && slots != [] {
      CompleteAt(fields[1..], slots[1..]);
      assert forall i :: 0 < i < |fields| ==> fields[i] == fields[1..][i - 1];
      assert forall i :: 0 < i < |slots| ==> slots[i] == slots[1..][i - 1];
    }
  }

  lemma SlotCompleteAt(ty: FieldType, s: Slot)
    ensures SlotComplete(ty, s) <==>
            && !(ty.Required? && s == May(None))
            && forall k :: ValueAt(s, k).Some? ==> BaseComplete(ty.base, ValueAt(s, k).value)
  {
    hide BaseComplete;
    match s
    case Holds(v) => assert ValueAt(s, 0) == Some(v);
    case May(option) => assert ValueAt(s, 0) == option;
    case Many(items) =>
      ItemsCompleteAt(ty.base, items);
      assert forall k :: 0 <= k < |items| ==> ValueAt(s, k) == Some(items[k]);
  }

  lemma {:induction false} NothingMissing(fields: seq<Field>, slots: seq<Slot>, path: seq<Place>)
    requires Complete(fields, slots)
    ensures !Misses(fields, slots, path)
    decreases |path|
  {
    if path != [] && path[0].field < |fields| && path[0].field < |slots| {
      var ty, s := fields[path[0].field].ty, slots[path[0].field];
      CompleteAt(fields, slots);
      SlotCompleteAt(ty, s);
      var v := ValueAt(s, path[0].item);
      if |path| > 1 && ty.base.Message? && v.Some? && v.value.MessageV? {
        NothingMissing(ty.base.fields, v.value.slots, path[1..]);
      }
    }
  }

  lemma {:induction false} SomethingMissing(fields: seq<Field>, slots: seq<Slot>) returns (path: seq<Place>)
    requires !Complete(fields, slots)
    ensures Misses(fields, slots, path)
    decreases slots
  {
    CompleteAt(fields, slots);
    var i :| 0 <= i < |fields| && i < |slots| && !SlotComplete(fields[i].ty, slots[i]);
    var ty, s := fields[i].ty, slots[i];
    SlotCompleteAt(ty, s);
    if ty.Required? && s == May(None) {
      path := [Place(i, 0)];
    } else {
      var k: nat :| ValueAt(s, k).Some? && !BaseComplete(ty.base, ValueAt(s, k).value);
      path := MissingBelow(ty.base, s, k);
      path := [Place(i, k)] + path;
    }
  }

  lemma {:induction false} MissingBelow(base: Base, s: Slot, k: nat) returns (path: seq<Place>)
    requires ValueAt(s, k).Some? && !BaseComplete(base, ValueAt(s, k).value)
    ensures var v := ValueAt(s, k).value;
            base.Message? && v.MessageV? && Misses(base.fields, v.slots, path)
    decreases s
  {
    match s
    case Holds(v) => path := SomethingMissing(base.fields, v.slots);
    case May(option) => path := SomethingMissing(base.fields, option.value.slots);
    case Many(items) => path := SomethingMissing(base.fields, items[k].slots);
  }

  /** Packing raises for want of a required field exactly when one, in the message or in a sub-message at any
    * depth, is not set. */
  lemma CompleteIffNothingMissing(fields: seq<Field>, slots: seq<Slot>)
    ensures Complete(fields, slots) <==> !IsMissing(fields, slots)
  {
    if Complete(fields, slots) {
      if IsMissing(fields, slots) {
        var path: seq<Place> :| Misses(fields, slots, path);
        NothingMissing(fields, slots, path);
      }
    } else {
      var path := SomethingMissing(fields, slots);
    }
  }

  ghost predicate IsMissing(fields: seq<Field>, slots: seq<Slot>) {
    exists path: seq<Place> :: Misses(fields, slots, path)
  }

  /** A value that nothing was read into: zero, no bytes, and in a message nothing set in any field. */
  predicate IsBlank(base: Base, v: BaseValue)
    decreases base
  {
    match base
    case Scalar(_, _) => v == ScalarV(0)
    case UVar => v == UVarV(0)
    case SVar => v == SVarV(0)
    case Text => v == TextV([])
    case Message(fields) =>
      && v.MessageV? && |v.slots| == |fields|
      && forall i :: 0 <= i < |fields| ==> IsBlankSlot(fields[i].ty, v.slots[i])
  }

  predicate IsBlankSlot(ty: FieldType, s: Slot)
    decreases ty
  {
    match ty
    case One(base) => s.Holds? && IsBlank(base, s.value)
    case Optional(_) => s == May(None)
    case Required(_) => s == May(None)
    case Repeated(_) => s == Many([])
  }

  lemma {:induction false} DefaultsAreBlank(fields: seq<Field>)
    ensures forall i :: 0 <= i < |fields| ==> IsBlankSlot(fields[i].ty, Defaults(fields)[i])
    decreases fields
  {
    if fields != [] {
      DefaultSlotIsBlank(fields[0]);
      DefaultsAreBlank(fields[1..]);
      assert forall i :: 0 < i < |fields| ==> fields[i] == fields[1..][i - 1];
    }
  }

  lemma {:induction false} DefaultSlotIsBlank(f: Field)
    ensures IsBlankSlot(f.ty, DefaultSlot(f))
    decreases f
  {
    match f.ty
    case One(base) => DefaultIsBlank(base);
    case Optional(_) =>
    case Required(_) =>
    case Repeated(_) =>
  }

  lemma {:induction false} DefaultIsBlank(base: Base)
    ensures IsBlank(base, Default(base))
    decreases base
  {
    if base.Message? {
      DefaultsAreBlank(base.fields);
    }
  }
}
