/** The protocol-buffer codec: messages of tagged fields, decoded in whatever order they come. */
module ProtoBuf {
  import opened Bytes
  import opened Wrappers
  import opened Varint
  import Raw = RawCodec

  /** Fundamental types (bool, integers, and floating point as bit patterns) are `Scalar`. */
  datatype Base =
    | Scalar(width: nat, signed: bool)
    | UVar
    | SVar
    | Text
    | Message(fields: seq<Field>)

  /** Only strings and messages repeat. */
  datatype FieldType = One(base: Base) | Optional(base: Base) | Required(base: Base) | Repeated(base: Base)

  datatype Field = Field(key: nat, ty: FieldType)

  datatype BaseValue =
    | ScalarV(n: int)
    | UVarV(u: nat)
    | SVarV(i: int)
    | TextV(text: bytes)
    | MessageV(slots: seq<Slot>)

  /** What a field of a message object holds. */
  datatype Slot = Holds(value: BaseValue) | May(option: Option<BaseValue>) | Many(items: seq<BaseValue>)

  // ----- wire format

  const VARINT := 0
  const BIT64 := 1
  const LENGTH_DELIMITED := 2
  const BIT8 := 3
  const BIT16 := 4
  const BIT32 := 5

  function WireType(base: Base): (t: nat)
    ensures t < 8
  {
    match base
    case Scalar(width, _) =>
      if width == 1 then BIT8 else if width == 2 then BIT16 else if width == 4 then BIT32
      else if width == 8 then BIT64 else LENGTH_DELIMITED
    case UVar => VARINT
    case SVar => VARINT
    case Text => LENGTH_DELIMITED
    case Message(_) => LENGTH_DELIMITED
  }

  /** One tagged field as it stands in the encoding. */
  datatype Record = Record(key: nat, wire: nat, payload: bytes)

  /** `uint32_t(key) << 3 | wire`. */
  function Tag(key: nat, wire: nat): (b: bytes)
    ensures |b| > 0
  {
    EncodeVarint(((key * 8) % TWO_32 + wire) % TWO_32)
  }

  function RecordBytes(r: Record): bytes {
    Tag(r.key, r.wire) + r.payload
  }

  function Join(rs: seq<Record>): bytes {
    if rs == [] then [] else RecordBytes(rs[0]) + Join(rs[1..])
  }

  // ----- packing

  /** What follows the tag. A string or a message comes after its length. */
  function Payload(base: Base, v: BaseValue): bytes
    decreases v, 0
  {
    match v
    case ScalarV(n) => Raw.LittleEndian(n, if base.Scalar? then base.width else 0)
    case UVarV(u) => Raw.EncodeUVar(u)
    case SVarV(i) => Raw.EncodeSVar(i)
    case TextV(text) => Raw.EncodeSize(|text|) + text
    case MessageV(slots) =>
      var body := Encode(if base.Message? then base.fields else [], slots);
      Raw.EncodeSize(|body|) + body
  }

  /** The body of a message: its fields' records in the order the visitor meets them. */
  function Encode(fields: seq<Field>, slots: seq<Slot>): bytes
    decreases slots, 2
  {
    Join(Records(fields, slots))
  }

  function Records(fields: seq<Field>, slots: seq<Slot>): seq<Record>
    decreases slots, 1
  {
    if fields == [] || slots == [] then [] else SlotRecords(fields[0], slots[0]) + Records(fields[1..], slots[1..])
  }

  function SlotRecords(f: Field, s: Slot): seq<Record>
    decreases s, 1
  {
    match s
    case Holds(v) => [Record(f.key, WireType(f.ty.base), Payload(f.ty.base, v))]
    case May(option) =>
      if option.None? then [] else [Record(f.key, WireType(f.ty.base), Payload(f.ty.base, option.value))]
    case Many(items) => ItemRecords(f, items)
  }

  function ItemRecords(f: Field, items: seq<BaseValue>): (rs: seq<Record>)
    ensures |rs| == |items|
    decreases items, 0
  {
    if items == [] then []
    else [Record(f.key, WireType(f.ty.base), Payload(f.ty.base, items[0]))] + ItemRecords(f, items[1..])
  }

  /** Every required field is set; otherwise packing raises `required_field_not_set`. */
  predicate Complete(fields: seq<Field>, slots: seq<Slot>)
    decreases slots
  {
    fields == [] || slots == [] || (SlotComplete(fields[0].ty, slots[0]) && Complete(fields[1..], slots[1..]))
  }

  predicate SlotComplete(ty: FieldType, s: Slot)
    decreases s
  {
    match s
    case Holds(v) => BaseComplete(ty.base, v)
    case May(option) => if option.None? then !ty.Required? else BaseComplete(ty.base, option.value)
    case Many(items) => ItemsComplete(ty.base, items)
  }

  predicate ItemsComplete(base: Base, items: seq<BaseValue>)
    decreases items
  {
    items == [] || (BaseComplete(base, items[0]) && ItemsComplete(base, items[1..]))
  }

  predicate BaseComplete(base: Base, v: BaseValue)
    decreases v
  {
    v.MessageV? && base.Message? ==> Complete(base.fields, v.slots)
  }

  // ----- unpacking

  datatype Error = KeyTypeMismatch | FieldSizeLargerThanBuffer | FieldNotFound

  /** How unpacking a field or a message ends: read, with the bytes it left; given up, the visitor's
    * error flag being set; an exception; or a varint that never ends. */
  datatype Outcome<+T> =
    | Done(value: T, rest: bytes)
    | Stopped(value: T)
    | Raised(error: Error)
    | Endless

  /** A default-constructed value. */
  function Default(base: Base): BaseValue
    decreases base
  {
    match base
    case Scalar(_, _) => ScalarV(0)
    case UVar => UVarV(0)
    case SVar => SVarV(0)
    case Text => TextV([])
    case Message(fields) => MessageV(Defaults(fields))
  }

  function Defaults(fields: seq<Field>): (slots: seq<Slot>)
    ensures |slots| == |fields|
    decreases fields
  {
    if fields == [] then [] else [DefaultSlot(fields[0])] + Defaults(fields[1..])
  }

  function DefaultSlot(f: Field): Slot
    decreases f
  {
    match f.ty
    case One(base) => Holds(Default(base))
    case Optional(_) => May(None)
    case Required(_) => May(None)
    case Repeated(_) => Many([])
  }

  /** The size before a string or message. On a stream that is just exhausted it reads as 0 and
    * leaves the stream past its end, which the next validity check notices. */
  datatype Sized = AtEnd | NoSize | Size(n: nat, rest: bytes)

  function ReadSize(b: bytes): (r: Sized)
    ensures r.Size? ==> |r.rest| < |b|
  {
    if b == [] then AtEnd
    else
      var r := ReadVarint(b);
      if r.None? then NoSize else Size(r.value.value, r.value.rest)
  }

  function UnpackBase(base: Base, target: BaseValue, wire: nat, b: bytes): (r: Outcome<BaseValue>)
    ensures r.Done? ==> |r.rest| <= |b|
    decreases |b|, 1
  {
    if wire != WireType(base) then Raised(KeyTypeMismatch) else
    match base
    case Scalar(width, signed) =>
      // a read that does not fit changes nothing, and the stream stays valid
      if width <= |b| then Done(ScalarV(Raw.ReadFixed(b[..width], signed)), b[width..]) else Done(target, b)
    case UVar =>
      (match ReadSize(b)
       case AtEnd => Stopped(UVarV(0))
       case NoSize => Endless
       case Size(n, rest) => Done(UVarV(n), rest))
    case SVar =>
      (match ReadSize(b)
       case AtEnd => Stopped(SVarV(0))
       case NoSize => Endless
       case Size(n, rest) => Done(SVarV(Unzigzag(n % TWO_32)), rest))
    case Text =>
      (match ReadSize(b)
       case AtEnd => Stopped(TextV([]))
       case NoSize => Endless
       case Size(n, rest) => if n <= |rest| then Done(TextV(rest[..n]), rest[n..]) else Stopped(target))
    case Message(fields) =>
      (match ReadSize(b)
       case AtEnd => Stopped(MessageV(SlotsIn(target)))
       case NoSize => Endless
       case Size(n, rest) =>
         if n > |rest| then Raised(FieldSizeLargerThanBuffer)
         else Within(UnpackMessage(fields, SlotsIn(target), rest[..n]), rest[n..]))
  }

  function SlotsIn(v: BaseValue): seq<Slot> {
    if v.MessageV? then v.slots else []
  }

  function ItemsIn(s: Slot): seq<BaseValue> {
    if s.Many? then s.items else []
  }

  /** A sub-message read from its own stream. */
  function Within(r: Outcome<seq<Slot>>, rest: bytes): Outcome<BaseValue> {
    match r
    case Done(slots, _) => Done(MessageV(slots), rest)
    case Stopped(slots) => Stopped(MessageV(slots))
    case Raised(e) => Raised(e)
    case Endless => Endless
  }

  function UnpackSlot(ty: FieldType, target: Slot, wire: nat, b: bytes): (r: Outcome<Slot>)
    ensures r.Done? ==> |r.rest| <= |b|
    decreases |b|, 2
  {
    match ty
    case One(base) => InSlot(ty, UnpackBase(base, Current(base, target), wire, b))
    case Optional(base) => InSlot(ty, UnpackBase(base, Current(base, target), wire, b))
    case Required(base) => InSlot(ty, UnpackBase(base, Current(base, target), wire, b))
    case Repeated(base) => UnpackItem(base, ItemsIn(target), wire, b)
  }

  /** An unset optional is given a default value before it is read into. */
  function Current(base: Base, target: Slot): BaseValue {
    if target.Holds? then target.value
    else if target.May? && target.option.Some? then target.option.value
    else Default(base)
  }

  function Wrap(ty: FieldType, v: BaseValue): Slot {
    if ty.One? then Holds(v) else May(Some(v))
  }

  function InSlot(ty: FieldType, r: Outcome<BaseValue>): Outcome<Slot> {
    match r
    case Done(v, rest) => Done(Wrap(ty, v), rest)
    case Stopped(v) => Stopped(Wrap(ty, v))
    case Raised(e) => Raised(e)
    case Endless => Endless
  }

  /** One more element of a repeated field; an element that cannot be read is taken off again. */
  function UnpackItem(base: Base, items: seq<BaseValue>, wire: nat, b: bytes): (r: Outcome<Slot>)
    ensures r.Done? ==> |r.rest| <= |b|
    decreases |b|, 1
  {
    if wire != LENGTH_DELIMITED then Raised(KeyTypeMismatch) else
    match ReadSize(b)
    case AtEnd => Stopped(Many(items + [Default(base)]))
    case NoSize => Endless
    case Size(n, rest) =>
      if !base.Message? then
        if n <= |rest| then Done(Many(items + [TextV(rest[..n])]), rest[n..]) else Stopped(Many(items))
      else if n > |rest| then Raised(FieldSizeLargerThanBuffer)
      else
        match UnpackMessage(base.fields, Defaults(base.fields), rest[..n])
        case Done(slots, _) => Done(Many(items + [MessageV(slots)]), rest[n..])
        case Stopped(_) => Stopped(Many(items))
        case Raised(e) => Raised(e)
        case Endless => Endless
  }

  /** The position of the field with a key, or the number of fields. */
  function Find(fields: seq<Field>, key: nat): (i: nat)
    ensures i <= |fields| && (i < |fields| ==> fields[i].key == key)
    ensures forall j :: 0 <= j < i ==> fields[j].key != key
  {
    if fields == [] || fields[0].key == key then 0
    else
      var i := Find(fields[1..], key);
      assert forall j :: 1 <= j < i + 1 ==> fields[j] == fields[1..][j - 1];
      i + 1
  }

  function UnpackField(fields: seq<Field>, slots: seq<Slot>, key: nat, wire: nat, b: bytes): (r: Outcome<seq<Slot>>)
    ensures r.Done? ==> |r.rest| <= |b|
    decreases |b|, 3
  {
    var i := Find(fields, key);
    if i == |fields| || i >= |slots| then Raised(FieldNotFound)
    else
      match UnpackSlot(fields[i].ty, slots[i], wire, b)
      case Done(s, rest) => Done(slots[i := s], rest)
      case Stopped(s) => Stopped(slots[i := s])
      case Raised(e) => Raised(e)
      case Endless => Endless
  }

  /** The message loop: a tag, then the field it names, while bytes remain. */
  function UnpackMessage(fields: seq<Field>, slots: seq<Slot>, b: bytes): (r: Outcome<seq<Slot>>)
    ensures r.Done? ==> r.rest == []
    decreases |b|, 0
  {
    if b == [] then Done(slots, [])
    else
      match ReadVarint(b)
      case None => Endless
      case Some(tag) =>
        match UnpackField(fields, slots, tag.value / 8, tag.value % 8, tag.rest)
        case Done(next, rest) => UnpackMessage(fields, next, rest)
        case Stopped(next) => Stopped(next)
        case Raised(e) => Raised(e)
        case Endless => Endless
  }

  lemma EmptyMessage(fields: seq<Field>, slots: seq<Slot>)
    ensures UnpackMessage(fields, slots, []) == Done(slots, [])
  {}

  lemma LoopStep(fields: seq<Field>, slots: seq<Slot>, b: bytes)
    requires b != []
    ensures var m := UnpackMessage(fields, slots, b);
            match ReadVarint(b)
            case None => m == Endless
            case Some(tag) =>
              match UnpackField(fields, slots, tag.value / 8, tag.value % 8, tag.rest)
              case Done(next, rest) => m == UnpackMessage(fields, next, rest)
              case Stopped(next) => m == Stopped(next)
              case Raised(e) => m == Raised(e)
              case Endless => m == Endless
  {
    hide UnpackField, ReadVarint;
  }
}
