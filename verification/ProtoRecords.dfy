/** A message as a list of records: what unpacking makes of it depends, for each field, only on
  * that field's own records, in their order. */
module ProtoRecords {
  import opened Bytes
  import opened Wrappers
  import opened Varint
  import opened ProtoBuf

  /** A record whose tag survives: its key has at most 29 bits. */
  predicate Taggable(r: Record) {
    r.key < 0x2000_0000 && r.wire < 8
  }

  predicate AllTaggable(rs: seq<Record>) {
    rs == [] || (Taggable(rs[0]) && AllTaggable(rs[1..]))
  }

  lemma SmallTag(key: nat, wire: nat)
    requires key < 0x2000_0000 && wire < 8
    ensures Tag(key, wire) == EncodeVarint(key * 8 + wire) && key * 8 + wire < TWO_32
    ensures (key * 8 + wire) / 8 == key && (key * 8 + wire) % 8 == wire
  {
    hide EncodeVarint;
    assert (key * 8) % TWO_32 == key * 8 && (key * 8 + wire) % TWO_32 == key * 8 + wire;
  }

  lemma TagReads(r: Record, rest: bytes)
    requires Taggable(r)
    ensures ReadVarint(Tag(r.key, r.wire) + rest) == Some(VarintRead(r.key * 8 + r.wire, rest))
    ensures (r.key * 8 + r.wire) / 8 == r.key && (r.key * 8 + r.wire) % 8 == r.wire
  {
    SmallTag(r.key, r.wire);
    hide *;
    VarintRoundTrip(r.key * 8 + r.wire, rest);
  }

  // ----- one record, read on its own

  /** The slot after a record that its field reads in full; None if it does not. */
  function ReadRecord(ty: FieldType, s: Slot, r: Record): Option<Slot> {
    match UnpackSlot(ty, s, r.wire, r.payload)
    case Done(next, rest) => if rest == [] && r.payload != [] then Some(next) else None
    case Stopped(_) => None
    case Raised(_) => None
    case Endless => None
  }

  function Apply(fields: seq<Field>, slots: seq<Slot>, r: Record): Option<seq<Slot>>
    requires |fields| == |slots|
  {
    var i := Find(fields, r.key);
    if i == |fields| then None
    else
      match ReadRecord(fields[i].ty, slots[i], r)
      case None => None
      case Some(s) => Some(slots[i := s])
  }

  /** The slots after all records, each read in full. */
  function ApplyAll(fields: seq<Field>, slots: seq<Slot>, rs: seq<Record>): (r: Option<seq<Slot>>)
    requires |fields| == |slots|
    ensures r.Some? ==> |r.value| == |slots|
    decreases |rs|
  {
    if rs == [] then Some(slots)
    else
      match Apply(fields, slots, rs[0])
      case None => None
      case Some(next) => ApplyAll(fields, next, rs[1..])
  }

  // ----- records read in a stream as they read alone

  lemma VarintLocal(b: bytes, rest: bytes)
    requires ReadVarint(b).Some?
    ensures var v := ReadVarint(b).value; ReadVarint(b + rest) == Some(VarintRead(v.value, v.rest + rest))
  {
    GroupsLocal(b, 0, rest);
  }

  lemma {:induction false} GroupsLocal(b: bytes, k: nat, rest: bytes)
    requires ReadGroups(b, k).Some?
    ensures var v := ReadGroups(b, k).value; ReadGroups(b + rest, k) == Some(VarintRead(v.value, v.rest + rest))
    decreases |b|
  {
    assert (b + rest)[1..] == b[1..] + rest;
    if b[0] >= 128 {
      GroupsLocal(b[1..], k + 1, rest);
    }
  }

  lemma SizeLocal(b: bytes, rest: bytes)
    requires ReadSize(b).Size?
    ensures ReadSize(b + rest) == Size(ReadSize(b).n, ReadSize(b).rest + rest)
  {
    VarintLocal(b, rest);
  }

  lemma TakeLocal(b: bytes, n: nat, rest: bytes)
    requires n <= |b|
    ensures (b + rest)[..n] == b[..n] && (b + rest)[n..] == b[n..] + rest
  {}

  lemma BaseLocal(base: Base, target: BaseValue, wire: nat, b: bytes, rest: bytes)
    requires b != [] && UnpackBase(base, target, wire, b).Done? && UnpackBase(base, target, wire, b).rest == []
    ensures UnpackBase(base, target, wire, b + rest) == Done(UnpackBase(base, target, wire, b).value, rest)
  {
    assert [] + rest == rest;
    if base.Scalar? {
      TakeLocal(b, base.width, rest);
    } else {
      SizeLocal(b, rest);
      var r := ReadSize(b);
      if (base.Text? || base.Message?) && r.n <= |r.rest| {
        TakeLocal(r.rest, r.n, rest);
      }
      hide ReadSize;
    }
  }

  lemma ItemLocal(base: Base, items: seq<BaseValue>, wire: nat, b: bytes, rest: bytes)
    requires b != [] && UnpackItem(base, items, wire, b).Done? && UnpackItem(base, items, wire, b).rest == []
    ensures UnpackItem(base, items, wire, b + rest) == Done(UnpackItem(base, items, wire, b).value, rest)
  {
    assert [] + rest == rest;
    SizeLocal(b, rest);
    var r := ReadSize(b);
    TakeLocal(r.rest, r.n, rest);
    hide ReadSize;
  }

  lemma SlotLocal(ty: FieldType, s: Slot, r: Record, rest: bytes)
    requires ReadRecord(ty, s, r).Some?
    ensures UnpackSlot(ty, s, r.wire, r.payload + rest) == Done(ReadRecord(ty, s, r).value, rest)
  {
    if ty.Repeated? {
      ItemLocal(ty.base, ItemsIn(s), r.wire, r.payload, rest);
    } else {
      BaseLocal(ty.base, Current(ty.base, s), r.wire, r.payload, rest);
    }
  }

  lemma FieldReads(fields: seq<Field>, slots: seq<Slot>, r: Record, rest: bytes)
    requires |fields| == |slots| && Apply(fields, slots, r).Some?
    ensures UnpackField(fields, slots, r.key, r.wire, r.payload + rest) == Done(Apply(fields, slots, r).value, rest)
  {
    var i := Find(fields, r.key);
    SlotLocal(fields[i].ty, slots[i], r, rest);
    hide UnpackSlot, ReadRecord, Find;
  }

  lemma TaggedField(fields: seq<Field>, slots: seq<Slot>, r: Record, body: bytes, next: seq<Slot>, more: bytes)
    requires Taggable(r) && UnpackField(fields, slots, r.key, r.wire, body) == Done(next, more)
    ensures UnpackMessage(fields, slots, Tag(r.key, r.wire) + body) == UnpackMessage(fields, next, more)
  {
    hide *;
    TagReads(r, body);
    LoopStep(fields, slots, Tag(r.key, r.wire) + body);
  }

  lemma RecordFirst(r: Record, rest: bytes)
    ensures RecordBytes(r) + rest == Tag(r.key, r.wire) + (r.payload + rest)
  {
    hide Tag;
  }

  lemma UnpackOne(fields: seq<Field>, slots: seq<Slot>, r: Record, rest: bytes)
    requires |fields| == |slots| && Taggable(r) && Apply(fields, slots, r).Some?
    ensures UnpackMessage(fields, slots, RecordBytes(r) + rest)
            == UnpackMessage(fields, Apply(fields, slots, r).value, rest)
  {
    hide *;
    RecordFirst(r, rest);
    FieldReads(fields, slots, r, rest);
    TaggedField(fields, slots, r, r.payload + rest, Apply(fields, slots, r).value, rest);
  }

  /** Unpacking joined records is reading one after the other. */
  lemma {:induction false} UnpackIsApplyAll(fields: seq<Field>, slots: seq<Slot>, rs: seq<Record>)
    requires |fields| == |slots| && AllTaggable(rs) && ApplyAll(fields, slots, rs).Some?
    ensures UnpackMessage(fields, slots, Join(rs)) == Done(ApplyAll(fields, slots, rs).value, [])
    decreases |rs|
  {
    hide Apply, RecordBytes, Taggable, Find, UnpackField;
    if rs != [] {
      UnpackOne(fields, slots, rs[0], Join(rs[1..]));
      UnpackIsApplyAll(fields, Apply(fields, slots, rs[0]).value, rs[1..]);
    }
  }

  // ----- field by field

  /** The records of one field, in order. */
  function Of(rs: seq<Record>, key: nat): seq<Record> {
    if rs == [] then [] else (if rs[0].key == key then [rs[0]] else []) + Of(rs[1..], key)
  }

  predicate Known(fields: seq<Field>, rs: seq<Record>) {
    rs == [] || (Find(fields, rs[0].key) < |fields| && Known(fields, rs[1..]))
  }

  /** One field's records, read one after the other into its slot. */
  function Fold(ty: FieldType, s: Slot, rs: seq<Record>): Option<Slot>
    decreases |rs|
  {
    if rs == [] then Some(s)
    else
      match ReadRecord(ty, s, rs[0])
      case None => None
      case Some(next) => Fold(ty, next, rs[1..])
  }

  predicate DistinctKeys(fields: seq<Field>) {
    fields == [] || (Find(fields[1..], fields[0].key) == |fields[1..]| && DistinctKeys(fields[1..]))
  }

  lemma {:induction false} FindsItself(fields: seq<Field>, i: nat)
    requires DistinctKeys(fields) && i < |fields|
    ensures Find(fields, fields[i].key) == i
  {
    if i > 0 {
      FindsItself(fields[1..], i - 1);
      assert fields[1..][i - 1] == fields[i];
    }
  }

  /** Every slot ends as its own records make it, and all records have a field. */
  ghost predicate FoldsTo(fields: seq<Field>, slots: seq<Slot>, rs: seq<Record>, end: seq<Slot>)
    requires |fields| == |slots|
  {
    && |end| == |slots|
    && Known(fields, rs)
    && (forall i :: 0 <= i < |fields| ==> Fold(fields[i].ty, slots[i], Of(rs, fields[i].key)) == Some(end[i]))
  }

  /** Reading the records in turn is reading each field's own records into its own slot. */
  lemma {:induction false} ApplyAllIsFolds(fields: seq<Field>, slots: seq<Slot>, rs: seq<Record>, end: seq<Slot>)
    requires DistinctKeys(fields) && |fields| == |slots|
    ensures ApplyAll(fields, slots, rs) == Some(end) <==> FoldsTo(fields, slots, rs, end)
    decreases |rs|
  {
    if rs == [] {
      if FoldsTo(fields, slots, rs, end) {
        assert slots == end;
      }
    } else {
      var k := Find(fields, rs[0].key);
      if k < |fields| {
        FoldsStep(fields, slots, rs, end);
        hide ReadRecord, FoldsTo, Fold, Of;
        if Apply(fields, slots, rs[0]).Some? {
          ApplyAllIsFolds(fields, Apply(fields, slots, rs[0]).value, rs[1..], end);
        }
      }
    }
  }

  lemma FoldsStep(fields: seq<Field>, slots: seq<Slot>, rs: seq<Record>, end: seq<Slot>)
    requires DistinctKeys(fields) && |fields| == |slots| && rs != []
    requires Find(fields, rs[0].key) < |fields|
    ensures var next := Apply(fields, slots, rs[0]);
            FoldsTo(fields, slots, rs, end) <==> next.Some? && FoldsTo(fields, next.value, rs[1..], end)
  {
    var k := Find(fields, rs[0].key);
    var next := Apply(fields, slots, rs[0]);
    assert rs[0].key == fields[k].key;
    hide ReadRecord;
    forall i | 0 <= i < |fields|
      ensures Of(rs, fields[i].key) == (if i == k then [rs[0]] else []) + Of(rs[1..], fields[i].key)
    {
      FindsItself(fields, i);
    }
    assert Of(rs, fields[k].key)[1..] == Of(rs[1..], fields[k].key);
    assert next.None? ==> Fold(fields[k].ty, slots[k], Of(rs, fields[k].key)) == None;
    assert next.Some? ==> Fold(fields[k].ty, slots[k], Of(rs, fields[k].key))
                          == Fold(fields[k].ty, next.value[k], Of(rs[1..], fields[k].key));
    assert forall i :: 0 <= i < |fields| && i != k ==> Of(rs, fields[i].key) == Of(rs[1..], fields[i].key);
  }

  lemma {:induction false} KnownByFields(fields: seq<Field>, rs: seq<Record>)
    ensures Known(fields, rs) <==> forall key: nat :: Find(fields, key) == |fields| ==> Of(rs, key) == []
  {
    if rs != [] {
      KnownByFields(fields, rs[1..]);
      var key := rs[0].key;
      assert Of(rs, key) != [];
      assert forall other: nat :: other != key ==> Of(rs, other) == Of(rs[1..], other);
      if Known(fields, rs[1..]) && Find(fields, key) < |fields| {
        forall other: nat | Find(fields, other) == |fields|
          ensures Of(rs, other) == []
        {
          assert other != key && Of(rs[1..], other) == [];
        }
      }
      if forall other: nat :: Find(fields, other) == |fields| ==> Of(rs, other) == [] {
        forall other: nat | Find(fields, other) == |fields|
          ensures Of(rs[1..], other) == []
        {
          assert Of(rs, other) == [];
        }
      }
    }
  }

  /** Field-order independence: two lists of records that agree on each field's own records, in
    * their order, unpack to the same message from the same target. */
  lemma OrderDoesNotMatter(fields: seq<Field>, slots: seq<Slot>, rs: seq<Record>, rs': seq<Record>)
    requires DistinctKeys(fields) && |fields| == |slots| && AllTaggable(rs) && AllTaggable(rs')
    requires forall key: nat :: Of(rs, key) == Of(rs', key)
    requires ApplyAll(fields, slots, rs).Some?
    ensures UnpackMessage(fields, slots, Join(rs)).Done?
    ensures UnpackMessage(fields, slots, Join(rs')) == UnpackMessage(fields, slots, Join(rs))
  {
    var end := ApplyAll(fields, slots, rs).value;
    ApplyAllIsFolds(fields, slots, rs, end);
    KnownByFields(fields, rs);
    KnownByFields(fields, rs');
    assert FoldsTo(fields, slots, rs', end);
    hide *;
    ApplyAllIsFolds(fields, slots, rs', end);
    UnpackIsApplyAll(fields, slots, rs);
    UnpackIsApplyAll(fields, slots, rs');
  }
}
