/** The unpacking visitors of the protocol-buffer codec: a message object filled in place. */
module ProtoReader {
  import opened Bytes
  import opened Varint
  import opened Datastream
  import Raw = RawCodec
  import opened ProtoBuf
  import opened ProtoRoundTrip

  /** A message object being filled. */
  class Target {
    var slots: seq<Slot>

    constructor (slots: seq<Slot>)
      ensures this.slots == slots
    {
      this.slots := slots;
    }
  }

  /** What cuts a visit short: an exception, or a varint loop that never ends. */
  datatype Stop = Runs | Throws(error: Error) | Hangs

  /** A visit as the code sees it (the value read into, the visitor's error flag, and what else
    * stops it) ends as the outcome o says. A stream left past its end is given up at the next check. */
  ghost predicate Ends<T>(o: Outcome<T>, value: T, error: bool, stop: Stop, valid: bool, rest: bytes) {
    match o
    case Done(v, r) => stop.Runs? && !error && valid && value == v && rest == r
    case Stopped(v) => stop.Runs? && (error || !valid) && value == v
    case Raised(e) => stop == Throws(e)
    case Endless => stop.Hangs?
  }

  /** The position is in the stream, or one past the end. */
  ghost predicate Sound(s: InStream)
    reads s
  {
    s.Valid() && s.start <= s.pos <= s.end + 1 && s.end - s.start < TWO_32
  }

  lemma RestSize(s: InStream)
    requires Sound(s)
    ensures s.InRange() ==> |s.Rest()| == s.end - s.pos && s.Remaining() == |s.Rest()|
    ensures !s.InRange() ==> s.Rest() == [] && s.Remaining() == TWO_32 - 1
    ensures s.Remaining() != 0 <==> s.Rest() != [] || !s.InRange()
  {}

  /** `is >> size`: on an exhausted stream the size reads as 0 and the stream is past its end. */
  method GetSize(s: InStream) returns (n: nat, endless: bool)
    requires Sound(s) && s.InRange()
    modifies s`pos
    ensures !endless ==> Sound(s) && s.pos > old(s.pos)
    ensures match ReadSize(old(s.Rest()))
            case AtEnd => !endless && n == 0 && !s.InRange() && s.Rest() == []
            case Size(m, rest) => !endless && n == m && s.InRange() && s.Rest() == rest
            case NoSize => endless
  {
    n, endless := GetVarint(s);
  }

  /** `remaining() >= size`, with the unsigned difference that is huge past the end. */
  lemma Fits(s: InStream, n: nat)
    requires Sound(s) && (s.InRange() || n == 0)
    ensures s.Remaining() >= n <==> n <= |s.Rest()|
  {
    RestSize(s);
  }

  /** A size has been read from b, and the stream is left at rest; valid unless it was past the end. */
  predicate SizeIs(b: bytes, n: nat, valid: bool, rest: bytes) {
    match ReadSize(b)
    case AtEnd => n == 0 && !valid && rest == []
    case Size(m, r) => n == m && valid && rest == r
    case NoSize => false
  }

  /** A size, and whether that many bytes are there. */
  method NextSize(s: InStream) returns (n: nat, fits: bool, endless: bool)
    requires Sound(s) && s.InRange()
    modifies s`pos
    ensures !endless ==> Sound(s) && s.pos > old(s.pos) && (fits <==> n <= |s.Rest()|)
    ensures endless <==> ReadSize(old(s.Rest())).NoSize?
    ensures !endless ==> SizeIs(old(s.Rest()), n, s.InRange(), s.Rest())
  {
    hide ReadSize;
    n, endless := GetSize(s);
    fits := false;
    if !endless {
      Fits(s, n);
      fits := s.Remaining() >= n;
    }
  }

  method ReadChunk(s: InStream, n: nat) returns (d: bytes)
    requires Sound(s) && n <= |s.Rest()|
    modifies s`pos
    ensures Sound(s) && d == old(s.Rest())[..n] && s.Rest() == old(s.Rest())[n..]
    ensures s.InRange() == old(s.InRange()) && s.pos == old(s.pos) + n
  {
    d := if n == 0 then [] else s.data[s.pos..s.pos + n];
    s.Skip(n);
  }

  // ----- values that are not messages

  method UnpackScalar(s: InStream, base: Base, target: BaseValue, wire: nat)
      returns (value: BaseValue, error: bool, stop: Stop)
    requires !base.Message? && Sound(s) && s.InRange()
    requires base.Scalar? ==> base.width < TWO_31
    modifies s`pos
    ensures stop.Runs? ==> Sound(s) && s.pos >= old(s.pos)
    ensures Ends(UnpackBase(base, target, wire, old(s.Rest())), value, error, stop, s.InRange(), s.Rest())
  {
    value, error, stop := target, true, Runs;
    if wire != WireType(base) {
      stop := Throws(KeyTypeMismatch);
      return;
    }
    match base {
      case Scalar(width, signed) =>
        var ok, d := s.Read(width);
        if ok {
          value := ScalarV(Raw.ReadFixed(d, signed));
        }
        error := !s.InRange();
      case UVar =>
        var n, endless := GetSize(s);
        if endless {
          stop := Hangs;
          return;
        }
        value, error := UVarV(n), false;
      case SVar =>
        var n, endless := GetSize(s);
        if endless {
          stop := Hangs;
          return;
        }
        value, error := SVarV(Unzigzag(n % TWO_32)), false;
      case Text =>
        var n, endless := GetSize(s);
        if endless {
          stop := Hangs;
          return;
        }
        Fits(s, n);
        if s.Remaining() >= n {
          var d := ReadChunk(s, n);
          value, error := TextV(d), false;
        }
    }
  }

  lemma {:induction false} FieldAt(fields: seq<Field>, i: nat)
    requires FieldsOk(fields) && i < |fields|
    ensures FieldOk(fields[i])
    decreases i
  {
    if i > 0 {
      FieldAt(fields[1..], i - 1);
    }
  }

  // ----- messages

  /** The message loop: while bytes remain, a tag and the field it names. */
  method UnpackMessage(s: InStream, fields: seq<Field>, target: Target) returns (ok: bool, stop: Stop)
    requires FieldsOk(fields) && Sound(s) && s.InRange()
    modifies s`pos, target
    ensures match ProtoBuf.UnpackMessage(fields, old(target.slots), old(s.Rest()))
            case Done(slots, _) => stop.Runs? && ok && target.slots == slots
            case Stopped(slots) => stop.Runs? && !ok && target.slots == slots
            case Raised(e) => stop == Throws(e)
            case Endless => stop.Hangs?
    decreases |s.Rest()|, 0, 0
  {
    ghost var goal := ProtoBuf.UnpackMessage(fields, target.slots, s.Rest());
    ghost var size := |s.Rest()|;
    RestSize(s);
    hide ProtoBuf.UnpackMessage, ProtoBuf.UnpackField, ReadVarint, FieldsOk;
    while s.Remaining() != 0
      invariant Sound(s)
      invariant s.InRange() ==> ProtoBuf.UnpackMessage(fields, target.slots, s.Rest()) == goal && |s.Rest()| <= size
      invariant !s.InRange() ==> goal == Stopped(target.slots)
      decreases s.end + 1 - s.pos
    {
      RestSize(s);
      if s.InRange() {
        LoopStep(fields, target.slots, s.Rest());
      }
      var tag, endless := GetVarint(s);
      if endless {
        return false, Hangs;
      }
      if !s.InRange() {
        return false, Runs;
      }
      ok, stop := UnpackField(s, fields, target, tag / 8, tag % 8);
      if !stop.Runs? || !ok {
        return;
      }
      RestSize(s);
    }
    RestSize(s);
    EmptyMessage(fields, target.slots);
    ok, stop := true, Runs;
  }

  /** `reflector::visit` with a key: the member that has it, or `not_found`. */
  method UnpackField(s: InStream, fields: seq<Field>, target: Target, key: nat, wire: nat)
      returns (ok: bool, stop: Stop)
    requires FieldsOk(fields) && Sound(s) && s.InRange()
    modifies s`pos, target
    ensures stop.Runs? ==> Sound(s) && s.pos >= old(s.pos)
    ensures Ends(ProtoBuf.UnpackField(fields, old(target.slots), key, wire, old(s.Rest())),
                 target.slots, !ok, stop, s.InRange(), s.Rest())
    decreases |s.Rest()|, 5
  {
    var i := Find(fields, key);
    if i == |fields| || i >= |target.slots| {
      return false, Throws(FieldNotFound);
    }
    FieldAt(fields, i);
    hide UnpackSlot, FieldsOk, FieldOk;
    var slot, error;
    slot, error, stop := ReadSlot(s, fields[i], target.slots[i], wire);
    target.slots := target.slots[i := slot];
    ok := !error;
  }

  lemma WrapEnds(ty: FieldType, target: Slot, wire: nat, b: bytes, value: BaseValue, error: bool, stop: Stop,
                 valid: bool, rest: bytes)
    requires !ty.Repeated?
    requires Ends(UnpackBase(ty.base, Current(ty.base, target), wire, b), value, error, stop, valid, rest)
    ensures Ends(UnpackSlot(ty, target, wire, b), Wrap(ty, value), error, stop, valid, rest)
  {
    hide UnpackBase, Current, Wrap;
  }

  method ReadSlot(s: InStream, f: Field, target: Slot, wire: nat)
      returns (slot: Slot, error: bool, stop: Stop)
    requires FieldOk(f) && Sound(s) && s.InRange()
    modifies s`pos
    ensures stop.Runs? ==> Sound(s) && s.pos >= old(s.pos)
    ensures Ends(UnpackSlot(f.ty, target, wire, old(s.Rest())), slot, error, stop, s.InRange(), s.Rest())
    decreases |s.Rest()|, 4
  {
    assert BaseOk(f.ty.base) && (f.ty.Repeated? ==> f.ty.base.Text? || f.ty.base.Message?);
    ghost var b := s.Rest();
    assert f.ty.Repeated? ==> UnpackSlot(f.ty, target, wire, b) == UnpackItem(f.ty.base, ItemsIn(target), wire, b);
    hide *;
    if f.ty.Repeated? {
      var items;
      items, error, stop := ReadItem(s, f.ty.base, ItemsIn(target), wire);
      slot := Many(items);
    } else {
      var value;
      value, error, stop := ReadBase(s, f.ty.base, Current(f.ty.base, target), wire);
      slot := Wrap(f.ty, value);
      WrapEnds(f.ty, target, wire, b, value, error, stop, s.InRange(), s.Rest());
    }
  }

  method ReadBase(s: InStream, base: Base, target: BaseValue, wire: nat)
      returns (value: BaseValue, error: bool, stop: Stop)
    requires BaseOk(base) && Sound(s) && s.InRange()
    modifies s`pos
    ensures stop.Runs? ==> Sound(s) && s.pos >= old(s.pos)
    ensures Ends(UnpackBase(base, target, wire, old(s.Rest())), value, error, stop, s.InRange(), s.Rest())
    decreases |s.Rest()|, 3
  {
    hide UnpackBase;
    if base.Message? {
      value, error, stop := ReadNested(s, base, target, wire);
    } else {
      value, error, stop := UnpackScalar(s, base, target, wire);
    }
  }

  /** A body that could be read is skipped; a stream past its end is then given up. */
  function Skipping(o: Outcome<seq<Slot>>, valid: bool, rest: bytes): Outcome<seq<Slot>> {
    match o
    case Done(slots, _) => if valid then Done(slots, rest) else Stopped(slots)
    case Stopped(slots) => Stopped(slots)
    case Raised(e) => Raised(e)
    case Endless => Endless
  }

  /** Reading a sub-message field ends as reading its size and then its body does. */
  lemma NestedEnds(base: Base, target: BaseValue, b: bytes, n: nat, valid: bool, rest: bytes,
                   slots: seq<Slot>, error: bool, stop: Stop, valid': bool, rest': bytes)
    requires base.Message? && SizeIs(b, n, valid, rest)
    requires n > |rest| ==> stop == Throws(FieldSizeLargerThanBuffer)
    requires n <= |rest| ==>
             Ends(Skipping(ProtoBuf.UnpackMessage(base.fields, SlotsIn(target), rest[..n]), valid, rest[n..]),
                  slots, error, stop, valid', rest')
    ensures Ends(UnpackBase(base, target, LENGTH_DELIMITED, b), MessageV(slots), error, stop, valid', rest')
  {
    EmptyMessage(base.fields, SlotsIn(target));
    hide ReadSize, ProtoBuf.UnpackMessage, SlotsIn;
    if ReadSize(b).AtEnd? {
      assert rest[..n] == [];
    }
  }

  /** Neither a mismatched wire type nor a size that never ends leaves anything to read. */
  lemma NestedNever(base: Base, target: BaseValue, b: bytes, wire: nat, value: BaseValue, error: bool,
                       valid: bool, rest: bytes)
    requires base.Message?
    ensures wire != LENGTH_DELIMITED ==>
            Ends(UnpackBase(base, target, wire, b), value, error, Throws(KeyTypeMismatch), valid, rest)
    ensures wire == LENGTH_DELIMITED && ReadSize(b).NoSize? ==>
            Ends(UnpackBase(base, target, wire, b), value, error, Hangs, valid, rest)
  {
    hide ReadSize, ProtoBuf.UnpackMessage;
  }

  method ReadNested(s: InStream, base: Base, target: BaseValue, wire: nat)
      returns (value: BaseValue, error: bool, stop: Stop)
    requires base.Message? && FieldsOk(base.fields)
    requires Sound(s) && s.InRange()
    modifies s`pos
    ensures stop.Runs? ==> Sound(s) && s.pos >= old(s.pos)
    ensures Ends(UnpackBase(base, target, wire, old(s.Rest())), value, error, stop, s.InRange(), s.Rest())
    decreases |s.Rest()|, 2
  {
    ghost var b := s.Rest();
    value, error := target, true;
    if wire != LENGTH_DELIMITED {
      stop := Throws(KeyTypeMismatch);
      NestedNever(base, target, b, wire, value, error, s.InRange(), s.Rest());
      return;
    }
    hide *;
    var sub := new Target(SlotsIn(target));
    var size, fits, endless := NextSize(s);
    ghost var valid, rest := s.InRange(), s.Rest();
    if endless {
      stop, value := Hangs, MessageV(sub.slots);
      NestedNever(base, target, b, wire, value, error, s.InRange(), s.Rest());
      return;
    }
    if !fits {
      stop := Throws(FieldSizeLargerThanBuffer);
    } else {
      SizeLeaves(b, size, valid, rest);
      error, stop := ReadBody(s, size, base.fields, sub);
    }
    value := MessageV(sub.slots);
    NestedEnds(base, target, b, size, valid, rest, sub.slots, error, stop, s.InRange(), s.Rest());
  }

  lemma SizeLeaves(b: bytes, n: nat, valid: bool, rest: bytes)
    requires SizeIs(b, n, valid, rest)
    ensures |rest| <= |b|
  {}

  /** The sub-message, and then its bytes are skipped if it could be read. */
  method ReadBody(s: InStream, size: nat, fields: seq<Field>, sub: Target) returns (error: bool, stop: Stop)
    requires FieldsOk(fields) && Sound(s) && size <= |s.Rest()|
    modifies s`pos, sub
    ensures stop.Runs? ==> Sound(s) && s.pos >= old(s.pos)
    ensures Ends(Skipping(ProtoBuf.UnpackMessage(fields, old(sub.slots), old(s.Rest())[..size]), old(s.InRange()),
                          old(s.Rest())[size..]),
                 sub.slots, error, stop, s.InRange(), s.Rest())
    decreases |s.Rest()|, 1
  {
    hide ProtoBuf.UnpackMessage, FieldsOk, InStream.Rest, InStream.Remaining, Sound;
    var ok;
    ok, stop := UnpackWithin(s, size, fields, sub);
    error := true;
    if stop.Runs? && ok {
      SkipTo(s, size);
      error := !s.InRange();
    }
  }

  method SkipTo(s: InStream, n: nat)
    requires Sound(s) && n <= |s.Rest()|
    modifies s`pos
    ensures Sound(s) && s.Rest() == old(s.Rest())[n..] && s.InRange() == old(s.InRange()) && s.pos == old(s.pos) + n
  {
    s.Skip(n);
  }

  /** A sub-message is read from a stream over its own bytes. */
  method UnpackWithin(s: InStream, size: nat, fields: seq<Field>, sub: Target) returns (ok: bool, stop: Stop)
    requires FieldsOk(fields) && Sound(s) && size <= |s.Rest()|
    modifies sub
    ensures match ProtoBuf.UnpackMessage(fields, old(sub.slots), s.Rest()[..size])
            case Done(slots, _) => stop.Runs? && ok && sub.slots == slots
            case Stopped(slots) => stop.Runs? && !ok && sub.slots == slots
            case Raised(e) => stop == Throws(e)
            case Endless => stop.Hangs?
    decreases |s.Rest()|, 0, 1
  {
    // past the end there are no bytes to read, wherever the empty stream starts
    var start := if s.InRange() then s.pos else s.end;
    var is2 := new InStream(s.data, start, size);
    assert is2.Rest() == s.Rest()[..size];
    hide ProtoBuf.UnpackMessage;
    ok, stop := UnpackMessage(is2, fields, sub);
  }

  lemma NestedItem(base: Base, items: seq<BaseValue>, wire: nat, b: bytes)
    requires base.Message?
    ensures wire != LENGTH_DELIMITED ==> UnpackItem(base, items, wire, b) == Raised(KeyTypeMismatch)
    ensures wire == LENGTH_DELIMITED ==>
              UnpackItem(base, items, wire, b) ==
              match ReadSize(b)
              case AtEnd => Stopped(Many(items + [MessageV(Defaults(base.fields))]))
              case NoSize => Endless
              case Size(n, rest) =>
                if n > |rest| then Raised(FieldSizeLargerThanBuffer)
                else
                  match ProtoBuf.UnpackMessage(base.fields, Defaults(base.fields), rest[..n])
                  case Done(slots, _) => Done(Many(items + [MessageV(slots)]), rest[n..])
                  case Stopped(_) => Stopped(Many(items))
                  case Raised(e) => Raised(e)
                  case Endless => Endless
  {}

  method ReadItem(s: InStream, base: Base, items: seq<BaseValue>, wire: nat)
      returns (grown: seq<BaseValue>, error: bool, stop: Stop)
    requires BaseOk(base) && Sound(s) && s.InRange()
    requires base.Text? || base.Message?
    modifies s`pos
    ensures stop.Runs? ==> Sound(s) && s.pos >= old(s.pos)
    ensures Ends(UnpackItem(base, items, wire, old(s.Rest())), Many(grown), error, stop, s.InRange(), s.Rest())
    decreases |s.Rest()|, 3
  {
    if base.Message? {
      hide UnpackItem;
      grown, error, stop := ReadMessageItem(s, base, items, wire);
      return;
    }
    grown, error, stop := items, true, Runs;
    if wire != LENGTH_DELIMITED {
      stop := Throws(KeyTypeMismatch);
      return;
    }
    hide ReadSize;
    var size, endless := GetSize(s);
    if endless {
      stop := Hangs;
      return;
    }
    Fits(s, size);
    if s.Remaining() >= size {
      var d := ReadChunk(s, size);
      grown, error := grown + [TextV(d)], false;
    }
  }

  /** The container grows by one element before it is read into, and shrinks again if that fails. */
  method ReadMessageItem(s: InStream, base: Base, items: seq<BaseValue>, wire: nat)
      returns (grown: seq<BaseValue>, error: bool, stop: Stop)
    requires base.Message? && FieldsOk(base.fields)
    requires Sound(s) && s.InRange()
    modifies s`pos
    ensures stop.Runs? ==> Sound(s) && s.pos >= old(s.pos)
    ensures Ends(UnpackItem(base, items, wire, old(s.Rest())), Many(grown), error, stop, s.InRange(), s.Rest())
    decreases |s.Rest()|, 2
  {
    EmptyMessage(base.fields, Defaults(base.fields));
    NestedItem(base, items, wire, s.Rest());
    hide ProtoBuf.UnpackMessage, ReadSize, FieldsOk, UnpackItem, Defaults, InStream.Rest, InStream.Remaining, Sound;
    grown, error, stop := items, true, Runs;
    if wire != LENGTH_DELIMITED {
      stop := Throws(KeyTypeMismatch);
      return;
    }
    var size, fits, endless := NextSize(s);
    if endless {
      stop := Hangs;
    } else if !fits {
      stop := Throws(FieldSizeLargerThanBuffer);
    } else {
      var back := new Target(Defaults(base.fields));
      var ok;
      ok, stop := UnpackWithin(s, size, base.fields, back);
      if stop.Runs? && ok {
        grown := grown + [MessageV(back.slots)];
        SkipTo(s, size);
        error := !s.InRange();
      }
    }
  }

  /** `unpack` from a vector: an empty one leaves the target alone, and giving up is not reported. */
  method Unpack(msg: array<byte>, fields: seq<Field>, target: Target) returns (stop: Stop)
    requires FieldsOk(fields) && msg.Length < TWO_32
    modifies target
    ensures match ProtoBuf.UnpackMessage(fields, old(target.slots), msg[..])
            case Done(slots, _) => stop.Runs? && target.slots == slots
            case Stopped(slots) => stop.Runs? && target.slots == slots
            case Raised(e) => stop == Throws(e)
            case Endless => stop.Hangs?
  {
    hide ProtoBuf.UnpackMessage, FieldsOk;
    EmptyMessage(fields, target.slots);
    stop := Runs;
    assert msg[0..msg.Length] == msg[..] && (msg.Length == 0 ==> msg[..] == []);
    if msg.Length > 0 {
      var ds := new InStream(msg, 0, msg.Length);
      assert ds.Rest() == msg[..] && Sound(ds) && ds.InRange();
      hide InStream.Rest, Sound, InStream.InRange;
      var ok;
      ok, stop := UnpackMessage(ds, fields, target);
    }
  }
}
