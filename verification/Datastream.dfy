/** The datastream: bounds-checked writing and reading over a buffer, and a sizing run that
  * only counts. */
module Datastream {
  import opened Bytes
  import opened Wrappers
  import opened Varint

  // ----- output

  /** A sizing stream holds a 32-bit count. A writing stream holds its buffer, the position in
    * it, and how many calls it has turned away. */
  datatype OutState =
    | Sizing(size: nat)
    | Writing(data: bytes, pos: nat, dropped: nat)

  /** One `put` or `write` call: a chunk that does not fit is dropped as a whole. */
  function Offer(st: OutState, chunk: bytes): OutState {
    match st
    case Sizing(size) => Sizing((size + |chunk|) % TWO_32)
    case Writing(data, pos, dropped) =>
      if pos + |chunk| <= |data|
      then Writing(data[..pos] + chunk + data[pos + |chunk|..], pos + |chunk|, dropped)
      else Writing(data, pos, dropped + 1)
  }

  function Feed(st: OutState, calls: seq<bytes>): OutState
    decreases |calls|
  {
    if calls == [] then st else Feed(Offer(st, calls[0]), calls[1..])
  }

  function Flatten(calls: seq<bytes>): bytes {
    if calls == [] then [] else calls[0] + Flatten(calls[1..])
  }

  lemma {:induction false} FeedAppend(st: OutState, a: seq<bytes>, b: seq<bytes>)
    ensures Feed(st, a + b) == Feed(Feed(st, a), b)
    decreases |a|
  {
    if a == [] {
      assert a + b == b;
    } else {
      assert (a + b)[1..] == a[1..] + b;
      FeedAppend(Offer(st, a[0]), a[1..], b);
    }
  }

  lemma {:induction false} FlattenAppend(a: seq<bytes>, b: seq<bytes>)
    ensures Flatten(a + b) == Flatten(a) + Flatten(b)
  {
    if a == [] {
      assert a + b == b;
    } else {
      assert (a + b)[1..] == a[1..] + b;
      FlattenAppend(a[1..], b);
    }
  }

  /** Of chunks in turn, those that fit into what room is left. */
  function Fitting(room: int, calls: seq<bytes>): (kept: seq<bytes>)
    ensures |kept| <= |calls|
  {
    if calls == [] then []
    else if |calls[0]| <= room then [calls[0]] + Fitting(room - |calls[0]|, calls[1..])
    else Fitting(room, calls[1..])
  }

  /** Whatever the room, a writing stream holds the chunks that fitted, whole and in order, from its position
    * on; the rest of its buffer is as it was, and the others are counted. */
  lemma {:induction false} FeedFitting(data: bytes, pos: nat, dropped: nat, calls: seq<bytes>)
    requires pos <= |data|
    ensures var kept := Fitting(|data| - pos, calls);
            var end := pos + |Flatten(kept)|;
            && end <= |data|
            && Feed(Writing(data, pos, dropped), calls)
               == Writing(data[..pos] + Flatten(kept) + data[end..], end, dropped + |calls| - |kept|)
    decreases |calls|
  {
    if calls == [] {
      assert data == data[..pos] + [] + data[pos..];
    } else if |calls[0]| <= |data| - pos {
      var c, mid := calls[0], pos + |calls[0]|;
      var data' := data[..pos] + c + data[mid..];
      FeedFitting(data', mid, dropped, calls[1..]);
      var more := Flatten(Fitting(|data| - mid, calls[1..]));
      assert ([c] + Fitting(|data| - mid, calls[1..]))[1..] == Fitting(|data| - mid, calls[1..]);
      assert data'[..mid] == data[..pos] + c && data'[mid + |more|..] == data[mid + |more|..];
      assert data[..pos] + c + more == data[..pos] + (c + more);
    } else {
      FeedFitting(data, pos, dropped + 1, calls[1..]);
    }
  }

  lemma FeedOne(st: OutState, chunk: bytes)
    ensures Feed(st, [chunk]) == Offer(st, chunk) && Flatten([chunk]) == chunk
  {
    assert [chunk][1..] == [];
  }

  lemma AddModulo(size: nat, c: nat, more: nat)
    ensures ((size + c) % TWO_32 + more) % TWO_32 == (size + (c + more)) % TWO_32
    ensures (size + c) % TWO_32 < TWO_32
  {}

  lemma FeedSizingStep(size: nat, calls: seq<bytes>)
    requires calls != []
    ensures Feed(Sizing(size), calls) == Feed(Sizing((size + |calls[0]|) % TWO_32), calls[1..])
    ensures |Flatten(calls)| == |calls[0]| + |Flatten(calls[1..])|
  {
    assert Offer(Sizing(size), calls[0]) == Sizing((size + |calls[0]|) % TWO_32);
    hide Offer;
  }

  /** A sizing run counts the bytes offered, modulo 2^32. */
  lemma {:induction false} FeedSizing(size: nat, calls: seq<bytes>)
    requires size < TWO_32
    ensures Feed(Sizing(size), calls) == Sizing((size + |Flatten(calls)|) % TWO_32)
    decreases |calls|
  {
    if calls == [] {
      assert size % TWO_32 == size;
    } else {
      var c, more := |calls[0]|, |Flatten(calls[1..])|;
      AddModulo(size, c, more);
      hide *;
      FeedSizingStep(size, calls);
      FeedSizing((size + c) % TWO_32, calls[1..]);
    }
  }

  lemma WrittenTwice(data: bytes, pos: nat, c: bytes, more: bytes)
    requires pos + |c| + |more| <= |data|
    ensures var data' := data[..pos] + c + data[pos + |c|..];
            data'[..pos + |c|] + more + data'[pos + |c| + |more|..]
            == data[..pos] + (c + more) + data[pos + |c + more|..]
  {
    var data' := data[..pos] + c + data[pos + |c|..];
    assert data'[..pos + |c|] == data[..pos] + c;
    assert data'[pos + |c| + |more|..] == data[pos + |c| + |more|..];
    assert data[..pos] + c + more == data[..pos] + (c + more);
  }

  /** A writing run with room for everything writes everything, in order, and drops nothing. */
  lemma {:induction false} FeedWriting(data: bytes, pos: nat, dropped: nat, calls: seq<bytes>)
    requires pos + |Flatten(calls)| <= |data|
    ensures var b := Flatten(calls);
            Feed(Writing(data, pos, dropped), calls)
            == Writing(data[..pos] + b + data[pos + |b|..], pos + |b|, dropped)
    decreases |calls|
  {
    if calls == [] {
      assert data[..pos] + [] + data[pos..] == data;
    } else {
      var c, more := calls[0], Flatten(calls[1..]);
      var data' := data[..pos] + c + data[pos + |c|..];
      FeedWriting(data', pos + |c|, dropped, calls[1..]);
      WrittenTwice(data, pos, c, more);
    }
  }

  /** `datastream<size_t>` and `datastream<char*>`, the two instances a packing run is given. */
  class OutStream {
    const sizing: bool
    const data: array<byte>
    var pos: nat            // m_size, or m_pos - m_start
    ghost var dropped: nat  // calls that returned false

    ghost function State(): OutState
      reads this, data
    {
      if sizing then Sizing(pos) else Writing(data[..], pos, dropped)
    }

    constructor Count()
      ensures State() == Sizing(0) && fresh(data)
    {
      sizing, data, pos, dropped := true, new byte[0], 0, 0;
    }

    constructor Over(buffer: array<byte>)
      ensures State() == Writing(buffer[..], 0, 0) && data == buffer
    {
      sizing, data, pos, dropped := false, buffer, 0, 0;
    }

    method Write(d: bytes) returns (ok: bool)
      requires |d| < TWO_31  // the size is compared as a 32-bit signed number
      modifies this, data
      ensures State() == Offer(old(State()), d)
      ensures ok <==> sizing || old(pos) + |d| <= data.Length
    {
      if sizing {
        pos := (pos + |d|) % TWO_32;
        return true;
      }
      if data.Length - pos >= |d| {
        ghost var before := data[..];
        forall i | 0 <= i < |d| {
          data[pos + i] := d[i];
        }
        assert data[..] == before[..pos] + d + before[pos + |d|..];
        pos := pos + |d|;
        return true;
      }
      dropped := dropped + 1;
      ok := false;
    }

    method Put(c: byte) returns (ok: bool)
      modifies this, data
      ensures State() == Offer(old(State()), [c])
      ensures ok <==> sizing || old(pos) < data.Length
    {
      if sizing {
        pos := (pos + 1) % TWO_32;
        return true;
      }
      if pos < data.Length {
        ghost var before := data[..];
        data[pos] := c;
        assert data[..] == before[..pos] + [c] + before[pos + 1..];
        pos := pos + 1;
        return true;
      }
      dropped := dropped + 1;
      ok := false;
    }

    method Tell() returns (n: nat)
      ensures n == pos % TWO_32
    {
      n := pos % TWO_32;
    }
  }

  function Singles(b: bytes): seq<bytes> {
    if b == [] then [] else [[b[0]]] + Singles(b[1..])
  }

  lemma {:induction false} FlattenSingles(b: bytes)
    ensures Flatten(Singles(b)) == b
  {
    if b != [] {
      FlattenSingles(b[1..]);
      assert Singles(b)[0] == [b[0]] && Singles(b)[1..] == Singles(b[1..]);
      assert [b[0]] + b[1..] == b;
    }
  }

  /** The do/while loop that writes a varint one byte at a time. */
  method PutVarint(s: OutStream, n: nat)
    modifies s, s.data
    ensures s.State() == Feed(old(s.State()), Singles(EncodeVarint(n)))
  {
    var val := n;
    ghost var start, done: seq<bytes>, goal := s.State(), [], Singles(EncodeVarint(n));
    assert Feed(start, []) == start && [] + goal == goal;
    hide *;
    while true
      invariant s.State() == Feed(start, done)
      invariant done + Singles(EncodeVarint(val)) == goal
      decreases val
    {
      var b: byte := val % 128;
      VarintCalls(val, done);
      val := val / 128;
      if val > 0 {
        b := b + 128;
      }
      PutOne(s, b, start, done);
      done := done + [[b]];
      if val == 0 {
        break;
      }
    }
  }

  method PutOne(s: OutStream, b: byte, ghost start: OutState, ghost done: seq<bytes>)
    requires s.State() == Feed(start, done)
    modifies s, s.data
    ensures s.State() == Feed(start, done + [[b]])
  {
    hide Feed;
    FeedOne(Feed(start, done), [b]);
    FeedAppend(start, done, [[b]]);
    var ok := s.Put(b);
  }

  /** The calls for n are one for its low group and then those for what is left. */
  lemma VarintCalls(n: nat, done: seq<bytes>)
    ensures n / 128 == 0 ==> Singles(EncodeVarint(n)) == [[n % 128]]
    ensures n / 128 > 0 ==> n / 128 < n
    ensures n / 128 > 0 ==>
              done + Singles(EncodeVarint(n)) == done + [[n % 128 + 128]] + Singles(EncodeVarint(n / 128))
  {
    if n >= 128 {
      var more := EncodeVarint(n / 128);
      assert EncodeVarint(n) == [n % 128 + 128] + more && ([n % 128 + 128] + more)[1..] == more;
      assert done + ([[n % 128 + 128]] + Singles(more)) == done + [[n % 128 + 128]] + Singles(more);
    }
  }

  // ----- input

  class InStream {
    const data: array<byte>
    const start: nat
    const end: nat
    var pos: nat

    ghost predicate Valid()
    {
      start <= end <= data.Length
    }

    /** The bytes still to be read; none once the position has passed the end. */
    function Rest(): bytes
      requires Valid()
      reads this, data
    {
      if pos <= end then data[pos..end] else []
    }

    constructor (buffer: array<byte>, start: nat, size: nat)
      requires start + size <= buffer.Length
      ensures Valid() && data == buffer && this.start == start && end == start + size && pos == start
    {
      this.data, this.start, this.end, this.pos := buffer, start, start + size, start;
    }

    /** Past the end the position moves on and the caller's character is left as it was. */
    method Get(c: byte) returns (ok: bool, r: byte)
      requires Valid()
      modifies this`pos
      ensures pos == old(pos) + 1
      ensures ok <==> old(Rest()) != []
      ensures r == if ok then old(Rest())[0] else c
      ensures Rest() == if ok then old(Rest())[1..] else []
    {
      ok := pos < end;
      r := if ok then data[pos] else c;
      pos := pos + 1;
    }

    /** A read that does not fit leaves both the position and the caller's buffer alone. */
    method Read(size: nat) returns (ok: bool, d: bytes)
      requires Valid() && size < TWO_31
      modifies this`pos
      ensures ok <==> old(pos) + size <= end
      ensures ok ==> pos == old(pos) + size && d == old(Rest())[..size] && Rest() == old(Rest())[size..]
      ensures !ok ==> pos == old(pos) && d == []
    {
      ok, d := end - pos >= size, [];
      if ok {
        d := data[pos..pos + size];
        pos := pos + size;
      }
    }

    method Skip(size: nat)
      modifies this`pos
      ensures pos == old(pos) + size
    {
      pos := pos + size;
    }

    /** `valid`; the position never falls below the start. */
    predicate InRange()
      reads this
    {
      start <= pos <= end
    }

    /** `remaining`, an unsigned 32-bit difference. */
    function Remaining(): nat
      reads this
    {
      (end - pos) % TWO_32
    }
  }

  /** The loop has v from its first k groups, so that the next group's bits are all new, and will
    * end as goal. */
  ghost predicate Expects(goal: Option<VarintRead>, v: nat, b: bytes, k: nat) {
    && v < Weight(k)
    && match ReadGroups(b, k)
       case None => goal == None
       case Some(more) => goal == Some(VarintRead(v + more.value, more.rest))
  }

  lemma GroupStep(goal: Option<VarintRead>, v: nat, b: bytes, k: nat)
    requires Expects(goal, v, b, k)
    ensures b == [] || k >= 5 ==> goal == None
    ensures b != [] && k < 5 && b[0] < 128 ==> goal == Some(VarintRead(v + Shifted(b[0], k), b[1..]))
    ensures b != [] && k < 5 && b[0] >= 128 ==> Expects(goal, v + Shifted(b[0], k), b[1..], k + 1)
  {
    if b != [] {
      ShiftedBound(b[0], k);
    }
    hide Shifted;
  }

  /** The do/while loop that reads a varint. On a stream that is exhausted at once it sees a zero
    * byte. On one that ends later the last byte stays in the variable with its top bit set, and the
    * loop goes on for ever; a sixth group would be shifted by 35 bits. Both are `endless`. */
  method GetVarint(s: InStream) returns (v: nat, endless: bool)
    requires s.Valid()
    modifies s`pos
    ensures var r := old(s.Rest());
            if r == [] then !endless && v == 0 && s.pos == old(s.pos) + 1 && s.Rest() == []
            else
              && endless == ReadVarint(r).None?
              && (!endless ==> v == ReadVarint(r).value.value && s.Rest() == ReadVarint(r).value.rest
                               && s.pos == old(s.pos) + |r| - |s.Rest()|)
  {
    if s.Rest() == [] {
      var ok, b := s.Get(0);
      return 0, false;
    }
    ghost var goal := ReadVarint(s.Rest());
    assert Expects(goal, 0, s.Rest(), 0);
    hide *;
    v, endless := GetGroups(s, goal);
  }

  method GetGroup(s: InStream, c: byte, k: nat, ghost goal: Option<VarintRead>, ghost v: nat)
    returns (ok: bool, b: byte)
    requires s.Valid() && Expects(goal, v, s.Rest(), k)
    modifies s`pos
    ensures k >= 5 || !ok ==> goal == None
    ensures ok && k < 5 && b < 128 ==> goal == Some(VarintRead(v + Shifted(b, k), s.Rest()))
    ensures ok && k < 5 && b >= 128 ==> Expects(goal, v + Shifted(b, k), s.Rest(), k + 1)
    ensures ok ==> old(s.pos) < s.pos <= s.end
  {
    GroupStep(goal, v, s.Rest(), k);
    hide *;
    ok, b := s.Get(c);
  }

  method GetGroups(s: InStream, ghost goal: Option<VarintRead>) returns (v: nat, endless: bool)
    requires s.Valid() && s.Rest() != [] && Expects(goal, 0, s.Rest(), 0)
    modifies s`pos
    ensures endless == goal.None?
    ensures !endless ==> goal == Some(VarintRead(v, s.Rest()))
    ensures !endless ==> s.pos <= s.end
  {
    v, endless := 0, false;
    var b: byte, k := 0, 0;  // the code counts k in bits, seven at a time
    hide *;
    while true
      invariant Expects(goal, v, s.Rest(), k)
      decreases s.end - s.pos
    {
      var ok;
      ok, b := GetGroup(s, b, k, goal, v);
      if k >= 5 || !ok {
        return v, true;
      }
      v := v + Shifted(b, k);  // `|=`: the groups' bits are disjoint
      k := k + 1;
      if b < 128 {
        return v, false;
      }
    }
  }
}
