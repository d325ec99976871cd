/** The bytes of the raw codec, spelled out: what stands where, and with which numbers. */
module RawWire {
  import opened Bytes
  import opened Wrappers
  import opened Varint
  import opened RawCodec
  import opened RawOrder

  // ----- varints

  function Power128(k: nat): (p: nat)
    ensures p > 0
  {
    if k == 0 then 1 else 128 * Power128(k - 1)
  }

  /** Byte i of a varint has the i-th group of seven bits, least significant first, and its top bit says
    * whether it is not the last. */
  lemma {:induction false} VarintByteAt(n: nat, i: nat)
    requires i < |EncodeVarint(n)|
    ensures EncodeVarint(n)[i] == (n / Power128(i)) % 128 + (if i + 1 < |EncodeVarint(n)| then 128 else 0)
    decreases i
  {
    if i > 0 {
      VarintByteAt(n / 128, i - 1);
      DivideTwice(n, 128, Power128(i - 1));
      assert EncodeVarint(n)[i] == EncodeVarint(n / 128)[i - 1];
    }
  }

  lemma DivideTwice(n: int, a: nat, b: nat)
    requires a > 0 && b > 0
    ensures a * b > 0 && (n / a) / b == n / (a * b)
  {
    var q, r := n / a, n % a;
    var q', r' := q / b, q % b;
    Regrouped(n, a, b, q, r, q', r');
    QuotientIs(n, a * b, q', a * r' + r);
  }

  lemma Regrouped(n: int, a: int, b: int, q: int, r: int, q': int, r': int)
    requires a > 0 && b > 0 && n == a * q + r && q == b * q' + r' && 0 <= r < a && 0 <= r' < b
    ensures a * b > 0 && n == (a * b) * q' + (a * r' + r) && 0 <= a * r' + r < a * b
  {
    Distribute(a, b, q', r');
    TimesOrdered(a, r', b - 1);
    TimesOrdered(a, 1, b);
  }

  lemma Distribute(a: int, b: int, q: int, r: int)
    ensures a * (b * q + r) == (a * b) * q + a * r
  {
    assert a * (b * q) == (a * b) * q;
  }

  lemma TimesOrdered(a: int, x: int, y: int)
    requires a > 0 && x <= y
    ensures a * x <= a * y && a * (y - 1) == a * y - a && a * 1 == a
  {}

  lemma QuotientIs(n: int, d: nat, q: int, r: int)
    requires d > 0 && n == d * q + r && 0 <= r < d
    ensures n / d == q
  {
    if q < n / d {
      TimesOrdered(d, q, n / d - 1);
    } else if n / d < q {
      TimesOrdered(d, n / d, q - 1);
      TimesOrdered(d, q - 1, q);
    }
  }

  /** Byte i, or zero past the end. */
  function At(b: bytes, i: nat): int {
    if i < |b| then b[i] else 0
  }

  /** What the bytes of a varint are read as, up to the first with a clear top bit; of the fifth group
    * only four bits fit. */
  lemma VarintIsRead(b: bytes, rest: bytes)
    requires 1 <= |b| <= 5 && (forall i :: 0 <= i < |b| - 1 ==> b[i] >= 128) && b[|b| - 1] < 128
    ensures var r := ReadVarint(b + rest);
            && r.Some? && r.value.rest == rest
            && r.value.value == At(b, 0) % 128 + (At(b, 1) % 128) * 128 + (At(b, 2) % 128) * 16384
                                + (At(b, 3) % 128) * 2097152 + (At(b, 4) % 16) * 268435456
  {
    GroupsAreRead(b, 0, rest);
    FiveGroups(b);
    hide Groups, ReadGroups;
  }

  lemma FiveGroups(b: bytes)
    requires 1 <= |b| <= 5
    ensures Groups(b, 0) == At(b, 0) % 128 + (At(b, 1) % 128) * 128 + (At(b, 2) % 128) * 16384
                            + (At(b, 3) % 128) * 2097152 + (At(b, 4) % 16) * 268435456
  {
    assert b[0..] == b;
    hide Shifted, Groups;
    GroupsFrom(b, 0);
    GroupsFrom(b, 1);
    GroupsFrom(b, 2);
    GroupsFrom(b, 3);
    GroupsFrom(b, 4);
    GroupSizes(b);
  }

  /** The groups from the k-th on, and the next ones. */
  lemma GroupsFrom(b: bytes, k: nat)
    ensures k < |b| ==> Groups(b[k..], k) == Shifted(b[k], k) + Groups(b[k + 1..], k + 1)
    ensures k + 1 == |b| ==> Groups(b[k + 1..], k + 1) == 0
  {
    if k < |b| {
      assert b[k..][1..] == b[k + 1..];
    }
  }

  lemma GroupSizes(b: bytes)
    ensures |b| > 0 ==> Shifted(b[0], 0) == At(b, 0) % 128
    ensures |b| > 1 ==> Shifted(b[1], 1) == (At(b, 1) % 128) * 128
    ensures |b| > 2 ==> Shifted(b[2], 2) == (At(b, 2) % 128) * 16384
    ensures |b| > 3 ==> Shifted(b[3], 3) == (At(b, 3) % 128) * 2097152
    ensures |b| > 4 ==> Shifted(b[4], 4) == (At(b, 4) % 16) * 268435456
  {
    Weights();
    if |b| > 4 {
      FifthGroupFits(b[4]);
    }
    hide Weight;
  }

  lemma FifthGroupFits(g: byte)
    ensures (g % 128 * 268435456) % 0x1_0000_0000 == (g % 16) * 268435456
  {
    assert g % 128 == 16 * (g % 128 / 16) + g % 16;
    assert g % 128 * 268435456 == (g % 128 / 16) * 0x1_0000_0000 + (g % 16) * 268435456;
  }

  /** The sum of the groups from the k-th on. */
  function Groups(b: bytes, k: nat): nat {
    if b == [] then 0 else Shifted(b[0], k) + Groups(b[1..], k + 1)
  }

  lemma NextGroups(b: bytes, k: nat)
    requires b != []
    ensures Groups(b, k) == Shifted(b[0], k) + Groups(b[1..], k + 1)
    ensures |b| == 1 ==> Groups(b, k) == Shifted(b[0], k)
  {
    hide Shifted;
  }

  lemma {:induction false} GroupsAreRead(b: bytes, k: nat, rest: bytes)
    requires 1 <= |b| <= 5 - k && (forall i :: 0 <= i < |b| - 1 ==> b[i] >= 128) && b[|b| - 1] < 128
    ensures ReadGroups(b + rest, k) == Some(VarintRead(Groups(b, k), rest))
    decreases |b|
  {
    hide *;
    assert (b + rest)[0] == b[0] && (b + rest)[1..] == b[1..] + rest;
    NextGroups(b, k);
    if |b| > 1 {
      GroupsAreRead(b[1..], k + 1, rest);
    } else {
      assert b[1..] + rest == rest;
    }
    GroupRead(b + rest, k, Groups(b[1..], k + 1), rest);
  }

  // ----- numbers of fixed width

  /** Byte i of a number in little-endian order. */
  lemma {:induction false} LittleEndianAt(n: int, width: nat, i: nat)
    requires i < width
    ensures LittleEndian(n, width)[i] == (n / Power256(i)) % 256
    decreases i
  {
    if i > 0 {
      LittleEndianAt(n / 256, width - 1, i - 1);
      DivideTwice(n, 256, Power256(i - 1));
    }
  }

  function Power256(k: nat): (p: nat)
    ensures p > 0
  {
    if k == 0 then 1 else 256 * Power256(k - 1)
  }

  /** One, two, four and eight bytes, least significant first; a signed number with its top bit set is
    * negative. */
  lemma FixedIsRead(b: bytes, signed: bool)
    requires |b| == 1 || |b| == 2 || |b| == 4 || |b| == 8
    ensures var low := At(b, 0) + 256 * At(b, 1) + 65536 * At(b, 2) + 16777216 * At(b, 3);
            var high := At(b, 4) + 256 * At(b, 5) + 65536 * At(b, 6) + 16777216 * At(b, 7);
            var size := if |b| == 1 then 256 else if |b| == 2 then 65536 else if |b| == 4 then 4294967296
                        else 18446744073709551616;
            ReadFixed(b, signed)
            == low + 4294967296 * high - (if signed && At(b, |b| - 1) >= 128 then size else 0)
  {
    BytesAreRead(b);
    FixedPowers();
    hide FromLittleEndian, PowerOf256;
  }

  /** The numbers each width holds. */
  lemma TypedNumbers(width: nat, signed: bool, n: int)
    requires width == 1 || width == 2 || width == 4 || width == 8
    ensures HasType(Fixed(width, signed), FixedV(width, n)) <==>
            if signed then
              if width == 1 then -128 <= n < 128 else if width == 2 then -32768 <= n < 32768
              else if width == 4 then -2147483648 <= n < 2147483648
              else -9223372036854775808 <= n < 9223372036854775808
            else
              0 <= n < (if width == 1 then 256 else if width == 2 then 65536 else if width == 4 then 4294967296
                        else 18446744073709551616)
  {
    FixedPowers();
    hide PowerOf256;
  }

  lemma FixedPowers()
    ensures PowerOf256(1) == 256 && PowerOf256(2) == 65536 && PowerOf256(4) == 4294967296
    ensures PowerOf256(8) == 18446744073709551616
  {
    assert PowerOf256(3) == 16777216;
    assert PowerOf256(5) == 1099511627776;
    assert PowerOf256(6) == 281474976710656;
  }

  lemma BytesAreRead(b: bytes)
    requires |b| == 1 || |b| == 2 || |b| == 4 || |b| == 8
    ensures FromLittleEndian(b)
         == At(b, 0) + 256 * At(b, 1) + 65536 * At(b, 2) + 16777216 * At(b, 3)
            + 4294967296 * (At(b, 4) + 256 * At(b, 5) + 65536 * At(b, 6) + 16777216 * At(b, 7))
  {
    if |b| == 1 {
      assert b[1..] == [];
    } else if |b| == 2 {
      TwoBytes(b);
      assert b[2..] == [];
    } else {
      TwoBytes(b);
      TwoBytes(b[2..]);
      assert b[2..][2..] == b[4..];
      if |b| == 8 {
        TwoBytes(b[4..]);
        TwoBytes(b[6..]);
        assert b[4..][2..] == b[6..] && b[6..][2..] == [];
      } else {
        assert b[4..] == [];
      }
    }
  }

  lemma TwoBytes(b: bytes)
    requires |b| >= 2
    ensures FromLittleEndian(b) == b[0] + 256 * b[1] + 65536 * FromLittleEndian(b[2..])
  {
    assert b[1..][1..] == b[2..];
  }

  // ----- what each type's bytes are

  function Concat(bs: seq<bytes>): bytes {
    if bs == [] then [] else bs[0] + Concat(bs[1..])
  }

  /** The encodings of some values. */
  function Encodings(vs: seq<Value>): (bs: seq<bytes>)
    ensures |bs| == |vs|
  {
    seq(|vs|, i requires 0 <= i < |vs| => Encode(vs[i]))
  }

  lemma {:induction false} AllAreConcat(vs: seq<Value>)
    ensures EncodeAll(vs) == Concat(Encodings(vs))
  {
    if vs != [] {
      AllAreConcat(vs[1..]);
      assert Encodings(vs)[1..] == Encodings(vs[1..]);
    }
    hide Encode;
  }

  /** A flag is the byte 1 or 0, and so is what stands before an optional; a pair is its halves, the first
    * one first. */
  lemma SmallForms(x: Value, y: Value)
    ensures Encode(FlagV(true)) == [1] && Encode(FlagV(false)) == [0]
    ensures Encode(NoneV) == [0] && Encode(SomeV(x)) == [1] + Encode(x)
    ensures Encode(PairV(x, y)) == Encode(x) + Encode(y)
  {}

  /** A string is its length and its bytes; a container its size and its elements, in order. */
  lemma SizedForms(text: bytes, vs: seq<Value>)
    requires |text| < 0x1_0000_0000 && |vs| < 0x1_0000_0000
    ensures Encode(TextV(text)) == EncodeVarint(|text|) + text
    ensures Encode(ListV(vs)) == EncodeVarint(|vs|) + Concat(Encodings(vs))
    ensures Encode(SetV(vs)) == EncodeVarint(|vs|) + Concat(Encodings(vs))
    ensures Encode(MapV(vs)) == EncodeVarint(|vs|) + Concat(Encodings(vs))
  {
    SizeBytes(|text|);
    SizeBytes(|vs|);
    AllAreConcat(vs);
    hide EncodeSize, EncodeVarint, EncodeAll, Concat, Encodings;
  }

  /** A number is its little-endian bytes, a varint of it, or a varint of its zigzag form. */
  lemma NumberForms(width: nat, n: int, u: nat, i: int, k: nat)
    requires k < width && u < 0x1_0000_0000 && -0x8000_0000 <= i < 0x8000_0000
    ensures |Encode(FixedV(width, n))| == width && Encode(FixedV(width, n))[k] == (n / Power256(k)) % 256
    ensures Encode(UVarV(u)) == EncodeVarint(u)
    ensures Encode(SVarV(i)) == EncodeVarint(if i < 0 then -2 * i - 1 else 2 * i)
  {
    LittleEndianAt(n, width, k);
    ZigzagMeaning(i);
    hide EncodeVarint, LittleEndian, Power256, Zigzag;
  }

  /** The encodings of a class's members: of an optional one only the value, if it is set. */
  function MemberEncodings(members: seq<Value>): (bs: seq<bytes>)
    ensures |bs| == |members|
  {
    seq(|members|, i requires 0 <= i < |members| =>
      if members[i].NoneV? then [] else Encode(if members[i].SomeV? then members[i].some else members[i]))
  }

  /** A reflected class is its members in order. */
  lemma {:induction false} StructForm(members: seq<Value>)
    ensures Encode(StructV(members)) == Concat(MemberEncodings(members))
  {
    if members != [] {
      StructForm(members[1..]);
      assert MemberEncodings(members)[1..] == MemberEncodings(members[1..]);
      assert MemberEncodings(members)[0] == EncodeMember(members[0]);
      assert EncodeMembers(members) == EncodeMember(members[0]) + EncodeMembers(members[1..]);
    }
    assert Encode(StructV(members)) == EncodeMembers(members);
    hide Encode, EncodeMember, MemberEncodings;
  }

  // ----- the order of sets and maps

  /** Numbers by size, false before true, and an unset optional before any set one. */
  lemma ScalarOrder(width: nat, m: int, n: int, u: nat, w: nat, p: bool, q: bool, x: Value, y: Value)
    ensures Less(FixedV(width, m), FixedV(width, n)) <==> m < n
    ensures Less(SVarV(m), SVarV(n)) <==> m < n
    ensures Less(UVarV(u), UVarV(w)) <==> u < w
    ensures Less(FlagV(p), FlagV(q)) <==> !p && q
    ensures Less(NoneV, SomeV(x)) && !Less(SomeV(x), NoneV) && (Less(SomeV(x), SomeV(y)) <==> Less(x, y))
  {}

  /** i is where b goes beyond a: they agree before it, and there a ends or is smaller. */
  predicate Beyond(a: bytes, b: bytes, i: nat) {
    i <= |a| && i < |b| && a[..i] == b[..i] && (i == |a| || a[i] < b[i])
  }

  /** Strings lexicographically. */
  lemma {:induction false} TextOrder(a: bytes, b: bytes)
    ensures Less(TextV(a), TextV(b)) <==> exists i: nat :: Beyond(a, b, i)
    decreases |a|
  {
    if a != [] && b != [] && a[0] == b[0] {
      TextOrder(a[1..], b[1..]);
      forall i: nat | Beyond(a[1..], b[1..], i)
        ensures Beyond(a, b, i + 1)
      {
        assert a[..i + 1] == [a[0]] + a[1..][..i] && b[..i + 1] == [b[0]] + b[1..][..i];
      }
      forall i: nat | Beyond(a, b, i)
        ensures i > 0 && Beyond(a[1..], b[1..], i - 1)
      {
        assert i > 0;
        assert a[1..][..i - 1] == a[..i][1..] && b[1..][..i - 1] == b[..i][1..];
      }
    } else {
      FirstBytes(a, b);
    }
  }

  lemma SameStart<T>(a: seq<T>, b: seq<T>, i: nat)
    requires 0 < i <= |a| && i <= |b| && a[..i] == b[..i]
    ensures a[0] == b[0]
  {
    assert a[..i][0] == a[0] && b[..i][0] == b[0];
  }

  lemma FirstBytes(a: bytes, b: bytes)
    requires a == [] || b == [] || a[0] != b[0]
    ensures Less(TextV(a), TextV(b)) <==> Beyond(a, b, 0)
    ensures forall i: nat :: Beyond(a, b, i) ==> i == 0
  {
    forall i: nat | Beyond(a, b, i)
      ensures i == 0
    {
      if i > 0 {
        SameStart(a, b, i);
      }
    }
  }

  predicate BeyondItem(a: seq<Value>, b: seq<Value>, i: nat) {
    i <= |a| && i < |b| && a[..i] == b[..i] && (i == |a| || Less(a[i], b[i]))
  }

  /** Containers and classes lexicographically by their elements, and pairs by their first halves before
    * their second. */
  lemma {:induction false} SequenceOrder(a: seq<Value>, b: seq<Value>)
    ensures AllLess(a, b) <==> exists i: nat :: BeyondItem(a, b, i)
    decreases |a|
  {
    hide Less;
    if a != [] && b != [] && a[0] == b[0] {
      LessItself(a[0]);
      SequenceOrder(a[1..], b[1..]);
      forall i: nat | BeyondItem(a[1..], b[1..], i)
        ensures BeyondItem(a, b, i + 1)
      {
        assert a[..i + 1] == [a[0]] + a[1..][..i] && b[..i + 1] == [b[0]] + b[1..][..i];
      }
      forall i: nat | BeyondItem(a, b, i)
        ensures i > 0 && BeyondItem(a[1..], b[1..], i - 1)
      {
        assert i > 0;
        assert a[1..][..i - 1] == a[..i][1..] && b[1..][..i - 1] == b[..i][1..];
      }
    } else {
      FirstItems(a, b);
    }
  }

  lemma LessItself(x: Value)
    ensures !Less(x, x)
  {
    LessAsymmetric(x, x);
  }

  lemma FirstItems(a: seq<Value>, b: seq<Value>)
    requires a == [] || b == [] || a[0] != b[0]
    ensures AllLess(a, b) <==> BeyondItem(a, b, 0)
    ensures forall i: nat :: BeyondItem(a, b, i) ==> i == 0
  {
    hide Less;
    forall i: nat | BeyondItem(a, b, i)
      ensures i == 0
    {
      if i > 0 {
        SameStart(a, b, i);
      }
    }
  }

  lemma PairOrder(x: Value, y: Value, x': Value, y': Value)
    ensures Less(PairV(x, y), PairV(x', y')) <==> Less(x, x') || (x == x' && Less(y, y'))
  {}

  lemma ContainerOrder(a: seq<Value>, b: seq<Value>)
    ensures AllLess(a, b) == Less(ListV(a), ListV(b)) == Less(SetV(a), SetV(b)) == Less(MapV(a), MapV(b))
            == Less(StructV(a), StructV(b))
  {}

  // ----- bytes that no packing wrote

  /** Any byte but 0 is a set flag, or stands before a value. */
  lemma MarksAreRead(mark: byte, of: Schema, b: bytes)
    ensures Decode(Flag, [mark] + b) == Some(Read(FlagV(mark > 0), b))
    ensures Decode(Opt(of), [mark] + b) ==
            if mark == 0 then Some(Read(NoneV, b))
            else if Decode(of, b).None? then None
            else Some(Read(SomeV(Decode(of, b).value.value), Decode(of, b).value.rest))
  {
    assert ([mark] + b)[1..] == b;
  }

  /** A set is read as a list, and its elements are inserted one after the other. */
  lemma {:induction false} SetIsInserted(of: Schema, n: nat, done: seq<Value>, b: bytes)
    ensures var all := DecodeAll(of, n, b);
            DecodeSet(of, n, done, b) ==
            if all.None? then None else Some(Read(InsertAll(false, done, all.value.value), all.value.rest))
    decreases n
  {
    hide Decode, Insert;
    if n > 0 && Decode(of, b).Some? {
      var v := Decode(of, b).value;
      SetIsInserted(of, n - 1, Insert(false, done, v.value), v.rest);
      if DecodeAll(of, n - 1, v.rest).Some? {
        var vs := DecodeAll(of, n - 1, v.rest).value.value;
        assert ([v.value] + vs)[1..] == vs;
      }
    }
  }
}
