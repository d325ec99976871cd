/** Base-128 varints and the zigzag form of signed ones, with the 32-bit arithmetic of the code. */
module Varint {
  import opened Bytes
  import opened Wrappers

  const TWO_31 := 0x8000_0000
  const TWO_32 := 0x1_0000_0000

  // ----- unsigned

  /** Groups of seven bits, least significant first; the top bit says that more follow. */
  function EncodeVarint(n: nat): (b: bytes)
    ensures |b| > 0
  {
    if n < 128 then [n] else [n % 128 + 128] + EncodeVarint(n / 128)
  }

  /** Place value of the k-th group. */
  function Weight(k: nat): (w: nat)
    ensures w > 0
  {
    if k == 0 then 1 else 128 * Weight(k - 1)
  }

  /** `uint32_t(b & 0x7f) << by`: bits shifted beyond 32 are lost. */
  function Shifted(b: byte, k: nat): nat {
    (b % 128 * Weight(k)) % TWO_32
  }

  datatype VarintRead = VarintRead(value: nat, rest: bytes)

  /** The decode loop from its k-th group on. None where the loop has no defined result: no byte
    * with a clear top bit follows, or a sixth group would be shifted by 35 bits. */
  function ReadGroups(b: bytes, k: nat): (r: Option<VarintRead>)
    ensures r.Some? ==> |r.value.rest| < |b| && r.value.rest == b[|b| - |r.value.rest|..]
    decreases |b|
  {
    if b == [] || k >= 5 then None
    else if b[0] < 128 then Some(VarintRead(Shifted(b[0], k), b[1..]))
    else
      var more := ReadGroups(b[1..], k + 1);
      if more.None? then None else Some(VarintRead(Shifted(b[0], k) + more.value.value, more.value.rest))
  }

  function ReadVarint(b: bytes): (r: Option<VarintRead>)
    ensures r.Some? ==> |r.value.rest| < |b| && r.value.rest == b[|b| - |r.value.rest|..]
  {
    ReadGroups(b, 0)
  }

  lemma Weights()
    ensures Weight(0) == 1 && Weight(1) == 128 && Weight(2) == 16384 && Weight(3) == 2097152
    ensures Weight(4) == 268435456 && Weight(5) == 34359738368
  {
    assert Weight(3) == 2097152;
  }

  lemma GroupProduct(n: nat, w: nat)
    ensures (n % 128) * w + (n / 128) * (128 * w) == n * w
  {
    assert (n / 128) * (128 * w) == ((n / 128) * 128) * w;
    assert n == (n / 128) * 128 + n % 128;
    assert n * w == ((n / 128) * 128 + n % 128) * w;
  }

  lemma QuotientBound(n: nat, w: nat)
    requires w > 0 && n * w < TWO_32
    ensures (n % 128) * w < TWO_32 && (n / 128) * (128 * w) < TWO_32
  {
    GroupProduct(n, w);
  }

  lemma MoreGroupsFit(n: nat, k: nat)
    requires n >= 128 && k < 5 && n * Weight(k) < TWO_32
    ensures k < 4
  {
    Weights();
    TimesBound(128, n, Weight(k));
  }

  lemma GroupSum(n: nat, k: nat, b: byte)
    requires b % 128 == n % 128 && n * Weight(k) < TWO_32
    ensures Shifted(b, k) + (n / 128) * Weight(k + 1) == n * Weight(k)
    ensures n < 128 ==> Shifted(b, k) == n * Weight(k)
    ensures (n / 128) * Weight(k + 1) < TWO_32
  {
    QuotientBound(n, Weight(k));
    GroupProduct(n, Weight(k));
  }

  lemma FirstGroup(n: nat, rest: bytes)
    ensures var b := EncodeVarint(n) + rest;
            && b != [] && b[0] % 128 == n % 128 && (b[0] < 128 <==> n < 128)
            && b[1..] == if n < 128 then rest else EncodeVarint(n / 128) + rest
  {}

  lemma GroupRead(b: bytes, k: nat, v: nat, rest: bytes)
    requires b != [] && k < 5
    ensures b[0] < 128 ==> ReadGroups(b, k) == Some(VarintRead(Shifted(b[0], k), b[1..]))
    ensures b[0] >= 128 && ReadGroups(b[1..], k + 1) == Some(VarintRead(v, rest)) ==>
              ReadGroups(b, k) == Some(VarintRead(Shifted(b[0], k) + v, rest))
  {
    hide Shifted;
  }

  lemma {:induction false} GroupsRoundTrip(n: nat, k: nat, rest: bytes)
    requires k < 5 && n * Weight(k) < TWO_32
    ensures ReadGroups(EncodeVarint(n) + rest, k) == Some(VarintRead(n * Weight(k), rest))
    decreases n
  {
    hide *;
    var b := EncodeVarint(n) + rest;
    FirstGroup(n, rest);
    GroupSum(n, k, b[0]);
    if n >= 128 {
      MoreGroupsFit(n, k);
      GroupsRoundTrip(n / 128, k + 1, rest);
    }
    GroupRead(b, k, n / 128 * Weight(k + 1), rest);
  }

  /** Every 32-bit number reads back, and leaves what follows it. */
  lemma VarintRoundTrip(n: nat, rest: bytes)
    requires n < TWO_32
    ensures ReadVarint(EncodeVarint(n) + rest) == Some(VarintRead(n, rest))
  {
    assert n * Weight(0) == n;
    GroupsRoundTrip(n, 0, rest);
  }

  /** One group for each seven bits, and five at most. */
  lemma VarintLength(n: nat)
    requires n < TWO_32
    ensures |EncodeVarint(n)| == if n < 128 then 1 else if n < 16384 then 2 else if n < 2097152 then 3
                                 else if n < 268435456 then 4 else 5
  {
    assert n >= 128 ==> |EncodeVarint(n)| == 1 + |EncodeVarint(n / 128)|;
    assert n >= 16384 ==> |EncodeVarint(n / 128)| == 1 + |EncodeVarint(n / 16384)|;
    assert n >= 2097152 ==> |EncodeVarint(n / 16384)| == 1 + |EncodeVarint(n / 2097152)|;
  }

  lemma {:induction false} LengthMonotone(m: nat, n: nat)
    requires m <= n
    ensures |EncodeVarint(m)| <= |EncodeVarint(n)|
    decreases n
  {
    if m >= 128 {
      LengthMonotone(m / 128, n / 128);
    }
  }

  lemma TimesBound(x: nat, m: nat, w: nat)
    requires x <= m
    ensures x * w <= m * w
  {}

  lemma LastGroup(x: nat)
    requires x < 128
    ensures (x * 268435456) % TWO_32 <= TWO_32 - 268435456
  {
    var q, r := x / 16, x % 16;
    assert x * 268435456 == q * TWO_32 + r * 268435456;
    assert (x * 268435456) % TWO_32 == r * 268435456;
  }

  lemma ShiftedBound(b: byte, k: nat)
    ensures Shifted(b, k) <= 127 * Weight(k)
    ensures k == 4 ==> Shifted(b, k) <= TWO_32 - Weight(4)
  {
    TimesBound(b % 128, 127, Weight(k));
    ModAtMost(b % 128 * Weight(k));
    if k == 4 {
      FifthGroup(b);
    }
  }

  lemma ModAtMost(n: nat)
    ensures n % TWO_32 <= n
  {}

  lemma FifthGroup(b: byte)
    ensures Shifted(b, 4) <= TWO_32 - Weight(4)
  {
    Weights();
    LastGroup(b % 128);
    hide Weight;
  }

  /** Whatever the loop reads is smaller than the groups it took allow, and fits 32 bits. */
  lemma {:induction false} GroupsBound(b: bytes, k: nat)
    requires ReadGroups(b, k).Some?
    ensures k < 5
    ensures var v := ReadGroups(b, k).value;
            && v.value + Weight(k) <= Weight(k + (|b| - |v.rest|))
            && v.value + Weight(k) <= TWO_32
    decreases |b|
  {
    ShiftedBound(b[0], k);
    Weights();
    if b[0] >= 128 {
      GroupsBound(b[1..], k + 1);
    }
  }

  lemma {:induction false} LengthBound(n: nat, c: nat)
    requires c > 0 && n < Weight(c)
    ensures |EncodeVarint(n)| <= c
  {
    if n >= 128 {
      assert Weight(0) == 1;
      LengthBound(n / 128, c - 1);
    }
  }

  /** The encoding is minimal: no byte string that reads as n is shorter. */
  lemma VarintMinimal(b: bytes)
    requires ReadVarint(b).Some?
    ensures var v := ReadVarint(b).value;
            v.value < TWO_32 && |EncodeVarint(v.value)| <= |b| - |v.rest|
  {
    GroupsBound(b, 0);
    var v := ReadVarint(b).value;
    LengthBound(v.value, |b| - |v.rest|);
  }

  lemma {:induction false} GroupsEndless(b: bytes, k: nat)
    ensures ReadGroups(b, k).None? <==> forall i :: 0 <= i < |b| && k + i < 5 ==> b[i] >= 128
    decreases |b|
  {
    if b != [] && k < 5 {
      GroupsEndless(b[1..], k + 1);
      assert forall i :: 0 < i < |b| ==> b[i] == b[1..][i - 1];
    }
  }

  /** The loop has no end exactly when none of the first five bytes has a clear top bit. */
  lemma VarintEndless(b: bytes)
    ensures ReadVarint(b).None? <==> forall i :: 0 <= i < |b| && i < 5 ==> b[i] >= 128
  {
    GroupsEndless(b, 0);
  }

  // ----- signed

  predicate IsInt32(n: int) {
    -TWO_31 <= n < TWO_31
  }

  /** `(v << 1) ^ (v >> 31)` on 32-bit words: the arithmetic shift gives all zeros or all ones. */
  function Zigzag(n: int): (u: nat)
    requires IsInt32(n)
    ensures u < TWO_32
  {
    var doubled := (2 * n) % TWO_32;
    if n < 0 then TWO_32 - 1 - doubled else doubled
  }

  function FlipLowBit(n: int): int {
    if n % 2 == 0 then n + 1 else n - 1
  }

  function ToInt32(u: int): (n: int)
    ensures IsInt32(n)
  {
    var w := u % TWO_32;
    if w < TWO_31 then w else w - TWO_32
  }

  /** The decoder's expression. Its `v >> 31` is a logical shift, so a set top bit flips bit 0. */
  function Unzigzag(u: nat): (n: int)
    requires u < TWO_32
    ensures IsInt32(n)
  {
    var half := if u >= TWO_31 then FlipLowBit(u / 2) else u / 2;
    var sum := ToInt32(half + u % 2);
    ToInt32(-(if u % 2 == 1 then sum else ToInt32(-sum)))
  }

  /** What the signed codec gives back for n. */
  function ReadBack(n: int): int {
    if -0x4000_0000 <= n < 0x4000_0000 then n else FlipLowBit(n)
  }

  /** The zigzag form numbers the integers 0, -1, 1, -2, 2, ... and so is one to one. */
  lemma ZigzagMeaning(n: int)
    requires IsInt32(n)
    ensures Zigzag(n) == if n < 0 then -2 * n - 1 else 2 * n
  {}

  /** The signed form round-trips exactly on [-2^30, 2^30); outside it the low bit comes back flipped. */
  lemma ZigzagRoundTrip(n: int)
    requires IsInt32(n)
    ensures Unzigzag(Zigzag(n)) == ReadBack(n)
    ensures Unzigzag(Zigzag(n)) == n <==> -0x4000_0000 <= n < 0x4000_0000
  {
    ZigzagMeaning(n);
    if n >= 0 {
      UnzigzagEven(n);
    } else {
      UnzigzagOdd(-n - 1);
    }
  }

  lemma HalfOf(h: nat)
    ensures (2 * h) / 2 == h && (2 * h) % 2 == 0 && (2 * h + 1) / 2 == h && (2 * h + 1) % 2 == 1
  {}

  /** `(v >> 1) ^ (v >> 31)` for v made of h and a low bit. */
  lemma FlippedHalf(h: nat)
    requires h < TWO_31
    ensures var half: nat := if h >= 0x4000_0000 then FlipLowBit(h) else h;
            half < TWO_31 && half == ReadBack(h)
  {}

  lemma SmallToInt32(n: int)
    requires IsInt32(n)
    ensures ToInt32(n) == n
  {}

  lemma UnzigzagEven(h: nat)
    requires h < TWO_31
    ensures Unzigzag(2 * h) == ReadBack(h)
  {
    var half := if h >= 0x4000_0000 then FlipLowBit(h) else h;
    HalfOf(h);
    FlippedHalf(h);
    assert Unzigzag(2 * h) == ToInt32(-ToInt32(-ToInt32(half)));
    hide ToInt32, Unzigzag, FlipLowBit, ReadBack;
    SmallToInt32(half);
    SmallToInt32(-half);
  }

  lemma UnzigzagOdd(h: nat)
    requires h < TWO_31
    ensures Unzigzag(2 * h + 1) == ReadBack(-1 - h as int)
  {
    var half: int := if h >= 0x4000_0000 then FlipLowBit(h) else h;
    HalfOf(h);
    FlippedHalf(h);
    assert Unzigzag(2 * h + 1) == ToInt32(-ToInt32(half + 1));
    assert ReadBack(-1 - h as int) == -1 - half;
    assert ToInt32(half + 1) == half + 1 || (half == TWO_31 - 1 && ToInt32(half + 1) == -TWO_31);
    assert ToInt32(TWO_31) == -TWO_31;
    hide Unzigzag, FlipLowBit, ReadBack, ToInt32;
    if half + 1 < TWO_31 {
      SmallToInt32(-(half + 1));
    }
  }

  /** Below 2^31 decoding is the inverse the other way round too. */
  lemma UnzigzagInverse(u: nat)
    requires u < TWO_31
    ensures Zigzag(Unzigzag(u)) == u
  {
    assert u == 2 * (u / 2) + u % 2;
    ZigzagRoundTrip(if u % 2 == 0 then u / 2 else -(u / 2) - 1);
    ZigzagMeaning(if u % 2 == 0 then u / 2 else -(u / 2) - 1);
  }

  // ----- the shifts and exclusive ors of the code, bit by bit

  /** Exclusive or of two words: each bit of the result says that the operands' bits differ. */
  function Xor(a: nat, b: nat): nat
    decreases a + b
  {
    if a == 0 && b == 0 then 0 else (a % 2 + b % 2) % 2 + 2 * Xor(a / 2, b / 2)
  }

  function PowerOfTwo(k: nat): nat {
    if k == 0 then 1 else 2 * PowerOfTwo(k - 1)
  }

  lemma {:induction false} XorNothing(a: nat)
    ensures Xor(a, 0) == a
  {
    if a != 0 {
      XorNothing(a / 2);
    }
  }

  lemma XorOne(a: nat)
    ensures Xor(a, 1) == FlipLowBit(a)
  {
    XorNothing(a / 2);
  }

  lemma {:induction false} XorAllOnes(a: nat, k: nat)
    requires a < PowerOfTwo(k)
    ensures Xor(a, PowerOfTwo(k) - 1) == PowerOfTwo(k) - 1 - a
    decreases k
  {
    if k > 0 {
      var m := PowerOfTwo(k - 1);
      XorAllOnes(a / 2, k - 1);
      assert (2 * m - 1) % 2 == 1 && (2 * m - 1) / 2 == m - 1;
      assert a == 2 * (a / 2) + a % 2;
    } else {
      assert a == 0;
    }
  }

  lemma ThirtyTwoBits()
    ensures PowerOfTwo(32) == TWO_32
  {
    assert PowerOfTwo(8) == 0x100;
    assert PowerOfTwo(16) == 0x1_0000;
    assert PowerOfTwo(24) == 0x100_0000;
  }

  /** The encoder's expression on words: shift left, and exclusive or with the sign, shifted down
    * arithmetically over all bits. */
  lemma ZigzagIsShiftAndXor(n: int)
    requires IsInt32(n)
    ensures Zigzag(n) == Xor((2 * n) % TWO_32, (n / TWO_31) % TWO_32)
  {
    SignFill(n);
    hide Xor, PowerOfTwo;
    if n >= 0 {
      XorNothing((2 * n) % TWO_32);
    } else {
      ThirtyTwoBits();
      XorAllOnes((2 * n) % TWO_32, 32);
    }
  }

  lemma SignFill(n: int)
    requires IsInt32(n)
    ensures (n / TWO_31) % TWO_32 == if n < 0 then TWO_32 - 1 else 0
  {
    assert n / TWO_31 == if n < 0 then -1 else 0;
  }

  lemma TopBit(u: nat)
    requires u < TWO_32
    ensures u / TWO_31 == if u >= TWO_31 then 1 else 0
  {}

  /** The decoder's: exclusive or of the word shifted right by one and, logically, by 31; plus the low
    * bit; negated twice or once by it. */
  lemma UnzigzagIsShiftAndXor(u: nat)
    requires u < TWO_32
    ensures var sum := ToInt32(Xor(u / 2, u / TWO_31) + u % 2);
            Unzigzag(u) == ToInt32(-(if u % 2 == 1 then sum else ToInt32(-sum)))
  {
    HalfXor(u);
    hide Xor, ToInt32, FlipLowBit;
  }

  lemma HalfXor(u: nat)
    requires u < TWO_32
    ensures Xor(u / 2, u / TWO_31) == if u >= TWO_31 then FlipLowBit(u / 2) else u / 2
  {
    TopBit(u);
    XorOne(u / 2);
    XorNothing(u / 2);
    hide Xor, FlipLowBit;
  }
}
