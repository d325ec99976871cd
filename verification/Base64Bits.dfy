/** The masks and shifts of the base64 code on eight-bit words, which the rest of the model writes as
  * division and remainder. */
module Base64Bits {
  import opened Bytes
  import opened Base64

  /** The four expressions of the encoder, on unsigned chars. */
  function SextetWords(a: bv8, b: bv8, c: bv8): (q: seq<bv8>)
    ensures |q| == 4
  {
    [(a & 0xfc) >> 2, ((a & 0x03) << 4) + ((b & 0xf0) >> 4), ((b & 0x0f) << 2) + ((c & 0xc0) >> 6), c & 0x3f]
  }

  /** The three of the decoder; sums wrap around when they are stored. */
  function OctetWords(w: bv8, x: bv8, y: bv8, z: bv8): (t: seq<bv8>)
    ensures |t| == 3
  {
    [(w << 2) + ((x & 0x30) >> 4), ((x & 0xf) << 4) + ((y & 0x3c) >> 2), ((y & 0x3) << 6) + z]
  }

  function Number(w: bv8): byte {
    w as int
  }

  function Numbers(ws: seq<bv8>): (r: bytes)
    ensures |r| == |ws|
  {
    seq(|ws|, i requires 0 <= i < |ws| => Number(ws[i]))
  }

  // ----- one mask and shift each

  lemma TopSix(a: bv8)
    ensures ((a & 0xfc) >> 2) as nat == a as nat / 4
  {}

  lemma LowTwoUpFour(a: bv8)
    ensures ((a & 0x03) << 4) as nat == (a as nat % 4) * 16
  {}

  lemma TopFour(b: bv8)
    ensures ((b & 0xf0) >> 4) as nat == b as nat / 16
  {}

  lemma LowFourUpTwo(b: bv8)
    ensures ((b & 0x0f) << 2) as nat == (b as nat % 16) * 4
  {}

  lemma TopTwo(c: bv8)
    ensures ((c & 0xc0) >> 6) as nat == c as nat / 64
  {}

  lemma LowSix(c: bv8)
    ensures (c & 0x3f) as nat == c as nat % 64
  {}

  lemma UpTwo(w: bv8)
    ensures (w << 2) as nat == (w as nat * 4) % 256
  {
    assert w << 2 == (w & 0x3f) << 2;
    LowSix(w);
    SmallUpTwo(w & 0x3f);
  }

  lemma SmallUpTwo(w: bv8)
    requires w < 64
    ensures (w << 2) as nat == w as nat * 4
  {}

  lemma MiddleTwo(x: bv8)
    ensures ((x & 0x30) >> 4) as nat == (x as nat / 16) % 4
  {}

  lemma LowFourUpFour(x: bv8)
    ensures ((x & 0xf) << 4) as nat == (x as nat % 16) * 16
  {}

  lemma MiddleFour(y: bv8)
    ensures ((y & 0x3c) >> 2) as nat == (y as nat / 4) % 16
  {
    assert (y & 0x3c) >> 2 == (y >> 2) & 0xf;
    DownTwo(y);
    LowFour(y >> 2);
  }

  lemma DownTwo(y: bv8)
    ensures (y >> 2) as nat == y as nat / 4
  {}

  lemma LowFour(v: bv8)
    ensures (v & 0xf) as nat == v as nat % 16
  {}

  lemma LowTwoUpSix(y: bv8)
    ensures ((y & 0x3) << 6) as nat == (y as nat % 4) * 64
  {}

  // ----- sums of what does not overlap, and the one that wraps around

  lemma SumAtFour(a: bv8, b: bv8)
    requires a & 0x0f == 0 && b & 0xf0 == 0
    ensures (a + b) as nat == a as nat + b as nat
  {}

  lemma SumAtTwo(a: bv8, b: bv8)
    requires a & 0x03 == 0 && b & 0xfc == 0
    ensures (a + b) as nat == a as nat + b as nat
  {}

  lemma SumAtSix(a: bv8, z: bv8)
    requires a & 0x3f == 0
    ensures (a + z) as nat == (a as nat + z as nat) % 256
  {
    FourTops(a);
    if a == 64 {
      From64(z);
    } else if a == 128 {
      From128(z);
    } else if a == 192 {
      From192(z);
    } else {
      FromZero(z);
    }
  }

  lemma FourTops(a: bv8)
    requires a & 0x3f == 0
    ensures a == 0 || a == 64 || a == 128 || a == 192
  {}

  lemma FromZero(z: bv8)
    ensures (0 + z) as nat == (0 + z as nat) % 256
  {}

  lemma From64(z: bv8)
    ensures (64 + z) as nat == (64 + z as nat) % 256
  {}

  lemma From128(z: bv8)
    ensures (128 + z) as nat == (128 + z as nat) % 256
  {}

  lemma From192(z: bv8)
    ensures (192 + z) as nat == (192 + z as nat) % 256
  {}

  /** The encoder's words are the sextets. */
  lemma SextetsAreWords(a: bv8, b: bv8, c: bv8)
    ensures Numbers(SextetWords(a, b, c)) == Sextets(Number(a), Number(b), Number(c))
  {
    TopSix(a);
    LowTwoUpFour(a);
    TopFour(b);
    LowFourUpTwo(b);
    TopTwo(c);
    LowSix(c);
    SumAtFour((a & 0x03) << 4, (b & 0xf0) >> 4);
    SumAtTwo((b & 0x0f) << 2, (c & 0xc0) >> 6);
  }

  lemma FirstOctet(w: bv8, x: bv8)
    ensures Number((w << 2) + ((x & 0x30) >> 4)) == (Number(w) * 4 + (Number(x) / 16) % 4) % 256
  {
    UpTwo(w);
    MiddleTwo(x);
    SumAtTwo(w << 2, (x & 0x30) >> 4);
    NoCarry(w as nat * 4, (x as nat / 16) % 4, (w << 2) + ((x & 0x30) >> 4));
  }

  lemma NoCarry(u: nat, m: nat, s: bv8)
    requires s as nat == u % 256 + m
    ensures s as nat == (u + m) % 256
  {
    WordIsByte(s);
    ModSum(u, m, s as nat);
  }

  lemma WordIsByte(s: bv8)
    ensures s as nat < 256
  {}

  lemma ModSum(u: nat, m: nat, s: nat)
    requires s == u % 256 + m < 256
    ensures s == (u + m) % 256
  {}

  lemma SecondOctet(x: bv8, y: bv8)
    ensures Number(((x & 0xf) << 4) + ((y & 0x3c) >> 2)) == (Number(x) % 16) * 16 + (Number(y) / 4) % 16
  {
    LowFourUpFour(x);
    MiddleFour(y);
    SumAtFour((x & 0xf) << 4, (y & 0x3c) >> 2);
  }

  lemma ThirdOctet(y: bv8, z: bv8)
    ensures Number(((y & 0x3) << 6) + z) == ((Number(y) % 4) * 64 + Number(z)) % 256
  {
    LowTwoUpSix(y);
    SumAtSix((y & 0x3) << 6, z);
  }

  lemma ThreeOctets(w: byte, x: byte, y: byte, z: byte, t: seq<byte>)
    requires |t| == 3 && t[0] == (w * 4 + (x / 16) % 4) % 256 && t[1] == (x % 16) * 16 + (y / 4) % 16
    requires t[2] == ((y % 4) * 64 + z) % 256
    ensures t == Octets(w, x, y, z)
  {
    assert (x % 16) * 16 + (y / 4) % 16 < 256;
  }

  /** And the decoder's the octets, for any words, also ones over 63. */
  lemma OctetsAreWords(w: bv8, x: bv8, y: bv8, z: bv8)
    ensures Numbers(OctetWords(w, x, y, z)) == Octets(Number(w), Number(x), Number(y), Number(z))
  {
    FirstOctet(w, x);
    SecondOctet(x, y);
    ThirdOctet(y, z);
    hide Number, Octets;
    ThreeOctets(Number(w), Number(x), Number(y), Number(z), Numbers(OctetWords(w, x, y, z)));
  }
}
