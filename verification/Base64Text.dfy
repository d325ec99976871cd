/** Base64 as section 4 of RFC 4648 has it: a table of 64 characters, and 24 bits for every four of them. */
module Base64Text {
  import opened Bytes
  import opened Base64

  /** Table 1, in rows of 16. */
  function Row(r: nat): (s: string)
    ensures |s| == 16
  {
    match r
    case 0 => "ABCDEFGHIJKLMNOP"
    case 1 => "QRSTUVWXYZabcdef"
    case 2 => "ghijklmnopqrstuv"
    case _ => "wxyz0123456789+/"
  }

  function Table(i: nat): char {
    Row(i / 16)[i % 16]
  }

  lemma RowIsAlphabet(r: nat, c: nat)
    requires r < 4 && c < 16
    ensures Row(r)[c] == Alphabet(16 * r + c)
  {}

  lemma AlphabetIsTable(i: nat)
    requires i < 64
    ensures Alphabet(i) == Table(i) && Find(Table(i)) == i
  {
    RowIsAlphabet(i / 16, i % 16);
    FindInverse(i, 'A');
  }

  /** The bytes of a group as one number, with zeros for those that are missing. */
  function Word(b: bytes, g: nat): int {
    (At(b, 3 * g) * 256 + At(b, 3 * g + 1)) * 256 + At(b, 3 * g + 2)
  }

  function At(b: bytes, i: nat): int {
    if i < |b| then b[i] else 0
  }

  /** Six bits of a number below 2^24, the most significant first. */
  function Six(w: int, k: nat): (x: int)
    requires k < 4
    ensures 0 <= x < 64
  {
    (if k == 0 then w / 0x4_0000 else if k == 1 then w / 0x1000 else if k == 2 then w / 64 else w) % 64
  }

  lemma SixOfBlock(a: byte, b: byte, c: byte, k: nat)
    requires k < 4
    ensures Sextets(a, b, c)[k] == Six((a * 256 + b) * 256 + c, k)
  {
    var q := Sextets(a, b, c);
    SextetsAreTheBlock(a, b, c);
    Digits(q[0], q[1], q[2], q[3], k);
  }

  lemma Digits(w: int, x: int, y: int, z: int, k: nat)
    requires 0 <= w < 64 && 0 <= x < 64 && 0 <= y < 64 && 0 <= z < 64 && k < 4
    ensures Six(((w * 64 + x) * 64 + y) * 64 + z, k) == [w, x, y, z][k]
  {
    var n := ((w * 64 + x) * 64 + y) * 64 + z;
    assert n / 64 == (w * 64 + x) * 64 + y && n / 0x1000 == w * 64 + x && n / 0x4_0000 == w;
  }

  lemma TextAt(a: byte, b: byte, c: byte, k: nat)
    requires k < 4
    ensures Text4(a, b, c)[k] == Table(Six((a * 256 + b) * 256 + c, k))
  {
    SixOfBlock(a, b, c, k);
    AlphabetIsTable(Sextets(a, b, c)[k]);
    hide Alphabet, Sextets, Six, Table;
  }

  lemma GroupAt(b: bytes, k: nat)
    requires b != [] && k < 4
    ensures |Encode(b)| >= 4
    ensures Encode(b)[k] == if k > |b| then '=' else Table(Six(Word(b, 0), k))
  {
    hide Text4, Six, Table;
    var y: byte, z: byte := if |b| > 1 then b[1] else 0, if |b| > 2 then b[2] else 0;
    TextAt(b[0], y, z, k);
  }

  /** Character k of group g of an encoding stands for six bits of the group's 24, and is a padding sign if
    * the bytes end before those bits. */
  lemma {:induction false} EncodedAt(b: bytes, g: nat, k: nat)
    requires 3 * g < |b| && k < 4
    ensures 4 * g + k < |Encode(b)|
    ensures Encode(b)[4 * g + k] == if 3 * g + k > |b| then '=' else Table(Six(Word(b, g), k))
    decreases g
  {
    hide *;
    if g == 0 {
      GroupAt(b, k);
    } else {
      EncodedAt(b[3..], g - 1, k);
      LaterGroup(b, g, k);
    }
  }

  lemma LaterGroup(b: bytes, g: nat, k: nat)
    requires |b| > 3 && g > 0 && k < 4 && 4 * (g - 1) + k < |Encode(b[3..])|
    ensures 4 * g + k < |Encode(b)| && Encode(b)[4 * g + k] == Encode(b[3..])[4 * (g - 1) + k]
    ensures Word(b, g) == Word(b[3..], g - 1)
  {
    hide Text4;
    assert Encode(b) == Text4(b[0], b[1], b[2]) + Encode(b[3..]);
  }

  /** The characters that stand for numbers below 64. */
  function Letters(q: seq<nat>): (s: string)
    requires forall i :: 0 <= i < |q| ==> q[i] < 64
    ensures |s| == |q|
  {
    seq(|q|, i requires 0 <= i < |q| => Table(q[i]))
  }

  /** Four numbers below 64 as one, with zeros for those that are missing. */
  function Bits(q: seq<nat>, g: nat): int {
    ((Digit(q, 4 * g) * 64 + Digit(q, 4 * g + 1)) * 64 + Digit(q, 4 * g + 2)) * 64 + Digit(q, 4 * g + 3)
  }

  function Digit(q: seq<nat>, i: nat): int {
    if i < |q| then q[i] else 0
  }

  /** Byte k of three. */
  function Eight(w: int, k: nat): int
    requires k < 3
  {
    (if k == 0 then w / 0x1_0000 else if k == 1 then w / 256 else w) % 256
  }

  lemma EightOfGroup(w: byte, x: byte, y: byte, z: byte, k: nat)
    requires w < 64 && x < 64 && y < 64 && z < 64 && k < 3
    ensures Octets(w, x, y, z)[k] == Eight(((w * 64 + x) * 64 + y) * 64 + z, k)
  {
    OctetValues(w, x, y, z);
    FirstByte(w, x, y, z);
    hide Octets;
  }

  lemma FirstByte(w: int, x: int, y: int, z: int)
    requires 0 <= w < 64 && 0 <= x < 64 && 0 <= y < 64 && 0 <= z < 64
    ensures var n := ((w * 64 + x) * 64 + y) * 64 + z;
            && Eight(n, 0) == w * 4 + x / 16
            && Eight(n, 1) == (x % 16) * 16 + y / 4
            && Eight(n, 2) == (y % 4) * 64 + z
  {
    var n := ((w * 64 + x) * 64 + y) * 64 + z;
    assert n / 256 == w * 0x400 + x * 16 + y / 4;
    assert n / 0x1_0000 == w * 4 + x / 16;
  }

  lemma LettersFound(q: seq<nat>, i: nat)
    requires (forall j :: 0 <= j < |q| ==> q[j] < 64) && i < |q|
    ensures Find(Letters(q)[i]) == q[i]
  {
    AlphabetIsTable(q[i]);
  }

  lemma DecodedFirst(q: seq<nat>, k: nat)
    requires (forall i :: 0 <= i < |q| ==> q[i] < 64) && k < 3 && k < 3 * |q| / 4
    ensures k < |DecodeGroups(Letters(q))| && DecodeGroups(Letters(q))[k] == Eight(Bits(q, 0), k)
  {
    hide Octets, Eight, Find, Letters;
    LettersFound(q, 0);
    LettersFound(q, 1);
    var w: byte, x: byte := q[0], q[1];
    if |q| == 2 {
      JunkNeverEscapes(w, x, 0, NPOS, 0, NPOS, 0);
      EightOfGroup(w, x, 0, 0, k);
    } else if |q| == 3 {
      LettersFound(q, 2);
      JunkNeverEscapes(w, x, q[2], NPOS, 0, 0, 0);
      EightOfGroup(w, x, q[2], 0, k);
    } else {
      LettersFound(q, 2);
      LettersFound(q, 3);
      EightOfGroup(w, x, q[2], q[3], k);
    }
  }

  lemma GroupFirst(q: seq<nat>)
    requires (forall i :: 0 <= i < |q| ==> q[i] < 64) && |q| >= 4
    ensures |DecodeGroups(Letters(q))| == 3 + |DecodeGroups(Letters(q[4..]))|
    ensures DecodeGroups(Letters(q))[3..] == DecodeGroups(Letters(q[4..]))
  {
    assert Letters(q)[4..] == Letters(q[4..]);
    hide Octets, Find, Letters;
  }

  lemma {:induction false} DecodedLength(q: seq<nat>)
    requires forall i :: 0 <= i < |q| ==> q[i] < 64
    ensures |DecodeGroups(Letters(q))| == 3 * |q| / 4
  {
    if |q| >= 4 {
      GroupFirst(q);
      DecodedLength(q[4..]);
      hide DecodeGroups, Letters;
    }
  }

  /** Decoding characters of the table gives three bytes for four, two for three, one for two and none for
    * one, each of them eight bits of its group's. */
  lemma {:induction false} DecodedAt(q: seq<nat>, g: nat, k: nat)
    requires (forall i :: 0 <= i < |q| ==> q[i] < 64) && k < 3 && 3 * g + k < 3 * |q| / 4
    ensures |DecodeGroups(Letters(q))| == 3 * |q| / 4
    ensures DecodeGroups(Letters(q))[3 * g + k] == Eight(Bits(q, g), k)
    decreases g
  {
    hide *;
    DecodedLength(q);
    if g == 0 {
      DecodedFirst(q, k);
    } else {
      DecodedAt(q[4..], g - 1, k);
      GroupFirst(q);
      LaterBits(q, g);
    }
  }

  lemma LaterBits(q: seq<nat>, g: nat)
    requires |q| >= 4 && g > 0
    ensures Bits(q, g) == Bits(q[4..], g - 1)
  {
    assert forall i :: 4 <= i ==> Digit(q, i) == Digit(q[4..], i - 4);
  }
}
