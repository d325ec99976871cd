/** Base64 encoding and decoding with padding, in blocks of three bytes and four characters. */
module Base64 {
  import opened Bytes

  /** The 64 characters in order: A-Z, a-z, 0-9, + and /. */
  function Alphabet(i: nat): (c: char)
    requires i < 64
    ensures IsBase64(c)
  {
    if i < 26 then ('A' as int + i) as char
    else if i < 52 then ('a' as int + i - 26) as char
    else if i < 62 then ('0' as int + i - 52) as char
    else if i == 62 then '+' else '/'
  }

  predicate IsBase64(c: char) {
    'A' <= c <= 'Z' || 'a' <= c <= 'z' || '0' <= c <= '9' || c == '+' || c == '/'
  }

  const NPOS: byte := 255  // `npos` narrowed to an unsigned char

  /** Position in the alphabet, or the narrowed `npos`. */
  function Find(c: char): byte {
    if 'A' <= c <= 'Z' then c as int - 'A' as int
    else if 'a' <= c <= 'z' then c as int - 'a' as int + 26
    else if '0' <= c <= '9' then c as int - '0' as int + 52
    else if c == '+' then 62 else if c == '/' then 63 else NPOS
  }

  lemma FindInverse(i: nat, c: char)
    ensures i < 64 ==> Find(Alphabet(i)) == i
    ensures IsBase64(c) ==> Find(c) < 64 && Alphabet(Find(c)) == c
    ensures Find(c) == NPOS <==> !IsBase64(c)
  {}

  // ----- one block, with the shifts and masks of the code as arithmetic

  function Sextets(a: byte, b: byte, c: byte): (q: seq<nat>)
    ensures |q| == 4 && forall i :: 0 <= i < 4 ==> q[i] < 64
  {
    [a / 4, (a % 4) * 16 + b / 16, (b % 16) * 4 + c / 64, c % 64]
  }

  /** The four sextets are the 24 bits of the block, most significant first. */
  lemma SextetsAreTheBlock(a: byte, b: byte, c: byte)
    ensures var q := Sextets(a, b, c);
            ((q[0] * 64 + q[1]) * 64 + q[2]) * 64 + q[3] == (a * 256 + b) * 256 + c
  {
    assert a == 4 * (a / 4) + a % 4 && b == 16 * (b / 16) + b % 16 && c == 64 * (c / 64) + c % 64;
  }

  /** Results are narrowed to eight bits, as in an `unsigned char`. */
  function Octets(w: byte, x: byte, y: byte, z: byte): (t: bytes)
    ensures |t| == 3
  {
    [(w * 4 + (x / 16) % 4) % 256, ((x % 16) * 16 + (y / 4) % 16) % 256, ((y % 4) * 64 + z) % 256]
  }

  function Text4(a: byte, b: byte, c: byte): (t: string)
    ensures |t| == 4 && forall i :: 0 <= i < 4 ==> IsBase64(t[i])
  {
    var q := Sextets(a, b, c);
    [Alphabet(q[0]), Alphabet(q[1]), Alphabet(q[2]), Alphabet(q[3])]
  }

  function Encode(b: bytes): string
  {
    if b == [] then ""
    else if |b| == 1 then Text4(b[0], 0, 0)[..2] + "=="
    else if |b| == 2 then Text4(b[0], b[1], 0)[..3] + "="
    else Text4(b[0], b[1], b[2]) + Encode(b[3..])
  }

  /** The longest prefix of alphabet characters: padding and foreign characters end the text. */
  function AlphabetPrefix(s: string): string {
    if s != "" && IsBase64(s[0]) then [s[0]] + AlphabetPrefix(s[1..]) else ""
  }

  /** Decodes whole groups of four, and then a group cut short and filled with `npos`. */
  function DecodeGroups(p: string): bytes {
    if |p| >= 4 then Octets(Find(p[0]), Find(p[1]), Find(p[2]), Find(p[3])) + DecodeGroups(p[4..])
    else if |p| == 3 then Octets(Find(p[0]), Find(p[1]), Find(p[2]), NPOS)[..2]
    else if |p| == 2 then Octets(Find(p[0]), Find(p[1]), NPOS, NPOS)[..1]
    else []
  }

  function Decode(s: string): bytes {
    DecodeGroups(AlphabetPrefix(s))
  }

  // ----- what the code computes

  method EncodeWhole(a: array<byte>, ghost data: bytes, ghost m: nat) returns (ret: string)
    requires a.Length == 3 && m + 3 <= |data| && a[..3] == data[m..m + 3]
    ensures ret == Text4(data[m], data[m + 1], data[m + 2])
  {
    assert a[..3][0] == a[0] && a[..3][1] == a[1] && a[..3][2] == a[2];
    hide *;
    ret := EncodeBlock(a, 4);
  }

  method Base64Encode(data: bytes) returns (ret: string)
    ensures ret == Encode(data)
  {
    ret := "";
    var i := 0;
    var char_array_3 := new byte[3](_ => 0);
    var n := 0;
    ghost var m := 0;  // where the current block starts
    assert data[0..] == data && "" + Encode(data) == Encode(data);
    assert Encode([]) == "";
    hide *;
    while n < |data|
      invariant m <= n <= |data| && i == n - m < 3
      invariant char_array_3[..i] == data[m..n]
      invariant ret + Encode(data[m..]) == Encode(data)
    {
      char_array_3[i] := data[n];
      assert char_array_3[..i + 1] == char_array_3[..i] + [data[n]] && data[m..n + 1] == data[m..n] + [data[n]];
      i, n := i + 1, n + 1;
      if i == 3 {
        WholeBlock(data, m, ret);
        var text := EncodeWhole(char_array_3, data, m);
        ret := ret + text;
        i, m := 0, n;
      }
    }
    if i > 0 {
      var text := EncodeTail(char_array_3, i, data[m..]);
      ret := ret + text;
    } else {
      assert data[m..] == [] && ret + "" == ret;
    }
  }

  lemma WholeBlock(data: bytes, m: nat, done: string)
    requires m + 3 <= |data|
    ensures done + Encode(data[m..]) == done + Text4(data[m], data[m + 1], data[m + 2]) + Encode(data[m + 3..])
  {
    assert data[m..][3..] == data[m + 3..];
    var t := Text4(data[m], data[m + 1], data[m + 2]);
    assert done + (t + Encode(data[m + 3..])) == done + t + Encode(data[m + 3..]);
  }

  /** The tail: zero bytes fill the block, and `=` replaces the characters they would give. */
  method EncodeTail(char_array_3: array<byte>, i: nat, ghost tail: bytes) returns (ret: string)
    requires char_array_3.Length == 3 && 0 < i < 3 && char_array_3[..i] == tail
    modifies char_array_3
    ensures ret == Encode(tail)
  {
    assert forall k :: 0 <= k < i ==> char_array_3[k] == tail[k];
    for j := i to 3
      invariant forall k :: 0 <= k < i ==> char_array_3[k] == tail[k]
      invariant forall k :: i <= k < j ==> char_array_3[k] == 0
    {
      char_array_3[j] := 0;
    }
    var text := EncodeBlock(char_array_3, i + 1);
    ret := text;
    var k := i;
    while k < 3
      invariant i <= k <= 3
      invariant ret == text + Repeat('=', k - i)
    {
      RepeatEnd('=', k - i);
      assert text + Repeat('=', k - i) + "=" == text + (Repeat('=', k - i) + "=");
      ret := ret + "=";
      k := k + 1;
    }
    assert Repeat('=', 1) == "=" && Repeat('=', 2) == "==";
  }

  lemma RepeatEnd<T>(x: T, n: nat)
    ensures Repeat(x, n) + [x] == Repeat(x, n + 1)
  {
    if n > 0 {
      RepeatEnd(x, n - 1);
    }
  }

  lemma BlockText(q: seq<nat>, a: byte, b: byte, c: byte)
    requires q == Sextets(a, b, c)
    ensures |q| == 4 && forall j :: 0 <= j < 4 ==> q[j] < 64 && Alphabet(q[j]) == Text4(a, b, c)[j]
  {
    hide Alphabet, Sextets;
  }

  /** The first `count` characters of one block. */
  method EncodeBlock(a: array<byte>, count: nat) returns (ret: string)
    requires a.Length == 3 && count <= 4
    ensures ret == Text4(a[0], a[1], a[2])[..count]
    ensures count == 4 ==> ret == Text4(a[0], a[1], a[2])
  {
    var q := new nat[4](_ => 0);
    q[0] := a[0] / 4;
    q[1] := (a[0] % 4) * 16 + a[1] / 16;
    q[2] := (a[1] % 16) * 4 + a[2] / 64;
    q[3] := a[2] % 64;
    assert q[..] == Sextets(a[0], a[1], a[2]);
    ghost var text := Text4(a[0], a[1], a[2]);
    hide Sextets;
    BlockText(q[..], a[0], a[1], a[2]);
    assert forall j :: 0 <= j < 4 ==> q[j] == q[..][j];
    hide *;
    ret := "";
    for j := 0 to count
      invariant ret == text[..j]
    {
      ret := ret + [Alphabet(q[j])];
    }
  }

  method Base64Decode(s: string) returns (ret: bytes)
    ensures ret == Decode(s)
  {
    ret := [];
    var i, n := 0, 0;
    var char_array_4 := new byte[4](_ => 0);
    ghost var m := 0;  // where the current group starts
    DecodeStart(s);
    hide *;
    while n < |s| && s[n] != '=' && IsBase64(s[n])
      invariant m <= n <= |s| && i == n - m < 4
      invariant forall k :: 0 <= k < i ==> char_array_4[k] == s[m + k] as int
      invariant ret + DecodeGroups(s[m..n] + AlphabetPrefix(s[n..])) == Decode(s)
    {
      PrefixStep(s, m, n);
      char_array_4[i] := s[n] as int;
      i, n := i + 1, n + 1;
      if i == 4 {
        WholeGroup(s, m, ret);
        var octets := DecodeBlock(char_array_4, s[m..n], 3);
        ret := ret + octets;
        i, m := 0, n;
      }
    }
    PrefixEnd(s, m, n);
    var octets := DecodeTail(char_array_4, i, s[m..n]);
    ret := ret + octets;
  }

  lemma DecodeStart(s: string)
    ensures [] + DecodeGroups(s[0..0] + AlphabetPrefix(s[0..])) == Decode(s)
  {
    assert s[0..] == s && s[0..0] + AlphabetPrefix(s) == AlphabetPrefix(s);
  }

  lemma PrefixEnd(s: string, m: nat, n: nat)
    requires m <= n <= |s| && (n == |s| || s[n] == '=' || !IsBase64(s[n]))
    ensures s[m..n] + AlphabetPrefix(s[n..]) == s[m..n]
  {}

  lemma WholeGroup(s: string, m: nat, done: bytes)
    requires m + 4 <= |s|
    ensures done + DecodeGroups(s[m..m + 4] + AlphabetPrefix(s[m + 4..]))
         == done + Octets(Find(s[m]), Find(s[m + 1]), Find(s[m + 2]), Find(s[m + 3]))
            + DecodeGroups(s[m + 4..m + 4] + AlphabetPrefix(s[m + 4..]))
  {
    var p := s[m..m + 4] + AlphabetPrefix(s[m + 4..]);
    assert p[4..] == AlphabetPrefix(s[m + 4..]) == s[m + 4..m + 4] + AlphabetPrefix(s[m + 4..]);
    var t := Octets(Find(s[m]), Find(s[m + 1]), Find(s[m + 2]), Find(s[m + 3]));
    assert done + (t + DecodeGroups(p[4..])) == done + t + DecodeGroups(p[4..]);
  }

  /** The tail, if there is one: zero codes stand for the missing characters, and looking them up gives
    * `npos`. */
  method DecodeTail(char_array_4: array<byte>, i: nat, ghost p: string) returns (ret: bytes)
    requires char_array_4.Length == 4 && i < 4 && |p| == i
    requires forall k :: 0 <= k < i ==> char_array_4[k] == p[k] as int
    modifies char_array_4
    ensures ret == DecodeGroups(p)
  {
    if i == 0 {
      return [];
    }
    for j := i to 4
      invariant forall k :: 0 <= k < i ==> char_array_4[k] == p[k] as int
      invariant forall k :: i <= k < j ==> char_array_4[k] == 0
    {
      char_array_4[j] := 0;
    }
    ghost var filled := p + Repeat(0 as char, 4 - i);
    RepeatAt(0 as char, 4 - i);
    ret := DecodeBlock(char_array_4, filled, i - 1);
  }

  lemma RepeatAt<T>(x: T, n: nat)
    ensures forall k :: 0 <= k < n ==> Repeat(x, n)[k] == x
  {
    if n > 0 {
      RepeatAt(x, n - 1);
    }
  }

  lemma PrefixStep(s: string, m: nat, n: nat)
    requires m <= n < |s| && IsBase64(s[n])
    ensures s[m..n] + AlphabetPrefix(s[n..]) == s[m..n + 1] + AlphabetPrefix(s[n + 1..])
    ensures s[n] as int < 256
  {
    assert s[n..][1..] == s[n + 1..];
    assert s[m..n + 1] == s[m..n] + [s[n]];
  }

  /** Looks the four codes up in place and gives the first `count` bytes of the block. */
  method DecodeBlock(q: array<byte>, ghost p: string, count: nat) returns (ret: bytes)
    requires q.Length == 4 && |p| == 4 && count <= 3
    requires forall k :: 0 <= k < 4 ==> q[k] == p[k] as int
    modifies q
    ensures ret == Octets(Find(p[0]), Find(p[1]), Find(p[2]), Find(p[3]))[..count]
    ensures count == 3 ==> ret == Octets(Find(p[0]), Find(p[1]), Find(p[2]), Find(p[3]))
  {
    for j := 0 to 4
      invariant forall k :: 0 <= k < j ==> q[k] == Find(p[k])
      invariant forall k :: j <= k < 4 ==> q[k] == p[k] as int
    {
      q[j] := Find(q[j] as char);
    }
    var w: int, x: int, y: int, z: int := q[0], q[1], q[2], q[3];
    var a := new int[3](_ => 0);
    a[0] := (w * 4 + (x / 16) % 4) % 256;
    a[1] := ((x % 16) * 16 + (y / 4) % 16) % 256;
    a[2] := ((y % 4) * 64 + z) % 256;
    ret := [];
    for j := 0 to count
      invariant a[..] == Octets(w, x, y, z)
      invariant ret == Octets(w, x, y, z)[..j]
    {
      ret := ret + [a[j]];
    }
  }

  // ----- what it means

  /** Whatever stands in for the missing characters of a short group never reaches the output. */
  lemma JunkNeverEscapes(w: byte, x: byte, y: byte, junk: byte, junk': byte, other: byte, other': byte)
    ensures Octets(w, x, y, junk)[..2] == Octets(w, x, y, junk')[..2]
    ensures Octets(w, x, other, junk)[..1] == Octets(w, x, other', junk')[..1]
  {}

  lemma BlockInverse(a: byte, b: byte, c: byte)
    ensures var q := Sextets(a, b, c); Octets(q[0], q[1], q[2], q[3]) == [a, b, c]
  {
    DivMod16(a % 4, b / 16);
    DivMod4(b % 16, c / 64);
  }

  lemma DivMod16(high: nat, low: nat)
    requires low < 16
    ensures (high * 16 + low) / 16 == high && (high * 16 + low) % 16 == low
  {}

  lemma DivMod4(high: nat, low: nat)
    requires low < 4
    ensures (high * 4 + low) / 4 == high && (high * 4 + low) % 4 == low
  {}

  lemma TextInverse(a: byte, b: byte, c: byte)
    ensures var t := Text4(a, b, c); Octets(Find(t[0]), Find(t[1]), Find(t[2]), Find(t[3])) == [a, b, c]
  {
    var q := Sextets(a, b, c);
    BlockInverse(a, b, c);
    FindInverse(q[0], 'A');
    FindInverse(q[1], 'A');
    FindInverse(q[2], 'A');
    FindInverse(q[3], 'A');
  }

  lemma {:induction false} AlphabetPrefixAppend(p: string, s: string)
    requires forall i :: 0 <= i < |p| ==> IsBase64(p[i])
    ensures AlphabetPrefix(p + s) == p + AlphabetPrefix(s)
  {
    if p == "" {
      assert p + s == s;
    } else {
      assert (p + s)[1..] == p[1..] + s;
      AlphabetPrefixAppend(p[1..], s);
    }
  }

  /** Decoding undoes encoding for every byte string. */
  lemma {:induction false} RoundTrip(b: bytes)
    ensures Decode(Encode(b)) == b
  {
    if |b| >= 3 {
      var t := Text4(b[0], b[1], b[2]);
      AlphabetPrefixAppend(t, Encode(b[3..]));
      TextInverse(b[0], b[1], b[2]);
      RoundTrip(b[3..]);
      assert (t + AlphabetPrefix(Encode(b[3..])))[4..] == AlphabetPrefix(Encode(b[3..]));
      assert b == [b[0], b[1], b[2]] + b[3..];
    } else if |b| == 2 {
      var t := Text4(b[0], b[1], 0);
      AlphabetPrefixAppend(t[..3], "=");
      assert t[..3] + AlphabetPrefix("=") == t[..3];
      TextInverse(b[0], b[1], 0);
      JunkNeverEscapes(Find(t[0]), Find(t[1]), Find(t[2]), Find(t[3]), NPOS, 0, 0);
      assert b == [b[0], b[1], 0][..2];
    } else if |b| == 1 {
      var t := Text4(b[0], 0, 0);
      AlphabetPrefixAppend(t[..2], "==");
      assert t[..2] + AlphabetPrefix("==") == t[..2];
      TextInverse(b[0], 0, 0);
      JunkNeverEscapes(Find(t[0]), Find(t[1]), 0, Find(t[3]), NPOS, Find(t[2]), NPOS);
      assert b == [b[0], 0, 0][..1];
    }
  }

  /** Four characters for every three bytes begun. */
  lemma {:induction false} EncodedLength(b: bytes)
    ensures |Encode(b)| == 4 * ((|b| + 2) / 3)
  {
    if |b| >= 3 {
      EncodedLength(b[3..]);
      assert (|b| + 2) / 3 == 1 + (|b| - 3 + 2) / 3;
    }
  }

  /** Encoding goes block by block: whole blocks in front do not change what follows. */
  lemma {:induction false} EncodeAppend(a: bytes, b: bytes)
    requires |a| % 3 == 0
    ensures Encode(a + b) == Encode(a) + Encode(b)
  {
    if a == [] {
      assert a + b == b;
    } else {
      assert (a + b)[3..] == a[3..] + b;
      EncodeAppend(a[3..], b);
    }
  }

  /** Padded to a multiple of four, at most two signs, and no spare bits set. */
  predicate Canonical(s: string) {
    if s == "" then true
    else if |s| < 4 || !IsBase64(s[0]) || !IsBase64(s[1]) then false
    else if |s| == 4 && s[2..] == "==" then Find(s[1]) % 16 == 0
    else if |s| == 4 && s[3] == '=' then IsBase64(s[2]) && Find(s[2]) % 4 == 0
    else IsBase64(s[2]) && IsBase64(s[3]) && Canonical(s[4..])
  }

  lemma TextOfOctets(s: string)
    requires |s| == 4 && forall i :: 0 <= i < 4 ==> IsBase64(s[i])
    ensures var t := Octets(Find(s[0]), Find(s[1]), Find(s[2]), Find(s[3])); Text4(t[0], t[1], t[2]) == s
  {
    FindInverse(0, s[0]);
    FindInverse(0, s[1]);
    FindInverse(0, s[2]);
    FindInverse(0, s[3]);
    OctetsThenSextets(Find(s[0]), Find(s[1]), Find(s[2]), Find(s[3]));
  }

  lemma OctetValues(w: byte, x: byte, y: byte, z: byte)
    requires w < 64 && x < 64 && y < 64 && z < 64
    ensures Octets(w, x, y, z) == [w * 4 + x / 16, (x % 16) * 16 + y / 4, (y % 4) * 64 + z]
  {
    assert w * 4 + x / 16 < 256 && (x % 16) * 16 + y / 4 < 256 && (y % 4) * 64 + z < 256;
  }

  lemma DivMod64(high: nat, low: nat)
    requires low < 64
    ensures (high * 64 + low) / 64 == high && (high * 64 + low) % 64 == low
  {}

  lemma OctetsThenSextets(w: byte, x: byte, y: byte, z: byte)
    requires w < 64 && x < 64 && y < 64 && z < 64
    ensures var t := Octets(w, x, y, z); Sextets(t[0], t[1], t[2]) == [w, x, y, z]
  {
    OctetValues(w, x, y, z);
    var t := Octets(w, x, y, z);
    hide Octets;
    var a, b, c := t[0], t[1], t[2];
    DivMod4(w, x / 16);
    DivMod16(x % 16, y / 4);
    DivMod64(y % 4, z);
    assert a / 4 == w && a % 4 == x / 16 && b / 16 == x % 16 && b % 16 == y / 4 && c / 64 == y % 4 && c % 64 == z;
    assert (a % 4) * 16 + b / 16 == x;
    assert (b % 16) * 4 + c / 64 == y;
  }

  lemma {:induction false} EncodeIsCanonical(b: bytes)
    ensures Canonical(Encode(b))
  {
    if |b| >= 3 {
      EncodeIsCanonical(b[3..]);
      assert Encode(b)[4..] == Encode(b[3..]);
    } else if |b| == 2 {
      FindInverse((b[1] % 16) * 4, 'A');
      assert Encode(b)[3] == '=' && Encode(b)[2] != '=';
    } else if |b| == 1 {
      FindInverse((b[0] % 4) * 16, 'A');
    }
  }

  lemma ShortTexts(w: byte, x: byte, y: byte)
    requires w < 64 && x < 64 && y < 64
    ensures x % 16 == 0 ==> Encode(Octets(w, x, NPOS, NPOS)[..1]) == [Alphabet(w), Alphabet(x), '=', '=']
    ensures y % 4 == 0 ==> Encode(Octets(w, x, y, NPOS)[..2]) == [Alphabet(w), Alphabet(x), Alphabet(y), '=']
  {
    OctetsThenSextets(w, x, 0, 0);
    OctetsThenSextets(w, x, y, 0);
    JunkNeverEscapes(w, x, 0, 0, NPOS, 0, NPOS);
    JunkNeverEscapes(w, x, y, 0, NPOS, 0, 0);
    assert x % 16 == 0 ==> Octets(w, x, 0, 0)[1] == 0 && Octets(w, x, 0, 0)[2] == 0;
    assert y % 4 == 0 ==> Octets(w, x, y, 0)[2] == 0;
  }

  lemma TwoSigns(s: string)
    requires |s| == 4 && IsBase64(s[0]) && IsBase64(s[1]) && s[2..] == "==" && Find(s[1]) % 16 == 0
    ensures Encode(Decode(s)) == s
  {
    assert s == s[..2] + "==";
    AlphabetPrefixAppend(s[..2], "==");
    assert AlphabetPrefix(s) == s[..2];
    FindInverse(0, s[0]);
    FindInverse(0, s[1]);
    ShortTexts(Find(s[0]), Find(s[1]), 0);
    hide AlphabetPrefix, Encode, Find, Alphabet, Octets;
    assert s == [s[0], s[1], s[2..][0], s[2..][1]];
  }

  lemma OneSign(s: string)
    requires |s| == 4 && IsBase64(s[0]) && IsBase64(s[1]) && IsBase64(s[2]) && s[3] == '='
    requires Find(s[2]) % 4 == 0
    ensures Encode(Decode(s)) == s
  {
    assert s == s[..3] + "=";
    AlphabetPrefixAppend(s[..3], "=");
    assert AlphabetPrefix(s) == s[..3];
    FindInverse(0, s[0]);
    FindInverse(0, s[1]);
    FindInverse(0, s[2]);
    ShortTexts(Find(s[0]), Find(s[1]), Find(s[2]));
    hide AlphabetPrefix, Encode, Find, Alphabet, Octets;
  }

  lemma NoSign(s: string)
    requires |s| >= 4 && forall i :: 0 <= i < 4 ==> IsBase64(s[i])
    requires Encode(Decode(s[4..])) == s[4..]
    ensures Encode(Decode(s)) == s
  {
    assert s == s[..4] + s[4..];
    AlphabetPrefixAppend(s[..4], s[4..]);
    TextOfOctets(s[..4]);
    var p := AlphabetPrefix(s);
    assert p[4..] == AlphabetPrefix(s[4..]);
    var t := Octets(Find(s[0]), Find(s[1]), Find(s[2]), Find(s[3]));
    assert Decode(s) == t + Decode(s[4..]);
    assert Decode(s)[3..] == Decode(s[4..]);
  }

  lemma {:induction false} CanonicalSurvives(s: string)
    requires Canonical(s)
    ensures Encode(Decode(s)) == s
  {
    if s != "" {
      if |s| == 4 && s[2..] == "==" {
        TwoSigns(s);
      } else if |s| == 4 && s[3] == '=' {
        OneSign(s);
      } else {
        CanonicalSurvives(s[4..]);
        NoSign(s);
      }
    }
  }

  /** Encoding undoes decoding on exactly the canonical texts. */
  lemma CanonicalInverse(s: string)
    ensures Encode(Decode(s)) == s <==> Canonical(s)
  {
    if Canonical(s) {
      CanonicalSurvives(s);
    }
    EncodeIsCanonical(Decode(s));
  }

  /** Decoding looks at nothing beyond the first character outside the alphabet. */
  lemma DecodeIgnoresTheRest(p: string, s: string)
    requires forall i :: 0 <= i < |p| ==> IsBase64(p[i])
    requires s == "" || !IsBase64(s[0])
    ensures Decode(p + s) == Decode(p)
  {
    AlphabetPrefixAppend(p, s);
    AlphabetPrefixAppend(p, "");
    assert p + "" == p;
  }
}
