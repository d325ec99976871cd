/** Strings as they may be written, character by character, and what they are read as. */
module JsonStrings {
  import opened JsonValue
  import opened JsonGrammar

  /** A character as it is, or a backslash and a letter. */
  datatype Piece = Raw(c: char) | Escape(letter: char)

  /** The character that a letter after a backslash stands for, by number. */
  function Meant(letter: char): char {
    match letter
    case 'r' => 13 as char
    case 'n' => 10 as char
    case 't' => 9 as char
    case _ => letter
  }

  predicate IsLetter(c: char) {
    c in "rnt\\\""
  }

  function SpellPiece(p: Piece): string {
    match p
    case Raw(c) => [c]
    case Escape(letter) => ['\\', letter]
  }

  function Spell(ps: seq<Piece>): string {
    if ps == [] then "" else SpellPiece(ps[0]) + Spell(ps[1..])
  }

  function Meaning(ps: seq<Piece>): string {
    if ps == [] then "" else [if ps[0].Raw? then ps[0].c else Meant(ps[0].letter)] + Meaning(ps[1..])
  }

  /** A raw character is ASCII and no quote; a raw backslash has a raw character after it that does not
    * make it an escape. */
  predicate PieceOk(p: Piece, next: seq<Piece>) {
    match p
    case Raw(c) =>
      && c as int < 128 && c != '"'
      && (c == '\\' ==> next != [] && next[0].Raw? && !IsLetter(next[0].c))
    case Escape(letter) => IsLetter(letter)
  }

  predicate Spelled(ps: seq<Piece>) {
    ps == [] || (PieceOk(ps[0], ps[1..]) && Spelled(ps[1..]))
  }

  lemma Letters(c: char)
    ensures IsLetter(c) <==> IsEscapeLetter(c)
    ensures IsLetter(c) ==> Unescape(c) == Meant(c)
  {}

  lemma EscapeStep(s: string, letter: char, t: string)
    requires s == ['\\', letter] + t && IsLetter(letter)
    ensures ParseChars(s) == Prepend(Meant(letter), ParseChars(t))
  {
    Letters(letter);
    assert s[2..] == t;
  }

  lemma RawStep(s: string, c: char, t: string)
    requires s == [c] + t && c as int < 128 && c != '"' && !(c == '\\' && t != "" && IsLetter(t[0]))
    ensures ParseChars(s) == Prepend(c, ParseChars(t))
  {
    assert s[1..] == t;
    if t != "" {
      Letters(t[0]);
    }
  }

  /** What follows a raw backslash does not turn it into an escape. */
  lemma NotAnEscape(p: Piece, next: seq<Piece>, rest: string)
    requires PieceOk(p, next) && p.Raw?
    ensures var t := Spell(next) + ("\"" + rest); t != "" && !(p.c == '\\' && IsLetter(t[0]))
  {
    var t := Spell(next) + ("\"" + rest);
    assert next != [] && next[0].Raw? ==> t[0] == next[0].c;
  }

  /** A string is read as its pieces mean. */
  lemma {:induction false} PiecesRead(ps: seq<Piece>, rest: string)
    requires Spelled(ps)
    ensures ParseChars(Spell(ps) + ("\"" + rest)) == Got(Meaning(ps), rest)
  {
    if ps == [] {
      assert Spell(ps) + ("\"" + rest) == "\"" + rest && ("\"" + rest)[1..] == rest;
    } else {
      var t := Spell(ps[1..]) + ("\"" + rest);
      assert Spell(ps) == SpellPiece(ps[0]) + Spell(ps[1..]);
      Assoc(SpellPiece(ps[0]), Spell(ps[1..]), "\"" + rest);
      PiecesRead(ps[1..], rest);
      hide ParseChars;
      if ps[0].Raw? {
        NotAnEscape(ps[0], ps[1..], rest);
        RawStep(SpellPiece(ps[0]) + t, ps[0].c, t);
      } else {
        EscapeStep(SpellPiece(ps[0]) + t, ps[0].letter, t);
      }
    }
  }

  function QuotedPieces(ps: seq<Piece>): string {
    "\"" + (Spell(ps) + "\"")
  }

  lemma StringReads(ps: seq<Piece>, rest: string)
    requires Spelled(ps)
    ensures ParseString(QuotedPieces(ps) + rest) == Got(Meaning(ps), rest)
  {
    PiecesRead(ps, rest);
    Assoc("\"", Spell(ps) + "\"", rest);
    Assoc(Spell(ps), "\"", rest);
    assert ("\"" + (Spell(ps) + ("\"" + rest)))[1..] == Spell(ps) + ("\"" + rest);
  }

  // ----- what is read was written so

  lemma FirstPiece(s: string) returns (p: Piece, t: string)
    requires ParseChars(s).Got? && !StartsWith(s, '"')
    ensures s == SpellPiece(p) + t && ParseChars(t).Got?
    ensures ParseChars(s) == Prepend(if p.Raw? then p.c else Meant(p.letter), ParseChars(t))
    ensures match p
            case Escape(letter) => IsLetter(letter)
            case Raw(c) => c as int < 128 && c != '"' && !(c == '\\' && t != "" && IsLetter(t[0]))
  {
    if AtEscape(s) {
      Letters(s[1]);
      p, t := Escape(s[1]), s[2..];
      assert s == ['\\', s[1]] + t;
    } else {
      p, t := Raw(s[0]), s[1..];
      if |s| > 1 {
        Letters(s[1]);
      }
      assert s == [s[0]] + t;
    }
  }

  lemma {:induction false} CharsAreSpelled(s: string) returns (ps: seq<Piece>)
    requires ParseChars(s).Got?
    ensures Spelled(ps) && s == Spell(ps) + ("\"" + ParseChars(s).rest) && ParseChars(s).value == Meaning(ps)
    decreases |s|
  {
    if StartsWith(s, '"') {
      ps := [];
      assert s == "" + ("\"" + s[1..]);
    } else {
      var p, t := FirstPiece(s);
      var more := CharsAreSpelled(t);
      ps := [p] + more;
      assert ps[1..] == more;
      assert more != [] && more[0].Raw? ==> t[0] == more[0].c;
      assert more != [] && more[0].Escape? ==> t[0] == '\\';
      assert more == [] ==> t[0] == '"';
      assert PieceOk(p, more);
      Assoc(SpellPiece(p), Spell(more), "\"" + ParseChars(s).rest);
    }
  }

  lemma StringIsSpelled(s: string) returns (ps: seq<Piece>)
    requires ParseString(s).Got?
    ensures Spelled(ps) && s == QuotedPieces(ps) + ParseString(s).rest && ParseString(s).value == Meaning(ps)
  {
    ps := CharsAreSpelled(s[1..]);
    var rest := ParseString(s).rest;
    assert s == "\"" + s[1..];
    Assoc("\"", Spell(ps) + "\"", rest);
    Assoc(Spell(ps), "\"", rest);
  }

  // ----- every ASCII string can be written

  /** A string with its carriage returns, newlines, tabs, backslashes and quotes escaped. */
  function Escaped(s: string): string {
    if s == "" then ""
    else
      (if s[0] as int == 13 then "\\r"
       else if s[0] as int == 10 then "\\n"
       else if s[0] as int == 9 then "\\t"
       else if s[0] as int == 92 then "\\\\"
       else if s[0] as int == 34 then "\\\""
       else [s[0]])
      + Escaped(s[1..])
  }

  function EscapedPiece(c: char): Piece {
    if c as int == 13 then Escape('r')
    else if c as int == 10 then Escape('n')
    else if c as int == 9 then Escape('t')
    else if c == '\\' || c == '"' then Escape(c)
    else Raw(c)
  }

  function EscapedPieces(s: string): seq<Piece> {
    if s == "" then [] else [EscapedPiece(s[0])] + EscapedPieces(s[1..])
  }

  lemma {:induction false} EscapedIsSpelled(s: string)
    requires forall i :: 0 <= i < |s| ==> s[i] as int < 128
    ensures var ps := EscapedPieces(s); Spelled(ps) && Spell(ps) == Escaped(s) && Meaning(ps) == s
  {
    if s != "" {
      var more := EscapedPieces(s[1..]);
      EscapedIsSpelled(s[1..]);
      assert EscapedPieces(s)[1..] == more;
      assert s == [s[0]] + s[1..];
    }
  }

  /** Every ASCII string is read back from its escaped form. */
  lemma EscapedReads(s: string, rest: string)
    requires forall i :: 0 <= i < |s| ==> s[i] as int < 128
    ensures ParseString("\"" + (Escaped(s) + "\"") + rest) == Got(s, rest)
  {
    EscapedIsSpelled(s);
    StringReads(EscapedPieces(s), rest);
  }

  lemma {:induction false} SpellAppend(a: seq<Piece>, b: seq<Piece>)
    ensures Spell(a + b) == Spell(a) + Spell(b) && Meaning(a + b) == Meaning(a) + Meaning(b)
  {
    if a == [] {
      assert a + b == b;
    } else {
      assert (a + b)[1..] == a[1..] + b && (a + b)[0] == a[0];
      SpellAppend(a[1..], b);
      Assoc(SpellPiece(a[0]), Spell(a[1..]), Spell(b));
    }
  }

  /** A string is read, with a meaning and a rest, exactly when it is written with pieces that mean it. */
  lemma StringReadsExactly(s: string, v: string, rest: string)
    ensures ParseString(s) == Got(v, rest)
       <==> exists ps: seq<Piece> :: Spelled(ps) && Meaning(ps) == v && s == QuotedPieces(ps) + rest
  {
    if ParseString(s) == Got(v, rest) {
      var ps := StringIsSpelled(s);
      assert Spelled(ps) && Meaning(ps) == v && s == QuotedPieces(ps) + rest;
    }
    forall ps: seq<Piece> | Spelled(ps) && Meaning(ps) == v && s == QuotedPieces(ps) + rest
      ensures ParseString(s) == Got(v, rest)
    {
      StringReads(ps, rest);
    }
  }

  /** An escape anywhere in a string is the character it stands for, there: 13, 10 and 9 for r, n and
    * t, and itself for a backslash or a quote. */
  lemma EscapeReadsAnywhere(before: seq<Piece>, letter: char, after: seq<Piece>, rest: string)
    requires Spelled(before + ([Escape(letter)] + after))
    ensures var s := "\"" + (Spell(before) + (['\\', letter] + Spell(after)) + "\"") + rest;
            var c := if letter == 'r' then 13 else if letter == 'n' then 10 else if letter == 't' then 9
                     else letter as int;
            ParseString(s) == Got(Meaning(before) + ([c as char] + Meaning(after)), rest)
  {
    var ps := before + ([Escape(letter)] + after);
    assert ([Escape(letter)] + after)[1..] == after;
    SpellAppend(before, [Escape(letter)] + after);
    StringReads(ps, rest);
  }
}
