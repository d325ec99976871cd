/** The stream framer of `read_loop`: a scan that cuts a byte stream into bracketed frames. */
module Framer {

  /** Bracket depth and whether the scan is inside a string. */
  datatype Pos = Pos(depth: int, quote: bool)

  function Move(p: Pos, c: char): Pos {
    if p.quote then Pos(p.depth, c != '"')
    else if c == '{' || c == '[' then Pos(p.depth + 1, false)
    else if c == '}' || c == ']' then Pos(p.depth - 1, false)
    else Pos(p.depth, c == '"')
  }

  /** The local variables of the loop, and the frames handed on so far. */
  datatype Scan = Scan(pos: Pos, found: bool, buf: string, frames: seq<string>)

  const Start := Scan(Pos(0, false), false, "", [])

  function Step(st: Scan, c: char): Scan {
    var pos := Move(st.pos, c);
    var found := st.found || (!st.pos.quote && pos.depth > 0);
    var buf := if found then st.buf + [c] else st.buf;
    if found && pos.depth == 0 then Scan(pos, false, "", st.frames + [buf])
    else Scan(pos, found, buf, st.frames)
  }

  function Run(st: Scan, s: string): Scan
    decreases |s|
  {
    if s == "" then st else Run(Step(st, s[0]), s[1..])
  }

  function MoveAll(p: Pos, s: string): Pos
    decreases |s|
  {
    if s == "" then p else MoveAll(Move(p, s[0]), s[1..])
  }

  lemma {:induction false} RunAppend(st: Scan, a: string, b: string)
    ensures Run(st, a + b) == Run(Run(st, a), b)
    decreases |a|
  {
    if a == "" {
      assert a + b == b;
    } else {
      assert (a + b)[1..] == a[1..] + b;
      RunAppend(Step(st, a[0]), a[1..], b);
    }
  }

  lemma {:induction false} MoveAppend(p: Pos, a: string, b: string)
    ensures MoveAll(p, a + b) == MoveAll(MoveAll(p, a), b)
    decreases |a|
  {
    if a == "" {
      assert a + b == b;
    } else {
      assert (a + b)[1..] == a[1..] + b;
      MoveAppend(Move(p, a[0]), a[1..], b);
    }
  }

  // ----- what every step keeps

  /** A frame is open exactly at positive depth, and the buffer is empty exactly between frames. */
  predicate Consistent(st: Scan) {
    && (st.found <==> st.pos.depth > 0)
    && (st.buf == "" <==> !st.found)
  }

  lemma {:induction false} RunConsistent(st: Scan, s: string)
    requires Consistent(st)
    ensures Consistent(Run(st, s))
    decreases |s|
  {
    if s != "" {
      RunConsistent(Step(st, s[0]), s[1..]);
    }
  }

  // ----- the shape of frames and gaps

  /** Depth stays positive after every character. */
  predicate Inside(p: Pos, s: string)
    decreases |s|
  {
    s == "" || (Move(p, s[0]).depth > 0 && Inside(Move(p, s[0]), s[1..]))
  }

  /** Depth is not positive after any character. */
  predicate Outside(p: Pos, s: string)
    decreases |s|
  {
    s == "" || (Move(p, s[0]).depth <= 0 && Outside(Move(p, s[0]), s[1..]))
  }

  /** Positive depth on every proper nonempty prefix, and depth zero at the end. */
  predicate IsFrame(f: string) {
    |f| > 1 && Inside(Pos(0, false), f[..|f| - 1]) && MoveAll(Pos(0, false), f).depth == 0
  }

  predicate IsGap(g: string) {
    Outside(Pos(0, false), g) && MoveAll(Pos(0, false), g) == Pos(0, false)
  }

  /** A way to cut a stream: gaps[i] comes before frames[i]; then dropped text, or an open frame. */
  datatype Cut = Cut(gaps: seq<string>, frames: seq<string>, gap: string, open: string)

  function Weave(gaps: seq<string>, frames: seq<string>): string
    requires |gaps| == |frames|
  {
    if gaps == [] then "" else gaps[0] + frames[0] + Weave(gaps[1..], frames[1..])
  }

  predicate Shaped(c: Cut) {
    && |c.gaps| == |c.frames|
    && (forall i :: 0 <= i < |c.gaps| ==> IsGap(c.gaps[i]) && IsFrame(c.frames[i]))
    && Outside(Pos(0, false), c.gap)
    && (c.open != "" ==> IsGap(c.gap) && Inside(Pos(0, false), c.open))
  }

  predicate Cuts(c: Cut, s: string) {
    Shaped(c) && s == Weave(c.gaps, c.frames) + c.gap + c.open
  }

  // ----- any cut of that shape is the one the framer makes

  lemma {:induction false} RunGap(st: Scan, g: string)
    requires Consistent(st) && !st.found && Outside(st.pos, g)
    ensures Run(st, g) == st.(pos := MoveAll(st.pos, g))
    decreases |g|
  {
    if g != "" {
      RunGap(Step(st, g[0]), g[1..]);
    }
  }

  lemma {:induction false} RunOpen(st: Scan, s: string)
    requires Consistent(st) && Inside(st.pos, s) && !st.pos.quote
    requires !st.found ==> st.pos.depth == 0
    ensures s != "" ==> Run(st, s) == Scan(MoveAll(st.pos, s), true, st.buf + s, st.frames)
  {
    if s != "" {
      RunFound(Step(st, s[0]), s[1..]);
      assert st.buf + s == st.buf + [s[0]] + s[1..];
    }
  }

  lemma {:induction false} RunFound(st: Scan, s: string)
    requires Consistent(st) && st.found && Inside(st.pos, s)
    ensures Run(st, s) == Scan(MoveAll(st.pos, s), true, st.buf + s, st.frames)
    decreases |s|
  {
    if s != "" {
      RunFound(Step(st, s[0]), s[1..]);
      assert st.buf + s == st.buf + [s[0]] + s[1..];
    } else {
      assert st.buf + s == st.buf;
    }
  }

  lemma RunFrame(frames: seq<string>, f: string)
    requires IsFrame(f)
    ensures Run(Scan(Pos(0, false), false, "", frames), f) == Scan(MoveAll(Pos(0, false), f), false, "", frames + [f])
    ensures MoveAll(Pos(0, false), f) == Pos(0, false)
  {
    var st := Scan(Pos(0, false), false, "", frames);
    var body, last := f[..|f| - 1], f[|f| - 1..];
    assert f == body + last;
    RunOpen(st, body);
    RunAppend(st, body, last);
    MoveAppend(Pos(0, false), body, last);
    RunConsistent(st, body);
    var p := MoveAll(Pos(0, false), body);
    InsideEnd(Pos(0, false), body);
    assert last[1..] == "" && last == [last[0]];
    assert MoveAll(p, last) == Move(p, last[0]) && Run(Run(st, body), last) == Step(Run(st, body), last[0]);
    assert "" + body == body;
  }

  lemma {:induction false} RunWeave(done: seq<string>, gaps: seq<string>, frames: seq<string>)
    requires |gaps| == |frames|
    requires forall i :: 0 <= i < |gaps| ==> IsGap(gaps[i]) && IsFrame(frames[i])
    ensures Run(Scan(Pos(0, false), false, "", done), Weave(gaps, frames))
         == Scan(Pos(0, false), false, "", done + frames)
    decreases |gaps|
  {
    if gaps == [] {
      assert done + frames == done;
    } else {
      var st := Scan(Pos(0, false), false, "", done);
      assert IsGap(gaps[0]) && IsFrame(frames[0]);
      RunGap(st, gaps[0]);
      RunFrame(done, frames[0]);
      RunWeave(done + [frames[0]], gaps[1..], frames[1..]);
      RunAppend(st, gaps[0] + frames[0], Weave(gaps[1..], frames[1..]));
      RunAppend(st, gaps[0], frames[0]);
      assert done + [frames[0]] + frames[1..] == done + frames;
    }
  }

  lemma CutDeterminesRun(c: Cut, s: string)
    requires Cuts(c, s)
    ensures Run(Start, s).frames == c.frames && Run(Start, s).buf == c.open
  {
    var st := Scan(Pos(0, false), false, "", c.frames);
    RunWeave([], c.gaps, c.frames);
    assert [] + c.frames == c.frames;
    RunAppend(Start, Weave(c.gaps, c.frames) + c.gap, c.open);
    RunAppend(Start, Weave(c.gaps, c.frames), c.gap);
    RunGap(st, c.gap);
    if c.open != "" {
      RunOpen(st, c.open);
      assert "" + c.open == c.open;
    }
  }

  // ----- and every stream has one

  function Extend(c: Cut, ch: char): Cut {
    var p := MoveAll(Pos(0, false), c.gap + c.open);
    var q := Move(p, ch);
    if c.open == "" && q.depth <= 0 then c.(gap := c.gap + [ch])
    else if q.depth > 0 then c.(open := c.open + [ch])
    else Cut(c.gaps + [c.gap], c.frames + [c.open + [ch]], "", "")
  }

  /** The cut the framer makes, read off one character at a time. */
  function CutOf(s: string): Cut {
    if s == "" then Cut([], [], "", "") else Extend(CutOf(s[..|s| - 1]), s[|s| - 1])
  }

  lemma {:induction false} InsideAppend(p: Pos, s: string, ch: char)
    requires Inside(p, s)
    ensures Inside(p, s + [ch]) <==> Move(MoveAll(p, s), ch).depth > 0
    decreases |s|
  {
    if s == "" {
      assert s + [ch] == [ch];
    } else {
      assert (s + [ch])[1..] == s[1..] + [ch];
      InsideAppend(Move(p, s[0]), s[1..], ch);
    }
  }

  lemma {:induction false} OutsideAppend(p: Pos, s: string, ch: char)
    requires Outside(p, s)
    ensures Outside(p, s + [ch]) <==> Move(MoveAll(p, s), ch).depth <= 0
    decreases |s|
  {
    if s == "" {
      assert s + [ch] == [ch];
    } else {
      assert (s + [ch])[1..] == s[1..] + [ch];
      OutsideAppend(Move(p, s[0]), s[1..], ch);
    }
  }

  lemma {:induction false} OutsideEnd(p: Pos, s: string)
    requires Outside(p, s) && p.depth <= 0
    ensures MoveAll(p, s).depth <= 0
    decreases |s|
  {
    if s != "" {
      OutsideEnd(Move(p, s[0]), s[1..]);
    }
  }

  lemma {:induction false} InsideEnd(p: Pos, s: string)
    requires Inside(p, s) && s != ""
    ensures MoveAll(p, s).depth > 0
    decreases |s|
  {
    if |s| > 1 {
      InsideEnd(Move(p, s[0]), s[1..]);
    }
  }

  lemma {:induction false} WeaveAppend(gaps: seq<string>, frames: seq<string>, g: string, f: string)
    requires |gaps| == |frames|
    ensures Weave(gaps + [g], frames + [f]) == Weave(gaps, frames) + (g + f)
  {
    if gaps == [] {
      assert gaps + [g] == [g] && frames + [f] == [f];
      assert [g][1..] == [] && [f][1..] == [];
      assert g + f + "" == "" + (g + f);
    } else {
      assert (gaps + [g])[1..] == gaps[1..] + [g] && (frames + [f])[1..] == frames[1..] + [f];
      WeaveAppend(gaps[1..], frames[1..], g, f);
    }
  }

  lemma GrowGap(c: Cut, ch: char)
    requires Shaped(c) && c.open == "" && Move(MoveAll(Pos(0, false), c.gap), ch).depth <= 0
    ensures Shaped(Extend(c, ch)) && Extend(c, ch) == c.(gap := c.gap + [ch])
  {
    OutsideAppend(Pos(0, false), c.gap, ch);
    assert c.gap + "" == c.gap;
  }

  lemma GrowFrame(c: Cut, ch: char)
    requires Shaped(c) && Move(MoveAll(Pos(0, false), c.gap + c.open), ch).depth > 0
    ensures Shaped(Extend(c, ch)) && Extend(c, ch) == c.(open := c.open + [ch])
  {
    MoveAppend(Pos(0, false), c.gap, c.open);
    OutsideEnd(Pos(0, false), c.gap);
    if c.open == "" {
      assert c.gap + c.open == c.gap;
    }
    assert MoveAll(Pos(0, false), c.gap) == Pos(0, false);
    InsideAppend(Pos(0, false), c.open, ch);
  }

  lemma CloseFrame(c: Cut, ch: char)
    requires Shaped(c) && c.open != "" && Move(MoveAll(Pos(0, false), c.gap + c.open), ch).depth <= 0
    ensures Shaped(Extend(c, ch))
    ensures Extend(c, ch) == Cut(c.gaps + [c.gap], c.frames + [c.open + [ch]], "", "")
  {
    MoveAppend(Pos(0, false), c.gap, c.open);
    InsideEnd(Pos(0, false), c.open);
    var f := c.open + [ch];
    assert f[..|f| - 1] == c.open;
    MoveAppend(Pos(0, false), c.open, [ch]);
    assert [ch][1..] == "";
    assert IsFrame(f);
  }

  lemma ExtendCuts(c: Cut, s: string, ch: char)
    requires Cuts(c, s)
    ensures Cuts(Extend(c, ch), s + [ch])
  {
    var w := Weave(c.gaps, c.frames);
    var p := MoveAll(Pos(0, false), c.gap + c.open);
    if Move(p, ch).depth > 0 {
      GrowFrame(c, ch);
      assert (w + c.gap + c.open) + [ch] == w + c.gap + (c.open + [ch]);
    } else if c.open == "" {
      assert c.gap + c.open == c.gap;
      GrowGap(c, ch);
      assert (w + c.gap + "") + [ch] == w + (c.gap + [ch]) + "";
    } else {
      CloseFrame(c, ch);
      WeaveAppend(c.gaps, c.frames, c.gap, c.open + [ch]);
      assert (w + c.gap + c.open) + [ch] == w + (c.gap + (c.open + [ch])) + "" + "";
    }
  }

  lemma {:induction false} EveryStreamIsCut(s: string)
    ensures Cuts(CutOf(s), s)
  {
    if s == "" {
      assert "" == Weave([], []) + "" + "";
    } else {
      EveryStreamIsCut(s[..|s| - 1]);
      ExtendCuts(CutOf(s[..|s| - 1]), s[..|s| - 1], s[|s| - 1]);
      assert s == s[..|s| - 1] + [s[|s| - 1]];
    }
  }

  /** The framer emits a list of frames exactly when the stream can be cut into those frames,
    * gaps that end at depth zero between them, and dropped or unfinished text at the end. */
  lemma FramesAreExactly(s: string, frames: seq<string>, buf: string)
    ensures Run(Start, s).frames == frames && Run(Start, s).buf == buf
       <==> exists c: Cut :: Cuts(c, s) && c.frames == frames && c.open == buf
  {
    EveryStreamIsCut(s);
    CutDeterminesRun(CutOf(s), s);
    forall c: Cut | Cuts(c, s)
      ensures c.frames == Run(Start, s).frames && c.open == Run(Start, s).buf
    {
      CutDeterminesRun(c, s);
    }
  }

  // ----- the same shapes, by counting

  /** How many quotes s holds. */
  function Quotes(s: string): nat {
    if s == "" then 0 else Quotes(s[..|s| - 1]) + if s[|s| - 1] == '"' then 1 else 0
  }

  /** Opening brackets minus closing ones in s, leaving out those with an odd number of quotes before them. */
  function Nesting(s: string): int {
    if s == "" then 0
    else
      var n := |s| - 1;
      Nesting(s[..n]) +
      if Quotes(s[..n]) % 2 == 1 then 0
      else if s[n] == '{' || s[n] == '[' then 1
      else if s[n] == '}' || s[n] == ']' then -1 else 0
  }

  /** The depth is the nesting of all that was read, closing brackets without a partner included, and the
    * scan is inside a string after an odd number of quotes. */
  lemma {:induction false} PosCounts(s: string)
    ensures MoveAll(Pos(0, false), s) == Pos(Nesting(s), Quotes(s) % 2 == 1)
  {
    if s != "" {
      var n := |s| - 1;
      PosCounts(s[..n]);
      assert s == s[..n] + [s[n]] && [s[n]][1..] == "";
      MoveAppend(Pos(0, false), s[..n], [s[n]]);
    }
  }

  lemma {:induction false} PrefixesDecide(p: Pos, s: string)
    ensures Inside(p, s) <==> forall k :: 0 < k <= |s| ==> MoveAll(p, s[..k]).depth > 0
    ensures Outside(p, s) <==> forall k :: 0 < k <= |s| ==> MoveAll(p, s[..k]).depth <= 0
    decreases |s|
  {
    if s != "" {
      var q := Move(p, s[0]);
      PrefixesDecide(q, s[1..]);
      assert s[..1][1..] == "";
      forall k | 0 < k < |s|
        ensures MoveAll(p, s[..k + 1]) == MoveAll(q, s[1..][..k])
      {
        assert s[..k + 1][1..] == s[1..][..k];
      }
      assert forall k :: 1 < k <= |s| ==> MoveAll(p, s[..k]) == MoveAll(q, s[1..][..k - 1]);
    }
  }

  /** Open text and dropped text, by the nesting of their prefixes. */
  lemma PrefixesByCount(s: string)
    ensures Inside(Pos(0, false), s) <==> forall k :: 0 < k <= |s| ==> Nesting(s[..k]) > 0
    ensures Outside(Pos(0, false), s) <==> forall k :: 0 < k <= |s| ==> Nesting(s[..k]) <= 0
  {
    var start := Pos(0, false);
    PrefixesDecide(start, s);
    hide *;
    forall k | 0 < k <= |s|
      ensures MoveAll(start, s[..k]).depth == Nesting(s[..k])
    {
      PosCounts(s[..k]);
    }
  }

  /** Frames and gaps likewise. */
  lemma ShapesByCount(s: string)
    ensures IsFrame(s) <==> |s| > 1 && Nesting(s) == 0 && forall k :: 0 < k < |s| ==> Nesting(s[..k]) > 0
    ensures IsGap(s) <==>
            Nesting(s) == 0 && Quotes(s) % 2 == 0 && forall k :: 0 < k <= |s| ==> Nesting(s[..k]) <= 0
  {
    hide Nesting, MoveAll, Inside, Outside;
    PosCounts(s);
    PrefixesByCount(s);
    if |s| > 1 {
      var body := s[..|s| - 1];
      PrefixesByCount(body);
      assert forall k :: 0 < k < |s| ==> body[..k] == s[..k];
    }
  }
}
