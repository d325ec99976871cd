/** Typing of values, and the order that sets and maps keep their entries in. */
module RawOrder {
  import opened Bytes
  import opened Varint
  import opened RawCodec

  // ----- typing

  predicate InFixed(n: int, width: nat, signed: bool) {
    if signed then -(PowerOf256(width) as int) <= 2 * n < PowerOf256(width) else 0 <= n < PowerOf256(width)
  }

  predicate HasType(sc: Schema, v: Value)
    decreases v
  {
    match v
    case FixedV(width, n) => sc.Fixed? && sc.width == width && width < TWO_31 && InFixed(n, width, sc.signed)
    case UVarV(u) => sc.UVar? && u < TWO_32
    case SVarV(i) => sc.SVar? && IsInt32(i)
    case FlagV(_) => sc.Flag?
    case TextV(text) => sc.Text? && |text| < TWO_31
    case NoneV => sc.Opt?
    case SomeV(some) => sc.Opt? && HasType(sc.of, some)
    case ListV(items) => sc.List? && |items| < TWO_32 && AllTyped(sc.of, items)
    case SetV(elements) =>
      sc.Set? && |elements| < TWO_32 && AllTyped(sc.of, elements) && Ascending(false, elements)
    case MapV(entries) =>
      sc.Map? && |entries| < TWO_32 && AllTyped(Pair(sc.key, sc.of), entries) && Ascending(true, entries)
    case PairV(fst, snd) => sc.Pair? && HasType(sc.first, fst) && HasType(sc.second, snd)
    case StructV(members) => sc.Struct? && MembersTyped(sc.fields, members)
  }

  predicate AllTyped(sc: Schema, vs: seq<Value>)
    decreases vs
  {
    vs == [] || (HasType(sc, vs[0]) && AllTyped(sc, vs[1..]))
  }

  predicate MembersTyped(fields: seq<Schema>, vs: seq<Value>)
    decreases vs
  {
    |fields| == |vs| && (vs == [] || (HasType(fields[0], vs[0]) && MembersTyped(fields[1..], vs[1..])))
  }

  lemma {:induction false} TypedAt(sc: Schema, vs: seq<Value>, i: nat)
    requires AllTyped(sc, vs) && i < |vs|
    ensures HasType(sc, vs[i])
  {
    if i > 0 {
      TypedAt(sc, vs[1..], i - 1);
    }
  }

  // ----- `Less` is asymmetric

  lemma {:induction false} BytesLessAsymmetric(a: bytes, b: bytes)
    ensures BytesLess(a, b) ==> !BytesLess(b, a) && a != b
  {
    if a != [] && b != [] && a[0] == b[0] {
      BytesLessAsymmetric(a[1..], b[1..]);
    }
  }

  lemma RankFirst(a: Value, b: Value)
    ensures Rank(a) < Rank(b) ==> Less(a, b)
    ensures Rank(a) > Rank(b) ==> !Less(a, b)
  {}

  lemma {:induction false} LessAsymmetric(a: Value, b: Value)
    ensures Less(a, b) ==> !Less(b, a) && a != b
    decreases a
  {
    RankFirst(a, b);
    RankFirst(b, a);
    if Rank(a) == Rank(b) {
      LessSameRank(a, b);
      LessSameRank(b, a);
      hide Less, AllLess;
      match a
      case TextV(s) => BytesLessAsymmetric(s, b.text);
      case SomeV(x) => LessAsymmetric(x, b.some);
      case ListV(x) => AllLessAsymmetric(x, b.items);
      case SetV(x) => AllLessAsymmetric(x, b.elements);
      case StructV(x) => AllLessAsymmetric(x, b.members);
      case MapV(x) => AllLessAsymmetric(x, b.entries);
      case PairV(x, x') =>
        LessAsymmetric(x, b.fst);
        LessAsymmetric(x', b.snd);
      case _ => {}
    }
  }

  /** `Less` between values of one constructor. */
  lemma LessSameRank(a: Value, b: Value)
    requires Rank(a) == Rank(b)
    ensures Less(a, b) <==>
            match a
            case FixedV(_, m) => b.FixedV? && m < b.n
            case UVarV(m) => b.UVarV? && m < b.u
            case SVarV(m) => b.SVarV? && m < b.i
            case FlagV(p) => b.FlagV? && !p && b.b
            case TextV(s) => b.TextV? && BytesLess(s, b.text)
            case NoneV => false
            case SomeV(x) => b.SomeV? && Less(x, b.some)
            case ListV(x) => b.ListV? && AllLess(x, b.items)
            case SetV(x) => b.SetV? && AllLess(x, b.elements)
            case MapV(x) => b.MapV? && AllLess(x, b.entries)
            case PairV(x, y) => b.PairV? && (Less(x, b.fst) || (x == b.fst && Less(y, b.snd)))
            case StructV(x) => b.StructV? && AllLess(x, b.members)
  {}

  lemma {:induction false} AllLessAsymmetric(a: seq<Value>, b: seq<Value>)
    ensures AllLess(a, b) ==> !AllLess(b, a) && a != b
    decreases a
  {
    if a != [] && b != [] {
      LessAsymmetric(a[0], b[0]);
      AllLessAsymmetric(a[1..], b[1..]);
    }
  }

  // ----- transitive

  lemma {:induction false} BytesLessTransitive(a: bytes, b: bytes, c: bytes)
    requires BytesLess(a, b) && BytesLess(b, c)
    ensures BytesLess(a, c)
  {
    if a != [] && a[0] == b[0] == c[0] {
      BytesLessTransitive(a[1..], b[1..], c[1..]);
    }
  }

  lemma {:induction false} LessTransitive(a: Value, b: Value, c: Value)
    requires Less(a, b) && Less(b, c)
    ensures Less(a, c)
    decreases a
  {
    RankFirst(a, b);
    RankFirst(b, c);
    RankFirst(a, c);
    if Rank(a) == Rank(b) == Rank(c) {
      LessSameRank(a, b);
      LessSameRank(b, c);
      LessSameRank(a, c);
      hide Less, AllLess;
      match a
      case TextV(s) => BytesLessTransitive(s, b.text, c.text);
      case SomeV(x) => LessTransitive(x, b.some, c.some);
      case ListV(x) => AllLessTransitive(x, b.items, c.items);
      case SetV(x) => AllLessTransitive(x, b.elements, c.elements);
      case StructV(x) => AllLessTransitive(x, b.members, c.members);
      case MapV(x) => AllLessTransitive(x, b.entries, c.entries);
      case PairV(x, y) =>
        if Less(x, b.fst) && Less(b.fst, c.fst) {
          LessTransitive(x, b.fst, c.fst);
        } else if x == b.fst == c.fst {
          LessTransitive(y, b.snd, c.snd);
        }
      case _ => {}
    }
  }

  lemma {:induction false} AllLessTransitive(a: seq<Value>, b: seq<Value>, c: seq<Value>)
    requires AllLess(a, b) && AllLess(b, c)
    ensures AllLess(a, c)
    decreases a
  {
    if a != [] {
      if Less(a[0], b[0]) && Less(b[0], c[0]) {
        LessTransitive(a[0], b[0], c[0]);
      } else if a[0] == b[0] == c[0] && !Less(a[0], b[0]) && !Less(b[0], c[0]) {
        AllLessTransitive(a[1..], b[1..], c[1..]);
      }
    }
  }

  // ----- and total on the values of one type

  lemma {:induction false} BytesLessTotal(a: bytes, b: bytes)
    ensures BytesLess(a, b) || BytesLess(b, a) || a == b
  {
    if a != [] && b != [] && a[0] == b[0] {
      BytesLessTotal(a[1..], b[1..]);
      assert a == [a[0]] + a[1..] && b == [b[0]] + b[1..];
    }
  }

  lemma {:induction false} LessTotal(sc: Schema, a: Value, b: Value)
    requires HasType(sc, a) && HasType(sc, b)
    ensures Less(a, b) || Less(b, a) || a == b
    decreases a
  {
    RankFirst(a, b);
    RankFirst(b, a);
    if Rank(a) == Rank(b) {
      LessSameRank(a, b);
      LessSameRank(b, a);
      hide Less, AllLess, InFixed, Ascending;
      match a
      case TextV(s) => BytesLessTotal(s, b.text);
      case SomeV(x) => LessTotal(sc.of, x, b.some);
      case ListV(x) => AllLessTotal(sc.of, x, b.items);
      case SetV(x) => AllLessTotal(sc.of, x, b.elements);
      case StructV(x) => MembersLessTotal(sc.fields, x, b.members);
      case MapV(x) => AllLessTotal(Pair(sc.key, sc.of), x, b.entries);
      case PairV(x, y) =>
        LessTotal(sc.first, x, b.fst);
        LessTotal(sc.second, y, b.snd);
      case _ => {}
    }
  }

  lemma {:induction false} AllLessTotal(sc: Schema, a: seq<Value>, b: seq<Value>)
    requires AllTyped(sc, a) && AllTyped(sc, b)
    ensures AllLess(a, b) || AllLess(b, a) || a == b
    decreases a
  {
    if a != [] && b != [] {
      LessTotal(sc, a[0], b[0]);
      AllLessTotal(sc, a[1..], b[1..]);
      assert a == [a[0]] + a[1..] && b == [b[0]] + b[1..];
    }
  }

  lemma {:induction false} MembersLessTotal(fields: seq<Schema>, a: seq<Value>, b: seq<Value>)
    requires MembersTyped(fields, a) && MembersTyped(fields, b)
    ensures AllLess(a, b) || AllLess(b, a) || a == b
    decreases a
  {
    if a != [] {
      LessTotal(fields[0], a[0], b[0]);
      MembersLessTotal(fields[1..], a[1..], b[1..]);
      assert a == [a[0]] + a[1..] && b == [b[0]] + b[1..];
    }
  }

  // ----- insertion

  lemma {:induction false} BelowTransitive(map_: bool, k: Value, l: Value, es: seq<Value>)
    requires Less(k, l) && Below(map_, l, es)
    ensures Below(map_, k, es)
  {
    if es != [] {
      LessTransitive(k, l, KeyOf(map_, es[0]));
      BelowTransitive(map_, k, l, es[1..]);
    }
  }

  lemma {:induction false} BelowInsert(map_: bool, k: Value, es: seq<Value>, e: Value)
    requires Below(map_, k, es) && Less(k, KeyOf(map_, e))
    ensures Below(map_, k, Insert(map_, es, e))
  {
    if es == [] || Less(KeyOf(map_, e), KeyOf(map_, es[0])) {
      assert ([e] + es)[1..] == es;
    } else if Less(KeyOf(map_, es[0]), KeyOf(map_, e)) {
      BelowInsert(map_, k, es[1..], e);
      assert ([es[0]] + Insert(map_, es[1..], e))[1..] == Insert(map_, es[1..], e);
    }
  }

  lemma {:induction false} InsertAscends(map_: bool, es: seq<Value>, e: Value)
    requires Ascending(map_, es)
    ensures Ascending(map_, Insert(map_, es, e))
  {
    if es == [] || Less(KeyOf(map_, e), KeyOf(map_, es[0])) {
      assert ([e] + es)[1..] == es;
      if es != [] {
        BelowTransitive(map_, KeyOf(map_, e), KeyOf(map_, es[0]), es[1..]);
      }
    } else if Less(KeyOf(map_, es[0]), KeyOf(map_, e)) {
      InsertAscends(map_, es[1..], e);
      BelowInsert(map_, KeyOf(map_, es[0]), es[1..], e);
      assert ([es[0]] + Insert(map_, es[1..], e))[1..] == Insert(map_, es[1..], e);
    }
  }

  /** An entry with a new key is added, and nothing else. */
  lemma {:induction false} InsertMembers(map_: bool, es: seq<Value>, e: Value)
    requires !HasKey(map_, es, KeyOf(map_, e))
    ensures |Insert(map_, es, e)| == |es| + 1
    ensures forall x :: x in Insert(map_, es, e) <==> x in es || x == e
  {
    if es != [] && !Less(KeyOf(map_, e), KeyOf(map_, es[0])) {
      InsertMembers(map_, es[1..], e);
      assert es == [es[0]] + es[1..];
    }
  }

  lemma {:induction false} InsertKeys(map_: bool, es: seq<Value>, e: Value, k: Value)
    requires !HasKey(map_, es, k) && (Less(k, KeyOf(map_, e)) || Less(KeyOf(map_, e), k))
    ensures !HasKey(map_, Insert(map_, es, e), k)
  {
    if es == [] || Less(KeyOf(map_, e), KeyOf(map_, es[0])) {
      assert ([e] + es)[1..] == es;
    } else if Less(KeyOf(map_, es[0]), KeyOf(map_, e)) {
      InsertKeys(map_, es[1..], e, k);
      assert ([es[0]] + Insert(map_, es[1..], e))[1..] == Insert(map_, es[1..], e);
    }
  }

  /** Inserted one after another, every entry has a new key. */
  predicate KeysNew(map_: bool, done: seq<Value>, es: seq<Value>)
    decreases |es|
  {
    es == [] || (!HasKey(map_, done, KeyOf(map_, es[0])) && KeysNew(map_, Insert(map_, done, es[0]), es[1..]))
  }

  lemma {:induction false} InsertAllMembers(map_: bool, done: seq<Value>, es: seq<Value>)
    requires KeysNew(map_, done, es)
    ensures |InsertAll(map_, done, es)| == |done| + |es|
    ensures forall x :: x in InsertAll(map_, done, es) <==> x in done || x in es
    decreases |es|
  {
    if es != [] {
      InsertMembers(map_, done, es[0]);
      InsertAllMembers(map_, Insert(map_, done, es[0]), es[1..]);
      assert es == [es[0]] + es[1..];
      hide Insert, HasKey;
    }
  }

  lemma {:induction false} InsertAllAscends(map_: bool, done: seq<Value>, es: seq<Value>)
    requires Ascending(map_, done)
    ensures Ascending(map_, InsertAll(map_, done, es))
    decreases |es|
  {
    if es != [] {
      InsertAscends(map_, done, es[0]);
      InsertAllAscends(map_, Insert(map_, done, es[0]), es[1..]);
    }
  }

  lemma {:induction false} InsertTyped(map_: bool, sc: Schema, es: seq<Value>, e: Value)
    requires AllTyped(sc, es) && HasType(sc, e)
    ensures AllTyped(sc, Insert(map_, es, e)) && |Insert(map_, es, e)| <= |es| + 1
  {
    if es == [] || Less(KeyOf(map_, e), KeyOf(map_, es[0])) {
      assert ([e] + es)[1..] == es;
    } else if Less(KeyOf(map_, es[0]), KeyOf(map_, e)) {
      InsertTyped(map_, sc, es[1..], e);
      assert ([es[0]] + Insert(map_, es[1..], e))[1..] == Insert(map_, es[1..], e);
    }
  }

  lemma {:induction false} InsertAllTyped(map_: bool, sc: Schema, done: seq<Value>, es: seq<Value>)
    requires AllTyped(sc, done) && AllTyped(sc, es)
    ensures AllTyped(sc, InsertAll(map_, done, es)) && |InsertAll(map_, done, es)| <= |done| + |es|
    decreases |es|
  {
    if es != [] {
      InsertTyped(map_, sc, done, es[0]);
      InsertAllTyped(map_, sc, Insert(map_, done, es[0]), es[1..]);
    }
  }

  // ----- ascending lists are determined by their members

  lemma {:induction false} BelowAt(map_: bool, k: Value, es: seq<Value>, i: nat)
    requires Below(map_, k, es) && i < |es|
    ensures Less(k, KeyOf(map_, es[i]))
  {
    if i > 0 {
      BelowAt(map_, k, es[1..], i - 1);
    }
  }

  lemma FirstIsLeast(map_: bool, es: seq<Value>, e: Value)
    requires Ascending(map_, es) && e in es
    ensures e == es[0] || Less(KeyOf(map_, es[0]), KeyOf(map_, e))
    ensures es[0] !in es[1..]
  {
    var i :| 0 <= i < |es| && es[i] == e;
    if i > 0 {
      BelowAt(map_, KeyOf(map_, es[0]), es[1..], i - 1);
    }
    if es[0] in es[1..] {
      var j :| 0 <= j < |es| - 1 && es[1..][j] == es[0];
      BelowAt(map_, KeyOf(map_, es[0]), es[1..], j);
      LessAsymmetric(KeyOf(map_, es[0]), KeyOf(map_, es[0]));
    }
  }

  lemma FirstOrRest(s: seq<Value>, x: Value)
    requires s != []
    ensures x in s <==> x == s[0] || x in s[1..]
  {
    assert s == [s[0]] + s[1..];
  }

  lemma HasAMember(s: seq<Value>)
    ensures s == [] || exists x :: x in s
  {
    if s != [] {
      assert s[0] in s;
    }
  }

  lemma {:induction false} SameMembersSameList(map_: bool, a: seq<Value>, b: seq<Value>)
    requires Ascending(map_, a) && Ascending(map_, b)
    requires forall x :: x in a <==> x in b
    ensures a == b
    decreases |a|
  {
    HasAMember(b);
    if a != [] {
      assert a[0] in b;
      FirstIsLeast(map_, a, b[0]);
      FirstIsLeast(map_, b, a[0]);
      LessAsymmetric(KeyOf(map_, a[0]), KeyOf(map_, b[0]));
      assert a[0] == b[0];
      forall x
        ensures x in a[1..] <==> x in b[1..]
      {
        FirstOrRest(a, x);
        FirstOrRest(b, x);
      }
      assert a == [a[0]] + a[1..] && b == [b[0]] + b[1..];
      SameMembersSameList(map_, a[1..], b[1..]);
    }
  }

  lemma {:induction false} AppendAscending(map_: bool, done: seq<Value>, es: seq<Value>)
    requires es != [] && Ascending(map_, done + es)
    ensures Insert(map_, done, es[0]) == done + [es[0]]
  {
    if done == [] {
      assert [] + [es[0]] == [es[0]];
    } else {
      assert (done + es)[1..] == done[1..] + es && (done + es)[0] == done[0];
      BelowAt(map_, KeyOf(map_, done[0]), (done + es)[1..], |done| - 1);
      LessAsymmetric(KeyOf(map_, done[0]), KeyOf(map_, es[0]));
      AppendAscending(map_, done[1..], es);
      assert [done[0]] + (done[1..] + [es[0]]) == done + [es[0]];
    }
  }

  /** An ascending list inserted entry by entry stays as it is. */
  lemma {:induction false} InsertAscending(map_: bool, done: seq<Value>, es: seq<Value>)
    requires Ascending(map_, done + es)
    ensures InsertAll(map_, done, es) == done + es
    decreases |es|
  {
    if es == [] {
      assert done + [] == done;
    } else {
      AppendAscending(map_, done, es);
      assert done + [es[0]] + es[1..] == done + es;
      InsertAscending(map_, done + [es[0]], es[1..]);
    }
  }
}
