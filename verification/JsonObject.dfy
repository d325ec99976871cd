/** Key lookup in JSON objects: `contains` and the two forms of `operator[]`. */
module JsonObject {
  import opened Wrappers
  import opened JsonValue

  predicate HasKey(keys: seq<KeyVal>, k: string) {
    keys != [] && (keys[0].key == k || HasKey(keys[1..], k))
  }

  /** The first value under k. */
  function Lookup(keys: seq<KeyVal>, k: string): Value
    requires HasKey(keys, k)
  {
    if keys[0].key == k then keys[0].val else Lookup(keys[1..], k)
  }

  /** Assignment through the mutable `operator[]`: the first entry under k, or a new last one. */
  function SetKey(keys: seq<KeyVal>, k: string, v: Value): seq<KeyVal> {
    if keys == [] then [KeyVal(k, v)]
    else if keys[0].key == k then [KeyVal(k, v)] + keys[1..]
    else [keys[0]] + SetKey(keys[1..], k, v)
  }

  /** What is stored under k is found under k, and every other key keeps its value. */
  lemma {:induction false} SetThenLookup(keys: seq<KeyVal>, k: string, v: Value, j: string)
    ensures HasKey(SetKey(keys, k, v), j) <==> j == k || HasKey(keys, j)
    ensures HasKey(SetKey(keys, k, v), j) ==>
              Lookup(SetKey(keys, k, v), j) == if j == k then v else Lookup(keys, j)
  {
    if keys != [] {
      SetThenLookup(keys[1..], k, v, j);
      assert SetKey(keys, k, v)[1..] == if keys[0].key == k then keys[1..] else SetKey(keys[1..], k, v);
    }
  }

  /** Keys keep their order, and at most one is added, at the end. */
  lemma {:induction false} SetKeepsOrder(keys: seq<KeyVal>, k: string, v: Value)
    ensures |SetKey(keys, k, v)| == |keys| + (if HasKey(keys, k) then 0 else 1)
    ensures forall i :: 0 <= i < |keys| ==> SetKey(keys, k, v)[i].key == keys[i].key
  {
    if keys != [] {
      SetKeepsOrder(keys[1..], k, v);
      assert forall i :: 0 < i < |keys| ==> keys[i] == keys[1..][i - 1];
    }
  }

  lemma {:induction false} LookupAt(keys: seq<KeyVal>, i: nat, k: string)
    requires i < |keys| && keys[i].key == k
    requires forall j :: 0 <= j < i ==> keys[j].key != k
    ensures HasKey(keys, k) && Lookup(keys, k) == keys[i].val
    ensures forall v :: SetKey(keys, k, v) == keys[i := KeyVal(k, v)]
  {
    if i > 0 {
      LookupAt(keys[1..], i - 1, k);
    }
  }

  lemma {:induction false} NoKey(keys: seq<KeyVal>, k: string)
    requires forall j :: 0 <= j < |keys| ==> keys[j].key != k
    ensures !HasKey(keys, k)
    ensures forall v :: SetKey(keys, k, v) == keys + [KeyVal(k, v)]
  {
    if keys != [] {
      NoKey(keys[1..], k);
    }
  }

  /** The class `object`. */
  class Object {
    var keys: seq<KeyVal>

    constructor (keys: seq<KeyVal>)
      ensures this.keys == keys
    {
      this.keys := keys;
    }

    method Contains(k: string) returns (found: bool)
      ensures found <==> HasKey(keys, k)
    {
      var itr := 0;
      while itr != |keys|
        invariant 0 <= itr <= |keys|
        invariant forall j :: 0 <= j < itr ==> keys[j].key != k
      {
        if keys[itr].key == k {
          LookupAt(keys, itr, k);
          return true;
        }
        itr := itr + 1;
      }
      NoKey(keys, k);
      found := false;
    }

    /** The const form throws `out_of_range` for an unknown key. */
    method At(k: string) returns (r: Option<Value>)
      ensures r == if HasKey(keys, k) then Some(Lookup(keys, k)) else None
    {
      var itr := 0;
      while itr != |keys|
        invariant 0 <= itr <= |keys|
        invariant forall j :: 0 <= j < itr ==> keys[j].key != k
      {
        if keys[itr].key == k {
          LookupAt(keys, itr, k);
          return Some(keys[itr].val);
        }
        itr := itr + 1;
      }
      NoKey(keys, k);
      r := None;
    }

    /** The mutable form, followed by the assignment through the reference it gives. */
    method Assign(k: string, v: Value)
      modifies this
      ensures keys == SetKey(old(keys), k, v)
    {
      var itr := 0;
      while itr != |keys|
        invariant 0 <= itr <= |keys| && keys == old(keys)
        invariant forall j :: 0 <= j < itr ==> keys[j].key != k
      {
        if keys[itr].key == k {
          LookupAt(keys, itr, k);
          keys := keys[itr := KeyVal(k, v)];
          return;
        }
        itr := itr + 1;
      }
      NoKey(keys, k);
      keys := keys + [KeyVal(k, v)];
    }
  }
}
