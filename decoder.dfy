/**
  The JSON-to-Lua direction, `json_push_value` (json.cpp:89-136): a walk
  over the json11 tree that builds fresh Lua tables.  It has no error
  path.  An array item goes to integer key i+1 with `lua_rawseti`, an
  object field to its own string key with `lua_rawset`; storing nil that
  way creates no entry, so a JSON null inside a container leaves a hole.
 */
module Decoder {
  import opened Values
  import opened Text

  /** The Lua value json_push_value pushes for `j`. */
  function Decode(j: Json): (r: LuaValue)
    ensures r == Nil <==> j == Null
    ensures r.Table? <==> j.Array? || j.Object?
    ensures r.Boolean? <==> j.Bool?
    ensures r.Number? <==> j.Num?
    ensures r.Str? <==> j.String?
    ensures !r.Unsupported?
    ensures j.Bool? ==> r == Boolean(j.b)
    ensures j.Num? ==> r == Number(Flt(j.d))
    ensures j.String? ==> r == Str(j.s)
    decreases j, 1, 0
  {
    match j
    case Null => Nil
    case Num(d) => Number(Flt(d))
    case Bool(b) => Boolean(b)
    case String(s) => Str(s)
    case Array(_) => Table(DecodeItems(j, 0))
    case Object(fields) => Table(DecodeFields(j, SortedKeys(fields.Keys), 0))
  }

  /** The entries the array loop stores for items i.. (json.cpp:114-121):
      each non-nil item under integer key i+1, in index order. */
  function DecodeItems(j: Json, i: nat): (r: seq<(LuaValue, LuaValue)>)
    requires j.Array? && i <= |j.items|
    ensures |r| <= |j.items| - i
    decreases j, 0, |j.items| - i
  {
    if i == |j.items| then []
    else
      var v := Decode(j.items[i]);
      (if v == Nil then [] else [(IntKey(i + 1), v)]) + DecodeItems(j, i + 1)
  }

  /** The entries the object loop stores for keys[i..] (json.cpp:122-132):
      each field with a non-nil value under its own string key. */
  function DecodeFields(j: Json, keys: seq<string>, i: nat): (r: seq<(LuaValue, LuaValue)>)
    requires j.Object? && i <= |keys| && forall k :: k in keys ==> k in j.fields
    ensures |r| <= |keys| - i
    decreases j, 0, |keys| - i
  {
    if i == |keys| then []
    else
      var v := Decode(j.fields[keys[i]]);
      (if v == Nil then [] else [(Str(keys[i]), v)]) + DecodeFields(j, keys, i + 1)
  }

  /** `k` is the integer key i+1 for some array position i. */
  predicate ItemKey(k: LuaValue, lo: int, n: int) {
    k.Number? && k.n.Int? && lo < k.n.i <= n
  }

  /** The integer a key stands for, 0 for any other key. */
  function KeyIndex(k: LuaValue): int {
    if k.Number? && k.n.Int? then k.n.i else 0
  }

  /** Items i.. give entries under keys i+1..n, increasing, none nil. */
  lemma ItemsShape(j: Json, i: nat)
    requires j.Array? && i <= |j.items|
    ensures forall a :: 0 <= a < |DecodeItems(j, i)| ==>
      ItemKey(DecodeItems(j, i)[a].0, i, |j.items|) && DecodeItems(j, i)[a].1 != Nil
    ensures Increasing(DecodeItems(j, i))
  {
    ItemsKeys(j, i);
    ItemsIncreasing(j, i);
  }

  lemma {:induction false} ItemsKeys(j: Json, i: nat)
    requires j.Array? && i <= |j.items|
    ensures forall a :: 0 <= a < |DecodeItems(j, i)| ==>
      ItemKey(DecodeItems(j, i)[a].0, i, |j.items|) && DecodeItems(j, i)[a].1 != Nil
    decreases |j.items| - i
  {
    if i < |j.items| {
      ItemsKeys(j, i + 1);
      var rest := DecodeItems(j, i + 1);
      var v := Decode(j.items[i]);
      var r := DecodeItems(j, i);
      if v == Nil {
        assert r == rest;
        forall a | 0 <= a < |r|
          ensures ItemKey(r[a].0, i, |j.items|) && r[a].1 != Nil
        {
          assert ItemKey(rest[a].0, i + 1, |j.items|);
        }
      } else {
        assert r == [(IntKey(i + 1), v)] + rest;
        forall a | 0 <= a < |r|
          ensures ItemKey(r[a].0, i, |j.items|) && r[a].1 != Nil
        {
          if a > 0 {
            assert r[a] == rest[a - 1];
            assert ItemKey(rest[a - 1].0, i + 1, |j.items|);
          }
        }
      }
    }
  }

  /** The integer keys of `es` increase along the sequence. */
  predicate Increasing(es: seq<(LuaValue, LuaValue)>) {
    forall a, b :: 0 <= a < b < |es| ==> KeyIndex(es[a].0) < KeyIndex(es[b].0)
  }

  lemma {:induction false} ItemsIncreasing(j: Json, i: nat)
    requires j.Array? && i <= |j.items|
    ensures Increasing(DecodeItems(j, i))
    decreases |j.items| - i
  {
    if i < |j.items| {
      ItemsIncreasing(j, i + 1);
      IncreasingStep(j, i);
    }
  }

  /** Putting item i in front keeps the keys increasing. */
  lemma IncreasingStep(j: Json, i: nat)
    requires j.Array? && i < |j.items| && Increasing(DecodeItems(j, i + 1))
    ensures Increasing(DecodeItems(j, i))
  {
    var e := ItemsStep(j, i);
    ItemsKeys(j, i + 1);
    PrefixIncreasing(e, DecodeItems(j, i + 1), i + 1, |j.items|);
  }

  /** Item i contributes at most one entry, under key i+1, in front of the
      entries of the items after it. */
  lemma ItemsStep(j: Json, i: nat) returns (e: seq<(LuaValue, LuaValue)>)
    requires j.Array? && i < |j.items|
    ensures DecodeItems(j, i) == e + DecodeItems(j, i + 1)
    ensures e == [] <==> j.items[i] == Null
    ensures e != [] ==> e == [(IntKey(i + 1), Decode(j.items[i]))]
  {
    var v := Decode(j.items[i]);
    e := if v == Nil then [] else [(IntKey(i + 1), v)];
  }

  /** Field keys[i] contributes at most one entry, under its own key, in
      front of the entries of the fields after it. */
  lemma FieldsStep(j: Json, keys: seq<string>, i: nat) returns (e: seq<(LuaValue, LuaValue)>)
    requires j.Object? && i < |keys| && forall k :: k in keys ==> k in j.fields
    requires keys[i] in j.fields
    ensures DecodeFields(j, keys, i) == e + DecodeFields(j, keys, i + 1)
    ensures e == [] <==> j.fields[keys[i]] == Null
    ensures e != [] ==> e == [(Str(keys[i]), Decode(j.fields[keys[i]]))]
  {
    var v := Decode(j.fields[keys[i]]);
    e := if v == Nil then [] else [(Str(keys[i]), v)];
  }

  /** At most one entry under key lo in front of increasing entries whose
      keys are above lo keeps the keys increasing. */
  lemma PrefixIncreasing(e: seq<(LuaValue, LuaValue)>, rest: seq<(LuaValue, LuaValue)>, lo: int, n: int)
    requires e == [] || (|e| == 1 && e[0].0 == IntKey(lo))
    requires Increasing(rest)
    requires forall a :: 0 <= a < |rest| ==> ItemKey(rest[a].0, lo, n)
    ensures Increasing(e + rest)
  {
    var r := e + rest;
    if e == [] {
      assert r == rest;
    } else {
      forall a, b | 0 <= a < b < |r|
        ensures KeyIndex(r[a].0) < KeyIndex(r[b].0)
      {
        assert r[b] == rest[b - 1];
        assert ItemKey(rest[b - 1].0, lo, n);
        if a > 0 {
          assert r[a] == rest[a - 1];
        }
      }
    }
  }

  /** Reading key k+1 of the decoded items i.. gives the decoded item k. */
  lemma {:induction false} ItemsGet(j: Json, i: nat, k: nat)
    requires j.Array? && i <= k < |j.items|
    ensures Get(DecodeItems(j, i), IntKey(k + 1)) == Decode(j.items[k])
    decreases k - i, 1
  {
    if i < k {
      ItemsGetLater(j, i, k);
    } else {
      ItemsGetHere(j, i);
    }
  }

  /** Item i does not answer for a later key. */
  lemma {:induction false} ItemsGetLater(j: Json, i: nat, k: nat)
    requires j.Array? && i < k < |j.items|
    ensures Get(DecodeItems(j, i), IntKey(k + 1)) == Decode(j.items[k])
    decreases k - i, 0
  {
    var e := ItemsStep(j, i);
    GetPrefix(e, DecodeItems(j, i + 1), IntKey(k + 1));
    ItemsGet(j, i + 1, k);
  }

  /** Item i answers for its own key: nothing before it has that key. */
  lemma ItemsGetHere(j: Json, i: nat)
    requires j.Array? && i < |j.items|
    ensures Get(DecodeItems(j, i), IntKey(i + 1)) == Decode(j.items[i])
  {
    var e := ItemsStep(j, i);
    GetPrefix(e, DecodeItems(j, i + 1), IntKey(i + 1));
    if e == [] {
      ItemsBelow(j, i + 1, i + 1);
    }
  }

  /** Looking a key up behind at most one entry: that entry answers if it
      has the key, the rest of the sequence otherwise. */
  lemma GetPrefix(e: seq<(LuaValue, LuaValue)>, rest: seq<(LuaValue, LuaValue)>, k: LuaValue)
    requires |e| <= 1
    ensures Get(e + rest, k) == if e != [] && e[0].0 == k then e[0].1 else Get(rest, k)
  {
    if e == [] {
      assert e + rest == rest;
    } else {
      assert (e + rest)[1..] == rest;
    }
  }

  /** A key at or below position i is read as nil from the items i.. */
  lemma ItemsBelow(j: Json, i: nat, k: int)
    requires j.Array? && i <= |j.items| && k <= i
    ensures Get(DecodeItems(j, i), IntKey(k)) == Nil
  {
    ItemsKeys(j, i);
    var r := DecodeItems(j, i);
    forall a | 0 <= a < |r|
      ensures r[a].0 != IntKey(k)
    {
      assert ItemKey(r[a].0, i, |j.items|);
    }
    GetAbsent(r, IntKey(k));
  }

  /** `k` is the string key keys[x] for some x from lo on. */
  predicate FieldKey(k: LuaValue, keys: seq<string>, lo: nat) {
    exists x :: lo <= x < |keys| && k == Str(keys[x])
  }

  /** Fields keys[i..] give entries under those distinct string keys, none nil. */
  lemma FieldsShape(j: Json, keys: seq<string>, i: nat)
    requires j.Object? && i <= |keys| && forall k :: k in keys ==> k in j.fields
    requires forall a, b :: 0 <= a < b < |keys| ==> keys[a] != keys[b]
    ensures forall a :: 0 <= a < |DecodeFields(j, keys, i)| ==>
      FieldKey(DecodeFields(j, keys, i)[a].0, keys, i) && DecodeFields(j, keys, i)[a].1 != Nil
    ensures forall a, b :: 0 <= a < b < |DecodeFields(j, keys, i)| ==>
      DecodeFields(j, keys, i)[a].0 != DecodeFields(j, keys, i)[b].0
  {
    FieldsKeys(j, keys, i);
    FieldsDistinct(j, keys, i);
  }

  lemma FieldsKeys(j: Json, keys: seq<string>, i: nat)
    requires j.Object? && i <= |keys| && forall k :: k in keys ==> k in j.fields
    ensures forall a :: 0 <= a < |DecodeFields(j, keys, i)| ==>
      FieldKey(DecodeFields(j, keys, i)[a].0, keys, i) && DecodeFields(j, keys, i)[a].1 != Nil
  {
    forall a | 0 <= a < |DecodeFields(j, keys, i)|
      ensures FieldKey(DecodeFields(j, keys, i)[a].0, keys, i) && DecodeFields(j, keys, i)[a].1 != Nil
    {
      var x := FieldsKeyAt(j, keys, i, a);
    }
  }

  /** Entry `a` of the fields from position i on is stored under some
      keys[x] with x >= i, and its value is not nil. */
  lemma {:induction false} FieldsKeyAt(j: Json, keys: seq<string>, i: nat, a: nat) returns (x: nat)
    requires j.Object? && i <= |keys| && forall k :: k in keys ==> k in j.fields
    requires a < |DecodeFields(j, keys, i)|
    ensures i <= x < |keys| && DecodeFields(j, keys, i)[a].0 == Str(keys[x])
    ensures DecodeFields(j, keys, i)[a].1 != Nil
    decreases |keys| - i
  {
    assert i < |keys| && keys[i] in keys;
    var rest := DecodeFields(j, keys, i + 1);
    var e := FieldsStep(j, keys, i);
    var r := DecodeFields(j, keys, i);
    if e == [] {
      assert r == rest;
      x := FieldsKeyAt(j, keys, i + 1, a);
    } else if a == 0 {
      assert r[0] == e[0];
      x := i;
    } else {
      assert r[a] == rest[a - 1];
      x := FieldsKeyAt(j, keys, i + 1, a - 1);
    }
  }

  lemma {:induction false} FieldsDistinct(j: Json, keys: seq<string>, i: nat)
    requires j.Object? && i <= |keys| && forall k :: k in keys ==> k in j.fields
    requires forall a, b :: 0 <= a < b < |keys| ==> keys[a] != keys[b]
    ensures forall a, b :: 0 <= a < b < |DecodeFields(j, keys, i)| ==>
      DecodeFields(j, keys, i)[a].0 != DecodeFields(j, keys, i)[b].0
    decreases |keys| - i
  {
    if i < |keys| {
      FieldsDistinct(j, keys, i + 1);
      assert keys[i] in keys;
      var rest := DecodeFields(j, keys, i + 1);
      var e := FieldsStep(j, keys, i);
      FieldsKeys(j, keys, i + 1);
      PrefixDistinct(e, rest, keys, i);
    }
  }

  /** At most one entry under keys[i] in front of entries with distinct keys
      from keys[i+1..] keeps the keys distinct. */
  lemma PrefixDistinct(e: seq<(LuaValue, LuaValue)>, rest: seq<(LuaValue, LuaValue)>, keys: seq<string>, i: nat)
    requires i < |keys| && (e == [] || (|e| == 1 && e[0].0 == Str(keys[i])))
    requires forall a, b :: 0 <= a < b < |keys| ==> keys[a] != keys[b]
    requires forall a, b :: 0 <= a < b < |rest| ==> rest[a].0 != rest[b].0
    requires forall a :: 0 <= a < |rest| ==> FieldKey(rest[a].0, keys, i + 1)
    ensures forall a, b :: 0 <= a < b < |e + rest| ==> (e + rest)[a].0 != (e + rest)[b].0
  {
    var r := e + rest;
    if e == [] {
      assert r == rest;
    } else {
      forall a, b | 0 <= a < b < |r|
        ensures r[a].0 != r[b].0
      {
        assert r[b] == rest[b - 1];
        if a > 0 {
          assert r[a] == rest[a - 1];
        } else {
          assert FieldKey(rest[b - 1].0, keys, i + 1);
          var x :| i + 1 <= x < |keys| && rest[b - 1].0 == Str(keys[x]);
          assert keys[i] != keys[x];
        }
      }
    }
  }

  /** Reading key keys[k] of the decoded fields i.. gives the decoded field. */
  lemma {:induction false} FieldsGet(j: Json, keys: seq<string>, i: nat, k: nat)
    requires j.Object? && i <= k < |keys| && forall k :: k in keys ==> k in j.fields
    requires forall a, b :: 0 <= a < b < |keys| ==> keys[a] != keys[b]
    ensures Get(DecodeFields(j, keys, i), Str(keys[k])) == Decode(j.fields[keys[k]])
    decreases k - i, 1
  {
    if i < k {
      FieldsGetLater(j, keys, i, k);
    } else {
      FieldsGetHere(j, keys, i);
    }
  }

  /** Field keys[i] does not answer for a later key. */
  lemma {:induction false} FieldsGetLater(j: Json, keys: seq<string>, i: nat, k: nat)
    requires j.Object? && i < k < |keys| && forall k :: k in keys ==> k in j.fields
    requires forall a, b :: 0 <= a < b < |keys| ==> keys[a] != keys[b]
    ensures Get(DecodeFields(j, keys, i), Str(keys[k])) == Decode(j.fields[keys[k]])
    decreases k - i, 0
  {
    assert keys[i] in keys && keys[i] != keys[k];
    var e := FieldsStep(j, keys, i);
    GetPrefix(e, DecodeFields(j, keys, i + 1), Str(keys[k]));
    FieldsGet(j, keys, i + 1, k);
  }

  /** Field keys[i] answers for its own key: no later field has that key. */
  lemma FieldsGetHere(j: Json, keys: seq<string>, i: nat)
    requires j.Object? && i < |keys| && forall k :: k in keys ==> k in j.fields
    requires forall a, b :: 0 <= a < b < |keys| ==> keys[a] != keys[b]
    ensures Get(DecodeFields(j, keys, i), Str(keys[i])) == Decode(j.fields[keys[i]])
  {
    assert keys[i] in keys;
    var e := FieldsStep(j, keys, i);
    GetPrefix(e, DecodeFields(j, keys, i + 1), Str(keys[i]));
    if e == [] {
      FieldsAbsent(j, keys, i + 1, keys[i]);
    }
  }

  /** A key that is not among keys[i..] is read as nil. */
  lemma FieldsAbsent(j: Json, keys: seq<string>, i: nat, s: string)
    requires j.Object? && i <= |keys| && forall k :: k in keys ==> k in j.fields
    requires forall a, b :: 0 <= a < b < |keys| ==> keys[a] != keys[b]
    requires forall k :: i <= k < |keys| ==> keys[k] != s
    ensures Get(DecodeFields(j, keys, i), Str(s)) == Nil
  {
    FieldsKeys(j, keys, i);
    var r := DecodeFields(j, keys, i);
    forall a | 0 <= a < |r|
      ensures r[a].0 != Str(s)
    {
      assert FieldKey(r[a].0, keys, i);
      var x :| i <= x < |keys| && r[a].0 == Str(keys[x]);
    }
    GetAbsent(r, Str(s));
  }

  /** Only JSON null becomes nil. */
  lemma DecodeNil(j: Json)
    ensures Decode(j) == Nil <==> j == Null
  {
  }

  /** A JSON array becomes a well-formed table whose keys are integers in
      1..n, in increasing order. */
  lemma DecodeArrayShape(items: seq<Json>)
    ensures Decode(Array(items)).Table?
    ensures var es := Decode(Array(items)).entries;
      && WellFormedTable(es)
      && (forall a :: 0 <= a < |es| ==> ItemKey(es[a].0, 0, |items|))
      && Increasing(es)
  {
    var j := Array(items);
    ItemsShape(j, 0);
    assert Decode(j).entries == DecodeItems(j, 0);
  }

  /** The value at key k+1 of a decoded array is the decoded item k (nil,
      that is no entry, exactly where the item is null). */
  lemma DecodeArrayGet(items: seq<Json>, k: nat)
    requires k < |items|
    ensures Decode(Array(items)).Table?
    ensures Get(Decode(Array(items)).entries, IntKey(k + 1)) == Decode(items[k])
  {
    var j := Array(items);
    assert Decode(j).entries == DecodeItems(j, 0);
    ItemsGet(j, 0, k);
  }

  /** A JSON object becomes a well-formed table whose keys are the string
      keys of the object's fields. */
  lemma DecodeObjectShape(fields: map<string, Json>)
    ensures Decode(Object(fields)).Table?
    ensures var es := Decode(Object(fields)).entries;
      && WellFormedTable(es)
      && (forall a :: 0 <= a < |es| ==> es[a].0.Str? && es[a].0.s in fields)
  {
    var j := Object(fields);
    var keys := SortedKeys(fields.Keys);
    SortedKeysOrdered(fields.Keys);
    FieldsShape(j, keys, 0);
    var es := DecodeFields(j, keys, 0);
    assert Decode(j).entries == es;
    forall a | 0 <= a < |es|
      ensures es[a].0.Str? && es[a].0.s in fields
    {
      assert FieldKey(es[a].0, keys, 0);
      var x :| 0 <= x < |keys| && es[a].0 == Str(keys[x]);
      assert keys[x] in keys;
    }
  }

  /** The value at key s of a decoded object is the decoded field s (nil,
      that is no entry, exactly where the field is null or absent). */
  lemma DecodeObjectGet(fields: map<string, Json>, s: string)
    ensures Decode(Object(fields)).Table?
    ensures Get(Decode(Object(fields)).entries, Str(s)) == if s in fields then Decode(fields[s]) else Nil
  {
    var j := Object(fields);
    var keys := SortedKeys(fields.Keys);
    SortedKeysOrdered(fields.Keys);
    assert Decode(j).entries == DecodeFields(j, keys, 0);
    if s in fields {
      assert s in keys;
      var k :| 0 <= k < |keys| && keys[k] == s;
      FieldsGet(j, keys, 0, k);
    } else {
      forall k | 0 <= k < |keys|
        ensures keys[k] != s
      {
        assert keys[k] in keys;
      }
      FieldsAbsent(j, keys, 0, s);
    }
  }
}
