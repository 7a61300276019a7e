/**
  What survives a trip through both directions of the module, and what
  does not.  JSON -> Lua -> JSON is the identity on trees without a null
  inside a container, without an empty object and without a NUL byte in
  an object key; each of the three exceptions is shown by an example.
  Lua -> JSON -> Lua is the identity on array-shaped tables of floats,
  booleans and strings; an integer comes back as a float.
 */
module RoundTrip {
  import opened Values
  import opened Text
  import opened Encoder
  import opened Classifier
  import opened Decoder

  /** A tree that FromJson then ToJson give back unchanged. */
  predicate Reencodable(j: Json) {
    match j
    case Array(items) => forall i :: 0 <= i < |items| ==> items[i] != Null && Reencodable(items[i])
    case Object(fields) =>
      fields != map[] &&
      forall k :: k in fields ==> '\0' !in k && fields[k] != Null && Reencodable(fields[k])
    case _ => true
  }

  /** The entries stored for items i.. when none of them is null: item
      i+a under key i+a+1. */
  function DenseItems(j: Json, i: nat): (r: seq<(LuaValue, LuaValue)>)
    requires j.Array? && i <= |j.items|
  {
    seq(|j.items| - i, a requires 0 <= a < |j.items| - i => (IntKey(i + a + 1), Decode(j.items[i + a])))
  }

  /** The entries stored for fields keys[i..] when none of them is null:
      field keys[i+a] under its own key. */
  function DenseFields(j: Json, keys: seq<string>, i: nat): (r: seq<(LuaValue, LuaValue)>)
    requires j.Object? && i <= |keys| && forall k :: k in keys ==> k in j.fields
  {
    assert forall x :: i <= x < |keys| ==> keys[x] in keys;
    seq(|keys| - i, a requires 0 <= a < |keys| - i && keys[i + a] in j.fields =>
      (Str(keys[i + a]), Decode(j.fields[keys[i + a]])))
  }

  /** Without null items, item a of items i.. sits at entry a under key i+a+1. */
  lemma ItemsDense(j: Json, i: nat)
    requires j.Array? && i <= |j.items|
    requires forall a :: i <= a < |j.items| ==> j.items[a] != Null
    ensures |DecodeItems(j, i)| == |j.items| - i
    ensures forall a :: 0 <= a < |DecodeItems(j, i)| ==>
      DecodeItems(j, i)[a] == (IntKey(i + a + 1), Decode(j.items[i + a]))
  {
    ItemsAreDense(j, i);
  }

  lemma {:induction false} ItemsAreDense(j: Json, i: nat)
    requires j.Array? && i <= |j.items|
    requires forall a :: i <= a < |j.items| ==> j.items[a] != Null
    ensures DecodeItems(j, i) == DenseItems(j, i)
    decreases |j.items| - i
  {
    if i < |j.items| {
      ItemsAreDense(j, i + 1);
      var e := ItemsStep(j, i);
      DenseItemsCons(j, i);
    }
  }

  lemma DenseItemsCons(j: Json, i: nat)
    requires j.Array? && i < |j.items|
    ensures DenseItems(j, i) == [(IntKey(i + 1), Decode(j.items[i]))] + DenseItems(j, i + 1)
  {
    var d, t := DenseItems(j, i), DenseItems(j, i + 1);
    assert forall a :: 0 < a < |d| ==> d[a] == t[a - 1];
  }

  /** Without null fields, field keys[i+a] sits at entry a under its own key. */
  lemma FieldsDense(j: Json, keys: seq<string>, i: nat)
    requires j.Object? && i <= |keys| && forall k :: k in keys ==> k in j.fields
    requires forall k :: k in j.fields ==> j.fields[k] != Null
    ensures |DecodeFields(j, keys, i)| == |keys| - i
    ensures forall a :: 0 <= a < |DecodeFields(j, keys, i)| ==>
      DecodeFields(j, keys, i)[a] == (Str(keys[i + a]), Decode(j.fields[keys[i + a]]))
  {
    FieldsAreDense(j, keys, i);
    var d := DenseFields(j, keys, i);
    forall a | 0 <= a < |d|
      ensures d[a] == (Str(keys[i + a]), Decode(j.fields[keys[i + a]]))
    {
      assert keys[i + a] in keys;
    }
  }

  lemma {:induction false} FieldsAreDense(j: Json, keys: seq<string>, i: nat)
    requires j.Object? && i <= |keys| && forall k :: k in keys ==> k in j.fields
    requires forall k :: k in j.fields ==> j.fields[k] != Null
    ensures DecodeFields(j, keys, i) == DenseFields(j, keys, i)
    decreases |keys| - i
  {
    if i < |keys| {
      FieldsAreDense(j, keys, i + 1);
      assert keys[i] in keys;
      var e := FieldsStep(j, keys, i);
      DenseFieldsCons(j, keys, i);
    }
  }

  lemma DenseFieldsCons(j: Json, keys: seq<string>, i: nat)
    requires j.Object? && i < |keys| && forall k :: k in keys ==> k in j.fields
    ensures keys[i] in j.fields
    ensures DenseFields(j, keys, i) == [(Str(keys[i]), Decode(j.fields[keys[i]]))] + DenseFields(j, keys, i + 1)
  {
    assert keys[i] in keys;
    var d, t := DenseFields(j, keys, i), DenseFields(j, keys, i + 1);
    forall a | 0 < a < |d|
      ensures d[a] == t[a - 1]
    {
      assert keys[i + a] in keys;
    }
  }

  /** JSON -> Lua -> JSON gives back the tree. */
  lemma {:induction false} EncodeDecode(j: Json)
    requires Reencodable(j)
    ensures Encode(Decode(j)) == Ok(j)
    decreases j, 1
  {
    match j
    case Array(_) => EncodeDecodeArray(j);
    case Object(_) => EncodeDecodeObject(j);
    case _ =>
  }

  lemma {:induction false} EncodeDecodeArray(j: Json)
    requires j.Array? && Reencodable(j)
    ensures Encode(Decode(j)) == Ok(j)
    decreases j, 0
  {
    var items := j.items;
    forall a | 0 <= a < |items|
      ensures Encode(Decode(items[a])) == Ok(items[a])
    {
      EncodeDecode(items[a]);
    }
    ItemsDense(j, 0);
    ArrayBack(items, DecodeItems(j, 0));
  }

  /** The array mode walk over the decoded items, each of which converts
      back to its item, rebuilds the items. */
  lemma ArrayBack(items: seq<Json>, es: seq<(LuaValue, LuaValue)>)
    requires |es| == |items|
    requires forall a :: 0 <= a < |es| ==> es[a] == (IntKey(0 + a + 1), Decode(items[0 + a]))
    requires forall a :: 0 <= a < |items| ==> Encode(Decode(items[a])) == Ok(items[a])
    ensures Encode(Table(es)) == Ok(Array(items))
  {
    forall a | 0 <= a < |es|
      ensures es[a].0 == IntKey(a + 1) && Encode(es[a].1) == Ok(items[a])
    {
    }
    assert Convertible(es);
    assert Sequential(KeysOf(es));
    EncodeTableShape(es);
    var out := Encode(Table(es)).value.items;
    forall a | 0 <= a < |items|
      ensures out[a] == items[a]
    {
      assert Encode(es[a].1) == Ok(out[a]);
    }
    assert out == items;
  }

  lemma {:induction false} EncodeDecodeObject(j: Json)
    requires j.Object? && Reencodable(j)
    ensures Encode(Decode(j)) == Ok(j)
    decreases j, 0
  {
    var keys := SortedKeys(j.fields.Keys);
    SortedKeysOrdered(j.fields.Keys);
    FieldsDense(j, keys, 0);
    var es := DecodeFields(j, keys, 0);
    assert Decode(j) == Table(es);
    forall a | 0 <= a < |es|
      ensures es[a].0 == Str(keys[a]) && Encode(es[a].1) == Ok(j.fields[keys[a]])
    {
      assert keys[a] in j.fields;
      EncodeDecode(j.fields[keys[a]]);
    }
    ObjectBack(j.fields, keys, es);
  }

  /** The object mode walk over entries that carry the distinct keys of
      `fields` and values converting to the fields rebuilds `fields`. */
  lemma ObjectBack(fields: map<string, Json>, keys: seq<string>, es: seq<(LuaValue, LuaValue)>)
    requires |es| == |keys| > 0
    requires forall k :: k in keys <==> k in fields
    requires forall a, b :: 0 <= a < b < |keys| ==> keys[a] != keys[b]
    requires forall k :: k in fields ==> '\0' !in k
    requires forall a :: 0 <= a < |es| ==> es[a].0 == Str(keys[a]) && Encode(es[a].1) == Ok(fields[keys[a]])
    ensures Encode(Table(es)) == Ok(Object(fields))
  {
    ObjectBackKey(fields, keys, es, []);
    var r := Encode(Table(es));
    forall s
      ensures s in r.value.fields <==> s in fields
    {
      ObjectBackKey(fields, keys, es, s);
    }
    forall s | s in fields
      ensures r.value.fields[s] == fields[s]
    {
      ObjectBackValue(fields, keys, es, s);
    }
    SameMap(r.value.fields, fields);
  }

  lemma SameMap(m: map<string, Json>, f: map<string, Json>)
    requires forall s :: s in m <==> s in f
    requires forall s :: s in f ==> m[s] == f[s]
    ensures m == f
  {
  }

  lemma ObjectBackKey(fields: map<string, Json>, keys: seq<string>, es: seq<(LuaValue, LuaValue)>, s: string)
    requires |es| == |keys| > 0
    requires forall k :: k in keys <==> k in fields
    requires forall k :: k in fields ==> '\0' !in k
    requires forall a :: 0 <= a < |es| ==> es[a].0 == Str(keys[a]) && Encode(es[a].1) == Ok(fields[keys[a]])
    ensures Convertible(es) && !Sequential(KeysOf(es))
    ensures Encode(Table(es)).Ok? && Encode(Table(es)).value.Object?
    ensures s in Encode(Table(es)).value.fields <==> s in fields
  {
    assert KeysOf(es)[0] == Str(keys[0]);
    assert FirstBreak(KeysOf(es)) == 0;
    EncodeObjectKeys(es, s);
    if s in fields {
      assert s in keys;
      var a :| 0 <= a < |keys| && keys[a] == s;
      CStringWithoutNul(s);
      assert s == KeyText(es[a].0);
    }
    if exists a :: 0 <= a < |es| && s == KeyText(es[a].0) {
      var a :| 0 <= a < |es| && s == KeyText(es[a].0);
      assert keys[a] in keys;
      CStringWithoutNul(keys[a]);
    }
  }

  lemma ObjectBackValue(fields: map<string, Json>, keys: seq<string>, es: seq<(LuaValue, LuaValue)>, s: string)
    requires |es| == |keys| > 0
    requires forall k :: k in keys <==> k in fields
    requires forall a, b :: 0 <= a < b < |keys| ==> keys[a] != keys[b]
    requires forall k :: k in fields ==> '\0' !in k
    requires forall a :: 0 <= a < |es| ==> es[a].0 == Str(keys[a]) && Encode(es[a].1) == Ok(fields[keys[a]])
    requires s in fields
    ensures Convertible(es) && !Sequential(KeysOf(es))
    ensures Encode(Table(es)).Ok? && Encode(Table(es)).value.Object?
    ensures s in Encode(Table(es)).value.fields && Encode(Table(es)).value.fields[s] == fields[s]
  {
    assert KeysOf(es)[0] == Str(keys[0]);
    assert FirstBreak(KeysOf(es)) == 0;
    assert s in keys;
    var a :| 0 <= a < |keys| && keys[a] == s;
    forall i | a < i < |es|
      ensures KeyText(es[i].0) != KeyText(es[a].0)
    {
      assert keys[i] in keys;
      CStringWithoutNul(keys[i]);
      CStringWithoutNul(keys[a]);
    }
    CStringWithoutNul(s);
    EncodeObjectLastWrite(es, a);
  }

  /** An empty object comes back as an empty array: the table it decodes
      to has no key that could make it an object. */
  lemma EmptyObjectExample()
    ensures Encode(Decode(Object(map[]))) == Ok(Array([]))
  {
  }

  /** A null item leaves a hole at key 1, so the array comes back as an
      object keyed by the remaining index. */
  lemma NullItemExample()
    ensures Encode(Decode(Array([Null, Bool(true)]))) == Ok(Object(map["2" := Bool(true)]))
  {
  }

  /** An object key with a NUL byte comes back cut at the NUL. */
  lemma NulKeyExample()
    ensures Encode(Decode(Object(map["a\0b" := Bool(true)]))) == Ok(Object(map["a" := Bool(true)]))
  {
    var j := Object(map["a\0b" := Bool(true)]);
    var keys := SortedKeys(j.fields.Keys);
    assert keys == ["a\0b"];
    assert DecodeFields(j, keys, 1) == [];
    assert Decode(j) == Table([(Str("a\0b"), Boolean(true))]);
    assert CString("a\0b") == "a";
    assert Relocated([]) == map[];
  }

  /** A Lua value that ToJson then FromJson give back unchanged: no integer
      number, and every table an array 1..n of such values. */
  predicate ArrayShaped(v: LuaValue) {
    match v
    case Number(n) => n.Flt?
    case Unsupported(_) => false
    case Table(es) =>
      Sequential(KeysOf(es)) &&
      forall i :: 0 <= i < |es| ==> es[i].1 != Nil && ArrayShaped(es[i].1)
    case _ => true
  }

  /** Lua -> JSON -> Lua gives back an array-shaped value. */
  lemma {:induction false} DecodeEncode(v: LuaValue)
    requires ArrayShaped(v)
    ensures Encode(v).Ok? && Decode(Encode(v).value) == v
    decreases v, 1
  {
    if v.Table? {
      DecodeEncodeTable(v);
    }
  }

  lemma {:induction false} DecodeEncodeTable(v: LuaValue)
    requires v.Table? && ArrayShaped(v)
    ensures Encode(v).Ok? && Decode(Encode(v).value) == v
    decreases v, 0
  {
    var es := v.entries;
    forall i | 0 <= i < |es|
      ensures Encode(es[i].1).Ok? && Decode(Encode(es[i].1).value) == es[i].1
    {
      DecodeEncode(es[i].1);
    }
    TableBack(es);
  }

  /** Decoding the array that entries under keys 1..n convert to gives the
      entries back when each value comes back from its own conversion. */
  lemma TableBack(es: seq<(LuaValue, LuaValue)>)
    requires Sequential(KeysOf(es))
    requires forall i :: 0 <= i < |es| ==>
      es[i].1 != Nil && Encode(es[i].1).Ok? && Decode(Encode(es[i].1).value) == es[i].1
    ensures Encode(Table(es)).Ok? && Decode(Encode(Table(es)).value) == Table(es)
  {
    forall i | 0 <= i < |es|
      ensures IsKey(es[i].0)
    {
      assert KeysOf(es)[i] == es[i].0;
    }
    EncodeTableShape(es);
    var j := Encode(Table(es)).value;
    forall a | 0 <= a < |j.items|
      ensures j.items[a] != Null && Decode(j.items[a]) == es[a].1
    {
      assert Encode(es[a].1) == Ok(j.items[a]);
    }
    ItemsDense(j, 0);
    var out := DecodeItems(j, 0);
    forall a | 0 <= a < |es|
      ensures out[a] == es[a]
    {
      assert KeysOf(es)[a] == es[a].0;
    }
    assert out == es;
  }

  /** An integer comes back as a float of the same value. */
  lemma IntegerExample(i: int)
    ensures Encode(Number(Int(i))).Ok?
    ensures Decode(Encode(Number(Int(i))).value) == Number(Flt(i as real))
  {
  }
}
