/**
  The Lua-to-JSON direction, `json_tojson(vm, idx, err)` and its helper
  `json_arr_to_obj`.

  `Encode` and `Walk` specify the conversion as functions; `ToJsonValue`
  and `ArrToObj` are the source's loops, proved against them.  A table is
  walked once with an array accumulator, an object accumulator and a
  one-way `useObj` flag: the Builder.
 */
module Encoder {
  import opened Values
  import opened Text

  /** The state carried across one table walk (json.cpp:166-168). */
  datatype Builder = Builder(arr: seq<Json>, obj: map<string, Json>, useObj: bool)

  /** A walk starts in array mode with both accumulators empty. */
  const START := Builder([], map[], false)

  /** The object key an entry is stored under in object mode: `lua_tostring`
      of the key, read back as a C string. */
  function KeyText(k: LuaValue): (r: string)
    requires IsKey(k)
    ensures k.Str? ==> '\0' !in r && |r| <= |k.s| && r == k.s[..|r|]
    ensures k.Str? && '\0' !in k.s ==> r == k.s
    ensures k.Str? && |r| < |k.s| ==> k.s[|r|] == '\0'
    ensures k.Number? ==> |r| >= 1 && (r[0] == '-' <==> k.n.i < 0)
    ensures k.Number? && k.n.i >= 0 ==> r == Decimal(k.n.i)
    ensures k.Number? && k.n.i < 0 ==> r[1..] == Decimal(-k.n.i)
  {
    if k.Str? then CString(k.s) else IntText(k.n.i)
  }

  /** The key `"a\0b"` is stored as `"a"`: the text stops at the NUL. */
  lemma KeyTextNulExample()
    ensures KeyText(Str("a\0b")) == "a"
  {
    var r := KeyText(Str("a\0b"));
    assert |r| <= 3 && r == "a\0b"[..|r|] && '\0' !in r;
    assert |r| < 3 ==> "a\0b"[|r|] == '\0';
  }

  /** What `json_arr_to_obj` leaves in its destination: element `i` under
      the zero-based key `"i"`, in the order the loop writes them. */
  function Relocated(arr: seq<Json>): (m: map<string, Json>)
    ensures |m| <= |arr|
    ensures arr != [] ==> Decimal(|arr| - 1) in m && m[Decimal(|arr| - 1)] == arr[|arr| - 1]
  {
    if arr == [] then map[]
    else Relocated(arr[..|arr| - 1])[Decimal(|arr| - 1) := arr[|arr| - 1]]
  }

  /** Key "i" of Relocated(arr) holds arr[i]. */
  lemma {:induction false} RelocatedAt(arr: seq<Json>, i: nat)
    requires i < |arr|
    ensures Decimal(i) in Relocated(arr) && Relocated(arr)[Decimal(i)] == arr[i]
  {
    var n := |arr| - 1;
    if i < n {
      RelocatedAt(arr[..n], i);
      assert arr[..n][i] == arr[i];
      assert Decimal(i) != Decimal(n) by {
        if Decimal(i) == Decimal(n) { DecimalInjective(i, n); }
      }
    }
  }

  /** Every key of Relocated(arr) is the text of an index of arr. */
  lemma {:induction false} RelocatedOnly(arr: seq<Json>, s: string)
    requires s in Relocated(arr)
    ensures exists i :: 0 <= i < |arr| && s == Decimal(i)
  {
    var n := |arr| - 1;
    if s != Decimal(n) {
      RelocatedOnly(arr[..n], s);
    }
  }

  /** The keys of Relocated(arr) are exactly "0".."n-1". */
  lemma RelocatedKey(arr: seq<Json>, s: string)
    ensures s in Relocated(arr) <==> exists i :: 0 <= i < |arr| && s == Decimal(i)
  {
    if s in Relocated(arr) {
      RelocatedOnly(arr, s);
    }
    if exists i :: 0 <= i < |arr| && s == Decimal(i) {
      var i :| 0 <= i < |arr| && s == Decimal(i);
      RelocatedAt(arr, i);
    }
  }

  /** Relocated(arr) has one key per element: no two indices share a key. */
  lemma {:induction false} RelocatedSize(arr: seq<Json>)
    ensures |Relocated(arr)| == |arr|
  {
    if arr != [] {
      var n := |arr| - 1;
      RelocatedSize(arr[..n]);
      if Decimal(n) in Relocated(arr[..n]) {
        RelocatedOnly(arr[..n], Decimal(n));
        var i :| 0 <= i < n && Decimal(n) == Decimal(i);
        DecimalInjective(n, i);
      }
    }
  }

  /** The keys of Relocated(arr) are "0".."n-1" and key "i" holds arr[i]. */
  lemma RelocatedContents(arr: seq<Json>)
    ensures forall i :: 0 <= i < |arr| ==> Decimal(i) in Relocated(arr) && Relocated(arr)[Decimal(i)] == arr[i]
    ensures forall s :: s in Relocated(arr) ==> exists i :: 0 <= i < |arr| && s == Decimal(i)
    ensures |Relocated(arr)| == |arr|
  {
    forall i | 0 <= i < |arr|
      ensures Decimal(i) in Relocated(arr) && Relocated(arr)[Decimal(i)] == arr[i]
    {
      RelocatedAt(arr, i);
    }
    forall s | s in Relocated(arr)
      ensures exists i :: 0 <= i < |arr| && s == Decimal(i)
    {
      RelocatedOnly(arr, s);
    }
    RelocatedSize(arr);
  }

  /** The mode check made before an entry's value is converted
      (json.cpp:185-200): a string key, or an integer key other than the
      next array position, moves the array into the object for good. */
  function Switch(b: Builder, k: LuaValue): (r: Builder)
    ensures b.useObj ==> r == b
    ensures IsKey(k) ==> (r.useObj <==> b.useObj || k != IntKey(|b.arr| + 1))
    ensures !r.useObj ==> r == b
  {
    if b.useObj then b
    else if k.Str? then Builder([], Relocated(b.arr), true)
    else if k.Number? && k.n.Int? then
      if k.n.i < 1 || k.n.i - 1 != |b.arr| then Builder([], Relocated(b.arr), true) else b
    else b
  }

  /** Leaving array mode empties the array and relocates it into the
      object (json.cpp:187-199). */
  lemma SwitchMoves(b: Builder, k: LuaValue)
    requires !b.useObj && Switch(b, k).useObj
    ensures Switch(b, k).arr == [] && Switch(b, k).obj == Relocated(b.arr)
  {
  }

  /** Where a converted value goes (json.cpp:208-218). */
  function Store(b: Builder, k: LuaValue, j: Json): (r: Builder)
    requires IsKey(k)
    ensures r.useObj == b.useObj
    ensures b.useObj ==> r.arr == b.arr && KeyText(k) in r.obj && r.obj[KeyText(k)] == j
    ensures !b.useObj ==> r.obj == b.obj && |r.arr| == |b.arr| + 1 && r.arr[|b.arr|] == j
    ensures !b.useObj ==> r.arr[..|b.arr|] == b.arr
  {
    if b.useObj then b.(obj := b.obj[KeyText(k) := j]) else b.(arr := b.arr + [j])
  }

  /** In object mode a store adds the one key and leaves every other key's
      value as it was: a later write to the same key text replaces it. */
  lemma StoreKeeps(b: Builder, k: LuaValue, j: Json)
    requires IsKey(k) && b.useObj
    ensures Store(b, k, j).obj.Keys == b.obj.Keys + {KeyText(k)}
    ensures forall s :: s in b.obj && s != KeyText(k) ==> Store(b, k, j).obj[s] == b.obj[s]
  {
  }

  /** The key check of the table loop (json.cpp:179-183): a key that is
      neither a string nor a number of integer subtype ends the walk at
      once with the invalid-key error, whatever entries follow. */
  lemma InvalidKeyStops(t: LuaValue, i: nat, b: Builder)
    requires t.Table? && i < |t.entries| && !IsKey(t.entries[i].0)
    ensures Walk(t, i, b) == Err(InvalidKey)
  {
  }

  /** The value a finished walk yields (json.cpp:223-225). */
  function Finish(b: Builder): (r: Json)
    ensures r.Object? <==> b.useObj
    ensures r.Array? <==> !b.useObj
    ensures r.Object? ==> r.fields == b.obj
    ensures r.Array? ==> r.items == b.arr
  {
    if b.useObj then Object(b.obj) else Array(b.arr)
  }

  /** The measure that lets Encode call Walk on the same table. */
  function Width(v: LuaValue): nat {
    if v.Table? then |v.entries| + 1 else 0
  }

  /** The conversion of one Lua value (json.cpp:138-226). */
  function Encode(v: LuaValue): (r: Result<Json>)
    ensures r.Err? ==> r.error == UnsupportedType || r.error == InvalidKey
    ensures r.Err? ==> v.Table? || v.Unsupported?
    ensures v.Unsupported? ==> r.Err?
    ensures v.Table? && r.Ok? ==> r.value.Array? || r.value.Object?
    ensures v.Nil? ==> r == Ok(Null)
    ensures v.Boolean? ==> r == Ok(Bool(v.b))
    ensures v.Number? && v.n.Int? ==> r == Ok(Num(v.n.i as real))
    ensures v.Number? && v.n.Flt? ==> r == Ok(Num(v.n.d))
    ensures v.Str? ==> r == Ok(String(v.s))
    decreases v, Width(v)
  {
    match v
    case Nil => Ok(Null)
    case Boolean(b) => Ok(Bool(b))
    case Number(Int(i)) => Ok(Num(i as real))
    case Number(Flt(d)) => Ok(Num(d))
    case Str(s) => Ok(String(s))
    case Unsupported(_) => Err(UnsupportedType)
    case Table(_) => Walk(v, 0, START)
  }

  /** The rest of a table walk from entry `i` on, with builder `b`
      (json.cpp:176-221): the key check, the mode check, the value's own
      conversion, then the store; the first failure ends the walk. */
  function Walk(t: LuaValue, i: nat, b: Builder): (r: Result<Json>)
    requires t.Table? && i <= |t.entries|
    ensures r.Err? ==> r.error == UnsupportedType || r.error == InvalidKey
    ensures r.Ok? ==> r.value.Array? || r.value.Object?
    ensures r.Ok? && b.useObj ==> r.value.Object?
    decreases t, |t.entries| - i
  {
    if i == |t.entries| then Ok(Finish(b))
    else
      var k := t.entries[i].0;
      if !IsKey(k) then Err(InvalidKey)
      else
        match Encode(t.entries[i].1)
        case Err(e) => Err(e)
        case Ok(j) => Walk(t, i + 1, Store(Switch(b, k), k, j))
  }

  /** `json_arr_to_obj(from, to)` (json.cpp:228-236): the destination is
      cleared, element `i` is moved to key `"i"`, and the source is
      emptied.  Returns the new contents of both containers. */
  method ArrToObj(from: seq<Json>) returns (emptied: seq<Json>, to: map<string, Json>)
    ensures emptied == []
    ensures to == Relocated(from)
    ensures |to| == |from|
    ensures forall i :: 0 <= i < |from| ==> Decimal(i) in to && to[Decimal(i)] == from[i]
    ensures forall s :: s in to ==> exists i :: 0 <= i < |from| && s == Decimal(i)
  {
    to := map[];
    var i := 0;
    while i < |from|
      invariant 0 <= i <= |from|
      invariant to == Relocated(from[..i])
    {
      assert from[..i + 1][..i] == from[..i];
      to := to[Decimal(i) := from[i]];
      i := i + 1;
    }
    assert from[..i] == from;
    RelocatedContents(from);
    emptied := [];
  }

  /** The mode check of the table loop (json.cpp:185-200), run on the
      loop's `arr`, `obj` and `use_obj`: in array mode, a string key or an
      integer key other than the next position moves the array into the
      object for good. */
  method CheckMode(arr: seq<Json>, obj: map<string, Json>, useObj: bool, key: LuaValue)
    returns (arr': seq<Json>, obj': map<string, Json>, useObj': bool)
    requires IsKey(key)
    ensures Builder(arr', obj', useObj') == Switch(Builder(arr, obj, useObj), key)
  {
    arr', obj', useObj' := arr, obj, useObj;
    if !useObj {
      if key.Str? {
        arr', obj' := ArrToObj(arr);
        useObj' := true;
      } else if key.Number? {
        var k := key.n.i;
        if k < 1 || k - 1 != |arr| {
          arr', obj' := ArrToObj(arr);
          useObj' := true;
        }
      }
    }
  }

  /** The conversion as the source runs it: a recursive walk whose table
      loop updates `arr`, `obj` and `useObj` in place. */
  method ToJsonValue(v: LuaValue) returns (r: Result<Json>)
    ensures r == Encode(v)
    decreases v
  {
    match v {
      case Nil => return Ok(Null);
      case Boolean(b) => return Ok(Bool(b));
      case Number(n) =>
        return if n.Int? then Ok(Num(n.i as real)) else Ok(Num(n.d));
      case Str(s) => return Ok(String(s));
      case Unsupported(_) => return Err(UnsupportedType);
      case Table(entries) =>
    }
    var entries := v.entries;
    var arr: seq<Json> := [];
    var obj: map<string, Json> := map[];
    var useObj := false;
    var i := 0;
    while i < |entries|
      invariant 0 <= i <= |entries|
      invariant Walk(v, i, Builder(arr, obj, useObj)) == Encode(v)
    {
      var key := entries[i].0;
      if !IsKey(key) {
        return Err(InvalidKey);
      }
      arr, obj, useObj := CheckMode(arr, obj, useObj, key);
      assert entries[i] in entries;
      var value := ToJsonValue(entries[i].1);
      if value.Err? {
        return Err(value.error);
      }
      if useObj {
        obj := obj[KeyText(key) := value.value];
      } else {
        arr := arr + [value.value];
      }
      i := i + 1;
    }
    if useObj {
      return Ok(Object(obj));
    }
    return Ok(Array(arr));
  }
}
