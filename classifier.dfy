/**
  The table classifier of the encoder on its own: what a table walk
  builds from a table's keys and its already converted values, and the
  properties json.cpp promises of it — an array exactly for the keys
  1, 2, …, n in that order, an object otherwise, relocated entries under
  zero-based keys, later keys under their own text, last write wins, and
  errors that abort the whole conversion.
 */
module Classifier {
  import opened Values
  import opened Text
  import opened Encoder

  /** Every key is one the encoder accepts and every value converts. */
  predicate Convertible(es: seq<(LuaValue, LuaValue)>) {
    forall i :: 0 <= i < |es| ==> IsKey(es[i].0) && Encode(es[i].1).Ok?
  }

  /** Every key is one the encoder accepts. */
  predicate AllKeys(keys: seq<LuaValue>) {
    forall i :: 0 <= i < |keys| ==> IsKey(keys[i])
  }

  /** The builder after storing `vals[i..]` under `keys[i..]`, starting from
      `b`: one mode check and one store per entry, as the walk does them. */
  function Classify(keys: seq<LuaValue>, vals: seq<Json>, i: nat, b: Builder): Builder
    requires |keys| == |vals| && AllKeys(keys) && i <= |keys|
    decreases |keys| - i
  {
    if i == |keys| then b
    else Classify(keys, vals, i + 1, Store(Switch(b, keys[i]), keys[i], vals[i]))
  }

  /** The stores of object mode from entry `i` on: each value under its
      key's text, in order. */
  function Overlay(m: map<string, Json>, keys: seq<LuaValue>, vals: seq<Json>, i: nat): map<string, Json>
    requires |keys| == |vals| && AllKeys(keys) && i <= |keys|
    decreases |keys| - i
  {
    if i == |keys| then m
    else Overlay(m[KeyText(keys[i]) := vals[i]], keys, vals, i + 1)
  }

  /** The keys are exactly 1, 2, …, n in iteration order. */
  predicate Sequential(keys: seq<LuaValue>) {
    forall i :: 0 <= i < |keys| ==> keys[i] == IntKey(i + 1)
  }

  /** The position of the first key that is not the next array index, at or after `from`. */
  function BreakFrom(keys: seq<LuaValue>, from: nat): (p: nat)
    requires from <= |keys|
    ensures from <= p <= |keys|
    ensures forall i :: from <= i < p ==> keys[i] == IntKey(i + 1)
    ensures p < |keys| ==> keys[p] != IntKey(p + 1)
    decreases |keys| - from
  {
    if from == |keys| then from
    else if keys[from] == IntKey(from + 1) then BreakFrom(keys, from + 1)
    else from
  }

  /** The entry at which a walk leaves array mode, or `|keys|` if it never does. */
  function FirstBreak(keys: seq<LuaValue>): (p: nat)
    ensures p <= |keys| && (p == |keys| <==> Sequential(keys))
    ensures forall i :: 0 <= i < p ==> keys[i] == IntKey(i + 1)
    ensures p < |keys| ==> keys[p] != IntKey(p + 1)
  {
    BreakFrom(keys, 0)
  }

  /** Entry `j` is the last entry whose key text is its own: no later
      entry writes the same key. */
  predicate LastWriter(keys: seq<LuaValue>, j: int)
    requires AllKeys(keys)
  {
    0 <= j < |keys| && forall i :: j < i < |keys| ==> KeyText(keys[i]) != KeyText(keys[j])
  }

  // ---------------------------------------------------------------------
  // The table walk is the classifier applied to the converted values
  // ---------------------------------------------------------------------

  lemma {:induction false} WalkClassifies(t: LuaValue, i: nat, b: Builder, vals: seq<Json>)
    requires t.Table? && i <= |t.entries| && |vals| == |t.entries|
    requires forall j :: 0 <= j < |t.entries| ==> IsKey(t.entries[j].0) && Encode(t.entries[j].1) == Ok(vals[j])
    ensures AllKeys(KeysOf(t.entries))
    ensures Walk(t, i, b) == Ok(Finish(Classify(KeysOf(t.entries), vals, i, b)))
    decreases |t.entries| - i
  {
    if i < |t.entries| {
      var k := t.entries[i].0;
      WalkStep(t, i, b, vals[i]);
      WalkClassifies(t, i + 1, Store(Switch(b, k), k, vals[i]), vals);
    }
  }

  /** One entry with a valid key and a converting value: the walk checks
      the mode, stores the value and goes on with the next entry. */
  lemma WalkStep(t: LuaValue, i: nat, b: Builder, j: Json)
    requires t.Table? && i < |t.entries|
    requires IsKey(t.entries[i].0) && Encode(t.entries[i].1) == Ok(j)
    ensures Walk(t, i, b) == Walk(t, i + 1, Store(Switch(b, t.entries[i].0), t.entries[i].0, j))
  {
  }

  /** A table whose keys are all valid and whose values all convert is
      the classifier's result on the converted values. */
  lemma EncodeClassifies(es: seq<(LuaValue, LuaValue)>) returns (vals: seq<Json>)
    requires Convertible(es)
    ensures |vals| == |es| && forall i :: 0 <= i < |es| ==> Encode(es[i].1) == Ok(vals[i])
    ensures AllKeys(KeysOf(es))
    ensures Encode(Table(es)) == Ok(Finish(Classify(KeysOf(es), vals, 0, START)))
  {
    vals := seq(|es|, i requires 0 <= i < |es| => Encode(es[i].1).value);
    WalkClassifies(Table(es), 0, START, vals);
  }

  // ---------------------------------------------------------------------
  // Errors
  // ---------------------------------------------------------------------

  /** No function, userdata or thread is stored as a value, at any depth. */
  predicate NoUnsupported(v: LuaValue) {
    match v
    case Unsupported(_) => false
    case Table(es) => forall i :: 0 <= i < |es| ==> NoUnsupported(es[i].1)
    case _ => true
  }

  /** Every table key, at any depth, is a string or an integer. */
  predicate KeysValid(v: LuaValue) {
    match v
    case Table(es) => forall i :: 0 <= i < |es| ==> IsKey(es[i].0) && KeysValid(es[i].1)
    case _ => true
  }

  /** A conversion fails exactly when an unsupported value or an invalid key
      occurs anywhere; the error is one of the two, and it is the one that
      is present when only one kind occurs. */
  lemma {:induction false} EncodeFails(v: LuaValue)
    ensures Encode(v).Ok? <==> NoUnsupported(v) && KeysValid(v)
    ensures Encode(v).Err? ==> Encode(v).error == UnsupportedType || Encode(v).error == InvalidKey
    ensures Encode(v).Err? && KeysValid(v) ==> Encode(v).error == UnsupportedType
    ensures Encode(v).Err? && NoUnsupported(v) ==> Encode(v).error == InvalidKey
    decreases v, Width(v), 2
  {
    if v.Table? {
      WalkFails(v, 0, START);
    }
  }

  lemma {:induction false} WalkFails(t: LuaValue, i: nat, b: Builder)
    requires t.Table? && i <= |t.entries|
    ensures Walk(t, i, b).Ok? <==>
      forall j :: i <= j < |t.entries| ==>
        IsKey(t.entries[j].0) && NoUnsupported(t.entries[j].1) && KeysValid(t.entries[j].1)
    ensures Walk(t, i, b).Err? ==> Walk(t, i, b).error == UnsupportedType || Walk(t, i, b).error == InvalidKey
    ensures Walk(t, i, b).Err? && (forall j :: i <= j < |t.entries| ==> IsKey(t.entries[j].0) && KeysValid(t.entries[j].1))
      ==> Walk(t, i, b).error == UnsupportedType
    ensures Walk(t, i, b).Err? && (forall j :: i <= j < |t.entries| ==> NoUnsupported(t.entries[j].1))
      ==> Walk(t, i, b).error == InvalidKey
    decreases t, |t.entries| - i, 2
  {
    WalkSucceeds(t, i, b);
    WalkErrorKind(t, i, b);
  }

  /** From entry `i` on, a walk succeeds exactly when every remaining key is
      valid and every remaining value converts. */
  lemma WalkSucceeds(t: LuaValue, i: nat, b: Builder)
    requires t.Table? && i <= |t.entries|
    ensures Walk(t, i, b).Ok? <==> forall j :: i <= j < |t.entries| ==> Converts(t.entries[j])
    decreases t, |t.entries| - i, 1
  {
    if Walk(t, i, b).Ok? {
      WalkOkConverts(t, i, b);
    }
    if forall j :: i <= j < |t.entries| ==> Converts(t.entries[j]) {
      ConvertsWalkOk(t, i, b);
    }
  }

  /** A walk that succeeds has converted every remaining entry. */
  lemma {:induction false} WalkOkConverts(t: LuaValue, i: nat, b: Builder)
    requires t.Table? && i <= |t.entries|
    requires Walk(t, i, b).Ok?
    ensures forall j :: i <= j < |t.entries| ==> Converts(t.entries[j])
    decreases t, |t.entries| - i, 0
  {
    if i < |t.entries| {
      var k := t.entries[i].0;
      var j := WalkOkStep(t, i, b);
      WalkOkConverts(t, i + 1, Store(Switch(b, k), k, j));
      ConvertsWhenOk(t.entries[i]);
      forall m | i <= m < |t.entries|
        ensures Converts(t.entries[m])
      {
        if m > i {
          assert i + 1 <= m;
        }
      }
    }
  }

  /** An entry with a valid key whose value converts is a converting entry. */
  lemma ConvertsWhenOk(e: (LuaValue, LuaValue))
    requires IsKey(e.0) && Encode(e.1).Ok?
    ensures Converts(e)
    decreases e.1, Width(e.1), 3
  {
    EncodeFails(e.1);
  }

  /** A walk that succeeds passed the key check and converted the value of
      entry `i`, and succeeds from the next entry on. */
  lemma WalkOkStep(t: LuaValue, i: nat, b: Builder) returns (j: Json)
    requires t.Table? && i < |t.entries|
    requires Walk(t, i, b).Ok?
    ensures IsKey(t.entries[i].0) && Encode(t.entries[i].1) == Ok(j)
    ensures Walk(t, i + 1, Store(Switch(b, t.entries[i].0), t.entries[i].0, j)).Ok?
  {
    j := Encode(t.entries[i].1).value;
  }

  /** A walk over entries that all convert succeeds. */
  lemma {:induction false} ConvertsWalkOk(t: LuaValue, i: nat, b: Builder)
    requires t.Table? && i <= |t.entries|
    requires forall j :: i <= j < |t.entries| ==> Converts(t.entries[j])
    ensures Walk(t, i, b).Ok?
    decreases t, |t.entries| - i, 0
  {
    if i < |t.entries| {
      var k := t.entries[i].0;
      assert Converts(t.entries[i]);
      EncodeFails(t.entries[i].1);
      var j := Encode(t.entries[i].1).value;
      ConvertsWalkOk(t, i + 1, Store(Switch(b, k), k, j));
    }
  }

  /** An entry with a valid key whose value converts, at any depth. */
  predicate Converts(e: (LuaValue, LuaValue)) {
    IsKey(e.0) && NoUnsupported(e.1) && KeysValid(e.1)
  }

  /** A walk whose remaining keys are all valid can only fail on an
      unsupported value, and one whose remaining values are all supported
      only on an invalid key. */
  lemma {:induction false} WalkErrorKind(t: LuaValue, i: nat, b: Builder)
    requires t.Table? && i <= |t.entries|
    ensures Walk(t, i, b).Err? && (forall j :: i <= j < |t.entries| ==> IsKey(t.entries[j].0) && KeysValid(t.entries[j].1))
      ==> Walk(t, i, b).error == UnsupportedType
    ensures Walk(t, i, b).Err? && (forall j :: i <= j < |t.entries| ==> NoUnsupported(t.entries[j].1))
      ==> Walk(t, i, b).error == InvalidKey
    decreases t, |t.entries| - i, 0
  {
    if i < |t.entries| {
      var k := t.entries[i].0;
      if IsKey(k) {
        EncodeFails(t.entries[i].1);
        match Encode(t.entries[i].1)
        case Err(_) =>
        case Ok(j) => WalkErrorKind(t, i + 1, Store(Switch(b, k), k, j));
      }
    }
  }

  // ---------------------------------------------------------------------
  // Array mode, object mode and the switch between them
  // ---------------------------------------------------------------------

  /** While the keys continue the array, the array grows and nothing else changes. */
  lemma {:induction false} ClassifyArrayRun(keys: seq<LuaValue>, vals: seq<Json>, i: nat, p: nat)
    requires |keys| == |vals| && AllKeys(keys) && i <= p <= |keys|
    requires forall j :: i <= j < p ==> keys[j] == IntKey(j + 1)
    ensures Classify(keys, vals, i, Builder(vals[..i], map[], false))
         == Classify(keys, vals, p, Builder(vals[..p], map[], false))
    decreases p - i
  {
    if i < p {
      assert vals[..i] + [vals[i]] == vals[..i + 1];
      ClassifyArrayRun(keys, vals, i + 1, p);
    }
  }

  /** `useObj` never goes back: once in object mode a walk stays there, the
      array stays as it was, and every entry is written into the object. */
  lemma {:induction false} ClassifyObjectMode(keys: seq<LuaValue>, vals: seq<Json>, i: nat, b: Builder)
    requires |keys| == |vals| && AllKeys(keys) && i <= |keys|
    requires b.useObj
    ensures Classify(keys, vals, i, b) == Builder(b.arr, Overlay(b.obj, keys, vals, i), true)
    decreases |keys| - i
  {
    if i < |keys| {
      ObjectStore(b, keys[i], vals[i]);
      ClassifyObjectMode(keys, vals, i + 1, Store(Switch(b, keys[i]), keys[i], vals[i]));
    }
  }

  /** In object mode one entry is the one update of its key text. */
  lemma ObjectStore(b: Builder, k: LuaValue, j: Json)
    requires b.useObj && IsKey(k)
    ensures Store(Switch(b, k), k, j) == Builder(b.arr, b.obj[KeyText(k) := j], true)
  {
  }

  /** From the start of a walk: an array of the values when the keys are
      1..n in order, otherwise an object made of the relocated prefix
      overwritten by the entries from the breaking key on. */
  lemma ClassifyFromStart(keys: seq<LuaValue>, vals: seq<Json>)
    requires |keys| == |vals| && AllKeys(keys)
    ensures Sequential(keys) ==> Classify(keys, vals, 0, START) == Builder(vals, map[], false)
    ensures !Sequential(keys) ==>
      var p := FirstBreak(keys);
      Classify(keys, vals, 0, START) == Builder([], Overlay(Relocated(vals[..p]), keys, vals, p), true)
  {
    var p := FirstBreak(keys);
    assert vals[..0] == [];
    ClassifyArrayRun(keys, vals, 0, p);
    if p < |keys| {
      var b := Builder(vals[..p], map[], false);
      assert Switch(b, keys[p]) == Builder([], Relocated(vals[..p]), true);
      ClassifyObjectMode(keys, vals, p + 1, Store(Switch(b, keys[p]), keys[p], vals[p]));
    } else {
      assert vals[..p] == vals;
    }
  }

  /** Some entry from `i` on has key text `s`. */
  predicate WrittenFrom(keys: seq<LuaValue>, i: nat, s: string)
    requires AllKeys(keys)
  {
    exists j :: i <= j < |keys| && KeyText(keys[j]) == s
  }

  lemma {:induction false} OverlayKeys(m: map<string, Json>, keys: seq<LuaValue>, vals: seq<Json>, i: nat, s: string)
    requires |keys| == |vals| && AllKeys(keys) && i <= |keys|
    ensures s in Overlay(m, keys, vals, i) <==> s in m || WrittenFrom(keys, i, s)
    decreases |keys| - i
  {
    if i < |keys| {
      var next := m[KeyText(keys[i]) := vals[i]];
      OverlayKeys(next, keys, vals, i + 1, s);
      assert s in next <==> s in m || KeyText(keys[i]) == s;
      assert WrittenFrom(keys, i, s) <==> KeyText(keys[i]) == s || WrittenFrom(keys, i + 1, s);
    }
  }

  lemma {:induction false} OverlayKeeps(m: map<string, Json>, keys: seq<LuaValue>, vals: seq<Json>, i: nat, s: string)
    requires |keys| == |vals| && AllKeys(keys) && i <= |keys|
    requires s in m && forall j :: i <= j < |keys| ==> KeyText(keys[j]) != s
    ensures s in Overlay(m, keys, vals, i) && Overlay(m, keys, vals, i)[s] == m[s]
    decreases |keys| - i
  {
    if i < |keys| {
      OverlayKeeps(m[KeyText(keys[i]) := vals[i]], keys, vals, i + 1, s);
    }
  }

  lemma {:induction false} OverlayLast(m: map<string, Json>, keys: seq<LuaValue>, vals: seq<Json>, i: nat, j: nat)
    requires |keys| == |vals| && AllKeys(keys) && i <= j
    requires LastWriter(keys, j)
    ensures KeyText(keys[j]) in Overlay(m, keys, vals, i) && Overlay(m, keys, vals, i)[KeyText(keys[j])] == vals[j]
    decreases |keys| - i
  {
    var m1 := m[KeyText(keys[i]) := vals[i]];
    if i < j {
      OverlayLast(m1, keys, vals, i + 1, j);
    } else {
      OverlayKeeps(m1, keys, vals, i + 1, KeyText(keys[j]));
    }
  }

  /** The object a walk builds once a key breaks the array: the relocated
      prefix overwritten by the entries from the breaking one on. */
  lemma ObjectFromStart(keys: seq<LuaValue>, vals: seq<Json>) returns (p: nat, base: map<string, Json>)
    requires |keys| == |vals| && AllKeys(keys) && !Sequential(keys)
    ensures p == FirstBreak(keys) && p < |keys| && base == Relocated(vals[..p])
    ensures Classify(keys, vals, 0, START) == Builder([], Overlay(base, keys, vals, p), true)
  {
    ClassifyFromStart(keys, vals);
    p := FirstBreak(keys);
    base := Relocated(vals[..p]);
  }

  /** Its keys: "0".."p-1" and the key text of every entry from p on. */
  lemma ObjectKeys(keys: seq<LuaValue>, vals: seq<Json>, s: string)
    requires |keys| == |vals| && AllKeys(keys) && !Sequential(keys)
    ensures var m, p := Classify(keys, vals, 0, START).obj, FirstBreak(keys);
      s in m <==> (exists i :: 0 <= i < p && s == Decimal(i)) || (exists j :: p <= j < |keys| && s == KeyText(keys[j]))
  {
    var p, base := ObjectFromStart(keys, vals);
    OverlayKeys(base, keys, vals, p, s);
    RelocatedKey(vals[..p], s);
  }

  /** A key written from p on holds the value of its last writer. */
  lemma ObjectLastWriter(keys: seq<LuaValue>, vals: seq<Json>, j: nat)
    requires |keys| == |vals| && AllKeys(keys) && !Sequential(keys)
    requires FirstBreak(keys) <= j && LastWriter(keys, j)
    ensures var m := Classify(keys, vals, 0, START).obj;
      KeyText(keys[j]) in m && m[KeyText(keys[j])] == vals[j]
  {
    var p, base := ObjectFromStart(keys, vals);
    OverlayLast(base, keys, vals, p, j);
  }

  /** A relocated key that no later entry writes keeps its zero-based value. */
  lemma ObjectRelocated(keys: seq<LuaValue>, vals: seq<Json>, i: nat)
    requires |keys| == |vals| && AllKeys(keys) && !Sequential(keys)
    requires i < FirstBreak(keys)
    requires forall j :: FirstBreak(keys) <= j < |keys| ==> KeyText(keys[j]) != Decimal(i)
    ensures var m := Classify(keys, vals, 0, START).obj;
      Decimal(i) in m && m[Decimal(i)] == vals[i]
  {
    var p, base := ObjectFromStart(keys, vals);
    RelocatedAt(vals[..p], i);
    OverlayKeeps(base, keys, vals, p, Decimal(i));
  }

  /** A table that is not 1..n converts to the object the classifier builds. */
  lemma EncodeObject(es: seq<(LuaValue, LuaValue)>) returns (keys: seq<LuaValue>, vals: seq<Json>)
    requires Convertible(es) && !Sequential(KeysOf(es))
    ensures keys == KeysOf(es) && AllKeys(keys)
    ensures |vals| == |es| && forall i :: 0 <= i < |es| ==> Encode(es[i].1) == Ok(vals[i])
    ensures Encode(Table(es)) == Ok(Object(Classify(keys, vals, 0, START).obj))
  {
    keys := KeysOf(es);
    vals := EncodeClassifies(es);
    ClassifyFromStart(keys, vals);
  }

  /** In object mode the keys are "0".."p-1" for the entries relocated from
      the array (p is the entry that broke it) and the key text of every
      entry from p on. */
  lemma EncodeObjectKeys(es: seq<(LuaValue, LuaValue)>, s: string)
    requires Convertible(es) && !Sequential(KeysOf(es))
    ensures Encode(Table(es)).Ok? && Encode(Table(es)).value.Object?
    ensures var m, p := Encode(Table(es)).value.fields, FirstBreak(KeysOf(es));
      s in m <==> (exists i :: 0 <= i < p && s == Decimal(i)) || (exists j :: p <= j < |es| && s == KeyText(es[j].0))
  {
    var keys, vals := EncodeObject(es);
    ObjectKeys(keys, vals, s);
  }

  /** An entry from p on that no later entry overwrites is stored under its
      own key text: the last write to a key wins. */
  lemma EncodeObjectLastWrite(es: seq<(LuaValue, LuaValue)>, j: nat)
    requires Convertible(es) && !Sequential(KeysOf(es))
    requires FirstBreak(KeysOf(es)) <= j < |es|
    requires forall i :: j < i < |es| ==> KeyText(es[i].0) != KeyText(es[j].0)
    ensures Encode(Table(es)).Ok? && Encode(Table(es)).value.Object?
    ensures var m := Encode(Table(es)).value.fields;
      KeyText(es[j].0) in m && Encode(es[j].1) == Ok(m[KeyText(es[j].0)])
  {
    var keys, vals := EncodeObject(es);
    ObjectLastWriter(keys, vals, j);
  }

  /** An entry relocated from the array keeps its zero-based key "i" unless
      a later entry writes that key text. */
  lemma EncodeObjectRelocated(es: seq<(LuaValue, LuaValue)>, i: nat)
    requires Convertible(es) && !Sequential(KeysOf(es))
    requires i < FirstBreak(KeysOf(es))
    requires forall j :: FirstBreak(KeysOf(es)) <= j < |es| ==> KeyText(es[j].0) != Decimal(i)
    ensures Encode(Table(es)).Ok? && Encode(Table(es)).value.Object?
    ensures var m := Encode(Table(es)).value.fields;
      Decimal(i) in m && Encode(es[i].1) == Ok(m[Decimal(i)])
  {
    var keys, vals := EncodeObject(es);
    ObjectRelocated(keys, vals, i);
  }

  /** A table whose every key and value converts becomes an array exactly
      when its keys are 1, 2, ..., n in iteration order, and an object
      otherwise; an array holds the converted values in that order. */
  lemma EncodeTableShape(es: seq<(LuaValue, LuaValue)>)
    requires Convertible(es)
    ensures Encode(Table(es)).Ok?
    ensures Encode(Table(es)).value.Array? <==> Sequential(KeysOf(es))
    ensures Encode(Table(es)).value.Object? <==> !Sequential(KeysOf(es))
    ensures Encode(Table(es)).value.Array? ==>
      |Encode(Table(es)).value.items| == |es| &&
      forall i :: 0 <= i < |es| ==> Encode(es[i].1) == Ok(Encode(Table(es)).value.items[i])
  {
    var vals := EncodeClassifies(es);
    ClassifyFromStart(KeysOf(es), vals);
  }

  /** The empty table converts to the empty array, not to an object. */
  lemma EmptyTableIsArray()
    ensures Encode(Table([])) == Ok(Array([]))
  {
  }

  /** Keys 1 and 3: the gap at 3 moves "a" to "0", and 3 keeps its own text. */
  lemma GapExample()
    ensures Encode(Table([(IntKey(1), Str("a")), (IntKey(3), Str("b"))]))
         == Ok(Object(map["0" := String("a"), "3" := String("b")]))
  {
    var t := Table([(IntKey(1), Str("a")), (IntKey(3), Str("b"))]);
    var b1 := Builder([String("a")], map[], false);
    var b3 := Builder([], map["0" := String("a"), "3" := String("b")], true);
    WalkStep(t, 0, START, String("a"));
    FirstIndexStays(String("a"));
    WalkStep(t, 1, b1, String("b"));
    GapRelocates();
  }

  /** Key 1 on an empty array keeps array mode and appends. */
  lemma FirstIndexStays(j: Json)
    ensures Store(Switch(START, IntKey(1)), IntKey(1), j) == Builder([j], map[], false)
  {
  }

  /** A single relocated element sits under "0". */
  lemma RelocatedSingle(j: Json)
    ensures Relocated([j]) == map["0" := j]
  {
    assert [j][..0] == [];
    assert Decimal(0) == "0";
  }

  /** Key 3 after one element switches to object mode and is stored under "3". */
  lemma GapRelocates()
    ensures Store(Switch(Builder([String("a")], map[], false), IntKey(3)), IntKey(3), String("b"))
         == Builder([], map["0" := String("a"), "3" := String("b")], true)
  {
    RelocatedSingle(String("a"));
    assert KeyText(IntKey(3)) == Decimal(3) == "3";
  }

  /** Keys 1 then "x": the string key moves the first entry to "0". */
  lemma MixedKeyExample()
    ensures Encode(Table([(IntKey(1), Boolean(true)), (Str("x"), Boolean(false))]))
         == Ok(Object(map["0" := Bool(true), "x" := Bool(false)]))
  {
    var t := Table([(IntKey(1), Boolean(true)), (Str("x"), Boolean(false))]);
    var b1 := Builder([Bool(true)], map[], false);
    WalkStep(t, 0, START, Bool(true));
    FirstIndexStays(Bool(true));
    WalkStep(t, 1, b1, Bool(false));
    StringKeyRelocates();
  }

  /** A string key after one element switches to object mode and is stored under its text. */
  lemma StringKeyRelocates()
    ensures Store(Switch(Builder([Bool(true)], map[], false), Str("x")), Str("x"), Bool(false))
         == Builder([], map["0" := Bool(true), "x" := Bool(false)], true)
  {
    RelocatedSingle(Bool(true));
    assert KeyText(Str("x")) == "x";
  }

  /** A function stored two tables deep aborts the whole conversion. */
  lemma NestedUnsupportedExample()
    ensures Encode(Table([(IntKey(1), Table([(Str("f"), Unsupported(Function))]))])) == Err(UnsupportedType)
  {
  }
}
