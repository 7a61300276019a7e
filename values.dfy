/**
  The two value models that json.cpp converts between: Lua values as the
  host stack presents them, and the json11 document tree.

  Every `string` here stands for a byte string: one `char` per byte.
 */
module Values {

  /** A Lua number keeps its subtype: `lua_isinteger` tells the two apart. */
  datatype LuaNumber = Int(i: int) | Flt(d: real)

  /** The Lua types the encoder refuses to convert. */
  datatype UnsupportedKind = LightUserdata | Function | Userdata | Thread

  /**
    A Lua value. A table is given by its entries in the order `lua_next`
    visits them; a table the host built never repeats a key and never
    holds a nil key or a nil value (see WellFormedTable).
   */
  datatype LuaValue =
    | Nil
    | Boolean(b: bool)
    | Number(n: LuaNumber)
    | Str(s: string)
    | Table(entries: seq<(LuaValue, LuaValue)>)
    | Unsupported(kind: UnsupportedKind)

  /** A json11 value; an object is a `std::map` from string keys. */
  datatype Json =
    | Null
    | Num(d: real)
    | Bool(b: bool)
    | String(s: string)
    | Array(items: seq<Json>)
    | Object(fields: map<string, Json>)

  /** Why a conversion failed; each carries the text the source reports. */
  datatype Error =
    | UnsupportedType
    | InvalidKey
    | TableExpected(got: string)
    | ParseError(message: string)

  /** The result of a conversion: a value or the error, never both. */
  datatype Result<T> = Ok(value: T) | Err(error: Error)

  const UNSUPPORTED_MESSAGE := "Unsupported data type. Only nil, number, boolean, string and table are supported."
  const INVALID_KEY_MESSAGE := "Invalid key type: only string and integers allowed."

  /** The text raised to the Lua caller for each error.  The argument check
      of `ToJson` (json.cpp:46) raises the Lua library's argument error,
      here for a function called by the name ToJson. */
  function Message(e: Error): (r: string)
    ensures e.ParseError? ==> r == e.message
    ensures e.TableExpected? ==> r == "bad argument #1 to 'ToJson' (table expected, got " + e.got + ")"
    ensures e.UnsupportedType? ==> r == UNSUPPORTED_MESSAGE
    ensures e.InvalidKey? ==> r == INVALID_KEY_MESSAGE
  {
    match e
    case UnsupportedType => UNSUPPORTED_MESSAGE
    case InvalidKey => INVALID_KEY_MESSAGE
    case TableExpected(got) => "bad argument #1 to 'ToJson' (table expected, got " + got + ")"
    case ParseError(message) => message
  }

  /** The type name the argument error reports for a value that is
      present: a light userdata is named as such, every other value by its
      Lua type. */
  function TypeName(v: LuaValue): (r: string)
    ensures r == "table" <==> v.Table?
    ensures r == "nil" <==> v.Nil?
    ensures v.Boolean? ==> r == "boolean"
    ensures v.Number? ==> r == "number"
    ensures v.Str? ==> r == "string"
    ensures v == Unsupported(LightUserdata) ==> r == "light userdata"
    ensures v == Unsupported(Function) ==> r == "function"
    ensures v == Unsupported(Userdata) ==> r == "userdata"
    ensures v == Unsupported(Thread) ==> r == "thread"
  {
    match v
    case Nil => "nil"
    case Boolean(_) => "boolean"
    case Number(_) => "number"
    case Str(_) => "string"
    case Table(_) => "table"
    case Unsupported(LightUserdata) => "light userdata"
    case Unsupported(Function) => "function"
    case Unsupported(Userdata) => "userdata"
    case Unsupported(Thread) => "thread"
  }

  /** The type name reported when the argument is missing. */
  const NO_VALUE := "no value"

  /** A key the encoder accepts: a string or a number of integer subtype. */
  predicate IsKey(k: LuaValue) {
    k.Str? || (k.Number? && k.n.Int?)
  }

  /** The Lua integer key `i`. */
  function IntKey(i: int): LuaValue {
    Number(Int(i))
  }

  /** The keys of a table's entries, in iteration order. */
  function KeysOf(es: seq<(LuaValue, LuaValue)>): (keys: seq<LuaValue>)
    ensures |keys| == |es| && forall i :: 0 <= i < |es| ==> keys[i] == es[i].0
  {
    seq(|es|, i requires 0 <= i < |es| => es[i].0)
  }

  /** The value `t[k]` reads: the value of the first entry with key `k`, or
      nil when there is none. */
  function Get(es: seq<(LuaValue, LuaValue)>, k: LuaValue): (v: LuaValue)
  {
    if es == [] then Nil
    else if es[0].0 == k then es[0].1
    else Get(es[1..], k)
  }

  /** The first entry with key `k` answers the read. */
  lemma {:induction false} GetFirst(es: seq<(LuaValue, LuaValue)>, k: LuaValue, i: nat)
    requires i < |es| && es[i].0 == k
    requires forall h :: 0 <= h < i ==> es[h].0 != k
    ensures Get(es, k) == es[i].1
  {
    if i > 0 {
      GetFirst(es[1..], k, i - 1);
    }
  }

  /** A key no entry has reads as nil. */
  lemma {:induction false} GetAbsent(es: seq<(LuaValue, LuaValue)>, k: LuaValue)
    requires forall i :: 0 <= i < |es| ==> es[i].0 != k
    ensures Get(es, k) == Nil
  {
    if es != [] {
      GetAbsent(es[1..], k);
    }
  }

  /** What the host guarantees of a table: distinct keys, no nil key or value. */
  predicate WellFormedTable(es: seq<(LuaValue, LuaValue)>) {
    && (forall i :: 0 <= i < |es| ==> es[i].0 != Nil && es[i].1 != Nil)
    && (forall i, j :: 0 <= i < j < |es| ==> es[i].0 != es[j].0)
  }
}
