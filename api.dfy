/**
  The two functions the module exports to Lua, `ToJson` and `FromJson`
  (json.cpp:45-87), as functions from their argument to a result: an
  error becomes `Err` where the source raises it with `lua_error`.
  The serialiser `dump` and the parser `Json::parse` belong to json11
  and are not part of this model: ToJson yields the tree it would dump,
  FromJson takes what the parser returned (a tree and an error text).
 */
module Api {
  import opened Values
  import opened Encoder
  import opened Classifier
  import opened Decoder

  /** `ToJson(...)` (json.cpp:45-64), given the call's arguments: the first
      must be a table (a missing one is reported as "no value"), the rest
      are ignored; the conversion's error, if any, is raised; otherwise
      its tree is dumped. */
  function ToJson(args: seq<LuaValue>): (r: Result<Json>)
    ensures r.Err? && r.error.TableExpected? <==> args == [] || !args[0].Table?
    ensures args == [] ==> r == Err(TableExpected(NO_VALUE))
    ensures args != [] && !args[0].Table? ==> r == Err(TableExpected(TypeName(args[0])))
    ensures args != [] && args[0].Table? ==> r == Encode(args[0])
  {
    if args == [] then Err(TableExpected(NO_VALUE))
    else if !args[0].Table? then Err(TableExpected(TypeName(args[0])))
    else
      EncodeFails(args[0]);
      Encode(args[0])
  }

  /** ToJson succeeds exactly on a first argument that is a table without
      unsupported values or invalid keys at any depth, and its result is
      then an array or an object, never a scalar. */
  lemma ToJsonOutcome(args: seq<LuaValue>)
    ensures ToJson(args).Ok? <==> args != [] && args[0].Table? && NoUnsupported(args[0]) && KeysValid(args[0])
    ensures ToJson(args).Ok? ==> ToJson(args).value.Array? || ToJson(args).value.Object?
  {
    if args != [] {
      var arg := args[0];
      EncodeFails(arg);
      if arg.Table? && ToJson(args).Ok? {
        forall i | 0 <= i < |arg.entries|
          ensures IsKey(arg.entries[i].0) && Encode(arg.entries[i].1).Ok?
        {
          EncodeFails(arg.entries[i].1);
        }
        EncodeTableShape(arg.entries);
      }
    }
  }

  /** The text ToJson raises on failure is the argument error, or one of
      the two fixed texts of the conversion. */
  lemma ToJsonMessage(args: seq<LuaValue>)
    requires ToJson(args).Err?
    ensures var m := Message(ToJson(args).error);
      m in {UNSUPPORTED_MESSAGE, INVALID_KEY_MESSAGE} ||
      m == "bad argument #1 to 'ToJson' (table expected, got no value)" ||
      (args != [] && m == "bad argument #1 to 'ToJson' (table expected, got " + TypeName(args[0]) + ")")
  {
    if args != [] && args[0].Table? {
      EncodeFails(args[0]);
    }
  }

  /** `FromJson(s)` (json.cpp:67-87), given what the parser returned for
      `s`: the parse fails only when it reports an error AND its result is
      null; a reported error beside a non-null result is ignored. */
  function FromJson(parsed: Json, err: string): (r: Result<LuaValue>)
    ensures r.Err? <==> err != [] && parsed.Null?
    ensures r.Err? ==> r.error == ParseError(err)
    ensures r.Ok? ==> r.value == Decode(parsed)
  {
    if err != [] && parsed.Null? then Err(ParseError(err))
    else Ok(Decode(parsed))
  }

  /** FromJson yields nil only for the JSON null, and a container for a
      container; a successful parse never fails. */
  lemma FromJsonOutcome(parsed: Json, err: string)
    ensures err == [] ==> FromJson(parsed, err).Ok?
    ensures FromJson(parsed, err).Ok? ==> (FromJson(parsed, err).value == Nil <==> parsed.Null?)
    ensures FromJson(parsed, err).Ok? ==>
      (FromJson(parsed, err).value.Table? <==> parsed.Array? || parsed.Object?)
  {
  }
}
