# ljson11 conversion core, modelled in Dafny

`json.cpp` of ljson11 is a Lua module with two functions. `ToJson(t)`
turns a Lua table into JSON text. `FromJson(s)` turns JSON text into Lua
values. Both directions pass through a json11 tree. This project models
the conversions between Lua values and that tree, and the two entry
points around them:

- `values.dfy` (module `Values`) holds the Lua values, the json11 tree,
  the errors with their messages, and a `Result` type. A table is the
  sequence of its entries in `lua_next` order.
- `text.dfy` (module `Text`) holds the key texts. `Decimal` is
  `std::to_string` of an index. `IntText` is `lua_tostring` of an integer
  key. `CString` is a key read through `const char*`, cut at the first
  NUL. `SortedKeys` is the order in which `std::map` visits an object's
  keys.
- `encoder.dfy` (module `Encoder`) holds the Lua-to-JSON direction.
  - `Encode` and `Walk` specify it as functions.
  - `ToJsonValue` is the source's recursive walk, with its loop over the
    table and the `arr`, `obj` and `use_obj` state updated in place. It
    is proved equal to `Encode`. Its mode check is `CheckMode`, proved
    against `Switch`.
  - `ArrToObj` is `json_arr_to_obj`, proved against `Relocated`.
- `classifier.dfy` (module `Classifier`) proves what a table walk
  produces:
  - an array exactly for the keys 1..n in order, an object otherwise;
  - the one-way switch to object mode;
  - relocated entries under zero-based keys;
  - later keys under their own text, with the last write winning;
  - errors from any depth aborting the whole conversion.
- `decoder.dfy` (module `Decoder`) holds the JSON-to-Lua direction,
  `json_push_value`. It is a total function with no error case.
- `api.dfy` (module `Api`) holds the exported `ToJson` and `FromJson`
  with their entry checks.
- `roundtrip.dfy` (module `RoundTrip`) states which values survive both
  directions in turn, with an example for each kind that does not.

Points where the behaviour is easy to mistake:

- **Keys 1 and 3.** Only the entries moved out by `json_arr_to_obj` get
  zero-based keys (json.cpp:232). Key 3 arrives after the switch to
  object mode, so it keeps its own text, `"3"` (json.cpp:211-213). So
  `{1:"a",3:"b"}` gives `{"0":"a","3":"b"}`, not `{"0":"a","2":"b"}`
  (`Classifier.GapExample`).
- **Object key order.** json11 objects are a `std::map`, so their keys
  are visited in byte order, not in insertion order (`Text.SortedKeys`).
- **String keys cut at NUL.** Strings are copied with their length, but
  an object-mode key is stored through `const char*` (json.cpp:211-213).
  So a string key is cut at its first NUL byte.
- **Null inside a container.** `lua_rawseti` and `lua_rawset` with a nil
  value create no entry. So a JSON null inside an array or object leaves
  no entry in the Lua table.

## Model

| member | source | states |
|---|---|---|
| Encoder.ToJsonValue | json.cpp:138-226 | the recursive walk, whose loop keeps `arr`, `obj` and `use_obj` in place, returns exactly the `Encode` specification of the value: scalars map one to one, an unsupported type or an invalid key gives its error |
| Encoder.CheckMode | json.cpp:185-200 | the mode check leaves the loop's `arr`, `obj` and `use_obj` exactly as `Switch` says: unchanged in object mode or on the next array index, otherwise the array emptied into the object |
| Encoder.Encode | json.cpp:138-226 | nil, a boolean, a float and a string become null, the same boolean, the same number and the same string, and an integer becomes the number of its value; the conversion fails only on a table or an unsupported value, always on an unsupported value, only with one of the two errors, and a table that converts becomes an array or an object |
| Encoder.Walk | json.cpp:176-225 | a table walk fails only with one of the two errors, yields an array or an object, and an object once it has left array mode |
| Encoder.Switch | json.cpp:185-200 | object mode is never left; a valid key sets `use_obj` exactly when it is not the next one-based array index; a builder that stays in array mode is unchanged |
| Encoder.SwitchMoves | json.cpp:187-199 | leaving array mode empties the array and puts its relocation into the object |
| Encoder.Store | json.cpp:208-218 | the mode is kept; in object mode the value is stored under the key's text and the array is untouched; in array mode the value is appended after the old elements and the object is untouched |
| Encoder.StoreKeeps | json.cpp:211-213 | an object-mode store adds exactly the key's text to the keys and leaves every other key's value as it was |
| Encoder.Finish | json.cpp:223-225 | the walk yields an object exactly in object mode, holding the object built, and otherwise the array built |
| Encoder.Relocated | json.cpp:228-236 | the relocated map has at most one key per element and holds the last element under its zero-based index text |
| Encoder.KeyText | json.cpp:210-213 | a string key is stored as its longest NUL-free prefix: the text stops only at the first NUL or at the end, and is the whole key when it has no NUL; an integer key as its decimal text when non-negative, and as a minus sign followed by the decimal text of its magnitude when negative |
| Encoder.InvalidKeyStops | json.cpp:179-183 | a key that is neither a string nor a number of integer subtype ends the walk at once with the invalid-key error, whatever entries follow |
| Encoder.KeyTextNulExample | json.cpp:211-213 | the string key `"a\0b"` is stored in the object as `"a"` |
| Encoder.ArrToObj | json.cpp:228-236 | the source array is left empty; the destination holds exactly `Decimal(i)` ↦ `from[i]` for every index, one key per element and no other key |
| Encoder.RelocatedContents | json.cpp:231-234 | the map the relocation loop builds has as many keys as the array has elements, key "i" holds element i, and every key is the zero-based text of some index |
| Encoder.RelocatedAt | json.cpp:231-233 | key "i" of the relocated map holds element i, whatever is written after it |
| Encoder.RelocatedSize | json.cpp:231-233 | the relocated map has exactly one key per element: no two indices are written to the same key |
| Encoder.RelocatedKey | json.cpp:231-233 | a string is a key of the relocated map exactly when it is the decimal text of an index below the array's length |
| Text.Decimal | json.cpp:232 | `std::to_string` of an index is a non-empty run of decimal digits, of two or more digits exactly from 10 on |
| Text.DecimalValue | json.cpp:232 | read back most significant digit first, `std::to_string(i)` spells `i`, so key "i" names element i |
| Text.IntText | json.cpp:210-211 | `lua_tostring` of a non-negative integer key is its decimal text, of a negative one a minus sign followed by the decimal text of its magnitude; the text is non-empty, starts with a minus sign exactly for a negative key, and is digits otherwise |
| Text.IntTextValue | json.cpp:211 | read back as a signed decimal, the text of an integer key spells that integer |
| Text.DecimalInjective | json.cpp:232 | different indices get different keys, so relocation never merges two elements |
| Text.IntTextInjective | json.cpp:211 | different integer keys have different texts, so integer keys stored in object mode never collide with each other |
| Text.CString | json.cpp:211-213 | the key the object sees is the longest prefix of the key without a NUL byte |
| Text.SortedKeys | json.cpp:125-128 | the iteration over a json11 object visits exactly its keys, as many visits as keys |
| Text.SortedKeysOrdered | json.cpp:125-128 | the keys of a json11 object are visited in strictly increasing `std::string` order, so each key once |
| Classifier.EncodeFails | json.cpp:155-206 | a conversion succeeds if and only if no function, userdata or thread and no key other than a string or an integer occurs at any depth; a failure is one of the two errors, and it is the kind that occurs when only one kind occurs |
| Classifier.WalkSucceeds | json.cpp:176-221 | from entry i on, the walk succeeds exactly when every remaining entry has a valid key and a value that converts |
| Classifier.WalkErrorKind | json.cpp:176-206 | a walk whose remaining keys are all valid fails only on an unsupported value, and one whose remaining values are all supported fails only on an invalid key |
| Classifier.WalkFails | json.cpp:176-221 | from any point of a table walk, the walk succeeds exactly when every remaining key is valid and every remaining value converts, with the same error discipline |
| Classifier.EncodeTableShape | json.cpp:185-225 | a table whose keys and values all convert becomes an Array exactly when its keys are 1, 2, …, n in iteration order and an Object otherwise; the Array holds each value's conversion at its position |
| Classifier.ClassifyArrayRun | json.cpp:190-199 | while each key is the next array index the walk stays in array mode, the array being the values so far and the object empty |
| Classifier.ClassifyObjectMode | json.cpp:185-214 | once `use_obj` is set it stays set for the rest of the walk, the array is untouched, and every later entry is written into the object under its key text |
| Classifier.ClassifyFromStart | json.cpp:166-225 | from the start: keys 1..n leave array mode with the values in order; otherwise the walk ends in object mode holding the array before the first break relocated, overlaid by the stores from that key on |
| Classifier.FirstBreak | json.cpp:195 | the first position whose key is not its one-based index; it is the length exactly when the keys are 1..n |
| Classifier.EncodeObject | json.cpp:185-224 | a table whose keys are not 1..n converts to the object the classifier builds from its keys and converted values |
| Classifier.EncodeObjectKeys | json.cpp:185-214 | the object's keys are "0".."p-1" for the entries moved out of the array (p the first non-sequential key) and the key text of every entry from p on, and no other |
| Classifier.EncodeObjectLastWrite | json.cpp:208-214 | an entry from p on that no later entry with the same key text overwrites is stored under its key text with its value converted: the last write wins, with no index shift |
| Classifier.EncodeObjectRelocated | json.cpp:228-236 | an entry moved out of the array keeps its zero-based key "i" unless a later entry writes that key text |
| Classifier.EmptyTableIsArray | json.cpp:223-225 | the empty table converts to the empty array |
| Classifier.GapExample | json.cpp:190-213 | keys 1 and 3 give `{"0":"a","3":"b"}` |
| Classifier.MixedKeyExample | json.cpp:187-189 | a string key after key 1 moves the first entry to "0" |
| Classifier.NestedUnsupportedExample | json.cpp:202-206 | a function two tables deep aborts the whole conversion with the unsupported-type error |
| Decoder.Decode | json.cpp:89-136 | json_push_value yields nil exactly for null, a table exactly for an array or an object, and a boolean, number or string exactly for the JSON value of that kind, carrying the same boolean, the same number as a float, or the same string; never an unsupported value |
| Decoder.DecodeItems | json.cpp:114-121 | the array loop stores at most one entry per remaining item |
| Decoder.DecodeFields | json.cpp:122-132 | the object loop stores at most one entry per remaining key |
| Decoder.DecodeNil | json.cpp:96-110 | the decoder yields nil exactly for the JSON null |
| Decoder.DecodeArrayShape | json.cpp:114-121 | an array becomes a table with distinct integer keys in 1..n in increasing order, with no nil key or value |
| Decoder.DecodeArrayGet | json.cpp:117-120 | reading key k+1 of the decoded array gives the decoded item k, which is nil, so no entry, exactly where the item is null |
| Decoder.DecodeObjectShape | json.cpp:122-132 | an object becomes a table with distinct string keys, each a key of the object, with no nil value |
| Decoder.DecodeObjectGet | json.cpp:128-131 | reading key s of the decoded object gives the decoded field s, or nil when the field is absent or null |
| Decoder.ItemsShape | json.cpp:118-121 | the items from position i on are stored under increasing integer keys above i, none with a nil value |
| Decoder.FieldsShape | json.cpp:128-132 | the fields from position i on are stored under their own distinct string keys, none with a nil value |
| Values.TypeName | json.cpp:46 | the type name in the argument error is "table" exactly for a table and "nil" exactly for nil; a boolean, number or string is named "boolean", "number" or "string", and a light userdata, function, userdata or thread "light userdata", "function", "userdata" or "thread" |
| Values.Message | json.cpp:45-64 | the text of each error: the parser's text as is, the fixed unsupported-type and invalid-key texts, and "bad argument #1 to 'ToJson' (table expected, got …)" with the type name, without the caller position `luaL_error` adds |
| Api.ToJsonMessage | json.cpp:45-64 | a failed ToJson raises one of the two fixed texts or the argument error naming "no value" or the first argument's type |
| Api.ToJson | json.cpp:45-64 | the call fails with "table expected" exactly when there is no argument (reported as "no value") or the first one is not a table (reported by its type name); a table gives exactly its conversion |
| Api.ToJsonOutcome | json.cpp:45-64 | ToJson succeeds exactly when its first argument is a table without unsupported values or invalid keys at any depth, and then yields an array or an object |
| Api.FromJson | json.cpp:67-87 | the call fails, with the parser's text, exactly when the parser reported an error and returned null; otherwise it yields the decoded tree |
| Api.FromJsonOutcome | json.cpp:67-87 | a parse without error never fails, the result is nil only for the JSON null, and it is a table exactly for an array or an object |
| RoundTrip.EncodeDecode | json.cpp:89-226 | decoding then encoding gives back any tree without a null inside a container, without an empty object and without a NUL in an object key |
| RoundTrip.DecodeEncode | json.cpp:89-226 | encoding then decoding gives back any Lua value whose tables are arrays 1..n of non-integer scalars and such tables |
| RoundTrip.EmptyObjectExample | json.cpp:122-132 | the empty object comes back as the empty array |
| RoundTrip.NullItemExample | json.cpp:114-121 | `[null, true]` comes back as `{"2": true}` |
| RoundTrip.NulKeyExample | json.cpp:211-213 | an object key `"a\0b"` comes back as `"a"` |
| RoundTrip.IntegerExample | json.cpp:147-148 | a Lua integer comes back as the float of the same value |

## Left out

- Module registration (`luaopen_json`, json.cpp:30-41) is left out. It only installs the two functions.
- The Lua stack bookkeeping is left out: pushes, pops, `lua_settop` and the index adjustment at json.cpp:170-174. Values are passed as arguments and results instead.
- `lua_error` is left out. An error is returned as `Err`; `Values.Message` gives the text of the error; the caller position the Lua library puts in front of the argument error is left out (see the next line).
- Values.Message: the function name in the argument error is the name the call site used, which depends on how the module was bound; the model writes 'ToJson'. A userdata whose metatable has a `__name` field is reported by that name in Lua 5.3 and later; the model always writes "userdata". `luaL_error` also puts the caller's position (`chunk:line: `) in front of the argument error when the caller is a Lua function; the model leaves it out. The other three texts are raised as they are, with `lua_error`.
- A decoded object's entries are listed in json11's `std::map` order. The order in which `lua_next` would visit the new table's hash part is not modelled. The decoded table's contents do not depend on it, but re-encoding can: when two keys of an object become equal once cut at NUL (`{"a":1,"a\0b":2}`), `Encode(Decode(j))` keeps the field that comes later in byte order, while the source keeps whichever one `lua_next` visits last.
- json11's `dump` and `Json::parse` (with comments allowed) are not part of this model. `Api.ToJson` yields the tree that would be dumped. `Api.FromJson` takes the tree and the error text the parser returned.
- Api.FromJson: the input string reaches the parser through `lua_tostring`. What a non-string argument or an embedded NUL does to the input is left to the parser, which is not modelled.
- Floating point is left out. Numbers are `real`. The rounding of a Lua integer beyond 2^53 when it becomes a double (json.cpp:148) is not modelled.
- Lua's normalisation of float keys with integral values to integer keys is left out. It happens when a table is built, before the conversion sees it. Any float key here is an invalid key.
- The 64-bit width of Lua integers is left out, including the signed/unsigned comparison at json.cpp:195. That comparison only runs for keys of at least 1, where it agrees with the unbounded one.
- A table's iteration order is an input. It is the order of its entries. The order `lua_next` would choose is not modelled.
- Nesting depth is not limited. The source recurses on the C stack in both directions, and each nested table takes about two more Lua stack slots, without a `luaL_checkstack`; a stack overflow on deep nesting is not modelled.
- Tables are values, so aliasing is left out. A table that contains itself is not modelled; the source would recurse without end on one.
