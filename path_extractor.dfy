/**
 * The dotted-path resolver and the per-record projection of the GUI
 * exporter: for every selected path such as `info.meta.description`, walk
 * the record with `.get(part, "")` and store the result under the literal
 * path.
 */
module PathExtractor {
  import opened Wrappers
  import opened JsonValue
  import opened Text

  /** One pass of `value = value.get(part, "")`; `None` when `.get` raises because `value` is not a dict. */
  function Step(value: Json, part: string): Option<Json> {
    match value
    case Object(members) => Some(GetOr(members, part, Str("")))
    case _ => None
  }

  /** The walk as the code performs it, with the handler turning a raised step into `""`. */
  function Resolve(value: Json, parts: seq<string>): Json
    decreases |parts|
  {
    if |parts| == 0 then value
    else match Step(value, parts[0])
      case None => Str("")
      case Some(next) => Resolve(next, parts[1..])
  }

  /** Reference: the value reached through dicts that really hold every key on the path. */
  function Lookup(value: Json, parts: seq<string>): Option<Json>
    decreases |parts|
  {
    if |parts| == 0 then Some(value)
    else match value
      case Object(members) =>
        (match Get(members, parts[0])
         case Some(next) => Lookup(next, parts[1..])
         case None => None)
      case _ => None
  }

  /**
   * Resolving never fails: a path that is present yields its value unchanged
   * (whatever it is, even a list, a dict or null), and a missing key or a
   * non-dict on the way yields `""`.
   */
  lemma {:induction false} ResolveIsLookupOrEmpty(value: Json, parts: seq<string>)
    ensures Resolve(value, parts) == Lookup(value, parts).GetOr(Str(""))
    decreases |parts|
  {
    if |parts| > 0 && value.Object? {
      match Get(value.members, parts[0])
      case Some(next) =>
        ResolveIsLookupOrEmpty(next, parts[1..]);
      case None =>
        assert Step(value, parts[0]) == Some(Str(""));
    }
  }

  /** The value stored for `field`: `field.split('.')` walked from the record. */
  function FieldValue(record: Json, field: string): Json {
    Resolve(record, Split(field, '.'))
  }

  /** The loop of the exporter for one field, exception handler included. */
  method ResolveField(item: Json, field: string) returns (value: Json)
    ensures value == Lookup(item, Split(field, '.')).GetOr(Str(""))
  {
    var parts := Split(field, '.');
    value := item;
    var raised := false;
    var i := 0;
    while i < |parts| && !raised
      invariant 0 <= i <= |parts|
      invariant Resolve(item, parts) == if raised then Str("") else Resolve(value, parts[i..])
    {
      match Step(value, parts[i]) {
        case None =>
          raised := true;
        case Some(next) =>
          assert parts[i..][1..] == parts[i + 1..];
          value := next;
      }
      i := i + 1;
    }
    if raised {
      value := Str("");
    }
    ResolveIsLookupOrEmpty(item, parts);
  }

  /** `extracted_item` after the first `|fields|` assignments. */
  function Projected(record: Json, fields: seq<string>): Members
    decreases |fields|
  {
    if |fields| == 0 then []
    else
      var n := |fields| - 1;
      Put(Projected(record, fields[..n]), fields[n], FieldValue(record, fields[n]))
  }

  /** Building `extracted_item` for one record. */
  method ExtractItem(record: Json, fields: seq<string>) returns (item: Members)
    ensures item == Projected(record, fields)
  {
    item := [];
    for i := 0 to |fields|
      invariant item == Projected(record, fields[..i])
    {
      var value := ResolveField(record, fields[i]);
      ResolveIsLookupOrEmpty(record, Split(fields[i], '.'));
      assert fields[..i + 1][..i] == fields[..i];
      item := Put(item, fields[i], value);
    }
    assert fields[..|fields|] == fields;
  }

  /** The projected item holds exactly the selected paths, each with its resolved value. */
  lemma {:induction false} ProjectedContents(record: Json, fields: seq<string>, key: string)
    ensures Get(Projected(record, fields), key) ==
            if key in fields then Some(Lookup(record, Split(key, '.')).GetOr(Str(""))) else None
    decreases |fields|
  {
    ResolveIsLookupOrEmpty(record, Split(key, '.'));
    if |fields| > 0 {
      var n := |fields| - 1;
      ProjectedContents(record, fields[..n], key);
      assert fields == fields[..n] + [fields[n]];
      assert key in fields <==> key in fields[..n] || key == fields[n];
    }
  }

  /** With distinct selected paths (the keys of the selection dict), the keys come out in selection order. */
  lemma {:induction false} ProjectedKeys(record: Json, fields: seq<string>)
    requires Distinct(fields)
    ensures Keys(Projected(record, fields)) == fields
    decreases |fields|
  {
    if |fields| > 0 {
      var n := |fields| - 1;
      var prefix := fields[..n];
      ProjectedKeys(record, prefix);
      assert fields[n] !in prefix;
      ProjectedKeysStep(record, prefix, fields[n]);
      assert prefix + [fields[n]] == fields;
    }
  }

  /** One more distinct path is appended to the keys. */
  lemma ProjectedKeysStep(record: Json, prefix: seq<string>, field: string)
    requires field !in prefix
    requires Keys(Projected(record, prefix)) == prefix
    ensures Keys(Projected(record, prefix + [field])) == prefix + [field]
  {
    var before := Projected(record, prefix);
    var v := FieldValue(record, field);
    HasKeyIffInKeys(before, field);
    assert (prefix + [field])[..|prefix|] == prefix;
    assert Projected(record, prefix + [field]) == before + [(field, v)];
    KeysAppend(before, field, v);
  }
}
