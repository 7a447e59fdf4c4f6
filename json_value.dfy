/**
 * The decoded JSON value that every exporter works on: what `json.load`
 * returns for an OpenWebUI model export. A number with a fraction or an
 * exponent (a `temperature` of 0.7, say) is a `Float`, held as the real it
 * denotes. An object keeps its members in document order; `json.load` has
 * already collapsed duplicate keys, so the first member with a key is the
 * one `dict.get` sees.
 */
module JsonValue {
  import opened Wrappers

  datatype Json =
    | Null
    | Bool(b: bool)
    | Int(i: int)
    | Float(r: real)
    | Str(s: string)
    | Array(elems: seq<Json>)
    | Object(members: seq<(string, Json)>)

  type Members = seq<(string, Json)>

  /** `key in d`. */
  predicate HasKey(members: Members, key: string) {
    exists i :: 0 <= i < |members| && members[i].0 == key
  }

  /** `d.get(key)`: the value of the first member named `key`, if any. */
  function Get(members: Members, key: string): Option<Json>
    decreases |members|
  {
    if |members| == 0 then None
    else if members[0].0 == key then Some(members[0].1)
    else Get(members[1..], key)
  }

  /** `d.get(key)` finds a value exactly when the key is present, and then it is the first member with that key. */
  lemma {:induction false} GetFindsFirst(members: Members, key: string)
    ensures Get(members, key).Some? <==> HasKey(members, key)
    ensures Get(members, key).Some? ==>
              exists i :: 0 <= i < |members| && members[i] == (key, Get(members, key).value)
                          && forall j :: 0 <= j < i ==> members[j].0 != key
    decreases |members|
  {
    if |members| > 0 && members[0].0 != key {
      GetFindsFirst(members[1..], key);
      assert forall i :: 0 < i < |members| ==> members[i] == members[1..][i - 1];
      if HasKey(members, key) {
        var i :| 0 <= i < |members| && members[i].0 == key;
        assert members[1..][i - 1].0 == key;
      }
      if Get(members, key).Some? {
        var i :| 0 <= i < |members[1..]| && members[1..][i] == (key, Get(members, key).value)
                 && forall j :: 0 <= j < i ==> members[1..][j].0 != key;
        assert members[i + 1] == (key, Get(members, key).value);
      }
    }
  }

  /** `d.get(key, default)`. */
  function GetOr(members: Members, key: string, default: Json): Json {
    Get(members, key).GetOr(default)
  }

  /**
   * `d[key] = value`: an existing key keeps its place and takes the new
   * value; a new key is appended.
   */
  function Put(members: Members, key: string, value: Json): (r: Members)
    ensures Get(r, key) == Some(value)
    ensures forall k :: k != key ==> Get(r, k) == Get(members, k)
    ensures HasKey(members, key) ==> Keys(r) == Keys(members)
    ensures !HasKey(members, key) ==> r == members + [(key, value)]
    decreases |members|
  {
    if |members| == 0 then [(key, value)]
    else if members[0].0 == key then [(key, value)] + members[1..]
    else
      var r := [members[0]] + Put(members[1..], key, value);
      assert r[1..] == Put(members[1..], key, value);
      assert HasKey(members, key) ==> HasKey(members[1..], key) by {
        if HasKey(members, key) {
          var i :| 0 <= i < |members| && members[i].0 == key;
          assert members[1..][i - 1].0 == key;
        }
      }
      r
  }

  /** The keys of a dict, in insertion order. */
  function Keys(members: Members): (ks: seq<string>)
    ensures |ks| == |members|
    ensures forall i :: 0 <= i < |members| ==> ks[i] == members[i].0
  {
    seq(|members|, i requires 0 <= i < |members| => members[i].0)
  }

  lemma KeysAppend(members: Members, key: string, value: Json)
    ensures Keys(members + [(key, value)]) == Keys(members) + [key]
  {
    var r := members + [(key, value)];
    assert forall i :: 0 <= i < |members| ==> r[i] == members[i];
  }

  lemma HasKeyIffInKeys(members: Members, key: string)
    ensures HasKey(members, key) <==> key in Keys(members)
  {
    if key in Keys(members) {
      var i :| 0 <= i < |members| && Keys(members)[i] == key;
    }
  }

  /** `type(v).__name__` for a decoded JSON value. */
  function TypeName(v: Json): string {
    match v
    case Null => "NoneType"
    case Bool(_) => "bool"
    case Int(_) => "int"
    case Float(_) => "float"
    case Str(_) => "str"
    case Array(_) => "list"
    case Object(_) => "dict"
  }

  /** Python truthiness of a decoded value (`if value:`). */
  predicate Truthy(v: Json) {
    match v
    case Null => false
    case Bool(b) => b
    case Int(i) => i != 0
    case Float(r) => r != 0.0
    case Str(s) => s != ""
    case Array(elems) => elems != []
    case Object(members) => members != []
  }

  /**
   * Python's `str(v)`, which is also what an f-string writes. For a string
   * it is the string itself; for every other value the exporter uses
   * Python's own printing, which this model receives as `show`.
   */
  function ToText(v: Json, show: Json -> string): string {
    match v
    case Str(s) => s
    case _ => show(v)
  }
}
