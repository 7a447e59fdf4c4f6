/**
 * The description / system-prompt extraction that the three scripts each
 * spell out with `isinstance` checks: `info.meta.description` and
 * `info.params.system`, read only through dicts, `""` otherwise.
 */
module ScriptFields {
  import opened Wrappers
  import opened JsonValue
  import opened PathExtractor

  /** A CSV file as the cells handed to `csv.writer`: the header row, then the data rows written so far. */
  datatype CsvFile = CsvFile(header: seq<string>, rows: seq<seq<Json>>)

  /** `info[section].get(key, "")` when `info` and `info[section]` are dicts, else `""`. */
  function InfoField(model: Members, section: string, key: string): Json {
    match Get(model, "info")
    case Some(Object(info)) =>
      (match Get(info, section)
       case Some(Object(inner)) => GetOr(inner, key, Str(""))
       case _ => Str(""))
    case _ => Str("")
  }

  function Description(model: Members): Json {
    InfoField(model, "meta", "description")
  }

  function SystemPrompt(model: Members): Json {
    InfoField(model, "params", "system")
  }

  /**
   * The scripts' `isinstance` guards and the GUI's `.get` walk with its
   * exception handler read the same value from every record.
   */
  lemma InfoFieldIsResolve(model: Members, section: string, key: string)
    ensures InfoField(model, section, key) == Resolve(Object(model), ["info", section, key])
    ensures InfoField(model, section, key) == Lookup(Object(model), ["info", section, key]).GetOr(Str(""))
  {
    var path := ["info", section, key];
    assert path[1..] == [section, key] && path[1..][1..] == [key] && path[1..][1..][1..] == [];
    ResolveIsLookupOrEmpty(Object(model), path);
    var info := Get(model, "info");
    if info.Some? {
      assert Lookup(Object(model), path) == Lookup(info.value, [section, key]);
      if info.value.Object? {
        var inner := Get(info.value.members, section);
        if inner.Some? {
          assert Lookup(info.value, [section, key]) == Lookup(inner.value, [key]);
          InnerLookup(inner.value, key);
        } else {
          assert Lookup(info.value, [section, key]) == None;
        }
      } else {
        assert Lookup(info.value, [section, key]) == None;
      }
    } else {
      assert Lookup(Object(model), path) == None;
    }
  }

  /** The last step of the walk: `inner.get(key, "")` when `inner` is a dict. */
  lemma InnerLookup(inner: Json, key: string)
    ensures Lookup(inner, [key]).GetOr(Str("")) ==
            if inner.Object? then GetOr(inner.members, key, Str("")) else Str("")
  {
    assert [key][1..] == [];
  }

  /** The nested `if` blocks of one script iteration. */
  method ReadInfo(model: Members) returns (description: Json, systemPrompt: Json)
    ensures description == Description(model) && systemPrompt == SystemPrompt(model)
  {
    description, systemPrompt := Str(""), Str("");
    var info := Get(model, "info");
    if info.Some? && info.value.Object? {
      var meta := Get(info.value.members, "meta");
      if meta.Some? && meta.value.Object? {
        description := GetOr(meta.value.members, "description", Str(""));
      }
      var params := Get(info.value.members, "params");
      if params.Some? && params.value.Object? {
        systemPrompt := GetOr(params.value.members, "system", Str(""));
      }
    }
  }
}
