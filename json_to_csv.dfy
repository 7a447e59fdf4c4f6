/**
 * `convert_json_to_csv`: one three-cell row (name, description, system
 * prompt) per model of the input array, under a fixed header. Cells are
 * kept as the values handed to `csv.writer`; its quoting is not modelled.
 */
module JsonToCsv {
  import opened Wrappers
  import opened JsonValue
  import opened PathExtractor
  import opened ScriptFields

  const CsvHeader: seq<string> := ["name", "description", "system_prompt"]

  /** The row for one model. */
  function ModelRow(model: Members): seq<Json> {
    [GetOr(model, "name", Str("")), Description(model), SystemPrompt(model)]
  }

  /** The row of a model carries the values the GUI resolver reads for the matching catalogue paths. */
  lemma ModelRowMatchesGui(model: Members)
    ensures |ModelRow(model)| == |CsvHeader|
    ensures ModelRow(model)[1] == Resolve(Object(model), ["info", "meta", "description"])
    ensures ModelRow(model)[2] == Resolve(Object(model), ["info", "params", "system"])
  {
    InfoFieldIsResolve(model, "meta", "description");
    InfoFieldIsResolve(model, "params", "system");
  }

  /** The prefix of the input before the first element that is not a dict. */
  function DictPrefix(elems: seq<Json>): (n: nat)
    ensures n <= |elems|
    ensures forall j :: 0 <= j < n ==> elems[j].Object?
    ensures n < |elems| ==> !elems[n].Object?
    decreases |elems|
  {
    if |elems| == 0 || !elems[0].Object? then 0 else 1 + DictPrefix(elems[1..])
  }

  /**
   * The function as written. A top-level value that is not a list returns
   * `False` before the file is opened (`None` here). Otherwise the header
   * is written and one row per model follows; a model that is not a dict
   * makes `model.get` raise, which ends the loop with the rows so far on
   * disk and the result `False`.
   */
  method ConvertJsonToCsv(data: Json) returns (ok: bool, written: Option<CsvFile>)
    ensures !data.Array? ==> !ok && written == None
    ensures data.Array? ==> written.Some? && written.value.header == CsvHeader
    ensures data.Array? ==> (ok <==> forall j :: 0 <= j < |data.elems| ==> data.elems[j].Object?)
    ensures data.Array? ==>
              |written.value.rows| == DictPrefix(data.elems) &&
              forall j :: 0 <= j < |written.value.rows| ==> written.value.rows[j] == ModelRow(data.elems[j].members)
  {
    if !data.Array? {
      return false, None;
    }
    var rows: seq<seq<Json>> := [];
    for j := 0 to |data.elems|
      invariant j <= DictPrefix(data.elems)
      invariant |rows| == j
      invariant forall k :: 0 <= k < j ==> rows[k] == ModelRow(data.elems[k].members)
    {
      var model := data.elems[j];
      if !model.Object? {
        return false, Some(CsvFile(CsvHeader, rows));
      }
      var name := GetOr(model.members, "name", Str(""));
      var description, systemPrompt := ReadInfo(model.members);
      rows := rows + [[name, description, systemPrompt]];
    }
    return true, Some(CsvFile(CsvHeader, rows));
  }
}
