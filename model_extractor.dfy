/**
 * `model_extractor.py`: read the export, keep four fields per model (the
 * stripped name, the description, the system prompt and an
 * `openwebui://model/` link), and lay the result out as CSV, JSON, Markdown
 * and plain text.
 */
module ModelExtractor {
  import opened Wrappers
  import opened JsonValue
  import opened Text
  import opened ScriptFields
  import opened IndividualDocs

  /** `model_data`: the dict the extractor builds for each model. */
  datatype ModelData = ModelData(name: string, description: Json, systemPrompt: Json, link: string)

  const LinkPrefix: string := "openwebui://model/"

  /** `f"openwebui://model/{model.get('id', '')}"`. */
  function Link(model: Members, show: Json -> string): string {
    LinkPrefix + ToText(GetOr(model, "id", Str("")), show)
  }

  /** The record can be built: a dict whose name (or the `""` default) has a `.strip()` method. */
  predicate Extractable(model: Json) {
    model.Object? && GetOr(model.members, "name", Str("")).Str?
  }

  /** The record built for an extractable model. */
  function ModelOf(model: Members, show: Json -> string): ModelData
    requires GetOr(model, "name", Str("")).Str?
  {
    ModelData(Strip(GetOr(model, "name", Str("")).s), Description(model), SystemPrompt(model), Link(model, show))
  }

  /** The record as the dict `json.dump` writes, keys in insertion order. */
  function ToMembers(m: ModelData): Members {
    [("name", Str(m.name)), ("description", m.description), ("system_prompt", m.systemPrompt), ("link", Str(m.link))]
  }

  /**
   * A record keeps the model's name without surrounding whitespace, reads
   * the nested fields as the GUI resolver does, and its link gives back the
   * id after the fixed prefix.
   */
  lemma ModelOfFields(model: Members, show: Json -> string)
    requires GetOr(model, "name", Str("")).Str?
    ensures var m := ModelOf(model, show);
            (m.name == [] || (!IsSpace(m.name[0]) && !IsSpace(m.name[|m.name| - 1]))) &&
            IsPrefix(LinkPrefix, m.link) && m.link[|LinkPrefix|..] == ToText(GetOr(model, "id", Str("")), show) &&
            m.description == PathExtractor.Resolve(Object(model), ["info", "meta", "description"]) &&
            m.systemPrompt == PathExtractor.Resolve(Object(model), ["info", "params", "system"])
  {
    InfoFieldIsResolve(model, "meta", "description");
    InfoFieldIsResolve(model, "params", "system");
    StripTrims(GetOr(model, "name", Str("")).s);
    var m := ModelOf(model, show);
    assert m.link == LinkPrefix + ToText(GetOr(model, "id", Str("")), show);
  }

  predicate AllExtractable(elems: seq<Json>) {
    forall j :: 0 <= j < |elems| ==> Extractable(elems[j])
  }

  /** The records built for a list of extractable models, in order. */
  function Records(elems: seq<Json>, show: Json -> string): (r: seq<ModelData>)
    requires AllExtractable(elems)
    ensures |r| == |elems|
    decreases |elems|
  {
    if |elems| == 0 then []
    else Records(elems[..|elems| - 1], show) + [ModelOf(elems[|elems| - 1].members, show)]
  }

  /** Each record is built from the model at the same position. */
  lemma {:induction false} RecordsAt(elems: seq<Json>, show: Json -> string, j: int)
    requires AllExtractable(elems) && 0 <= j < |elems|
    ensures Records(elems, show)[j] == ModelOf(elems[j].members, show)
    decreases |elems|
  {
    if j < |elems| - 1 {
      RecordsAt(elems[..|elems| - 1], show, j);
    }
  }

  lemma RecordsStep(elems: seq<Json>, j: int, show: Json -> string)
    requires 0 <= j < |elems| && AllExtractable(elems[..j]) && Extractable(elems[j])
    ensures AllExtractable(elems[..j + 1])
    ensures Records(elems[..j + 1], show) == Records(elems[..j], show) + [ModelOf(elems[j].members, show)]
  {
    assert elems[..j + 1][..j] == elems[..j];
  }

  /**
   * `extract_model_data` after `json.load`: `None` for a top-level value that
   * is not a list, and `None` when building any record raises (a model that
   * is not a dict, a name that is not a string); otherwise one record per
   * model, in input order.
   */
  method ExtractModelData(data: Json, show: Json -> string) returns (models: Option<seq<ModelData>>)
    ensures models.Some? <==> data.Array? && AllExtractable(data.elems)
    ensures models.Some? ==> models.value == Records(data.elems, show)
  {
    if !data.Array? {
      return None;
    }
    var elems := data.elems;
    var result: seq<ModelData> := [];
    for j := 0 to |elems|
      invariant AllExtractable(elems[..j])
      invariant result == Records(elems[..j], show)
    {
      var model := elems[j];
      if !Extractable(model) {
        return None;
      }
      RecordsStep(elems, j, show);
      result := result + [ModelOf(model.members, show)];
    }
    assert elems[..|elems|] == elems;
    return Some(result);
  }

  // ---------------------------------------------------------------- CSV

  const ExtractorHeader: seq<string> := ["name", "description", "system_prompt", "link"]

  function CsvRow(m: ModelData): seq<Json> {
    [Str(m.name), m.description, m.systemPrompt, Str(m.link)]
  }

  /** The CSV row of a record lists the values of its JSON form under the header of its keys. */
  lemma CsvRowMatchesRecord(m: ModelData)
    ensures |CsvRow(m)| == |ExtractorHeader| == |ToMembers(m)|
    ensures forall i :: 0 <= i < |ExtractorHeader| ==>
              ExtractorHeader[i] == ToMembers(m)[i].0 && CsvRow(m)[i] == ToMembers(m)[i].1
  {
  }

  /** `save_as_csv`: the header, then one row per record in order. */
  method SaveAsCsv(models: seq<ModelData>) returns (file: CsvFile)
    ensures file.header == ExtractorHeader
    ensures |file.rows| == |models|
    ensures forall j :: 0 <= j < |models| ==> file.rows[j] == CsvRow(models[j])
  {
    var rows: seq<seq<Json>> := [];
    for j := 0 to |models|
      invariant |rows| == j
      invariant forall k :: 0 <= k < j ==> rows[k] == CsvRow(models[k])
    {
      var m := models[j];
      rows := rows + [[Str(m.name), m.description, m.systemPrompt, Str(m.link)]];
    }
    file := CsvFile(ExtractorHeader, rows);
  }

  // ---------------------------------------------------------------- Markdown and text

  /** `"x" * n`. */
  function Repeat(c: char, n: nat): (r: string)
    ensures |r| == n
    ensures forall i :: 0 <= i < n ==> r[i] == c
  {
    seq(n, _ => c)
  }

  /** The description paragraph, written only when the description is truthy. */
  function DescriptionBlock(m: ModelData, show: Json -> string): string {
    if Truthy(m.description) then ToText(m.description, show) + "\n\n" else ""
  }

  function MarkdownHeading(m: ModelData): string {
    "## " + m.name + "\n\n"
  }

  function MarkdownLink(m: ModelData): string {
    "**Link**: [" + m.name + "](" + m.link + ")\n\n"
  }

  const MarkdownRule: string := "---\n\n"

  /** What `save_as_markdown` writes for one record. */
  function MarkdownEntry(m: ModelData, show: Json -> string): string {
    MarkdownHeading(m) + DescriptionBlock(m, show) + MarkdownLink(m) + MarkdownRule
  }

  function TxtHeading(m: ModelData): string {
    m.name + "\n" + Repeat('=', |m.name|) + "\n\n"
  }

  function TxtLink(m: ModelData): string {
    "Link: " + m.link + "\n\n"
  }

  function TxtRule(): string {
    Repeat('-', 50) + "\n\n"
  }

  /** What `save_as_txt` writes for one record. */
  function TxtEntry(m: ModelData, show: Json -> string): string {
    TxtHeading(m) + DescriptionBlock(m, show) + TxtLink(m) + TxtRule()
  }

  /** The entries of the records, in order. */
  function MarkdownEntries(models: seq<ModelData>, show: Json -> string): string
    decreases |models|
  {
    if |models| == 0 then "" else MarkdownEntries(models[..|models| - 1], show) + MarkdownEntry(models[|models| - 1], show)
  }

  function TxtEntries(models: seq<ModelData>, show: Json -> string): string
    decreases |models|
  {
    if |models| == 0 then "" else TxtEntries(models[..|models| - 1], show) + TxtEntry(models[|models| - 1], show)
  }

  lemma MarkdownEntriesStep(models: seq<ModelData>, j: int, show: Json -> string)
    requires 0 <= j < |models|
    ensures MarkdownTitle + MarkdownEntries(models[..j + 1], show) ==
            MarkdownTitle + MarkdownEntries(models[..j], show) + MarkdownEntry(models[j], show)
  {
    assert models[..j + 1][..j] == models[..j];
  }

  lemma TxtEntriesStep(models: seq<ModelData>, j: int, show: Json -> string)
    requires 0 <= j < |models|
    ensures TxtTitle + TxtEntries(models[..j + 1], show) ==
            TxtTitle + TxtEntries(models[..j], show) + TxtEntry(models[j], show)
  {
    assert models[..j + 1][..j] == models[..j];
  }

  const MarkdownTitle: string := "# OpenWebUI Models\n\n"
  const TxtTitle: string := "OPENWEBUI MODELS\n\n"

  /** `save_as_markdown`: the title, then each record's entry. */
  method SaveAsMarkdown(models: seq<ModelData>, show: Json -> string) returns (text: string)
    ensures text == MarkdownTitle + MarkdownEntries(models, show)
  {
    text := MarkdownTitle;
    for j := 0 to |models|
      invariant text == MarkdownTitle + MarkdownEntries(models[..j], show)
    {
      MarkdownEntriesStep(models, j, show);
      var m := models[j];
      var entry := MarkdownHeading(m);
      if Truthy(m.description) {
        entry := entry + DescriptionBlock(m, show);
      } else {
        assert entry + DescriptionBlock(m, show) == entry;
      }
      entry := entry + MarkdownLink(m);
      entry := entry + MarkdownRule;
      text := text + entry;
    }
    assert models[..|models|] == models;
  }

  /** `save_as_txt`: the title, then each record's entry. */
  method SaveAsTxt(models: seq<ModelData>, show: Json -> string) returns (text: string)
    ensures text == TxtTitle + TxtEntries(models, show)
  {
    text := TxtTitle;
    for j := 0 to |models|
      invariant text == TxtTitle + TxtEntries(models[..j], show)
    {
      TxtEntriesStep(models, j, show);
      var m := models[j];
      var entry := TxtHeading(m);
      if Truthy(m.description) {
        entry := entry + DescriptionBlock(m, show);
      } else {
        assert entry + DescriptionBlock(m, show) == entry;
      }
      entry := entry + TxtLink(m);
      entry := entry + TxtRule();
      text := text + entry;
    }
    assert models[..|models|] == models;
  }

  /** Entries are only ever appended: the report for a prefix of the records is a prefix of the report. */
  lemma {:induction false} MarkdownEntriesPrefix(models: seq<ModelData>, k: int, show: Json -> string)
    requires 0 <= k <= |models|
    ensures IsPrefix(MarkdownEntries(models[..k], show), MarkdownEntries(models, show))
    decreases |models|
  {
    if k < |models| {
      var n := |models| - 1;
      assert models[..n][..k] == models[..k];
      MarkdownEntriesPrefix(models[..n], k, show);
    } else {
      assert models[..k] == models;
    }
  }

  /** The same for the text report. */
  lemma {:induction false} TxtEntriesPrefix(models: seq<ModelData>, k: int, show: Json -> string)
    requires 0 <= k <= |models|
    ensures IsPrefix(TxtEntries(models[..k], show), TxtEntries(models, show))
    decreases |models|
  {
    if k < |models| {
      var n := |models| - 1;
      assert models[..n][..k] == models[..k];
      TxtEntriesPrefix(models[..n], k, show);
    } else {
      assert models[..k] == models;
    }
  }

  /** A Markdown entry is headed by its model's name. */
  lemma MarkdownEntryHeading(m: ModelData, show: Json -> string)
    requires '\n' !in m.name
    ensures TitleOf(MarkdownEntry(m, show)) == Some(m.name)
  {
    var rest := "\n\n" + (DescriptionBlock(m, show) + MarkdownLink(m) + MarkdownRule);
    assert MarkdownEntry(m, show) == "## " + m.name + rest;
    TitleOfLine(m.name, rest);
  }

  /** In the text report the name is underlined by exactly as many `=` as it has characters. */
  lemma TxtUnderline(m: ModelData, show: Json -> string)
    requires '\n' !in m.name
    ensures var lines := Split(TxtEntry(m, show), '\n');
            |lines| >= 2 && lines[0] == m.name && lines[1] == Repeat('=', |m.name|)
  {
    var bar := Repeat('=', |m.name|);
    var tail := "\n\n" + (DescriptionBlock(m, show) + TxtLink(m) + TxtRule());
    var afterName := "\n" + bar + tail;
    assert TxtEntry(m, show) == m.name + afterName;
    SplitPrefix(m.name, afterName, '\n');
    assert afterName[1..] == bar + tail;
    assert '\n' !in bar;
    SplitPrefix(bar, tail, '\n');
    assert Split(tail, '\n')[0] == "";
    assert Split(afterName, '\n') == [""] + Split(bar + tail, '\n');
    assert m.name + "" == m.name && bar + "" == bar;
  }

  // ---------------------------------------------------------------- main

  /** The four files `main` writes into the output directory. */
  datatype Outputs = Outputs(csv: CsvFile, json: seq<Members>, markdown: string, txt: string)

  /**
   * `main` from the input check on: exit code 1 when the input file is
   * missing, or when extraction gives `None` or an empty list; otherwise all
   * four files are written and the exit code is 0. Whether a write fails is
   * not modelled.
   */
  method RunExtractor(inputExists: bool, data: Json, show: Json -> string) returns (exitCode: int, outputs: Option<Outputs>)
    ensures exitCode == 0 || exitCode == 1
    ensures exitCode == 0 <==> inputExists && data.Array? && |data.elems| > 0 && AllExtractable(data.elems)
    ensures outputs.Some? <==> exitCode == 0
    ensures outputs.Some? && data.Array? && AllExtractable(data.elems) ==>
              var ms := Records(data.elems, show);
              var out := outputs.value;
              out.csv.header == ExtractorHeader && |out.csv.rows| == |ms| && |out.json| == |ms| &&
              (forall j :: 0 <= j < |ms| ==> out.csv.rows[j] == CsvRow(ms[j]) && out.json[j] == ToMembers(ms[j])) &&
              out.markdown == MarkdownTitle + MarkdownEntries(ms, show) &&
              out.txt == TxtTitle + TxtEntries(ms, show)
  {
    if !inputExists {
      return 1, None;
    }
    var models := ExtractModelData(data, show);
    if models.None? || |models.value| == 0 {
      return 1, None;
    }
    var ms := models.value;
    var csv := SaveAsCsv(ms);
    var json := seq(|ms|, j requires 0 <= j < |ms| => ToMembers(ms[j]));
    var markdown := SaveAsMarkdown(ms, show);
    var txt := SaveAsTxt(ms, show);
    return 0, Some(Outputs(csv, json, markdown, txt));
  }
}
