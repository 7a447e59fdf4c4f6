/**
 * `perform_export`: read the decoded input, optionally drop the records that
 * mention a personal term, project every record onto the selected field
 * paths, write one Markdown document per record, then hand the projected
 * records to the chosen exporter (or to all six in turn).
 *
 * The clock, the output directory and the file writes are not modelled as
 * effects: the timestamps are parameters and every written file is returned
 * as a value (its name and what the exporter produced for it).
 */
module ExportPipeline {
  import opened Wrappers
  import opened JsonValue
  import opened Text
  import opened PersonalInfo
  import opened PathExtractor
  import opened ColumnOrder
  import opened TabularExport
  import opened MarkdownExport
  import opened XmlExport
  import opened IndividualDocs
  import opened FieldSelection

  // ---------------------------------------------------------------- input check

  // ---------------------------------------------------------------- personal filter

  /** The filtering loop: keep each record that does not contain a term. */
  method FilterPersonal(records: seq<Json>, terms: seq<string>) returns (kept: seq<Json>)
    ensures kept == Clean(records, terms)
  {
    kept := [];
    for i := 0 to |records|
      invariant kept == Clean(records[..i], terms)
    {
      assert records[..i + 1][..i] == records[..i];
      if !ContainsPersonalInfo(records[i], terms) {
        kept := kept + [records[i]];
      }
    }
    assert records[..|records|] == records;
  }

  // ---------------------------------------------------------------- projection

  /** `extracted_data`: every surviving record projected onto the selected paths. */
  function ExtractAll(records: seq<Json>, fields: seq<string>): seq<Members> {
    seq(|records|, j requires 0 <= j < |records| => Projected(records[j], fields))
  }

  /** The extraction loop over the records. */
  method ExtractRecords(records: seq<Json>, fields: seq<string>) returns (items: seq<Members>)
    ensures items == ExtractAll(records, fields)
  {
    items := [];
    for j := 0 to |records|
      invariant items == ExtractAll(records[..j], fields)
    {
      var item := ExtractItem(records[j], fields);
      items := items + [item];
    }
    assert records[..|records|] == records;
  }

  /** Every extracted item has the selected paths as its keys, in selection order. */
  lemma ExtractedKeys(records: seq<Json>, fields: seq<string>, j: int)
    requires Distinct(fields)
    requires 0 <= j < |records|
    ensures |ExtractAll(records, fields)| == |records|
    ensures Keys(ExtractAll(records, fields)[j]) == fields
  {
    ProjectedKeys(records[j], fields);
  }

  /** With at least one record, the exported columns are exactly the selected paths. */
  lemma ColumnsAreSelectedFields(records: seq<Json>, fields: seq<string>)
    requires Distinct(fields)
    requires |records| > 0
    ensures KeyUnion(ExtractAll(records, fields)) == set f | f in fields
  {
    var items := ExtractAll(records, fields);
    forall j | 0 <= j < |items| ensures KeySet(items[j]) == set f | f in fields {
      ProjectedKeys(records[j], fields);
      forall x | x in KeySet(items[j]) ensures x in fields {
        var i :| 0 <= i < |items[j]| && items[j][i].0 == x;
        assert Keys(items[j])[i] == x;
      }
      forall x | x in fields ensures x in KeySet(items[j]) {
        var i :| 0 <= i < |fields| && fields[i] == x;
        assert Keys(items[j])[i] == x;
      }
    }
    UnionOfEqualSets(items, set f | f in fields);
  }

  lemma {:induction false} UnionOfEqualSets(items: seq<Members>, keys: set<string>)
    requires |items| > 0
    requires forall j :: 0 <= j < |items| ==> KeySet(items[j]) == keys
    ensures KeyUnion(items) == keys
    decreases |items|
  {
    var n := |items| - 1;
    if n > 0 {
      UnionOfEqualSets(items[..n], keys);
    }
  }

  // ---------------------------------------------------------------- formats

  datatype Format = Csv | JsonFile | Excel | Yaml | Xml | Markdown

  /** The order of the `"all"` loop. */
  const AllFormats: seq<Format> := [Csv, JsonFile, Excel, Yaml, Xml, Markdown]

  /** The radio-button value of each format. */
  function FormatName(f: Format): string {
    match f
    case Csv => "csv"
    case JsonFile => "json"
    case Excel => "excel"
    case Yaml => "yaml"
    case Xml => "xml"
    case Markdown => "markdown"
  }

  /** `format_ext`. */
  function Extension(f: Format): string {
    match f
    case Csv => ".csv"
    case JsonFile => ".json"
    case Excel => ".xlsx"
    case Yaml => ".yaml"
    case Xml => ".xml"
    case Markdown => ".md"
  }

  /** The key lookup `format_ext[export_format]`: no format for any other name. */
  function FormatNamed(name: string): (r: Option<Format>)
    ensures r.Some? ==> FormatName(r.value) == name
  {
    if name == "csv" then Some(Csv)
    else if name == "json" then Some(JsonFile)
    else if name == "excel" then Some(Excel)
    else if name == "yaml" then Some(Yaml)
    else if name == "xml" then Some(Xml)
    else if name == "markdown" then Some(Markdown)
    else None
  }

  /** Every format is found under its own name. */
  lemma FormatNameRoundTrip(f: Format)
    ensures FormatNamed(FormatName(f)) == Some(f)
  {
  }

  /** `f"export_{timestamp}{format_ext[fmt]}"`. */
  function OutputName(timestamp: string, f: Format): string {
    "export_" + timestamp + Extension(f)
  }

  /** The six formats of an `"all"` export go to six different files. */
  lemma OutputNamesDistinct(timestamp: string, f: Format, g: Format)
    requires f != g
    ensures OutputName(timestamp, f) != OutputName(timestamp, g)
  {
    var p := "export_" + timestamp;
    assert OutputName(timestamp, f)[|p|..] == Extension(f);
    assert OutputName(timestamp, g)[|p|..] == Extension(g);
  }

  /** What one exporter produced. */
  datatype Artifact =
    | CsvTable(table: Table)
    | JsonDump(records: seq<Members>)
    | ExcelSheet(columns: seq<string>, header: seq<string>, rows: seq<Members>)
    | YamlDump(records: seq<Members>)
    | XmlDocument(root: Node)
    | MarkdownText(text: string)

  /**
   * The failure conditions the model covers: the three tabular exporters
   * raise on no data, XML on a key it cannot nest. Exceptions raised inside
   * the serialisers themselves (openpyxl refusing a control character in a
   * cell, say) are not among them.
   */
  predicate Fails(f: Format, items: seq<Members>, show: Json -> string) {
    match f
    case Csv => |items| == 0
    case Excel => |items| == 0
    case Markdown => |items| == 0
    case Xml => Models(items, show).None?
    case _ => false
  }

  /** What each exporter writes for the items when it does not raise. */
  ghost predicate Produces(f: Format, items: seq<Members>, generatedOn: string, show: Json -> string, a: Artifact) {
    match f
    case Csv => a.CsvTable? && IsTableOf(a.table, items)
    case JsonFile => a == JsonDump(items)
    case Excel =>
      a.ExcelSheet? && IsColumnOrder(a.columns, KeyUnion(items)) && a.header == Header(a.columns) && a.rows == items
    case Yaml => a == YamlDump(items)
    case Xml => Models(items, show).Some? && a == XmlDocument(Element("models", Models(items, show).value))
    case Markdown =>
      a.MarkdownText? && exists cols :: IsColumnOrder(cols, KeyUnion(items)) && a.text == Document(cols, items, generatedOn, show)
  }

  /** The `if fmt == ...` chain for one format. */
  method ExportOne(f: Format, items: seq<Members>, generatedOn: string, show: Json -> string) returns (r: Result<Artifact>)
    ensures r.Err? <==> Fails(f, items, show)
    ensures r.Ok? ==> Produces(f, items, generatedOn, show, r.value)
  {
    match f
    case Csv =>
      var t := ExportToCsv(items);
      r := if t.Ok? then Ok(CsvTable(t.value)) else Err(t.msg);
    case JsonFile =>
      r := Ok(JsonDump(items));
    case Excel =>
      var c := ExcelColumns(items);
      r := if c.Ok? then Ok(ExcelSheet(c.value.0, c.value.1, items)) else Err(c.msg);
    case Yaml =>
      r := Ok(YamlDump(items));
    case Xml =>
      var x := ExportToXml(items, show);
      r := if x.Ok? then Ok(XmlDocument(x.value)) else Err(x.msg);
    case Markdown =>
      var m := ExportToMarkdown(items, generatedOn, show);
      r := if m.Ok? then Ok(MarkdownText(m.value)) else Err(m.msg);
  }

  /** The first `|outputs|` formats of `formats` each wrote their file and did not raise. */
  ghost predicate Delivered(outputs: seq<(string, Artifact)>, formats: seq<Format>, items: seq<Members>,
                            timestamp: string, generatedOn: string, show: Json -> string) {
    |outputs| <= |formats| &&
    forall i :: 0 <= i < |outputs| ==>
      outputs[i].0 == OutputName(timestamp, formats[i]) && !Fails(formats[i], items, show) &&
      Produces(formats[i], items, generatedOn, show, outputs[i].1)
  }

  /**
   * The formats of a run either all deliver, or the run stops at the first
   * one that raises, keeping the files written before it.
   */
  ghost predicate RanFormats(outputs: seq<(string, Artifact)>, error: Option<string>, formats: seq<Format>,
                             items: seq<Members>, timestamp: string, generatedOn: string, show: Json -> string) {
    Delivered(outputs, formats, items, timestamp, generatedOn, show) &&
    (error.None? <==> |outputs| == |formats|) &&
    (error.Some? ==> Fails(formats[|outputs|], items, show))
  }

  /** The `"all"` loop. */
  method ExportAll(items: seq<Members>, timestamp: string, generatedOn: string, show: Json -> string)
    returns (outputs: seq<(string, Artifact)>, error: Option<string>)
    ensures RanFormats(outputs, error, AllFormats, items, timestamp, generatedOn, show)
  {
    outputs := [];
    var formats := AllFormats;
    for i := 0 to |formats|
      invariant |outputs| == i
      invariant Delivered(outputs, formats, items, timestamp, generatedOn, show)
    {
      var fmt := formats[i];
      var r := ExportOne(fmt, items, generatedOn, show);
      if r.Err? {
        return outputs, Some(r.msg);
      }
      outputs := outputs + [(OutputName(timestamp, fmt), r.value)];
    }
    return outputs, None;
  }

  /** The single-format branch: the extension lookup raises `KeyError` on an unknown name. */
  method ExportSingle(format: string, items: seq<Members>, timestamp: string, generatedOn: string, show: Json -> string)
    returns (outputs: seq<(string, Artifact)>, error: Option<string>)
    ensures FormatNamed(format).None? ==> outputs == [] && error == Some("'" + format + "'")
    ensures FormatNamed(format).Some? ==>
              RanFormats(outputs, error, [FormatNamed(format).value], items, timestamp, generatedOn, show)
  {
    var f := FormatNamed(format);
    if f.None? {
      return [], Some("'" + format + "'");
    }
    var r := ExportOne(f.value, items, generatedOn, show);
    if r.Err? {
      return [], Some(r.msg);
    }
    return [(OutputName(timestamp, f.value), r.value)], None;
  }

  // ---------------------------------------------------------------- the whole export

  /** The documents written under `individual-configs`, the export files and the error that ended the run, if any. */
  datatype Outcome = Outcome(docs: map<string, string>, outputs: seq<(string, Artifact)>, error: Option<string>)

  /** The projected records of an array input. */
  function Prepared(records: seq<Json>, filterPersonal: bool, fields: seq<string>): seq<Members> {
    ExtractAll(if filterPersonal then Clean(records, PersonalTerms) else records, fields)
  }

  /** Every item has a name `.lower()` can be applied to. */
  predicate AllNamesOk(items: seq<Members>) {
    forall j :: 0 <= j < |items| ==> NameOk(items[j])
  }

  /**
   * The documents stage: all items written, or the items before the first
   * one whose name is not a string, and that name's `AttributeError`.
   */
  ghost predicate DocsStage(docs: map<string, string>, error: Option<string>, items: seq<Members>, show: Json -> string) {
    if AllNamesOk(items) then docs == Written(Writes(items, show))
    else exists n :: 0 <= n < |items| && !NameOk(items[n]) && AllNamesOk(items[..n])
                     && docs == Written(Writes(items[..n], show))
                     && error == Some(LowerError(NameValue(items[n])))
  }

  /** The format stage for the chosen format name. */
  ghost predicate FormatStage(outputs: seq<(string, Artifact)>, error: Option<string>, format: string,
                              items: seq<Members>, timestamp: string, generatedOn: string, show: Json -> string) {
    if format == "all" then RanFormats(outputs, error, AllFormats, items, timestamp, generatedOn, show)
    else match FormatNamed(format)
      case None => outputs == [] && error == Some("'" + format + "'")
      case Some(f) => RanFormats(outputs, error, [f], items, timestamp, generatedOn, show)
  }

  /**
   * `perform_export` for the panel's current selection. `input` is what
   * `json.load` returned; `timestamp` is the `%y%m%d_%H%M%S` stamp of the
   * file names and `generatedOn` the Markdown report's date line.
   */
  method PerformExport(panel: FieldPanel, input: Json, filterPersonal: bool, format: string,
                       timestamp: string, generatedOn: string, show: Json -> string) returns (out: Outcome)
    ensures !input.Array? ==> out == Outcome(map[], [], Some("Expected a JSON array, but got " + TypeName(input)))
    ensures input.Array? ==>
              var items := Prepared(input.elems, filterPersonal, panel.Selection());
              DocsStage(out.docs, out.error, items, show) &&
              (!AllNamesOk(items) ==> out.outputs == [] && out.error.Some?) &&
              (AllNamesOk(items) ==> FormatStage(out.outputs, out.error, format, items, timestamp, generatedOn, show))
  {
    var fields := panel.SelectedFields();
    if !input.Array? {
      return Outcome(map[], [], Some("Expected a JSON array, but got " + TypeName(input)));
    }
    var records := input.elems;
    if filterPersonal {
      records := FilterPersonal(records, PersonalTerms);
    }
    var items := ExtractRecords(records, fields);
    var docs, docError := WriteIndividualDocs(items, show);
    if docError.Some? {
      return Outcome(docs, [], docError);
    }
    var outputs, error;
    if format == "all" {
      outputs, error := ExportAll(items, timestamp, generatedOn, show);
    } else {
      outputs, error := ExportSingle(format, items, timestamp, generatedOn, show);
    }
    return Outcome(docs, outputs, error);
  }

  // ---------------------------------------------------------------- when an export succeeds

  /** A key without a `#` has no `#text` segment. */
  lemma PlainKeySegments(key: string)
    requires '#' !in key
    ensures NoTextSegment(key)
  {
    SplitChars(key, '.');
    assert '#' in "#text";
  }

  /** One record projected onto distinct paths without a `#` always gets its `model` element. */
  lemma ItemXmlSucceeds(record: Json, fields: seq<string>, show: Json -> string)
    requires Distinct(fields)
    requires forall i :: 0 <= i < |fields| ==> '#' !in fields[i]
    ensures ModelChildren(Projected(record, fields), show).Some?
  {
    var item := Projected(record, fields);
    ProjectedKeys(record, fields);
    forall i | 0 <= i < |item| ensures NoTextSegment(item[i].0) {
      assert item[i].0 == Keys(item)[i] == fields[i];
      PlainKeySegments(fields[i]);
    }
    NoTextSegmentSucceeds(item, show);
  }

  /** Keys made of paths without a `#` never meet the text node of an earlier key, so XML never raises. */
  lemma XmlSucceeds(records: seq<Json>, fields: seq<string>, show: Json -> string)
    requires Distinct(fields)
    requires forall i :: 0 <= i < |fields| ==> '#' !in fields[i]
    ensures Models(ExtractAll(records, fields), show).Some?
  {
    var items := ExtractAll(records, fields);
    forall j | 0 <= j < |items| ensures ModelChildren(items[j], show).Some? {
      ItemXmlSucceeds(records[j], fields, show);
    }
    ModelsAllSucceed(items, show);
  }

  lemma {:induction false} ModelsAllSucceed(items: seq<Members>, show: Json -> string)
    requires forall j :: 0 <= j < |items| ==> ModelChildren(items[j], show).Some?
    ensures Models(items, show).Some?
    decreases |items|
  {
    if |items| > 0 {
      ModelsAllSucceed(items[..|items| - 1], show);
    }
  }

  /**
   * With at least one record and distinct paths free of `#` (every catalogue
   * path qualifies), none of the modelled failure conditions holds for any
   * format.
   */
  lemma NoFormatFails(records: seq<Json>, fields: seq<string>, show: Json -> string, f: Format)
    requires |records| > 0
    requires Distinct(fields)
    requires forall i :: 0 <= i < |fields| ==> '#' !in fields[i]
    ensures !Fails(f, ExtractAll(records, fields), show)
  {
    XmlSucceeds(records, fields, show);
  }

  /** A selection the panel holds names no path twice. */
  lemma PanelSelectionDistinct(panel: FieldPanel)
    requires panel.Valid()
    ensures Distinct(panel.Selection())
  {
    PickedDistinct(panel.order, panel.selected);
  }
}
