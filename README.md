# OpenWebUI model export, modelled in Dafny

This project models the core of a small utility that turns an OpenWebUI model
export (a JSON array of model records) into friendlier formats. It has a
desktop exporter and three stand-alone scripts.

- **The desktop exporter** (`gui/program.py`) works through these steps:
  - a field catalogue with default selections, and the buttons that select
    all, deselect all or reset the defaults;
  - the checks made before an export starts;
  - an optional filter that drops every record mentioning a personal term;
  - a projection of each record onto the selected dotted paths;
  - one Markdown document per model;
  - one or all of six output formats: CSV, JSON, Excel, YAML, XML and a
    Markdown table.
- **`scripts/model_extractor.py`** reduces every model to name, description,
  system prompt and an `openwebui://model/` link. It writes them as CSV, JSON,
  Markdown and plain text.
- **`scripts/simplify_json.py`** keeps name, system prompt and description.
  It can optionally skip models that mention a personal term.
- **`scripts/json_to_csv.py`** writes one three-column CSV row per model.

JSON values are the datatype `JsonValue.Json`. A dict is a sequence of
key/value pairs in insertion order, and `.get` finds the first member with
the key. A number with a fraction or an exponent is a `Float` holding the
real it denotes.

Most loops of the source that build a list, a set or a file are methods with
loop invariants, proved against a specification function. Lemmas then prove
what the source promises about that function. Examples are the
personal-term filter, the field extraction, the column-order loops, the
CSV, Markdown and XML writers over items and keys, the format loop, and
every loop of the three scripts. The exporter's checkbox state is the class
`FieldSelection.FieldPanel`, whose methods update a `map` of flags in place.

Some loops became recursive functions instead:

- `contains_personal_info` is a recursive search in the source. Its loops
  over dict values, list items and terms are the recursive predicates
  `PersonalInfo.ContainsPersonalInfo` and `PersonalInfo.ValueHit`.
- In `export_to_xml`, the walk over the key's segments and the search of
  `childNodes` are the recursive functions `XmlExport.InsertPath` and
  `XmlExport.FindChild`. Only the loops over items and keys are in the method
  `XmlExport.ExportToXml`.
- The generator that keeps the safe characters of a file name is the
  recursive function `IndividualDocs.KeepSafe`.
- Python's built-in `split`, `replace`, `strip`, `lower` and `sorted` are
  recursive functions in `Text`, except `sorted`, which is the method
  `ColumnOrder.SortStrings`.

Modules, one per file:

- **Shared definitions:**
  - `Wrappers`: `Option` and `Result`.
  - `JsonValue`: JSON values, `get` and key assignment.
  - `Text`: split and join, replace, strip, `lower`, and string order for
    `sorted`.
- **Exporter steps:**
  - `PersonalInfo`: the personal-term check and the filter.
  - `PathExtractor`: the path resolver and record projection.
  - `ColumnOrder`: the column order that CSV, Excel and Markdown share.
  - `TabularExport`: CSV and the columns of the Excel sheet.
  - `MarkdownExport`: the Markdown table, with a reader for its rows.
  - `XmlExport`: the nested XML tree.
  - `IndividualDocs`: the per-model documents and their file names.
  - `FieldSelection`: the catalogue and the panel.
  - `ExportPipeline`: `perform_export` as a whole.
- **Scripts:**
  - `ScriptFields`: the nested description and system-prompt lookup the
    scripts share.
  - `ModelExtractor`, `SimplifyJson` and `JsonToCsv`: one per script.

Points where the code and the design description disagree; the model follows
the code:

- **File names.** The file name of a per-model document keeps one `-` for each
  space, slash and backslash. So `"A / B"` becomes `a---b.md`, not `a-b.md`
  (`IndividualDocs.SlugExample`).
- **Empty input.** There is no single policy:
  - CSV, Excel and the Markdown table raise `No data to export`;
  - JSON, YAML and XML write an empty document.
- **Names that are not strings.** A record whose projected `name` is not a
  string makes `.lower()` raise while the per-model documents are written.
  This ends the whole export, after the documents written so far.

## Model

| member | source | states |
|---|---|---|
| JsonValue.GetFindsFirst | gui/program.py:350 | `d.get(k)` finds a value exactly when the key is present, and it is the value of the first member with that key |
| JsonValue.Put | gui/program.py:354 | `d[k] = v` makes `k` map to `v` and leaves every other key alone; an existing key keeps its place, a new key is appended |
| JsonValue.Keys | gui/program.py:488-490 | `item.keys()` has one key per member, in insertion order |
| JsonValue.KeysAppend | gui/program.py:354 | assigning a new key appends it to the key list |
| JsonValue.HasKeyIffInKeys | scripts/simplify_json.py:52 | `key in d` holds exactly when the key is among `d.keys()` |
| PersonalInfo.Values | scripts/simplify_json.py:101-110 | `d.values()` has one value per member, in insertion order |
| Text.Split | gui/program.py:345 | `s.split('.')` yields at least one piece and no piece contains the separator |
| Text.JoinSplit | gui/program.py:345 | joining the pieces of a split with the separator gives back the original string |
| Text.SplitJoin | gui/program.py:345 | splitting a join of separator-free pieces gives back the pieces |
| Text.SplitChars | gui/program.py:345 | every character of every piece comes from the split string |
| Text.SubstringOfAt | gui/program.py:474-476 | `term in s` holds exactly when `term` occurs at some position of `s` |
| Text.ReplaceCharAppend | gui/program.py:371 | `replace` of one character distributes over concatenation |
| Text.StripStartDrops | scripts/model_extractor.py:63 | left strip removes only leading whitespace and leaves no leading whitespace |
| Text.StripEndDrops | scripts/model_extractor.py:63 | right strip removes only trailing whitespace and leaves no trailing whitespace |
| Text.StripTrims | scripts/model_extractor.py:63 | `strip()` is a middle part of the string, framed only by whitespace, and neither starts nor ends with whitespace |
| Text.BelowIrreflexive | gui/program.py:502 | the string order used by `sorted` is irreflexive |
| Text.BelowTransitive | gui/program.py:502 | the string order is transitive |
| Text.BelowTotal | gui/program.py:502 | any two different strings are ordered one way or the other |
| Text.BelowAsymmetric | gui/program.py:502 | the string order is asymmetric |
| Text.InsertSorted | gui/program.py:502 | inserting a new key into a strictly sorted list keeps it strictly sorted, one longer, with the same members plus the key |
| Text.SortedIsDistinct | gui/program.py:502 | a strictly sorted list has no duplicates |
| Text.SortedListingUnique | gui/program.py:502 | there is only one strictly sorted listing of a set of keys |
| PersonalInfo.ContainsPersonalInfoMeansReachableMatch | gui/program.py:458-477 | the check is true exactly when some string reachable through dict values and list elements contains a term |
| PersonalInfo.NoTermsNoMatch | gui/program.py:458-477 | with no terms nothing matches |
| PersonalInfo.KeysIgnored | scripts/simplify_json.py:101-110 | a dict is checked by its values only; its keys never match |
| PersonalInfo.NestedMatchCaught | scripts/simplify_json.py:101-106 | a match anywhere inside one value of a dict flags the whole dict |
| PersonalInfo.CleanMembers | gui/program.py:329-334 | the filter keeps exactly the records without a match |
| PersonalInfo.CleanAppend | gui/program.py:329-334 | filtering works record by record: the filter of a concatenation is the concatenation of the filters |
| PersonalInfo.CleanKeepsClean | gui/program.py:329-334 | records without a match all survive, in order |
| PersonalInfo.CleanIdempotent | gui/program.py:329-334 | filtering twice is filtering once |
| PersonalInfo.NoTermsKeepsAll | gui/program.py:329-334 | with no terms every record survives |
| PathExtractor.ResolveIsLookupOrEmpty | gui/program.py:345-352 | the walk with its exception handler gives the value at the path when every step is a dict holding the key, and `""` otherwise |
| PathExtractor.ResolveField | gui/program.py:345-352 | the loop with `try`/`except` for one field computes the value at the path or `""` |
| PathExtractor.ExtractItem | gui/program.py:342-356 | building `extracted_item` yields the projection of the record on the selected paths |
| PathExtractor.ProjectedContents | gui/program.py:342-356 | the projected item has a key exactly for each selected path, holding the resolved value, and no other keys |
| PathExtractor.ProjectedKeys | gui/program.py:342-356 | with distinct selected paths, the item's keys are the selected paths in selection order |
| PathExtractor.ProjectedKeysStep | gui/program.py:354 | assigning a new path appends it to the keys |
| ColumnOrder.Header | gui/program.py:505-518 | the header has one display name per column: the friendly name for the three primary fields, the key itself otherwise |
| ColumnOrder.HeaderRow | gui/program.py:516-518 | the header loop builds exactly that header |
| ColumnOrder.AllKeys | gui/program.py:488-490 | `all_keys` ends as the union of the key sets of all items |
| ColumnOrder.TakePrimary | gui/program.py:496-499 | the loop over the primary fields appends those present, in their fixed order, and removes them from the key set |
| ColumnOrder.SortStrings | gui/program.py:502 | `sorted` gives the strictly ascending listing of the remaining keys |
| ColumnOrder.OrderColumns | gui/program.py:485-502 | `fieldnames` are the present primary fields in fixed order, then all other keys sorted |
| ColumnOrder.FilterInMembers | gui/program.py:565 | the comprehension keeps exactly the columns present in the frame |
| ColumnOrder.FilterInDistinct | gui/program.py:565 | filtering a list without duplicates keeps it without duplicates |
| ColumnOrder.FilterInAll | gui/program.py:565 | a list whose every element is present is kept whole |
| ColumnOrder.ColumnsArePermutationOfKeys | gui/program.py:485-502 | the column order lists every key of the data exactly once and nothing else |
| ColumnOrder.PrimaryFieldsFirst | gui/program.py:493-502 | every primary column precedes every other column |
| ColumnOrder.ColumnOrderUnique | gui/program.py:485-502 | the column order of a key set is unique, so CSV, Excel and Markdown agree |
| ColumnOrder.ExcelKeepsEveryColumn | gui/program.py:565-566 | selecting the frame's columns in `fieldnames` order drops nothing |
| ColumnOrder.HeadersDistinct | gui/program.py:505-518 | renaming keeps headers distinct unless a raw key collides with a friendly name |
| ColumnOrder.KeyUnionHasItemKeys | gui/program.py:488-490 | every key of every item is in `all_keys` |
| TabularExport.ExportToCsv | gui/program.py:479-527 | empty data raises; otherwise a header of display names in column order, one row per item, each cell the item's value or `""` |
| TabularExport.TableDeterministic | gui/program.py:479-527 | the table for given data is unique |
| TabularExport.CellIsValueOrEmpty | gui/program.py:523-527 | a cell holds the item's value when the key is present and `""` when it is missing |
| TabularExport.EveryKeyHasColumn | gui/program.py:488-502 | no key of any item is left without a column |
| TabularExport.KeepFrameColumns | gui/program.py:565-566 | the comprehension over `fieldnames` keeps those in the frame, in order |
| TabularExport.ExcelColumns | gui/program.py:529-570 | empty data raises; otherwise the sheet's columns are the shared column order and its header their display names |
| MarkdownExport.EscapeIsOnePass | gui/program.py:683-684 | the two chained replacements act character by character |
| MarkdownExport.SafeAppend | gui/program.py:687 | concatenating two table-safe strings stays table-safe |
| MarkdownExport.EscapedIsSafe | gui/program.py:683-684 | an escaped string has no raw pipe and no line feed |
| MarkdownExport.EscapeEachSafe | gui/program.py:683-684 | the one-pass escape yields a table-safe string |
| MarkdownExport.UnescapeEscape | gui/program.py:683-684 | a string without `<` is recovered from its escaped form |
| MarkdownExport.UnescapeEscapeEach | gui/program.py:683-684 | the one-pass escape is undone by the reader's unescape |
| MarkdownExport.CarriageReturnKept | gui/program.py:683-684 | only the line feed is escaped: a carriage return in a string value reaches the cell unchanged |
| MarkdownExport.Dashes | gui/program.py:675 | the separator row has one `---` per column |
| MarkdownExport.RowCells | gui/program.py:678-685 | one cell per header: escaped text for strings, `""` for null, `str(v)` otherwise |
| MarkdownExport.RenderRow | gui/program.py:679-685 | the loop over the headers builds those cells |
| MarkdownExport.TableLinesStart | gui/program.py:674-675 | the table starts with the header line and the separator line |
| MarkdownExport.TableLinesStep | gui/program.py:678-687 | each item appends exactly one row line |
| MarkdownExport.WriteTable | gui/program.py:670-687 | the writes produce the header, separator and row lines in order |
| MarkdownExport.ExportToMarkdown | gui/program.py:631-687 | empty data raises; otherwise the document is title, date line and the table in the shared column order |
| MarkdownExport.SplitCellsNoBoundary | gui/program.py:687 | a stretch without an unescaped pipe stays inside one cell when a row is read back |
| MarkdownExport.JoinPadded | gui/program.py:687 | the layout of `join` with a padded pipe separator equals the padded-cells layout the reader expects |
| MarkdownExport.SplitPadded | gui/program.py:687 | reading a padded row of safe cells splits exactly at the cell boundaries |
| MarkdownExport.ParseRowText | gui/program.py:674-687 | every table line of safe cells reads back as exactly its cells under the modelled reader, which ends lines at line feeds only |
| MarkdownExport.SeparatorRoundTrip | gui/program.py:675 | the separator row reads back as its `---` cells |
| MarkdownExport.HeaderRoundTrip | gui/program.py:674 | the header row reads back as the display names |
| MarkdownExport.DataRowRoundTrip | gui/program.py:678-687 | a data row reads back as its cells when `str(v)` of its non-string values is table-safe |
| MarkdownExport.StringCellRoundTrip | gui/program.py:680-687 | a string value without `<` is recovered from the table after unescaping |
| MarkdownExport.PrintedPipeSplitsCell | gui/program.py:681-687 | as written, a list value whose printed form holds a pipe character is written unescaped, and its one cell reads back as two |
| MarkdownExport.EscapedRowCells | gui/program.py:678-685 | the corrected row has one cell per column, each the escaped printed value, or `""` for null |
| MarkdownExport.EscapedCellAgrees | gui/program.py:683-685 | the corrected cell equals the written one for strings and null, and is table-safe for every value that is not null |
| MarkdownExport.EscapedRowRoundTrip | gui/program.py:678-687 | with every printed value escaped, every data row reads back under the modelled reader as its cells, whatever `str` prints |
| MarkdownExport.EscapedCellRoundTrip | gui/program.py:678-687 | in the corrected table, unescaping a read cell gives back the printed value when it has no `<` |
| XmlExport.FindChild | gui/program.py:603-607 | the search finds the first child with that node name, or reports that none has it |
| XmlExport.ExportToXml | gui/program.py:585-629 | the document is a `models` root with the model elements, and it fails exactly when adding some key raises |
| XmlExport.ModelChildrenFailureSticks | gui/program.py:594-626 | once adding a key of an item raises, the item fails |
| XmlExport.ModelsFailureSticks | gui/program.py:590-626 | one failing item makes the whole document fail |
| XmlExport.ModelsPrefixFails | gui/program.py:590-626 | failure on a prefix of the items is failure of the whole export |
| XmlExport.OneModelPerItem | gui/program.py:590-592 | there is exactly one `model` element per item, in order, holding that item's children |
| XmlExport.DescendNest | gui/program.py:609-612 | newly created segment elements lead straight to the leaf |
| XmlExport.FindChildAppend | gui/program.py:603-611 | a new element appended where no earlier child had its name is the one found |
| XmlExport.InsertThenDescend | gui/program.py:596-620 | after a dotted key is added, following its segments by first match reaches the new leaf as the last child |
| XmlExport.FindChildIs | gui/program.py:603-607 | the first child with a name is the one the search reports |
| XmlExport.FindChildUpdate | gui/program.py:603-607 | replacing the found child with an element of the same name keeps it the one found |
| XmlExport.InsertSucceeds | gui/program.py:596-620 | a path with no `#text` segment never reaches a text node, so adding the key succeeds |
| XmlExport.ChildCount | gui/program.py:601-613 | reusing an existing first segment adds no element at the model level; a new one adds exactly one |
| XmlExport.SimpleKeyIsOneSegment | gui/program.py:621-626 | a key without a dot is the zero-depth case of the walk and splits into itself |
| XmlExport.TextsOfAllAppend | gui/program.py:618-626 | the texts of a concatenation of children are the texts of both parts |
| XmlExport.TextsOfAllSingle | gui/program.py:618-626 | the texts of one child are that child's texts |
| XmlExport.TextsOfAllUpdate | gui/program.py:601-620 | replacing one child changes the texts by exactly that child's texts |
| XmlExport.TextsOfNest | gui/program.py:609-612 | newly created segment elements hold no text but the leaf's |
| XmlExport.InsertAddsLeafTexts | gui/program.py:596-620 | adding a key adds exactly the leaf's text to the tree and loses none |
| XmlExport.ReplaceChildTexts | gui/program.py:601-620 | descending into an existing element and adding texts below it adds exactly those texts to the level above |
| XmlExport.ModelTextsAreValues | gui/program.py:594-626 | the texts in a model element are exactly the texts of the item's values, `""` for null |
| XmlExport.NoTextSegmentSucceeds | gui/program.py:594-626 | an item whose keys have no `#text` segment always gets its element |
| XmlExport.AddKeySucceeds | gui/program.py:596-626 | a key with no `#text` segment can always be added |
| IndividualDocs.KeepSafeAppend | gui/program.py:372 | the character filter works character by character |
| IndividualDocs.StemIsOnePass | gui/program.py:371-372 | `lower`, the three replacements and the filter amount to one pass over the name |
| IndividualDocs.StemOfHead | gui/program.py:371-372 | on one character the chain gives that character's part of the stem |
| IndividualDocs.StemCharset | gui/program.py:371-373 | a file name stem has only lower-case letters, digits, `-` and `_`, so no name escapes the directory |
| IndividualDocs.StemEachCharset | gui/program.py:371-372 | the one-pass stem yields only allowed characters |
| IndividualDocs.StemIdempotent | gui/program.py:371-372 | deriving a stem from a stem changes nothing |
| IndividualDocs.StemEachFixes | gui/program.py:371-372 | a string of allowed characters is its own stem |
| IndividualDocs.SlugExample | gui/program.py:371-373 | `"A / B"` becomes `a---b.md`: every space and slash gives its own `-` |
| IndividualDocs.SlugCollision | gui/program.py:371-376 | two different names can share a file name |
| IndividualDocs.TitleOfLine | gui/program.py:377 | a document starting with `## ` and the name on its own line has that name as its title |
| IndividualDocs.TitleRoundTrip | gui/program.py:377-381 | the title of a written document gives back the model name |
| IndividualDocs.LastWriter | gui/program.py:376 | the last write to a file name is found, and no later write goes to that file |
| IndividualDocs.LastWriteWins | gui/program.py:376 | a file exists exactly when some item wrote it, and holds the body of the last item that did |
| IndividualDocs.Writes | gui/program.py:365-381 | one write per item, of its file name and its document |
| IndividualDocs.EveryItemHasFile | gui/program.py:365-381 | every item's file exists, written by that item or a later one |
| IndividualDocs.WritesStep | gui/program.py:365-381 | each item overwrites its own file name and nothing else |
| IndividualDocs.WriteIndividualDocs | gui/program.py:365-381 | all documents are written when every name is a string; otherwise the run stops at the first bad name with the earlier files on disk and the error `'<type>' object has no attribute 'lower'` for that name's type |
| FieldSelection.Paths | gui/program.py:42-75 | the catalogue's paths in catalogue order |
| FieldSelection.DefaultPathsAppend | gui/program.py:42-75 | the default paths of a concatenation are those of both parts |
| FieldSelection.FirstPathsDistinct | gui/program.py:42-75 | no path among the first ten entries repeats later in the catalogue |
| FieldSelection.LastPathsDistinct | gui/program.py:42-75 | the last ten paths are distinct from each other |
| FieldSelection.CatalogPathsDistinct | gui/program.py:42-75 | the catalogue has twenty entries with twenty distinct paths |
| FieldSelection.DefaultPathsStep | gui/program.py:42-75 | the default paths from an entry on are its path, when it is a default, and the defaults after it |
| FieldSelection.NoDefaults | gui/program.py:42-75 | a stretch with no defaults contributes no default path |
| FieldSelection.LeadingDefaults | gui/program.py:42-75 | in the first nine entries, exactly entries 0, 1, 2 and 8 are defaults |
| FieldSelection.DefaultFlags | gui/program.py:42-75 | exactly the three primary fields and the base model are on by default |
| FieldSelection.DefaultPathsPattern | gui/program.py:42-75 | a catalogue with that default pattern has those four default paths |
| FieldSelection.CatalogDefaults | gui/program.py:42-75 | the default selection is name, description, system prompt and base model |
| FieldSelection.PickedAll | gui/program.py:246-249 | with every flag on, the selection is the whole catalogue order |
| FieldSelection.PickedNone | gui/program.py:251-254 | with every flag off, the selection is empty |
| FieldSelection.PickedEmpty | gui/program.py:284-287 | the selection is empty exactly when no flag is on |
| FieldSelection.PickedMembers | gui/program.py:301 | the selection holds exactly the paths whose flag is on |
| FieldSelection.PickedDistinct | gui/program.py:301 | the selection has no duplicates |
| FieldSelection.PickedDefaults | gui/program.py:256-260 | flags equal to the defaults select exactly the default paths |
| FieldSelection.InitialFlags | gui/program.py:203-229 | one flag per distinct path, keyed in catalogue order; with distinct paths each flag is its default and the selection is the default paths |
| FieldSelection.FieldPanel.constructor | gui/program.py:203-229 | the panel starts with one flag per catalogue path, each at its default |
| FieldSelection.FieldPanel.SelectAll | gui/program.py:246-249 | every flag is on and the selection is every path |
| FieldSelection.FieldPanel.DeselectAll | gui/program.py:251-254 | every flag is off and the selection is empty |
| FieldSelection.FieldPanel.ResetToDefault | gui/program.py:256-260 | every flag is back at its default and the selection is the default paths |
| FieldSelection.FieldPanel.SelectedFields | gui/program.py:301 | the selected fields are the paths whose flag is on, in catalogue order |
| FieldSelection.FieldPanel.AnySelected | gui/program.py:284-287 | `any(...)` is true exactly when the selection is not empty |
| FieldSelection.FieldPanel.StartExport | gui/program.py:262-295 | the checks in order: input path, output path, input exists, output directory creatable, some field selected; the export starts only when all pass |
| ExportPipeline.FilterPersonal | gui/program.py:322-334 | the filter loop keeps the records without a personal term, in order |
| ExportPipeline.ExtractRecords | gui/program.py:336-357 | one projected item per surviving record, in order |
| ExportPipeline.ExtractedKeys | gui/program.py:341-356 | every projected item has the selected paths as its keys |
| ExportPipeline.ColumnsAreSelectedFields | gui/program.py:336-357 | for non-empty input the output columns are exactly the selected fields |
| ExportPipeline.UnionOfEqualSets | gui/program.py:488-490 | items with the same key set have that set as `all_keys` |
| ExportPipeline.FormatNamed | gui/program.py:305-312 | a recognised format name maps to the format carrying that name |
| ExportPipeline.FormatNameRoundTrip | gui/program.py:305-312 | every format is recognised by its own name |
| ExportPipeline.OutputNamesDistinct | gui/program.py:398 | different formats never write to the same file |
| ExportPipeline.ExportOne | gui/program.py:400-411 | a format fails exactly when its modelled failure condition holds (no data for CSV, Excel and Markdown; a key that cannot be nested for XML), and otherwise produces that format's content for the items |
| ExportPipeline.ExportAll | gui/program.py:388-413 | all six formats in order each produce their file, or the run stops at the first one that raises, keeping the earlier files |
| ExportPipeline.ExportSingle | gui/program.py:425-446 | an unknown format name raises `KeyError` before any format file is written; a known one produces its single file or its error |
| ExportPipeline.PerformExport | gui/program.py:297-451 | a non-list input is refused with its type name; otherwise the per-model documents, then the chosen formats, with the run ending at the first error; a name that is not a string ends it with that name's `.lower()` error |
| ExportPipeline.PlainKeySegments | gui/program.py:596-598 | a key without `#` has no `#text` segment |
| ExportPipeline.ItemXmlSucceeds | gui/program.py:594-626 | a record projected on distinct paths without `#` always gets its XML element |
| ExportPipeline.XmlSucceeds | gui/program.py:585-629 | with such paths XML export never raises |
| ExportPipeline.ModelsAllSucceed | gui/program.py:590-626 | when every item succeeds, the document succeeds |
| ExportPipeline.NoFormatFails | gui/program.py:388-413 | with at least one record and distinct paths without `#`, none of the modelled failure conditions holds for any format |
| ExportPipeline.PanelSelectionDistinct | gui/program.py:301 | a panel's selection has no duplicate paths |
| ScriptFields.InfoFieldIsResolve | scripts/json_to_csv.py:44-54 | the scripts' `isinstance` guards read the same value as the exporter's path resolver for `info.meta.description` and `info.params.system` |
| ScriptFields.InnerLookup | scripts/json_to_csv.py:49-54 | the last step of the walk is `.get(key, "")` on a dict and `""` otherwise |
| ScriptFields.ReadInfo | scripts/model_extractor.py:69-79 | the nested `if` blocks read the description and system prompt that way |
| JsonToCsv.ModelRowMatchesGui | scripts/json_to_csv.py:37-57 | a row has three cells, and the last two equal what the exporter resolves for the same paths |
| JsonToCsv.DictPrefix | scripts/json_to_csv.py:37-57 | the models before the first non-dict are all dicts, and the next one is not |
| JsonToCsv.ConvertJsonToCsv | scripts/json_to_csv.py:8-67 | a non-list is refused before the file is opened; otherwise the header and one row per model up to the first non-dict, and success exactly when all are dicts |
| SimplifyJson.SurvivorsStep | scripts/simplify_json.py:39-44 | each model either is skipped or joins the survivors |
| SimplifyJson.SurvivorsPrefix | scripts/simplify_json.py:39-44 | the survivors of a prefix are a prefix of the survivors |
| SimplifyJson.SurvivorNotDict | scripts/simplify_json.py:46-49 | a non-dict survivor makes the run fail |
| SimplifyJson.SimplifiedAppend | scripts/simplify_json.py:47-70 | simplifying one more dict appends its record |
| SimplifyJson.SimplifyJson | scripts/simplify_json.py:11-88 | a non-list is refused; otherwise the file is written exactly when every survivor is a dict, holds the simplified survivors, and skipped plus written is the input length |
| SimplifyJson.GetReaches | scripts/simplify_json.py:48 | a value found under a key is reachable from the dict |
| SimplifyJson.InfoFieldReaches | scripts/simplify_json.py:51-68 | a nested field is `""` or a value inside the model |
| SimplifyJson.SimpleRecordReaches | scripts/simplify_json.py:47-68 | every string of a simplified record is `""` or a string of the model |
| SimplifyJson.EmptyMentions | scripts/simplify_json.py:116-120 | the empty string mentions no non-empty term |
| SimplifyJson.SimplifiedIsClean | scripts/simplify_json.py:39-70 | a model that passed the filter still passes it after simplification |
| SimplifyJson.WrittenRecordsClean | scripts/simplify_json.py:39-78 | with filtering on, no written record mentions a personal term |
| ModelExtractor.ModelOfFields | scripts/model_extractor.py:62-79 | a record's name has no surrounding whitespace, its link is the prefix followed by the id, and its description and system prompt are what the exporter resolves |
| ModelExtractor.Records | scripts/model_extractor.py:59-81 | one record per model |
| ModelExtractor.RecordsAt | scripts/model_extractor.py:59-81 | the record at each position is built from the model at that position |
| ModelExtractor.RecordsStep | scripts/model_extractor.py:81 | each model appends its record |
| ModelExtractor.ExtractModelData | scripts/model_extractor.py:39-91 | `None` for a non-list or when some model is not a dict or has a name that is not a string; otherwise the records in input order |
| ModelExtractor.CsvRowMatchesRecord | scripts/model_extractor.py:106-115 | the CSV header and row list the keys and values of the record's JSON form, in the same order |
| ModelExtractor.SaveAsCsv | scripts/model_extractor.py:93-121 | the fixed header, then one row per record in order |
| ModelExtractor.Repeat | scripts/model_extractor.py:188 | `"=" * n` has length `n` and only that character |
| ModelExtractor.MarkdownEntriesStep | scripts/model_extractor.py:153-165 | each record appends its entry |
| ModelExtractor.TxtEntriesStep | scripts/model_extractor.py:185-198 | each record appends its entry |
| ModelExtractor.SaveAsMarkdown | scripts/model_extractor.py:141-171 | the title, then each record's entry in order |
| ModelExtractor.SaveAsTxt | scripts/model_extractor.py:173-204 | the title, then each record's entry in order |
| ModelExtractor.MarkdownEntriesPrefix | scripts/model_extractor.py:153-165 | the report for the first records is a prefix of the full report |
| ModelExtractor.TxtEntriesPrefix | scripts/model_extractor.py:185-198 | the same for the text report |
| ModelExtractor.MarkdownEntryHeading | scripts/model_extractor.py:155 | each Markdown entry is headed by its model's name |
| ModelExtractor.TxtUnderline | scripts/model_extractor.py:187-188 | in the text report a name is underlined by as many `=` as it has characters |
| ModelExtractor.RunExtractor | scripts/model_extractor.py:206-237 | exit code 1 for a missing input, a failed extraction or no models; otherwise 0, with all four outputs holding the records in order |

## Left out

- **I/O and the interface.** File reading and writing, the Tk interface,
  threads, progress updates, message boxes and console output are left out.
  Each operation takes the decoded input and returns the content it would
  write.
  - The clock is a pair of string parameters: the file-name timestamp and the
    Markdown date line.
  - Whether the input file and output directory exist, and whether the
    directory can be created, are boolean parameters.
- **`json.load`.** Its parse errors are not modelled. Operations start from
  the decoded value.
- **`str()`.** `str()` of a non-string value and `f"{value}"` are a function
  parameter `show`. Python's formatting of numbers, booleans, lists and
  dicts is not modelled.
- **Floats.** A JSON number with a fraction or an exponent is an exact
  real. Python's binary rounding is not modelled. In particular, a literal
  so small that it underflows to `0.0` counts as truthy here, though Python
  treats it as falsy. Its printed form comes from `show`, like every other
  non-string value.
- **Character classes.** `lower()`, `isalnum()` and `isspace()` are modelled
  on ASCII only.
- **Serialisers.** The serialisers are not modelled:
  - CSV quoting by `csv.writer`;
  - `json.dump` and `yaml.dump`, whose artifacts hold the items that would
    be written;
  - the pandas workbook, whose artifact holds the column order, headers and
    items;
  - `toprettyxml`, whose artifact holds the element tree.
- **XML as a value.** The XML tree is a value. Appending a child to an
  existing element rebuilds the path to it, so aliasing between DOM nodes is
  not modelled.
- MarkdownExport.ParseRow: the reader ends lines only at `'\n'`, so a
  carriage return inside a value is not modelled as a line ending. The
  exporter escapes only `'\n'` (`MarkdownExport.CarriageReturnKept`), so a
  system prompt with `\r\n` line endings is written as `\r<br>`. A Markdown
  renderer that ends lines at a bare carriage return splits that row in two.
  The round-trip lemmas (`MarkdownExport.ParseRowText`,
  `MarkdownExport.DataRowRoundTrip`, `MarkdownExport.EscapedRowRoundTrip`)
  hold for the modelled reader only.
- **Catalogue layout.** The field catalogue is a flat list in declaration
  order. The category grouping serves only the layout.
- ExportPipeline.NoFormatFails: together with ExportPipeline.ExportOne and
  ExportPipeline.Fails, covers only the failure conditions written in the
  exporters themselves. Exceptions raised inside the serialisers are outside
  `Fails`. An example is openpyxl refusing a string cell that holds a control
  character, such as a system prompt containing a form feed. That makes the
  Excel step raise, and an "all" export stops after CSV and JSON.
- ExportPipeline.NoFormatFails: takes as a requirement that no catalogue
  path contains `#`. This holds for the catalogue's literal paths but is not
  proved about the constant. The proof over the twenty literal strings is
  too costly for the solver.
- FieldSelection.FieldPanel.constructor: takes the catalogue as a parameter,
  and states the default flags only for a catalogue with distinct paths.
  `FieldSelection.CatalogPathsDistinct` proves that the real catalogue
  qualifies.
- ModelExtractor.RunExtractor: the failure of a single `save_as_*` call
  (exit code 1 after a write error) is not modelled. Nor is the timestamped
  output directory of `create_output_directory`.
- SimplifyJson.SimplifyJson: an output directory that cannot be created is
  not modelled.
- JsonToCsv.ConvertJsonToCsv: an output directory that cannot be created is
  not modelled.
- **Command-line wrappers.** The `main` functions of `json_to_csv.py` and
  `simplify_json.py` only parse arguments or build paths, and are not part
  of this model. `build.py` is not part of this model either.

## Findings

| source | as written | input that shows it | evidently intended | confidence | as-written member | corrected member |
|---|---|---|---|---|---|---|
| gui/program.py:681-687 | the Markdown table escapes pipes and line feeds only in string values; `str(value)` of a list or dict is written unescaped | an item whose `info.meta.tags` is a list holding the string a-pipe-b: Python prints it with the pipe intact, so its cell reads back as two cells and the row gains a column | every printed value escaped, so each row reads back as one cell per column under a reader that ends lines at line feeds (carriage returns are a separate gap, under Left out) | high (not executed) | MarkdownExport.PrintedPipeSplitsCell | MarkdownExport.EscapedRowRoundTrip |

The exporter members `MarkdownExport.RowCells` and `MarkdownExport.ExportToMarkdown`
keep the code as written. The corrected cell `MarkdownExport.EscapedCell` and
its round-trip lemmas show what escaping every printed value would guarantee.
