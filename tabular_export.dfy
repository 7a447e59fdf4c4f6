/**
 * `export_to_csv` and the column part of `export_to_excel`: one header row
 * of display names in column order, then one row per extracted item.
 */
module TabularExport {
  import opened Wrappers
  import opened JsonValue
  import opened Text
  import opened ColumnOrder

  /** A CSV file at the level of cells: the column keys, the header written for them, and the rows of values. */
  datatype Table = Table(columns: seq<string>, header: seq<string>, rows: seq<seq<Json>>)

  /** What `export_to_csv` writes for `data`: every row as long as the header, a missing key as `""`. */
  ghost predicate IsTableOf(t: Table, data: seq<Members>) {
    && IsColumnOrder(t.columns, KeyUnion(data))
    && t.header == Header(t.columns)
    && |t.rows| == |data|
    && forall j :: 0 <= j < |data| ==>
         |t.rows[j]| == |t.columns| &&
         forall i :: 0 <= i < |t.columns| ==> t.rows[j][i] == GetOr(data[j], t.columns[i], Str(""))
  }

  /** `export_to_csv` without the file: refuses an empty list, else builds header and rows. */
  method ExportToCsv(data: seq<Members>) returns (r: Result<Table>)
    ensures r.Err? <==> |data| == 0
    ensures r.Ok? ==> IsTableOf(r.value, data)
  {
    if |data| == 0 {
      return Err("No data to export");
    }
    var fieldnames := OrderColumns(data);
    var headerRow := HeaderRow(fieldnames);
    var rows: seq<seq<Json>> := [];
    for j := 0 to |data|
      invariant |rows| == j
      invariant forall jj :: 0 <= jj < j ==>
                  |rows[jj]| == |fieldnames| &&
                  forall i :: 0 <= i < |fieldnames| ==> rows[jj][i] == GetOr(data[jj], fieldnames[i], Str(""))
    {
      var row: seq<Json> := [];
      for i := 0 to |fieldnames|
        invariant |row| == i
        invariant forall k :: 0 <= k < i ==> row[k] == GetOr(data[j], fieldnames[k], Str(""))
      {
        row := row + [GetOr(data[j], fieldnames[i], Str(""))];
      }
      rows := rows + [row];
    }
    return Ok(Table(fieldnames, headerRow, rows));
  }

  /** Exporting the same items twice gives the same table. */
  lemma TableDeterministic(t1: Table, t2: Table, data: seq<Members>)
    requires IsTableOf(t1, data) && IsTableOf(t2, data)
    ensures t1 == t2
  {
    ColumnOrderUnique(t1.columns, t2.columns, KeyUnion(data));
    assert |t1.rows| == |t2.rows|;
    forall j | 0 <= j < |data| ensures t1.rows[j] == t2.rows[j] {
    }
  }

  /** Each cell is the item's value under that column's key, or `""` when the item lacks the key. */
  lemma CellIsValueOrEmpty(t: Table, data: seq<Members>, j: int, i: int)
    requires IsTableOf(t, data)
    requires 0 <= j < |data| && 0 <= i < |t.columns|
    ensures HasKey(data[j], t.columns[i]) ==> Some(t.rows[j][i]) == Get(data[j], t.columns[i])
    ensures !HasKey(data[j], t.columns[i]) ==> t.rows[j][i] == Str("")
  {
    GetFindsFirst(data[j], t.columns[i]);
  }

  /** Every key of every item has a column. */
  lemma EveryKeyHasColumn(t: Table, data: seq<Members>, j: int, key: string)
    requires IsTableOf(t, data)
    requires 0 <= j < |data| && HasKey(data[j], key)
    ensures key in t.columns
  {
    KeyUnionHasItemKeys(data, j, key);
    ColumnsArePermutationOfKeys(t.columns, KeyUnion(data));
  }

  /** `[col for col in fieldnames if col in df.columns]`. */
  method KeepFrameColumns(fieldnames: seq<string>, frameColumns: set<string>) returns (ordered: seq<string>)
    ensures ordered == FilterIn(fieldnames, frameColumns)
  {
    ordered := [];
    for i := 0 to |fieldnames|
      invariant ordered == FilterIn(fieldnames[..i], frameColumns)
    {
      assert fieldnames[..i + 1][..i] == fieldnames[..i];
      if fieldnames[i] in frameColumns {
        ordered := ordered + [fieldnames[i]];
      }
    }
    assert fieldnames[..|fieldnames|] == fieldnames;
  }

  /**
   * The column part of `export_to_excel`: the same refusal of an empty list,
   * the same order, then the selection of the frame's columns in that order
   * and the renaming to display names.
   */
  method ExcelColumns(data: seq<Members>) returns (r: Result<(seq<string>, seq<string>)>)
    ensures r.Err? <==> |data| == 0
    ensures r.Ok? ==> IsColumnOrder(r.value.0, KeyUnion(data)) && r.value.1 == Header(r.value.0)
  {
    if |data| == 0 {
      return Err("No data to export");
    }
    var fieldnames := OrderColumns(data);
    var frameColumns := AllKeys(data);
    var ordered := KeepFrameColumns(fieldnames, frameColumns);
    ExcelKeepsEveryColumn(fieldnames, frameColumns);
    var renamed := HeaderRow(ordered);
    return Ok((ordered, renamed));
  }
}
