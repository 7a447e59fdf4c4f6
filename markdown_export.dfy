/**
 * `export_to_markdown`: a title, a generation line, then a pipe table whose
 * header row uses the friendly column names, a `---` separator row, and one
 * row per item whose string cells have their pipes and line feeds escaped.
 *
 * The partner of the writer is a reader: `Lines` ends each line with a line
 * feed, and `ParseRow` splits one line at every pipe not preceded by a
 * backslash. The lemmas show that every line the exporter writes reads back
 * as exactly the cells it was built from under that reader. It treats a
 * carriage return as an ordinary character, as the exporter does:
 * `CarriageReturnKept` shows the escape passes one through.
 */
module MarkdownExport {
  import opened Wrappers
  import opened JsonValue
  import opened Text
  import opened ColumnOrder

  // ---------------------------------------------------------------- escaping

  /** `value.replace("|", "\\|").replace("\n", "<br>")`, in that order. */
  function Escape(s: string): string {
    ReplaceChar(ReplaceChar(s, '|', "\\|"), '\n', "<br>")
  }

  /** What one character of the original string becomes. */
  function EscapeChar(c: char): string {
    if c == '|' then "\\|" else if c == '\n' then "<br>" else [c]
  }

  /** The escape as one left-to-right pass. */
  function EscapeEach(s: string): string
    decreases |s|
  {
    if |s| == 0 then "" else EscapeChar(s[0]) + EscapeEach(s[1..])
  }

  /** The two chained replacements act character by character; their order cannot interfere. */
  lemma {:induction false} EscapeIsOnePass(s: string)
    ensures Escape(s) == EscapeEach(s)
    decreases |s|
  {
    if |s| > 0 {
      var first := if s[0] == '|' then "\\|" else [s[0]];
      var rest := ReplaceChar(s[1..], '|', "\\|");
      assert ReplaceChar(s, '|', "\\|") == first + rest;
      ReplaceCharAppend(first, rest, '\n', "<br>");
      EscapeIsOnePass(s[1..]);
      if s[0] == '|' {
        assert ReplaceChar(first, '\n', "<br>") == "\\" + ReplaceChar("|", '\n', "<br>");
      }
      assert ReplaceChar(first, '\n', "<br>") == EscapeChar(s[0]);
    }
  }

  /** A cell the table reader splits correctly: every pipe is escaped and there is no line feed. */
  predicate Safe(cell: string) {
    && '\n' !in cell
    && forall k :: 0 <= k < |cell| && cell[k] == '|' ==> 0 < k && cell[k - 1] == '\\'
  }

  lemma SafeAppend(a: string, b: string)
    requires Safe(a) && Safe(b)
    ensures Safe(a + b)
  {
    var ab := a + b;
    forall k | 0 <= k < |ab| && ab[k] == '|' ensures 0 < k && ab[k - 1] == '\\' {
      if k >= |a| {
        assert b[k - |a|] == '|';
      }
    }
  }

  /** An escaped string value has no raw pipe and no line feed. */
  lemma {:induction false} EscapedIsSafe(s: string)
    ensures Safe(Escape(s))
  {
    EscapeIsOnePass(s);
    EscapeEachSafe(s);
  }

  lemma {:induction false} EscapeEachSafe(s: string)
    ensures Safe(EscapeEach(s))
    decreases |s|
  {
    if |s| > 0 {
      EscapeEachSafe(s[1..]);
      var e := EscapeChar(s[0]);
      assert Safe(e) by {
        if s[0] == '|' {
          assert e == ['\\', '|'];
        } else if s[0] == '\n' {
          assert e == ['<', 'b', 'r', '>'];
        }
      }
      SafeAppend(e, EscapeEach(s[1..]));
    }
  }

  /**
   * Only the line feed is escaped: a carriage return in a string value (a
   * prompt pasted with `\r\n` line endings, say) reaches the cell unchanged.
   */
  lemma CarriageReturnKept(s: string, k: int)
    requires 0 <= k < |s| && s[k] == '\r'
    ensures '\r' in Escape(s)
  {
    EscapeIsOnePass(s);
    EscapeEachKeeps(s, k);
  }

  lemma {:induction false} EscapeEachKeeps(s: string, k: int)
    requires 0 <= k < |s| && s[k] == '\r'
    ensures '\r' in EscapeEach(s)
    decreases |s|
  {
    if k == 0 {
      assert EscapeEach(s) == ['\r'] + EscapeEach(s[1..]);
    } else {
      EscapeEachKeeps(s[1..], k - 1);
      assert EscapeEach(s) == EscapeChar(s[0]) + EscapeEach(s[1..]);
    }
  }

  /** Reading an escaped cell: `\|` is a pipe and `<br>` a line feed. */
  function Unescape(t: string): string
    decreases |t|
  {
    if |t| == 0 then ""
    else if |t| >= 2 && t[0] == '\\' && t[1] == '|' then "|" + Unescape(t[2..])
    else if |t| >= 4 && t[..4] == "<br>" then "\n" + Unescape(t[4..])
    else [t[0]] + Unescape(t[1..])
  }

  /**
   * Escaping loses nothing for a string without `<`: reading the cell gives
   * back the original value. (A literal `<br>` in a value reads back as a line feed.)
   */
  lemma UnescapeEscape(s: string)
    requires '<' !in s
    ensures Unescape(Escape(s)) == s
  {
    EscapeIsOnePass(s);
    UnescapeEscapeEach(s);
  }

  lemma {:induction false} UnescapeEscapeEach(s: string)
    requires '<' !in s
    ensures Unescape(EscapeEach(s)) == s
    decreases |s|
  {
    if |s| > 0 {
      var rest := EscapeEach(s[1..]);
      var t := EscapeChar(s[0]) + rest;
      assert '<' !in s[1..];
      UnescapeEscapeEach(s[1..]);
      if s[0] == '|' {
        assert t[2..] == rest;
      } else if s[0] == '\n' {
        assert t[..4] == "<br>" && t[4..] == rest;
      } else {
        assert t[1..] == rest;
        if s[0] == '\\' && |t| >= 2 {
          EscapeEachSafe(s[1..]);
          assert t[1] == rest[0];
        }
      }
      assert s == [s[0]] + s[1..];
    }
  }

  // ---------------------------------------------------------------- rows

  /** One cell: an escaped string, nothing for `None`, `str(value)` for anything else. */
  function Cell(v: Json, show: Json -> string): string {
    match v
    case Str(s) => Escape(s)
    case Null => ""
    case _ => show(v)
  }

  /** `"| " + " | ".join(cells) + " |"`. */
  function RowText(cells: seq<string>): string {
    "| " + Join(cells, " | ") + " |"
  }

  /** `["---"] * n`. */
  function Dashes(n: nat): (d: seq<string>)
    ensures |d| == n && forall i :: 0 <= i < n ==> d[i] == "---"
  {
    seq(n, _ => "---")
  }

  /** The cells of one item: `item.get(header, "")` for every column, rendered. */
  function RowCells(item: Members, cols: seq<string>, show: Json -> string): (cells: seq<string>)
    ensures |cells| == |cols|
    ensures forall i :: 0 <= i < |cols| ==> cells[i] == Cell(GetOr(item, cols[i], Str("")), show)
  {
    seq(|cols|, i requires 0 <= i < |cols| => Cell(GetOr(item, cols[i], Str("")), show))
  }

  /** The table as lines: header, separator, one row per item. */
  function TableLines(cols: seq<string>, data: seq<Members>, show: Json -> string): seq<string> {
    [RowText(Header(cols)), RowText(Dashes(|cols|))]
      + seq(|data|, j requires 0 <= j < |data| => RowText(RowCells(data[j], cols, show)))
  }

  /** Lines written one after another, each ended by `\n`. */
  function Lines(lines: seq<string>): string
    decreases |lines|
  {
    if |lines| == 0 then "" else Lines(lines[..|lines| - 1]) + lines[|lines| - 1] + "\n"
  }

  /** The two lines above the table; the timestamp is the caller's `datetime.now()`. */
  function Preamble(generatedOn: string): string {
    "# OpenWebUI Model Export\n\n" + "Generated on: " + generatedOn + "\n\n"
  }

  /** The whole file for a given column order. */
  function Document(cols: seq<string>, data: seq<Members>, generatedOn: string, show: Json -> string): string {
    Preamble(generatedOn) + Lines(TableLines(cols, data, show))
  }

  /** The loop over `headers` for one item. */
  method RenderRow(item: Members, headers: seq<string>, show: Json -> string) returns (row: seq<string>)
    ensures row == RowCells(item, headers, show)
  {
    row := [];
    for i := 0 to |headers|
      invariant |row| == i
      invariant forall k :: 0 <= k < i ==> row[k] == Cell(GetOr(item, headers[k], Str("")), show)
    {
      var value := GetOr(item, headers[i], Str(""));
      var cell: string;
      if value.Str? {
        cell := Escape(value.s);
      } else if value.Null? {
        cell := "";
      } else {
        cell := show(value);
      }
      row := row + [cell];
    }
  }

  lemma TableLinesStart(cols: seq<string>, data: seq<Members>, show: Json -> string)
    ensures Lines(TableLines(cols, data[..0], show)) == RowText(Header(cols)) + "\n" + RowText(Dashes(|cols|)) + "\n"
  {
    var lines := TableLines(cols, data[..0], show);
    assert |lines| == 2;
    assert lines[..1][..0] == [];
    assert Lines(lines[..1]) == "" + lines[0] + "\n";
    assert Lines(lines) == Lines(lines[..1]) + lines[1] + "\n";
  }

  lemma TableLinesStep(cols: seq<string>, data: seq<Members>, j: int, show: Json -> string)
    requires 0 <= j < |data|
    ensures Lines(TableLines(cols, data[..j + 1], show)) ==
            Lines(TableLines(cols, data[..j], show)) + RowText(RowCells(data[j], cols, show)) + "\n"
  {
    var before := TableLines(cols, data[..j], show);
    var after := TableLines(cols, data[..j + 1], show);
    assert after == before + [RowText(RowCells(data[j], cols, show))];
    assert after[..|after| - 1] == before;
  }

  /** The header row, the separator row and the item rows, written in that order. */
  method WriteTable(headers: seq<string>, data: seq<Members>, show: Json -> string) returns (text: string)
    ensures text == Lines(TableLines(headers, data, show))
  {
    var headerRow := HeaderRow(headers);
    text := RowText(headerRow) + "\n";
    text := text + RowText(Dashes(|headers|)) + "\n";
    TableLinesStart(headers, data, show);
    for j := 0 to |data|
      invariant text == Lines(TableLines(headers, data[..j], show))
    {
      var row := RenderRow(data[j], headers, show);
      TableLinesStep(headers, data, j, show);
      text := text + RowText(row) + "\n";
    }
    assert data[..|data|] == data;
  }

  /** `export_to_markdown` with the file replaced by the text it receives. */
  method ExportToMarkdown(data: seq<Members>, generatedOn: string, show: Json -> string) returns (r: Result<string>)
    ensures r.Err? <==> |data| == 0
    ensures r.Ok? ==> exists cols :: IsColumnOrder(cols, KeyUnion(data)) && r.value == Document(cols, data, generatedOn, show)
  {
    if |data| == 0 {
      return Err("No data to export");
    }
    var headers := OrderColumns(data);
    var table := WriteTable(headers, data, show);
    var text := Preamble(generatedOn) + table;
    assert IsColumnOrder(headers, KeyUnion(data)) && text == Document(headers, data, generatedOn, show);
    return Ok(text);
  }

  // ---------------------------------------------------------------- reading a table line back

  /**
   * Split a line at every pipe that is not preceded by a backslash; `prev`
   * is the character before `s` (a line starts with no backslash before it).
   */
  function SplitCells(s: string, prev: char): (parts: seq<string>)
    ensures |parts| >= 1
    decreases |s|
  {
    if |s| == 0 then [""]
    else
      var rest := SplitCells(s[1..], s[0]);
      if s[0] == '|' && prev != '\\' then [""] + rest
      else [[s[0]] + rest[0]] + rest[1..]
  }

  /** Drop the one space of padding on each side of a cell. */
  function Unpad(x: string): string {
    if |x| >= 2 then x[1..|x| - 1] else x
  }

  /** The cells of a table line: the pieces between the outer pipes, unpadded. */
  function ParseRow(line: string): seq<string> {
    var parts := SplitCells(line, ' ');
    if |parts| < 2 then []
    else seq(|parts| - 2, i requires 0 <= i < |parts| - 2 => Unpad(parts[i + 1]))
  }

  /** No pipe of `p` is a boundary, given the character `prev` before it. */
  predicate NoBoundary(p: string, prev: char) {
    && (|p| > 0 && p[0] == '|' ==> prev == '\\')
    && forall k :: 0 < k < |p| && p[k] == '|' ==> p[k - 1] == '\\'
  }

  function LastOr(p: string, prev: char): char {
    if |p| == 0 then prev else p[|p| - 1]
  }

  lemma {:induction false} SplitCellsNoBoundary(p: string, t: string, prev: char)
    requires NoBoundary(p, prev)
    ensures SplitCells(p + t, prev) ==
            [p + SplitCells(t, LastOr(p, prev))[0]] + SplitCells(t, LastOr(p, prev))[1..]
    decreases |p|
  {
    if |p| == 0 {
      assert p + t == t;
      var x := SplitCells(t, prev);
      assert x == [x[0]] + x[1..] && "" + x[0] == x[0];
    } else {
      assert p[0] == '|' ==> prev == '\\';
      assert (p + t)[0] == p[0] && (p + t)[1..] == p[1..] + t;
      assert NoBoundary(p[1..], p[0]) by {
        if |p| > 1 && p[1] == '|' {
          assert p[0] == '\\';
        }
        forall k | 0 < k < |p[1..]| && p[1..][k] == '|' ensures p[1..][k - 1] == '\\' {
          assert p[k + 1] == '|';
        }
      }
      SplitCellsNoBoundary(p[1..], t, p[0]);
      assert LastOr(p[1..], p[0]) == LastOr(p, prev);
      var x := SplitCells(t, LastOr(p, prev));
      var rest := SplitCells(p[1..] + t, p[0]);
      assert !(p[0] == '|' && prev != '\\');
      assert SplitCells(p + t, prev) == [[p[0]] + rest[0]] + rest[1..];
      assert rest[0] == p[1..] + x[0] && rest[1..] == x[1..];
      assert [p[0]] + (p[1..] + x[0]) == p + x[0];
    }
  }

  /** Each cell written with its padding and closing pipe. */
  function Padded(cells: seq<string>): string
    decreases |cells|
  {
    if |cells| == 0 then "" else " " + cells[0] + " |" + Padded(cells[1..])
  }

  lemma {:induction false} JoinPadded(cells: seq<string>)
    requires |cells| >= 1
    ensures " " + Join(cells, " | ") + " |" == Padded(cells)
    decreases |cells|
  {
    if |cells| == 1 {
      assert Padded(cells[1..]) == "";
    } else {
      JoinPadded(cells[1..]);
      assert Join(cells, " | ") == cells[0] + " | " + Join(cells[1..], " | ");
    }
  }

  lemma {:induction false} SplitPadded(cells: seq<string>)
    requires forall i :: 0 <= i < |cells| ==> Safe(cells[i])
    ensures SplitCells(Padded(cells), '|') ==
            seq(|cells|, i requires 0 <= i < |cells| => " " + cells[i] + " ") + [""]
    decreases |cells|
  {
    if |cells| > 0 {
      var c := cells[0];
      var p := " " + c + " ";
      var tail := Padded(cells[1..]);
      var t := "|" + tail;
      assert Padded(cells) == p + t;
      assert NoBoundary(p, '|') by {
        forall k | 0 < k < |p| && p[k] == '|' ensures p[k - 1] == '\\' {
          assert 1 <= k <= |c| && c[k - 1] == '|';
          assert p[k - 1] == c[k - 2];
        }
      }
      SplitCellsNoBoundary(p, t, '|');
      assert LastOr(p, '|') == ' ';
      assert t[0] == '|' && t[1..] == tail;
      assert SplitCells(t, ' ') == [""] + SplitCells(tail, '|');
      SplitPadded(cells[1..]);
      assert p + "" == p;
    }
  }

  /** A line the exporter writes from safe cells reads back as exactly those cells. */
  lemma ParseRowText(cells: seq<string>)
    requires |cells| >= 1
    requires forall i :: 0 <= i < |cells| ==> Safe(cells[i])
    ensures ParseRow(RowText(cells)) == cells
  {
    JoinPadded(cells);
    var padded := Padded(cells);
    assert RowText(cells) == "|" + padded;
    assert ("|" + padded)[1..] == padded;
    SplitPadded(cells);
    var parts := SplitCells(RowText(cells), ' ');
    assert parts == [""] + SplitCells(padded, '|');
    assert |parts| == |cells| + 2;
    var back := ParseRow(RowText(cells));
    forall i | 0 <= i < |cells| ensures back[i] == cells[i] {
      assert parts[i + 1] == " " + cells[i] + " ";
      assert Unpad(" " + cells[i] + " ") == cells[i];
    }
  }

  /** The separator row reads back as one `---` per column. */
  lemma SeparatorRoundTrip(n: nat)
    requires n >= 1
    ensures ParseRow(RowText(Dashes(n))) == Dashes(n)
  {
    ParseRowText(Dashes(n));
  }

  /** The header row reads back as the friendly names, for column keys free of pipes and line feeds. */
  lemma HeaderRoundTrip(cols: seq<string>)
    requires |cols| >= 1
    requires forall i :: 0 <= i < |cols| ==> '|' !in cols[i] && '\n' !in cols[i]
    ensures ParseRow(RowText(Header(cols))) == Header(cols)
  {
    var h := Header(cols);
    forall i | 0 <= i < |h| ensures Safe(h[i]) {
      assert h[i] == DisplayName(cols[i]);
    }
    ParseRowText(h);
  }

  /**
   * A data row reads back as one cell per column, each the escaped value
   * under that column: always for string and empty values, and for other
   * values whenever their printed form has no raw pipe or line feed.
   */
  lemma DataRowRoundTrip(item: Members, cols: seq<string>, show: Json -> string)
    requires |cols| >= 1
    requires forall i :: 0 <= i < |cols| ==>
               var v := GetOr(item, cols[i], Str(""));
               v.Str? || v.Null? || Safe(show(v))
    ensures ParseRow(RowText(RowCells(item, cols, show))) == RowCells(item, cols, show)
  {
    var cells := RowCells(item, cols, show);
    forall i | 0 <= i < |cells| ensures Safe(cells[i]) {
      var v := GetOr(item, cols[i], Str(""));
      if v.Str? {
        EscapedIsSafe(v.s);
      }
    }
    ParseRowText(cells);
  }

  /** Reading a string cell of the written table gives the original value back. */
  lemma StringCellRoundTrip(item: Members, cols: seq<string>, show: Json -> string, i: int)
    requires |cols| >= 1 && 0 <= i < |cols|
    requires forall k :: 0 <= k < |cols| ==> GetOr(item, cols[k], Str("")).Str?
    requires '<' !in GetOr(item, cols[i], Str("")).s
    ensures ParseRow(RowText(RowCells(item, cols, show))) == RowCells(item, cols, show)
    ensures Unescape(ParseRow(RowText(RowCells(item, cols, show)))[i]) == GetOr(item, cols[i], Str("")).s
  {
    DataRowRoundTrip(item, cols, show);
    UnescapeEscape(GetOr(item, cols[i], Str("")).s);
  }

  // ---------------------------------------------------------------- printed values are not escaped

  /**
   * As written, only string values are escaped. A list is written as
   * `str(value)`, and Python prints a list of strings with its pipes intact:
   * a `tags` value `["a|b"]` is printed `['a|b']`, and its one cell reads
   * back as two.
   */
  lemma PrintedPipeSplitsCell(show: Json -> string)
    requires show(Array([Str("a|b")])) == "['a|b']"
    ensures var item := [("info.meta.tags", Array([Str("a|b")]))];
            var cells := RowCells(item, ["info.meta.tags"], show);
            cells == ["['a|b']"] && |ParseRow(RowText(cells))| == 2
  {
    var item := [("info.meta.tags", Array([Str("a|b")]))];
    var cells := RowCells(item, ["info.meta.tags"], show);
    assert cells[0] == Cell(Array([Str("a|b")]), show);
    var line := RowText(cells);
    assert line == "| ['a|b'] |";
    // three of the pipes are boundaries: the two outer ones and the one inside the cell
    assert |SplitCells(line[11..], line[10])| == 1;
    var k := 10;
    while k > 0
      invariant 0 <= k <= 10
      invariant |SplitCells(line[k + 1..], line[k])| ==
                1 + (if k < 10 then 1 else 0) + (if k < 5 then 1 else 0)
    {
      SplitCellsCount(line[k], line[k + 1..], line[k - 1]);
      assert [line[k]] + line[k + 1..] == line[k..];
      k := k - 1;
    }
    SplitCellsCount(line[0], line[1..], ' ');
    assert [line[0]] + line[1..] == line;
  }

  /** One step of the table reader: a pipe not preceded by a backslash starts one more piece. */
  lemma SplitCellsCount(c: char, t: string, prev: char)
    ensures |SplitCells([c] + t, prev)| == |SplitCells(t, c)| + (if c == '|' && prev != '\\' then 1 else 0)
  {
    assert ([c] + t)[0] == c && ([c] + t)[1..] == t;
  }

  /** The cell the table evidently means to write: the printed value escaped, whatever its type. */
  function EscapedCell(v: Json, show: Json -> string): string {
    if v.Null? then "" else Escape(ToText(v, show))
  }

  /** The row of escaped cells, one per column. */
  function EscapedRowCells(item: Members, cols: seq<string>, show: Json -> string): (cells: seq<string>)
    ensures |cells| == |cols|
    ensures forall i :: 0 <= i < |cols| ==> cells[i] == EscapedCell(GetOr(item, cols[i], Str("")), show)
  {
    seq(|cols|, i requires 0 <= i < |cols| => EscapedCell(GetOr(item, cols[i], Str("")), show))
  }

  /** The escaped cell agrees with the written one on strings and `None`, the values the source escapes. */
  lemma EscapedCellAgrees(v: Json, show: Json -> string)
    ensures v.Str? || v.Null? ==> EscapedCell(v, show) == Cell(v, show)
    ensures !v.Null? ==> Safe(EscapedCell(v, show))
  {
    if !v.Null? {
      EscapedIsSafe(ToText(v, show));
    }
  }

  /** With every printed value escaped, every data row reads back as its cells under `ParseRow`, whatever `str` prints. */
  lemma EscapedRowRoundTrip(item: Members, cols: seq<string>, show: Json -> string)
    requires |cols| >= 1
    ensures ParseRow(RowText(EscapedRowCells(item, cols, show))) == EscapedRowCells(item, cols, show)
  {
    var cells := EscapedRowCells(item, cols, show);
    forall i | 0 <= i < |cells| ensures Safe(cells[i]) {
      EscapedCellAgrees(GetOr(item, cols[i], Str("")), show);
    }
    ParseRowText(cells);
  }

  /** ... and each cell gives back the printed value after unescaping, when that has no `<`. */
  lemma EscapedCellRoundTrip(item: Members, cols: seq<string>, show: Json -> string, i: int)
    requires |cols| >= 1 && 0 <= i < |cols|
    requires !GetOr(item, cols[i], Str("")).Null?
    requires '<' !in ToText(GetOr(item, cols[i], Str("")), show)
    ensures ParseRow(RowText(EscapedRowCells(item, cols, show))) == EscapedRowCells(item, cols, show)
    ensures Unescape(ParseRow(RowText(EscapedRowCells(item, cols, show)))[i]) == ToText(GetOr(item, cols[i], Str("")), show)
  {
    EscapedRowRoundTrip(item, cols, show);
    UnescapeEscape(ToText(GetOr(item, cols[i], Str("")), show));
  }
}
