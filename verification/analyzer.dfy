/** `AnalyzerService`: an Excel workbook of daily well reports becomes a table of LLM-extracted
    results. The workbook is read as sheets of cells; date parsing, the completion call and
    `json.loads` are parameters. */
module Analyzer {
  import opened Wrappers
  import Dict
  import PyStr
  import opened PyValue
  import opened Errors

  // ---------------------------------------------------------------------------------------
  // The workbook

  /** A cell of a sheet read with `header=None`: empty (NaN), a string, or any other value
      (a number, a date, a boolean), which keeps the text `str()` gives for it. */
  datatype Cell = Empty | Text(s: string) | Other(str: string)

  datatype Sheet = Sheet(name: string, rows: seq<seq<Cell>>)

  /** The sheets in workbook order. */
  type Workbook = seq<Sheet>

  /** `pd.to_datetime(x, dayfirst=True).strftime("%d.%m.%Y")`; `None` when it raises. */
  type DateParser = Cell -> Option<string>

  /** The completion call `_analyze_with_llm`; `None` when it raises. */
  type Completion = string -> Option<string>

  /** `json.loads`; `None` for a `JSONDecodeError`. */
  type JsonLoads = string -> Option<Value>

  /** `str(v)` of a cell. */
  function CellStr(c: Cell): string {
    match c
    case Empty => "nan"
    case Text(s) => s
    case Other(r) => r
  }

  /** The number of columns of the frame: its longest row. Shorter rows are padded with NaN. */
  function Width(rows: seq<seq<Cell>>): (w: nat)
    ensures forall i | 0 <= i < |rows| :: |rows[i]| <= w
    ensures |rows| == 0 ==> w == 0
    ensures |rows| > 0 ==> exists i | 0 <= i < |rows| :: |rows[i]| == w
    decreases |rows|
  {
    if |rows| == 0 then 0
    else
      var last := |rows| - 1;
      var w := Width(rows[..last]);
      assert forall i | 0 <= i < last :: rows[..last][i] == rows[i];
      if |rows[last]| > w || last == 0 then |rows[last]|
      else
        var i :| 0 <= i < last && |rows[..last][i]| == w;
        assert |rows[i]| == w;
        w
  }

  /** `row[j]` for a column the frame has; padding reads as NaN. */
  function At(row: seq<Cell>, j: nat): Cell {
    if j < |row| then row[j] else Empty
  }

  // ---------------------------------------------------------------------------------------
  // Loops that stop at the first exception

  /** Evaluating each element in order, stopping at the first that raises. */
  function AllOk<T, E>(rs: seq<Result<T, E>>): (r: Result<seq<T>, E>)
    ensures r.Ok? <==> forall i | 0 <= i < |rs| :: rs[i].Ok?
    ensures r.Ok? ==> |r.value| == |rs| && forall i | 0 <= i < |rs| :: r.value[i] == rs[i].value
    ensures r.Err? ==> exists i | 0 <= i < |rs| :: rs[i] == Err(r.error) && forall j | 0 <= j < i :: rs[j].Ok?
    decreases |rs|
  {
    if |rs| == 0 then Ok([])
    else if rs[0].Err? then Err(rs[0].error)
    else
      var rest := AllOk(rs[1..]);
      assert forall i | 1 <= i < |rs| :: rs[i] == rs[1..][i - 1];
      match rest
      case Err(e) =>
        assert exists i | 1 <= i < |rs| :: rs[i] == Err(e) && forall j | 0 <= j < i :: rs[j].Ok? by {
          var i :| 0 <= i < |rs| - 1 && rs[1..][i] == Err(e) && forall j | 0 <= j < i :: rs[1..][j].Ok?;
          assert rs[i + 1] == Err(e);
          forall j | 0 <= j < i + 1
            ensures rs[j].Ok?
          {
            if j > 0 { assert rs[j] == rs[1..][j - 1]; }
          }
        }
        Err(e)
      case Ok(vs) => Ok([rs[0].value] + vs)
  }

  // ---------------------------------------------------------------------------------------
  // The summary sheet

  /** One row of the summary sheet. `row[0]` and `row[3]` are read outside the `try`, so a
      frame without such a column raises `KeyError`; `row[3]` is only read when `row[0]` is not
      NaN. A date that does not parse skips the row. */
  function SummaryEntry(row: seq<Cell>, width: nat, parse: DateParser): (r: Result<Option<(string, string)>, Error>)
    ensures r.Err? <==> width == 0 || (width < 4 && !At(row, 0).Empty?)
    ensures r.Err? ==> r.error.Raised? && r.error.kind == "KeyError"
    ensures r.Ok? && r.value.Some? <==>
      width >= 4 && !At(row, 0).Empty? && !At(row, 3).Empty? && parse(At(row, 0)).Some?
    ensures r.Ok? && r.value.Some? ==>
      r.value.value == (parse(At(row, 0)).value, PyStr.Strip(CellStr(At(row, 3))))
  {
    if width == 0 then Err(Raised("KeyError", "0"))
    else if At(row, 0).Empty? then Ok(None)
    else if width < 4 then Err(Raised("KeyError", "3"))
    else if At(row, 3).Empty? then Ok(None)
    else
      match parse(At(row, 0))
      case None => Ok(None)
      case Some(date) => Ok(Some((date, PyStr.Strip(CellStr(At(row, 3))))))
  }

  /** The entries of every row, in row order. */
  function SummaryEntries(sheet: Sheet, parse: DateParser): (es: seq<Result<Option<(string, string)>, Error>>)
    ensures |es| == |sheet.rows|
    ensures forall i | 0 <= i < |es| :: es[i] == SummaryEntry(sheet.rows[i], Width(sheet.rows), parse)
  {
    seq(|sheet.rows|, i requires 0 <= i < |sheet.rows| => SummaryEntry(sheet.rows[i], Width(sheet.rows), parse))
  }

  /** `summary_data`: normalised date to the stripped text of column 3. */
  function Summary(sheet: Sheet, parse: DateParser): (r: Result<Dict.Dict<string, string>, Error>)
    ensures r.Ok? ==> Dict.KeysUnique(r.value)
    ensures r.Err? <==> exists i | 0 <= i < |sheet.rows| :: SummaryEntry(sheet.rows[i], Width(sheet.rows), parse).Err?
    ensures r.Err? ==> r.error.Raised? && r.error.kind == "KeyError"
  {
    var es := SummaryEntries(sheet, parse);
    match AllOk(es)
    case Err(e) =>
      assert exists i | 0 <= i < |es| :: es[i] == Err(e);
      Err(e)
    case Ok(es) => Ok(Dict.Assign(es))
  }

  /** Each date of the summary holds the text of the last row with that date; a date no row
      has is absent. */
  lemma SummaryGet(sheet: Sheet, parse: DateParser, date: string)
    requires Summary(sheet, parse).Ok?
    ensures AllOk(SummaryEntries(sheet, parse)).Ok?
    ensures var es := AllOk(SummaryEntries(sheet, parse)).value;
      Dict.Get(Summary(sheet, parse).value, date) ==
        if Dict.LastFor(es, date).None? then None else Some(es[Dict.LastFor(es, date).value].value.1)
  {
    Dict.AssignGet(AllOk(SummaryEntries(sheet, parse)).value, date);
  }

  // ---------------------------------------------------------------------------------------
  // The dated sheets

  /** Every cell of the frame, row by row (`values.flatten()`). */
  function Flatten(rows: seq<seq<Cell>>): (cells: seq<Cell>)
    decreases |rows|
  {
    if |rows| == 0 then [] else Flatten(rows[..|rows| - 1]) + rows[|rows| - 1]
  }

  /** What one cell adds to a sheet's text: its stripped string when it is a string that is not
      blank, nothing otherwise. NaN becomes `""` under `fillna("")` and so adds nothing. */
  function CellText(c: Cell): (ts: seq<string>)
    ensures |ts| <= 1
  {
    if c.Text? && PyStr.Strip(c.s) != "" then [PyStr.Strip(c.s)] else []
  }

  /** What `f` gives for each cell, concatenated in cell order. */
  function Pieces(cells: seq<Cell>, f: Cell -> seq<string>): (ts: seq<string>)
    decreases |cells|
  {
    if |cells| == 0 then [] else Pieces(cells[..|cells| - 1], f) + f(cells[|cells| - 1])
  }

  lemma {:induction false} PiecesAppend(a: seq<Cell>, b: seq<Cell>, f: Cell -> seq<string>)
    ensures Pieces(a + b, f) == Pieces(a, f) + Pieces(b, f)
    decreases |b|
  {
    if |b| == 0 {
      assert a + b == a;
    } else {
      var ab, b' := a + b, b[..|b| - 1];
      assert ab[..|ab| - 1] == a + b' && ab[|ab| - 1] == b[|b| - 1];
      PiecesAppend(a, b', f);
    }
  }

  /** Each piece comes from some cell. */
  lemma {:induction false} PiecesFrom(cells: seq<Cell>, f: Cell -> seq<string>, t: string)
    requires t in Pieces(cells, f)
    ensures exists j | 0 <= j < |cells| :: t in f(cells[j])
    decreases |cells|
  {
    var prefix := cells[..|cells| - 1];
    if t !in f(cells[|cells| - 1]) {
      PiecesFrom(prefix, f, t);
      var j :| 0 <= j < |prefix| && t in f(prefix[j]);
      assert prefix[j] == cells[j];
    }
  }

  /** The stripped non-blank strings among `cells`, in order. */
  function TextCells(cells: seq<Cell>): seq<string> {
    Pieces(cells, CellText)
  }

  /** The text of a sheet is computed piece by piece: cells before, then cells after; one cell
      contributes exactly `CellText`. */
  lemma TextCellsAppend(a: seq<Cell>, b: seq<Cell>, c: Cell)
    ensures TextCells(a + b) == TextCells(a) + TextCells(b)
    ensures TextCells([c]) == CellText(c)
  {
    PiecesAppend(a, b, CellText);
    var one: seq<Cell> := [c];
    assert one[..|one| - 1] == [] && one[|one| - 1] == c;
    assert Pieces(one, CellText) == Pieces([], CellText) + CellText(c);
  }

  /** Every piece of the text is a non-blank string already stripped, taken from a string
      cell. */
  lemma TextCellsClean(cells: seq<Cell>)
    ensures forall t | t in TextCells(cells) :: t != "" && PyStr.Strip(t) == t
    ensures forall t | t in TextCells(cells) :: exists j | 0 <= j < |cells| :: cells[j].Text? && t == PyStr.Strip(cells[j].s)
  {
    forall t | t in TextCells(cells)
      ensures t != "" && PyStr.Strip(t) == t
      ensures exists j | 0 <= j < |cells| :: cells[j].Text? && t == PyStr.Strip(cells[j].s)
    {
      PiecesFrom(cells, CellText, t);
      var j :| 0 <= j < |cells| && t in CellText(cells[j]);
      PyStr.StripIdempotent(cells[j].s);
    }
  }

  /** The text of a sheet: its pieces joined by newlines. */
  function SheetText(sheet: Sheet): string {
    PyStr.Join(TextCells(Flatten(sheet.rows)), "\n")
  }

  /** A report: the summary text of its date, a newline and the sheet's text, stripped. */
  function ReportBody(summary: Dict.Dict<string, string>, date: string, text: string): string {
    PyStr.Strip(Dict.Get(summary, date).GetOr("") + "\n" + text)
  }

  /** What one dated sheet contributes: nothing when its name does not parse as a date. */
  function ReportEntry(summary: Dict.Dict<string, string>, sheet: Sheet, parse: DateParser): (e: Option<(string, string)>)
    ensures e.Some? <==> parse(Text(sheet.name)).Some?
    ensures e.Some? ==> e.value == (parse(Text(sheet.name)).value, ReportBody(summary, parse(Text(sheet.name)).value, SheetText(sheet)))
  {
    match parse(Text(sheet.name))
    case None => None
    case Some(date) => Some((date, ReportBody(summary, date, SheetText(sheet))))
  }

  function ReportEntries(summary: Dict.Dict<string, string>, wb: Workbook, parse: DateParser): (es: seq<Option<(string, string)>>)
    requires |wb| >= 2
    ensures |es| == |wb| - 2
    ensures forall i | 0 <= i < |es| :: es[i] == ReportEntry(summary, wb[i + 2], parse)
  {
    seq(|wb| - 2, i requires 0 <= i < |wb| - 2 => ReportEntry(summary, wb[i + 2], parse))
  }

  const TooFewSheets: string := "Файл должен содержать минимум 3 листа: текущая, сводка и отчёты по датам"

  /** `_extract_reports`: the workbook needs the current sheet, the summary and at least one
      more; every later sheet whose name is a date gives the report of that date. */
  function ExtractReports(wb: Workbook, parse: DateParser): (r: Result<Dict.Dict<string, string>, Error>)
    ensures |wb| < 3 <==> r == Err(Raised("ValueError", TooFewSheets))
    ensures |wb| >= 3 ==> (r.Err? <==> Summary(wb[1], parse).Err?)
    ensures r.Ok? ==> Dict.KeysUnique(r.value) && |r.value| <= |wb| - 2
  {
    if |wb| < 3 then Err(Raised("ValueError", TooFewSheets))
    else
      match Summary(wb[1], parse)
      case Err(e) => Err(e)
      case Ok(summary) => Ok(Dict.Assign(ReportEntries(summary, wb, parse)))
  }

  /** The last sheet, from the third on, whose name is `date`. */
  function LastSheetFor(wb: Workbook, parse: DateParser, date: string): (r: Option<nat>)
    ensures r.Some? ==> 2 <= r.value < |wb| && parse(Text(wb[r.value].name)) == Some(date)
    ensures r.Some? ==> forall j | r.value < j < |wb| :: parse(Text(wb[j].name)) != Some(date)
    ensures r.None? ==> forall j | 2 <= j < |wb| :: parse(Text(wb[j].name)) != Some(date)
    decreases |wb|
  {
    if |wb| <= 2 then None
    else if parse(Text(wb[|wb| - 1].name)) == Some(date) then Some(|wb| - 1)
    else
      var r := LastSheetFor(wb[..|wb| - 1], parse, date);
      assert forall j | 0 <= j < |wb| - 1 :: wb[..|wb| - 1][j] == wb[j];
      r
  }

  /** A sheet's entry carries `date` exactly when its name parses as `date`. */
  lemma ReportEntryKey(summary: Dict.Dict<string, string>, sheet: Sheet, parse: DateParser, date: string)
    ensures (ReportEntry(summary, sheet, parse).Some? && ReportEntry(summary, sheet, parse).value.0 == date) <==>
      parse(Text(sheet.name)) == Some(date)
  {
  }

  /** Entry `i` carries `date` exactly when sheet `i + 2` is dated `date`. */
  lemma ReportEntriesKeys(summary: Dict.Dict<string, string>, wb: Workbook, parse: DateParser, date: string)
    requires |wb| >= 2
    ensures forall i | 0 <= i < |wb| - 2 ::
      (ReportEntries(summary, wb, parse)[i].Some? && ReportEntries(summary, wb, parse)[i].value.0 == date) <==>
      parse(Text(wb[i + 2].name)) == Some(date)
  {
    var es := ReportEntries(summary, wb, parse);
    forall i | 0 <= i < |es|
      ensures (es[i].Some? && es[i].value.0 == date) <==> parse(Text(wb[i + 2].name)) == Some(date)
    {
      ReportEntryKey(summary, wb[i + 2], parse, date);
    }
  }

  /** Entries that line up with the sheets from the third on, carrying `date` exactly where the
      sheet is dated `date`, have their last `date` entry at the last such sheet. */
  lemma LastForSheets<V>(es: seq<Option<(string, V)>>, wb: Workbook, parse: DateParser, date: string)
    requires |wb| >= 2 && |es| == |wb| - 2
    requires forall i | 0 <= i < |es| :: (es[i].Some? && es[i].value.0 == date) <==> parse(Text(wb[i + 2].name)) == Some(date)
    ensures Dict.LastFor(es, date) ==
      if LastSheetFor(wb, parse, date).None? then None else Some(LastSheetFor(wb, parse, date).value - 2)
  {
    var b := LastSheetFor(wb, parse, date);
    if b.Some? {
      Dict.LastForAt(es, date, b.value - 2);
      assert Dict.LastFor(es, date) == Some(b.value - 2);
    } else {
      forall i | 0 <= i < |es|
        ensures !(es[i].Some? && es[i].value.0 == date)
      {
        assert parse(Text(wb[i + 2].name)) != Some(date);
      }
      assert Dict.LastFor(es, date).None?;
    }
  }

  /** A successful extraction is the assignment of the entries of every sheet from the third on. */
  lemma ExtractReportsValue(wb: Workbook, parse: DateParser)
    requires ExtractReports(wb, parse).Ok?
    ensures |wb| >= 3 && Summary(wb[1], parse).Ok?
    ensures ExtractReports(wb, parse).value == Dict.Assign(ReportEntries(Summary(wb[1], parse).value, wb, parse))
  {
  }

  /** The reports hold exactly the dates of the sheets from the third on whose names parse;
      each holds the body built from the LAST such sheet with that date. The first two sheets
      never give a report. */
  lemma ExtractReportsGet(wb: Workbook, parse: DateParser, date: string)
    requires ExtractReports(wb, parse).Ok?
    ensures |wb| >= 3 && Summary(wb[1], parse).Ok?
    ensures Dict.Get(ExtractReports(wb, parse).value, date) ==
      if LastSheetFor(wb, parse, date).None? then None
      else Some(ReportBody(Summary(wb[1], parse).value, date, SheetText(wb[LastSheetFor(wb, parse, date).value])))
  {
    var summary := Summary(wb[1], parse).value;
    var es := ReportEntries(summary, wb, parse);
    ExtractReportsValue(wb, parse);
    Dict.AssignGet(es, date);
    ReportEntriesKeys(summary, wb, parse, date);
    LastForSheets(es, wb, parse, date);
    var b := LastSheetFor(wb, parse, date);
    if b.Some? {
      assert es[b.value - 2] == ReportEntry(summary, wb[b.value], parse);
      assert es[b.value - 2].value.1 == ReportBody(summary, date, SheetText(wb[b.value]));
    }
  }

  /** A workbook with fewer than three sheets is refused before any report is extracted, and
      whatever the date parser does. */
  lemma TooFewSheetsRefused(wb: Workbook, parse: DateParser, parse': DateParser)
    requires |wb| < 3
    ensures ExtractReports(wb, parse) == ExtractReports(wb, parse') == Err(Raised("ValueError", TooFewSheets))
  {
  }

  // ---------------------------------------------------------------------------------------
  // One report

  const PromptHead: string := "\n        Ниже приведён текстовый отчёт о скважине.  \n        Проанализируй его и заполни все поля JSON-схемы в соответствии с данными, найденными в тексте.  \n        Если какие-то данные отсутствуют — ставь пустую строку \"\".  \n        Помни: вывод должен строго соответствовать JSON Schema и быть корректным JSON-объектом.\n        \n        Текст отчёта:\n        "
  const PromptTail: string := "\n        "

  /** `_create_prompt`: the report text inside the fixed instructions. */
  function CreatePrompt(text: string): (p: string)
    ensures |p| == |PromptHead| + |text| + |PromptTail|
  {
    PromptHead + text + PromptTail
  }

  /** The prompt starts with the instructions, ends with the closing indentation, and carries
      the report text between them, so different reports give different prompts. */
  lemma CreatePromptEmbeds(text: string)
    ensures CreatePrompt(text)[..|PromptHead|] == PromptHead
    ensures CreatePrompt(text)[|PromptHead|..|PromptHead| + |text|] == text
    ensures CreatePrompt(text)[|PromptHead| + |text|..] == PromptTail
  {
    PyStr.Concat3(PromptHead, text, PromptTail);
  }

  lemma CreatePromptInjective(a: string, b: string)
    requires CreatePrompt(a) == CreatePrompt(b)
    ensures a == b
  {
    CreatePromptEmbeds(a);
    CreatePromptEmbeds(b);
  }

  /** `_process_single_report`: the parsed completion, or `None` (Python's `None`) when the
      call raises, the answer is not JSON, or the answer is JSON `null`. Nothing escapes. */
  function ProcessSingleReport(text: string, complete: Completion, loads: JsonLoads): (r: Option<Value>)
    ensures r.Some? <==> complete(CreatePrompt(text)).Some? && loads(complete(CreatePrompt(text)).value).Some?
                         && loads(complete(CreatePrompt(text)).value).value != Nil
    ensures r.Some? ==> r.value == loads(complete(CreatePrompt(text)).value).value
  {
    match complete(CreatePrompt(text))
    case None => None
    case Some(answer) =>
      match loads(answer)
      case None => None
      case Some(data) => if data.Nil? then None else Some(data)
  }

  // ---------------------------------------------------------------------------------------
  // Aggregation

  const StartKey: string := "Начало мероприятия"
  const NoAttributeGet: string := "' object has no attribute 'get'"
  const Unhashable: string := "unhashable type: '"
  const NoResults: string := "Не удалось обработать ни один отчёт из файла"

  /** The key of a result: its start date when truthy, else today's date. */
  function StartEvent(entries: Dict.Dict<string, Value>, today: string): (k: Value)
    ensures Truthy(Member(entries, StartKey)) ==> k == Member(entries, StartKey)
    ensures !Truthy(Member(entries, StartKey)) ==> k == Str(today)
  {
    var v := Member(entries, StartKey);
    if Truthy(v) then v else Str(today)
  }

  /** What one result contributes to the table. A `None` result is skipped. `result.get` is
      outside any `try`, so a result that is not a JSON object raises `AttributeError`, and a
      list or object start date raises `TypeError` as a dict key. */
  function TableEntry(result: Option<Value>, today: string): (r: Result<Option<(Value, Value)>, Error>)
    ensures result.None? ==> r == Ok(None)
    ensures result.Some? && !result.value.Object? ==> r.Err? && r.error.Raised? && r.error.kind == "AttributeError"
    ensures result.Some? && result.value.Object? ==>
      (r.Err? <==> !Hashable(StartEvent(result.value.entries, today)))
    ensures r.Err? ==> r.error.Raised? && r.error.kind in {"AttributeError", "TypeError"}
    ensures r.Ok? && r.value.Some? ==>
      result.Some? && result.value.Object? && r.value.value == (StartEvent(result.value.entries, today), result.value)
    ensures r.Ok? && r.value.None? ==> result.None?
  {
    match result
    case None => Ok(None)
    case Some(v) =>
      if !v.Object? then Err(Raised("AttributeError", "'" + TypeName(v) + NoAttributeGet))
      else
        var k := StartEvent(v.entries, today);
        if !Hashable(k) then Err(Raised("TypeError", Unhashable + TypeName(k) + "'"))
        else Ok(Some((k, v)))
  }

  function TableEntries(results: seq<Option<Value>>, today: string): (es: seq<Result<Option<(Value, Value)>, Error>>)
    ensures |es| == |results|
    ensures forall i | 0 <= i < |es| :: es[i] == TableEntry(results[i], today)
  {
    seq(|results|, i requires 0 <= i < |results| => TableEntry(results[i], today))
  }

  /** The loop over the results and the final emptiness check of `analyze`. */
  function Collect(results: seq<Option<Value>>, today: string): (r: Result<Dict.Dict<Value, Value>, Error>)
    ensures r.Ok? ==> Dict.KeysUnique(r.value) && 1 <= |r.value| <= |results|
    ensures (forall i | 0 <= i < |results| :: results[i].None?) ==> r == Err(Raised("ValueError", NoResults))
  {
    var es := TableEntries(results, today);
    match AllOk(es)
    case Err(e) => Err(e)
    case Ok(entries) =>
      var table := Dict.Assign(entries);
      Dict.AssignEmpty(entries);
      if |table| == 0 then Err(Raised("ValueError", NoResults)) else Ok(table)
  }

  /** The table keys each result by its start date (or today's date) and keeps the last result
      with that key. */
  lemma CollectGet(results: seq<Option<Value>>, today: string, key: Value)
    requires Collect(results, today).Ok?
    ensures AllOk(TableEntries(results, today)).Ok?
    ensures var es := AllOk(TableEntries(results, today)).value;
      Dict.Get(Collect(results, today).value, key) ==
        if Dict.LastFor(es, key).None? then None else Some(es[Dict.LastFor(es, key).value].value.1)
  {
    Dict.AssignGet(AllOk(TableEntries(results, today)).value, key);
  }

  /** `analyze` fails with "no report processed" exactly when every report came back `None`. */
  lemma CollectEmptyIff(results: seq<Option<Value>>, today: string)
    ensures Collect(results, today) == Err(Raised("ValueError", NoResults)) <==>
      forall i | 0 <= i < |results| :: results[i].None?
  {
    var es := TableEntries(results, today);
    var all := AllOk(es);
    if all.Err? {
      var i :| 0 <= i < |es| && es[i] == Err(all.error);
      assert results[i].Some?;
    } else if Collect(results, today) == Err(Raised("ValueError", NoResults)) {
      Dict.AssignEmpty(all.value);
      forall i | 0 <= i < |results|
        ensures results[i].None?
      {
        assert all.value[i] == es[i].value;
      }
    }
  }

  /** Dispatching every report, in the order of the reports (`gather` pairs results back by
      index). */
  function Dispatch(reports: Dict.Dict<string, string>, complete: Completion, loads: JsonLoads): (results: seq<Option<Value>>)
    ensures |results| == |reports|
    ensures forall i | 0 <= i < |reports| :: results[i] == ProcessSingleReport(reports[i].1, complete, loads)
  {
    seq(|reports|, i requires 0 <= i < |reports| => ProcessSingleReport(reports[i].1, complete, loads))
  }

  /** `analyze`: extract the reports, process each, and collect the table. */
  function Analyze(wb: Workbook, parse: DateParser, complete: Completion, loads: JsonLoads, today: string): (r: Result<Dict.Dict<Value, Value>, Error>)
    ensures |wb| < 3 ==> r == Err(Raised("ValueError", TooFewSheets))
    ensures r.Ok? ==> ExtractReports(wb, parse).Ok?
    ensures r.Ok? ==> Dict.KeysUnique(r.value) && 1 <= |r.value| <= |ExtractReports(wb, parse).value|
  {
    match ExtractReports(wb, parse)
    case Err(e) => Err(e)
    case Ok(reports) => Collect(Dispatch(reports, complete, loads), today)
  }

  /** A workbook with fewer than three sheets never reaches the completion call: the outcome
      is the same whatever the oracles answer. */
  lemma TooFewSheetsNoDispatch(wb: Workbook, parse: DateParser, complete: Completion, complete': Completion,
                               loads: JsonLoads, loads': JsonLoads, today: string, today': string)
    requires |wb| < 3
    ensures Analyze(wb, parse, complete, loads, today) == Analyze(wb, parse, complete', loads', today')
  {
  }

  /** Once the reports are extracted, `analyze` fails with the no-results error exactly when
      every report comes back `None`. */
  lemma AnalyzeNothingProcessed(wb: Workbook, parse: DateParser, complete: Completion, loads: JsonLoads, today: string)
    requires ExtractReports(wb, parse).Ok?
    ensures Analyze(wb, parse, complete, loads, today) == Err(Raised("ValueError", NoResults)) <==>
      forall i | 0 <= i < |ExtractReports(wb, parse).value| ::
        ProcessSingleReport(ExtractReports(wb, parse).value[i].1, complete, loads).None?
  {
    var reports := ExtractReports(wb, parse).value;
    var results := Dispatch(reports, complete, loads);
    CollectEmptyIff(results, today);
  }
}
