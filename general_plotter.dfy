/** The table-loading path of the wxPython front-end `general_plotter.py`:
    `_find_delim`, which guesses the delimiter from the counts of tabs and
    commas on the first lines that are not blank, and `load`, which reads the
    header, extracts the picked columns and labels them. */
module GeneralPlotter {
  import opened Wrappers
  import opened Seqs
  import opened Text
  import opened Csv
  import opened Sniffing
  import opened Table

  /** The default of `_find_delim`'s `sample` parameter, the one `load` uses. */
  const SAMPLE: nat := 10

  /** The sampling test of `_find_delim`: something other than whitespace is
      left after `strip()`. */
  predicate NotBlank(line: string) {
    |Strip(line)| > 0
  }

  /** What `_find_delim` returns, with whether it showed the warning that the
      extension decided. */
  datatype Guess = Guess(delim: Option<Delim>, warned: bool)

  /** The candidate test as the code writes it: the first count occurs on
      every sampled line, and it is positive. */
  predicate CanUse(counts: seq<nat>) {
    |counts| > 0 && Occurrences(counts, counts[0]) == |counts| && counts[0] > 0
  }

  /** The candidate test stated directly: every sampled line has the same
      positive count. */
  predicate Uniform(counts: seq<nat>) {
    |counts| > 0 && counts[0] > 0 && forall i :: 0 <= i < |counts| ==> counts[i] == counts[0]
  }

  lemma CanUseIffUniform(counts: seq<nat>)
    ensures CanUse(counts) <==> Uniform(counts)
  {
    if |counts| > 0 {
      OccurrencesAll(counts, counts[0]);
    }
  }

  /** The decision of `_find_delim` once the counts are known. The two
      branches that return `None` on a zero first count can never be taken,
      so `None` means exactly that nothing was sampled. */
  function Decide(nTab: seq<nat>, nComma: seq<nat>, path: string): (g: Guess)
    requires |nTab| == |nComma|
    ensures g.delim.None? <==> |nTab| == 0
    ensures g.warned <==> |nTab| > 0 && !Uniform(nTab) && !Uniform(nComma)
    ensures g.warned ==> g.delim == Some(if HasTabExtension(path) then Tab else Comma)
    ensures Uniform(nTab) && !Uniform(nComma) ==> g.delim == Some(Tab)
    ensures !Uniform(nTab) && Uniform(nComma) ==> g.delim == Some(Comma)
    ensures Uniform(nTab) && Uniform(nComma) ==>
              (g.delim == Some(Tab) <==> nTab[0] > nComma[0]) &&
              (g.delim == Some(Comma) <==> nTab[0] <= nComma[0])
  {
    if |nTab| == 0 then Guess(None, false)
    else
      var countTab := Occurrences(nTab, nTab[0]);
      var countComma := Occurrences(nComma, nComma[0]);
      var canTab := countTab == |nTab| && nTab[0] > 0;
      var canComma := countComma == |nTab| && nComma[0] > 0;
      CanUseIffUniform(nTab);
      CanUseIffUniform(nComma);
      if !canTab && !canComma then
        Guess(Some(if HasTabExtension(path) then Tab else Comma), true)
      else if !canTab && canComma then
        Guess(if nComma[0] == 0 then None else Some(Comma), false)
      else if canTab && !canComma then
        Guess(if nTab[0] == 0 then None else Some(Tab), false)
      else
        Guess(Some(if nTab[0] > nComma[0] then Tab else Comma), false)
  }

  /** What `_find_delim(path, sample)` decides for a file with these lines:
      no delimiter exactly when every line is blank, and the warning only
      when the extension settles the delimiter. */
  function Sniff(lines: seq<string>, path: string, sample: nat): (g: Guess)
    ensures g.delim.None? <==> forall i :: 0 <= i < |lines| ==> |Strip(lines[i])| == 0
    ensures g.warned ==> g.delim == Some(if HasTabExtension(path) then Tab else Comma)
  {
    var s := Sample(lines, NotBlank, sample);
    SampleEmpty(lines, NotBlank, sample);
    Decide(Counts(s, '\t'), Counts(s, ','), path)
  }

  /** `_find_delim`: sample the counts, then decide. */
  method FindDelim(lines: seq<string>, path: string, sample: nat) returns (delim: Option<Delim>, warned: bool)
    ensures Guess(delim, warned) == Sniff(lines, path, sample)
  {
    var nTab, nComma := SampleCounts(lines, NotBlank, sample);
    var g := Decide(nTab, nComma, path);
    delim, warned := g.delim, g.warned;
  }

  /** The legend entry of picked column `c`: its header, or `Column <c+1>`
      when the header cell is empty. */
  function Label(headers: seq<string>, c: nat): (r: string)
    requires c < |headers|
    ensures r != []
    ensures headers[c] != [] ==> r == headers[c]
  {
    if headers[c] == [] then "Column " + Decimal(c + 1) else headers[c]
  }

  /** A placeholder names its column: after `Column ` it reads back as the
      1-based column number. */
  lemma PlaceholderNamesColumn(headers: seq<string>, c: nat)
    requires c < |headers| && headers[c] == []
    ensures Label(headers, c)[..7] == "Column "
    ensures forall i :: 7 <= i < |Label(headers, c)| ==> IsDigit(Label(headers, c)[i])
    ensures DecimalValue(Label(headers, c)[7..]) == c + 1
  {
    var r := Label(headers, c);
    assert r[7..] == Decimal(c + 1);
    DecimalRoundTrip(c + 1);
  }

  /** Two picked columns with empty headers never share a legend entry. */
  lemma PlaceholdersDistinct(headers: seq<string>, c1: nat, c2: nat)
    requires c1 < |headers| && c2 < |headers| && headers[c1] == [] && headers[c2] == []
    requires c1 != c2
    ensures Label(headers, c1) != Label(headers, c2)
  {
    PlaceholderNamesColumn(headers, c1);
    PlaceholderNamesColumn(headers, c2);
  }

  /** The series `load` plots: one per picked column, labelled by `Label`. */
  function Plot<V>(headers: seq<string>, selected: seq<nat>, cols: seq<seq<Option<V>>>): (r: seq<Series<V>>)
    requires |cols| == |selected|
    requires forall k :: 0 <= k < |selected| ==> selected[k] < |headers|
    ensures |r| == |selected|
  {
    seq(|selected|, i requires 0 <= i < |selected| => Series(Label(headers, selected[i]), cols[i]))
  }

  /** The plotting loop of `load`: give every extracted column its legend
      entry, in the order of the picks. */
  method LabelSeries<V>(headers: seq<string>, selected: seq<nat>, cols: seq<seq<Option<V>>>)
    returns (series: seq<Series<V>>)
    requires |cols| == |selected|
    requires forall k :: 0 <= k < |selected| ==> selected[k] < |headers|
    ensures series == Plot(headers, selected, cols)
  {
    series := [];
    var i := 0;
    while i < |cols|
      invariant 0 <= i <= |cols|
      invariant series == Plot(headers, selected, cols)[..i]
    {
      series := series + [Series(Label(headers, selected[i]), cols[i])];
      i := i + 1;
    }
  }

  /** The delimiter `load` uses: the one it was given, else `_find_delim`'s. */
  function ChosenDelim(lines: seq<string>, path: string, delim: Option<Delim>): Option<Delim> {
    if delim.Some? then delim else Sniff(lines, path, SAMPLE).delim
  }

  /** How `load(path, delim)` ends for a file with these lines, when the user
      answers the column dialog with `answer`. */
  function LoadResult<V>(lines: seq<string>, path: string, delim: Option<Delim>, answer: Answer,
                         parse: string -> Option<V>): (r: Outcome<V>)
    ensures r == Undetermined <==> delim.None? && forall i :: 0 <= i < |lines| ==> |Strip(lines[i])| == 0
    ensures r.Plotted? ==> answer.Ok?
  {
    match ChosenDelim(lines, path, delim)
    case None => Undetermined
    case Some(d) => LoadRecords(Records(lines, d), answer, parse)
  }

  /** The part of `load` after the delimiter is known. */
  function LoadRecords<V>(records: seq<seq<string>>, answer: Answer, parse: string -> Option<V>): (r: Outcome<V>)
    ensures r != Undetermined
    ensures r == NoHeader <==> forall k :: 0 <= k < |records| ==> |records[k]| == 0
    ensures r.Plotted? ==> answer.Ok?
  {
    match FirstNonEmpty(records)
    case None => NoHeader
    case Some(h) =>
      match answer
      case Cancel => Cancelled
      case Ok(checked) => PlotPicked(records[h], records[h + 1..], checked, parse)
  }

  /** The part of `load` after the dialog was confirmed. */
  function PlotPicked<V>(headers: seq<string>, rows: seq<seq<string>>, checked: set<nat>,
                         parse: string -> Option<V>): (r: Outcome<V>)
    ensures r == RowTooShort || r.Plotted?
    ensures r.Plotted? ==> |r.series| == |CheckedItems(|headers|, checked)|
  {
    var selected := CheckedItems(|headers|, checked);
    if !Covers(rows, selected) then RowTooShort
    else Plotted(Plot(headers, selected, Columns(rows, selected, parse)))
  }

  /** `load`: choose the delimiter, then read the table. `warned` is whether
      the warning that the extension decided was shown. */
  method Load<V>(lines: seq<string>, path: string, delim: Option<Delim>, answer: Answer,
                 parse: string -> Option<V>) returns (warned: bool, out: Outcome<V>)
    ensures warned <==> delim.None? && Sniff(lines, path, SAMPLE).warned
    ensures out == LoadResult(lines, path, delim, answer, parse)
  {
    var d := delim;
    warned := false;
    if d.None? {
      d, warned := FindDelim(lines, path, SAMPLE);
    }
    if d.None? {
      return warned, Undetermined;
    }
    out := ReadTable(Records(lines, d.value), answer, parse);
  }

  /** The reading part of `load`: the header, the dialog, the columns. */
  method ReadTable<V>(records: seq<seq<string>>, answer: Answer, parse: string -> Option<V>) returns (out: Outcome<V>)
    ensures out == LoadRecords(records, answer, parse)
  {
    var header, next := ReadHeader(records);
    if header.None? {
      return NoHeader;
    }
    if answer.Cancel? {
      return Cancelled;
    }
    assert records[next..] == records[FirstNonEmpty(records).value + 1..];
    out := PlotColumns(header.value, records[next..], answer.checked, parse);
  }

  /** The extraction and plotting loops of `load`. */
  method PlotColumns<V>(headers: seq<string>, rows: seq<seq<string>>, checked: set<nat>,
                        parse: string -> Option<V>) returns (out: Outcome<V>)
    ensures out == PlotPicked(headers, rows, checked, parse)
  {
    var selected := CheckedItems(|headers|, checked);
    var cols := ExtractColumns(rows, selected, parse);
    if cols.Failure? {
      return RowTooShort;
    }
    var series := LabelSeries(headers, selected, cols.value);
    out := Plotted(series);
  }

  /** A file with a line that is not blank has a header record, whichever
      delimiter splits it. */
  lemma NonBlankLineGivesHeader(lines: seq<string>, d: Delim, k: nat)
    requires k < |lines| && |Strip(lines[k])| > 0
    ensures FirstNonEmpty(Records(lines, d)).Some?
  {
    NonBlankLineHasFields(lines[k], d);
    assert |Records(lines, d)[k]| > 0;
  }

  /** When `_find_delim` settles the delimiter, some line of the file is not
      blank, so its record has a field and reading the header cannot run out
      of records. */
  lemma SniffedFileHasHeader<V>(lines: seq<string>, path: string, answer: Answer, parse: string -> Option<V>)
    requires Sniff(lines, path, SAMPLE).delim.Some?
    ensures !LoadResult(lines, path, None, answer, parse).NoHeader?
  {
    var d := Sniff(lines, path, SAMPLE).delim.value;
    var k :| 0 <= k < |lines| && |Strip(lines[k])| > 0;
    NonBlankLineGivesHeader(lines, d, k);
    assert ChosenDelim(lines, path, None) == Some(d);
    var records := Records(lines, d);
    assert LoadResult(lines, path, None, answer, parse) == LoadRecords(records, answer, parse);
  }

  /** `series` holds one entry per picked column, in the order of the picks,
      each labelled by `Label` and holding one value per data row, in row
      order: the parsed cell of that column, or `None` for NaN. */
  ghost predicate SeriesOfRows<V>(series: seq<Series<V>>, headers: seq<string>, selected: seq<nat>,
                                  data: seq<seq<string>>, parse: string -> Option<V>)
    requires forall k :: 0 <= k < |selected| ==> selected[k] < |headers|
  {
    |series| == |selected| &&
    forall i :: 0 <= i < |selected| ==>
      series[i].legend == Label(headers, selected[i]) &&
      |series[i].values| == |data| &&
      forall j :: 0 <= j < |data| ==>
        RowCovers(data[j], selected) && series[i].values[j] == parse(data[j][selected[i]])
  }

  /** Once the dialog is confirmed, the load fails exactly when some data row
      lacks a picked column; otherwise it plots, for every picked column, the
      cells of the data rows that are not empty. */
  lemma PlottedSeries<V>(headers: seq<string>, rows: seq<seq<string>>, checked: set<nat>, parse: string -> Option<V>)
    ensures PlotPicked(headers, rows, checked, parse).Plotted? <==> Covers(rows, CheckedItems(|headers|, checked))
    ensures PlotPicked(headers, rows, checked, parse).Plotted? ==>
              SeriesOfRows(PlotPicked(headers, rows, checked, parse).series, headers,
                           CheckedItems(|headers|, checked), Filter(rows, NonEmptyRow), parse)
  {
    var selected := CheckedItems(|headers|, checked);
    if Covers(rows, selected) {
      var cols := Columns(rows, selected, parse);
      var series := Plot(headers, selected, cols);
      assert PlotPicked(headers, rows, checked, parse) == Plotted(series);
      ColumnsView(rows, selected, parse);
      forall i | 0 <= i < |selected|
        ensures series[i].legend == Label(headers, selected[i]) && series[i].values == cols[i]
      {
      }
    }
  }

  /** The sampled lines are lines of the file that are not blank, and
      there is one when the file has a line that is not blank. */
  lemma SampledLines(lines: seq<string>, sample: nat)
    ensures var s := Sample(lines, NotBlank, sample);
            (forall j :: 0 <= j < |s| ==> s[j] in lines && NotBlank(s[j])) &&
            ((exists k :: 0 <= k < |lines| && NotBlank(lines[k])) ==> |s| > 0)
  {
    var s := Sample(lines, NotBlank, sample);
    SampleEmpty(lines, NotBlank, sample);
    FilterMembers(lines, NotBlank);
    forall j | 0 <= j < |s|
      ensures s[j] in lines
    {
      assert s[j] in Filter(lines, NotBlank);
    }
  }

  /** A file whose lines that are not blank all hold the same positive
      number of one delimiter and none of the other is read with that
      delimiter, without the warning. */
  lemma SteadyDelimiterChosen(lines: seq<string>, path: string, sample: nat, d: Delim, c: nat)
    requires c > 0
    requires exists k :: 0 <= k < |lines| && NotBlank(lines[k])
    requires forall line :: line in lines && NotBlank(line) ==>
               Occurrences(line, DelimChar(d)) == c &&
               Occurrences(line, if d == Tab then ',' else '\t') == 0
    ensures Sniff(lines, path, sample) == Guess(Some(d), false)
  {
    var s := Sample(lines, NotBlank, sample);
    SampledLines(lines, sample);
    var steady, none := Counts(s, DelimChar(d)), Counts(s, if d == Tab then ',' else '\t');
    assert forall j :: 0 <= j < |s| ==> steady[j] == c && none[j] == 0;
    assert Uniform(steady) && !Uniform(none);
    if d == Tab {
      assert Sniff(lines, path, sample) == Decide(steady, none, path);
    } else {
      assert Sniff(lines, path, sample) == Decide(none, steady, path);
    }
  }

  /** The worked example, delimiter step: in the file `time,value` / `1,10` /
      `2,x` / `3,30` every line has one comma and no tab, so the comma is
      chosen without a warning. */
  lemma TimeValueDelimiter(lines: seq<string>)
    requires lines == ["time,value\n", "1,10\n", "2,x\n", "3,30\n"]
    ensures Sniff(lines, "data.csv", SAMPLE) == Guess(Some(Comma), false)
  {
    NotBlankStart(lines[0]);
    forall line | line in lines
      ensures Occurrences(line, ',') == 1 && Occurrences(line, '\t') == 0
    {
      var k :| 0 <= k < |lines| && lines[k] == line;
      OneCommaNoTab(line, if k == 0 then 4 else 1);
    }
    SteadyDelimiterChosen(lines, "data.csv", SAMPLE, Comma, 1);
  }

  /** A line that starts with something other than whitespace is not blank. */
  lemma NotBlankStart(line: string)
    requires |line| > 0 && !IsSpace(line[0])
    ensures NotBlank(line)
  {
    StripEmptyIffBlank(line);
  }

  /** A line whose only comma is at position `k` and that holds no tab has
      one comma and no tab. */
  lemma OneCommaNoTab(line: string, k: nat)
    requires k < |line| && line[k] == ','
    requires forall i :: 0 <= i < |line| ==> line[i] != '\t' && (line[i] == ',' ==> i == k)
    ensures Occurrences(line, ',') == 1 && Occurrences(line, '\t') == 0
  {
    OccurrencesOnlyAt(line, ',', k);
    assert '\t' !in line;
  }

  /** The worked example, extraction step: the `value` column of the data
      rows `1,10`, `2,x` and `3,30`, with NaN for `x`, built one row at a
      time. */
  lemma TimeValueFirstRow<V>(parse: string -> Option<V>)
    ensures Covers([["1", "10"]], [1])
    ensures Columns([["1", "10"]], [1], parse) == [[parse("10")]]
  {
    var c0: seq<seq<Option<V>>> := [[]];
    assert Columns([], [1], parse) == c0;
    ColumnsSnoc([], ["1", "10"], [1], parse);
    assert [] + [["1", "10"]] == [["1", "10"]];
    var c1 := WithRow(c0, ["1", "10"], [1], parse);
    assert c1[0] == [parse("10")];
  }

  lemma TimeValueSecondRow<V>(parse: string -> Option<V>)
    requires parse("x") == None
    ensures Covers([["1", "10"], ["2", "x"]], [1])
    ensures Columns([["1", "10"], ["2", "x"]], [1], parse) == [[parse("10"), None]]
  {
    TimeValueFirstRow(parse);
    ColumnsSnoc([["1", "10"]], ["2", "x"], [1], parse);
    assert [["1", "10"]] + [["2", "x"]] == [["1", "10"], ["2", "x"]];
    var c2 := WithRow([[parse("10")]], ["2", "x"], [1], parse);
    assert c2[0] == [parse("10"), None];
  }

  lemma TimeValueColumn<V>(parse: string -> Option<V>)
    requires parse("x") == None
    ensures Covers([["1", "10"], ["2", "x"], ["3", "30"]], [1])
    ensures Columns([["1", "10"], ["2", "x"], ["3", "30"]], [1], parse) == [[parse("10"), None, parse("30")]]
  {
    TimeValueSecondRow(parse);
    ColumnsSnoc([["1", "10"], ["2", "x"]], ["3", "30"], [1], parse);
    assert [["1", "10"], ["2", "x"]] + [["3", "30"]] == [["1", "10"], ["2", "x"], ["3", "30"]];
    var c3 := WithRow([[parse("10"), None]], ["3", "30"], [1], parse);
    assert c3[0] == [parse("10"), None, parse("30")];
  }

  /** The worked example, dialog step: ticking the second of two columns
      selects index 1. */
  lemma TimeValuePick()
    ensures CheckedItems(2, {1}) == [1]
  {
    assert CheckedItems(0, {1}) == [];
    assert CheckedItems(1, {1}) == [];
  }

  /** The worked example, end of the load: the dialog ticks `value`, and one
      series labelled `value` is plotted. */
  lemma TimeValueSeries<V>(parse: string -> Option<V>)
    requires parse("x") == None
    ensures PlotPicked(["time", "value"], [["1", "10"], ["2", "x"], ["3", "30"]], {1}, parse) ==
              Plotted([Series("value", [parse("10"), None, parse("30")])])
  {
    var headers := ["time", "value"];
    var col := [parse("10"), None, parse("30")];
    TimeValuePick();
    TimeValueColumn(parse);
    TimeValueLegend(col);
  }

  /** The worked example, legend step: the picked column is labelled by its
      header. */
  lemma TimeValueLegend<V>(col: seq<Option<V>>)
    ensures Plot(["time", "value"], [1], [col]) == [Series("value", col)]
  {
    assert Label(["time", "value"], 1) == "value";
  }

  /** A line `a,b` with its newline, where neither part holds a comma and
      `b` holds no carriage return, is read as the record `[a, b]`. */
  lemma RecordOf(line: string, a: string, b: string)
    requires line == a + [','] + b + ['\n']
    requires ',' !in a && ',' !in b && '\r' !in b
    ensures ParseRecord(line, Comma) == [a, b]
  {
    var body := a + [','] + b;
    assert line[..|line| - 1] == body;
    assert line[|line| - 2] == (if b == [] then ',' else b[|b| - 1]);
    assert StripTerminator(line) == body;
    SplitAtOnly(a, b, ',');
  }

  /** The worked example, reading step: each line of the file is read as
      its two cells. */
  lemma TimeValueHeaderRecord(line: string)
    requires line == "time,value\n"
    ensures ParseRecord(line, Comma) == ["time", "value"]
  {
    assert line == "time" + [','] + "value" + ['\n'];
    RecordOf(line, "time", "value");
  }

  lemma TimeValueRowRecord(line: string, t: string, v: string)
    requires |t| == 1 && t[0] in "123" && (v == "10" || v == "x" || v == "30")
    requires line == t + [','] + v + ['\n']
    ensures ParseRecord(line, Comma) == [t, v]
  {
    RecordOf(line, t, v);
  }

  /** A four-line file is read as the four records of its lines. */
  lemma RecordsOfFour(l0: string, l1: string, l2: string, l3: string,
                      r0: seq<string>, r1: seq<string>, r2: seq<string>, r3: seq<string>)
    requires ParseRecord(l0, Comma) == r0 && ParseRecord(l1, Comma) == r1
    requires ParseRecord(l2, Comma) == r2 && ParseRecord(l3, Comma) == r3
    ensures Records([l0, l1, l2, l3], Comma) == [r0, r1, r2, r3]
  {
    var r := Records([l0, l1, l2, l3], Comma);
    assert r == [r[0], r[1], r[2], r[3]];
  }

  /** The worked example, reading step: the records of the four lines. */
  lemma TimeValueRecords(l0: string, l1: string, l2: string, l3: string)
    requires l0 == "time,value\n" && l1 == "1,10\n" && l2 == "2,x\n" && l3 == "3,30\n"
    ensures Records([l0, l1, l2, l3], Comma) == [["time", "value"], ["1", "10"], ["2", "x"], ["3", "30"]]
  {
    TimeValueHeaderRecord(l0);
    TimeValueRowRecord(l1, "1", "10");
    TimeValueRowRecord(l2, "2", "x");
    TimeValueRowRecord(l3, "3", "30");
    RecordsOfFour(l0, l1, l2, l3, ["time", "value"], ["1", "10"], ["2", "x"], ["3", "30"]);
  }

  /** The worked example, from the records on: the header is the first
      record, and ticking `value` plots its column. */
  lemma LoadFromRecords<V>(r0: seq<string>, r1: seq<string>, r2: seq<string>, r3: seq<string>,
                           parse: string -> Option<V>)
    requires r0 == ["time", "value"] && r1 == ["1", "10"] && r2 == ["2", "x"] && r3 == ["3", "30"]
    requires parse("x") == None
    ensures LoadRecords([r0, r1, r2, r3], Ok({1}), parse) == Plotted([Series("value", [parse("10"), None, parse("30")])])
  {
    var records := [r0, r1, r2, r3];
    assert FirstNonEmpty(records) == Some(0);
    assert records[1..] == [r1, r2, r3];
    TimeValueSeries(parse);
  }

  /** The worked example, the whole load: the file `time,value` / `1,10` /
      `2,x` / `3,30`, with `value` ticked, plots one series `value` holding
      10, NaN and 30. */
  lemma TimeValueLoad<V>(lines: seq<string>, parse: string -> Option<V>)
    requires lines == ["time,value\n", "1,10\n", "2,x\n", "3,30\n"]
    requires parse("x") == None
    ensures LoadResult(lines, "data.csv", None, Ok({1}), parse) ==
              Plotted([Series("value", [parse("10"), None, parse("30")])])
  {
    TimeValueDelimiter(lines);
    assert ChosenDelim(lines, "data.csv", None) == Some(Comma);
    assert lines == [lines[0], lines[1], lines[2], lines[3]];
    TimeValueRecords(lines[0], lines[1], lines[2], lines[3]);
    LoadFromRecords(["time", "value"], ["1", "10"], ["2", "x"], ["3", "30"], parse);
  }
}
