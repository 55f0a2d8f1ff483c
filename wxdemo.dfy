/** The loader of the wxPython demo `wxdemo.py`: its `load` sniffs
    the delimiter inline, comparing how many sampled lines agree with the
    first line's tab and comma counts, then reads the header, extracts the
    picked columns and labels each with its header cell. */
module WxDemo {
  import opened Wrappers
  import opened Seqs
  import opened Csv
  import opened Sniffing
  import opened Table
  import GeneralPlotter

  /** The sampling loop stops once more than this many lines were counted. */
  const SAMPLE: nat := 10

  /** The sampling test of this loader: the line read is not empty. A line
      read from a file always holds at least its terminator or one character,
      so in practice every line is sampled, blank ones included. */
  predicate NonEmptyLine(line: string) {
    |line| > 0
  }

  /** The decision once the counts are known: tab exactly when more sampled
      lines share the first line's tab count than share its comma count.
      The extension rule applies only when both numbers are zero, which
      cannot happen once a line was sampled. */
  function Decide(nTab: seq<nat>, nComma: seq<nat>, path: string): (r: Option<Delim>)
    requires |nTab| == |nComma|
    ensures r.None? <==> |nTab| == 0
    ensures |nTab| > 0 ==> (r == Some(Tab) <==> Occurrences(nTab, nTab[0]) > Occurrences(nComma, nComma[0]))
    ensures |nTab| > 0 ==> (r == Some(Comma) <==> Occurrences(nTab, nTab[0]) <= Occurrences(nComma, nComma[0]))
  {
    if |nTab| == 0 then None
    else
      var countTab := Occurrences(nTab, nTab[0]);
      var countComma := Occurrences(nComma, nComma[0]);
      var isTab := if countTab == 0 && countComma == 0 then HasTabExtension(path) else countTab > countComma;
      Some(if isTab then Tab else Comma)
  }

  /** The file name never matters: the extension rule is dead code. */
  lemma ExtensionIgnored(nTab: seq<nat>, nComma: seq<nat>, path1: string, path2: string)
    requires |nTab| == |nComma|
    ensures Decide(nTab, nComma, path1) == Decide(nTab, nComma, path2)
  {
  }

  /** What the sniffing part of `load` decides for a file with these lines;
      `None` is the "empty file" error, which comes exactly when no line was
      read: a line holding only its newline is sampled. */
  function Sniff(lines: seq<string>, path: string): (r: Option<Delim>)
    ensures r.None? <==> forall i :: 0 <= i < |lines| ==> lines[i] == []
  {
    var s := Sample(lines, NonEmptyLine, SAMPLE);
    SampleEmpty(lines, NonEmptyLine, SAMPLE);
    Decide(Counts(s, '\t'), Counts(s, ','), path)
  }

  /** The sniffing part of `load`: sample the counts, then decide. */
  method SniffDelim(lines: seq<string>, path: string) returns (delim: Option<Delim>)
    ensures delim == Sniff(lines, path)
  {
    var nTab, nComma := SampleCounts(lines, NonEmptyLine, SAMPLE);
    delim := Decide(nTab, nComma, path);
  }

  /** A file whose sampled lines all have the same number of commas, while
      the number of tabs varies, is read as comma-separated. */
  lemma SteadyCommasWin(nTab: seq<nat>, nComma: seq<nat>, path: string, i: nat)
    requires |nTab| == |nComma| && i < |nTab|
    requires nTab[i] != nTab[0]
    requires forall k :: 0 <= k < |nComma| ==> nComma[k] == nComma[0]
    ensures Decide(nTab, nComma, path) == Some(Comma)
  {
    OccurrencesAll(nTab, nTab[0]);
    OccurrencesAll(nComma, nComma[0]);
  }

  /** A file without tabs whose comma counts vary (a ragged CSV file) is read
      as tab-separated, that is, one field per line. */
  lemma RaggedCsvReadAsTab(nTab: seq<nat>, nComma: seq<nat>, path: string, i: nat)
    requires |nTab| == |nComma| && i < |nTab|
    requires forall k :: 0 <= k < |nTab| ==> nTab[k] == 0
    requires nComma[i] != nComma[0]
    ensures Decide(nTab, nComma, path) == Some(Tab)
  {
    OccurrencesAll(nTab, nTab[0]);
    OccurrencesAll(nComma, nComma[0]);
  }

  /** A tab-separated file without commas, every sampled line having the
      same positive number of tabs, is read as comma-separated: both counts
      equal the sample size and the tie goes to the comma. The rule of
      `_find_delim` in `general_plotter.py` picks the tab for the same
      counts. */
  lemma TabFileReadAsComma(nTab: seq<nat>, nComma: seq<nat>, path: string)
    requires |nTab| == |nComma| > 0
    requires forall k :: 0 <= k < |nTab| ==> nTab[k] == nTab[0] > 0
    requires forall k :: 0 <= k < |nComma| ==> nComma[k] == 0
    ensures Decide(nTab, nComma, path) == Some(Comma)
    ensures GeneralPlotter.Decide(nTab, nComma, path) == GeneralPlotter.Guess(Some(Tab), false)
  {
    OccurrencesAll(nTab, nTab[0]);
    OccurrencesAll(nComma, nComma[0]);
    assert !GeneralPlotter.Uniform(nComma);
  }

  /** The series this loader plots: one per picked column, labelled by its
      header cell as it is, empty or not. */
  function LabelledSeries<V>(headers: seq<string>, selected: seq<nat>, cols: seq<seq<Option<V>>>): (r: seq<Series<V>>)
    requires |cols| == |selected|
    requires forall k :: 0 <= k < |selected| ==> selected[k] < |headers|
    ensures |r| == |selected|
  {
    seq(|selected|, i requires 0 <= i < |selected| => Series(headers[selected[i]], cols[i]))
  }

  /** The plotting loop of `load`. */
  method LabelSeries<V>(headers: seq<string>, selected: seq<nat>, cols: seq<seq<Option<V>>>)
    returns (series: seq<Series<V>>)
    requires |cols| == |selected|
    requires forall k :: 0 <= k < |selected| ==> selected[k] < |headers|
    ensures series == LabelledSeries(headers, selected, cols)
  {
    series := [];
    var i := 0;
    while i < |cols|
      invariant 0 <= i <= |cols|
      invariant series == LabelledSeries(headers, selected, cols)[..i]
    {
      series := series + [Series(headers[selected[i]], cols[i])];
      i := i + 1;
    }
  }

  /** The part of `load` after the dialog has closed with the boxes in
      `checked` ticked. */
  function PlotChecked<V>(headers: seq<string>, rows: seq<seq<string>>, checked: set<nat>,
                          parse: string -> Option<V>): (r: Outcome<V>)
    ensures r == RowTooShort || r.Plotted?
    ensures r.Plotted? ==> |r.series| == |CheckedItems(|headers|, checked)|
  {
    var selected := CheckedItems(|headers|, checked);
    if !Covers(rows, selected) then RowTooShort
    else Plotted(LabelledSeries(headers, selected, Columns(rows, selected, parse)))
  }

  /** How `load(pathname)` ends for a file with these lines, when the column
      dialog's `ShowModal()` returns `shown` with the boxes in `checked`
      ticked. */
  function LoadResult<V>(lines: seq<string>, path: string, shown: int, checked: set<nat>,
                         parse: string -> Option<V>): (r: Outcome<V>)
    ensures r == Undetermined <==> forall i :: 0 <= i < |lines| ==> lines[i] == []
    ensures r.Plotted? ==> shown != 0
  {
    match Sniff(lines, path)
    case None => Undetermined
    case Some(d) => ReadResult(Records(lines, d), shown, checked, parse)
  }

  /** The part of `load` after the delimiter is known. Only a zero return of
      `ShowModal()` abandons the load. */
  function ReadResult<V>(records: seq<seq<string>>, shown: int, checked: set<nat>,
                         parse: string -> Option<V>): (r: Outcome<V>)
    ensures r != Undetermined
    ensures r == NoHeader <==> forall k :: 0 <= k < |records| ==> |records[k]| == 0
    ensures r.Plotted? ==> shown != 0
  {
    match FirstNonEmpty(records)
    case None => NoHeader
    case Some(h) =>
      if shown == 0 then Cancelled
      else PlotChecked(records[h], records[h + 1..], checked, parse)
  }

  /** `load`: sniff the delimiter, then read the table. */
  method Load<V>(lines: seq<string>, path: string, shown: int, checked: set<nat>,
                 parse: string -> Option<V>) returns (out: Outcome<V>)
    ensures out == LoadResult(lines, path, shown, checked, parse)
  {
    var d := SniffDelim(lines, path);
    if d.None? {
      return Undetermined;
    }
    out := ReadTable(Records(lines, d.value), shown, checked, parse);
  }

  /** The reading part of `load`: the header, the dialog, the columns. */
  method ReadTable<V>(records: seq<seq<string>>, shown: int, checked: set<nat>,
                      parse: string -> Option<V>) returns (out: Outcome<V>)
    ensures out == ReadResult(records, shown, checked, parse)
  {
    var header, next := ReadHeader(records);
    if header.None? {
      return NoHeader;
    }
    if shown == 0 {
      return Cancelled;
    }
    assert records[next..] == records[FirstNonEmpty(records).value + 1..];
    out := PlotColumns(header.value, records[next..], checked, parse);
  }

  /** The extraction and plotting loops of `load`. */
  method PlotColumns<V>(headers: seq<string>, rows: seq<seq<string>>, checked: set<nat>,
                        parse: string -> Option<V>) returns (out: Outcome<V>)
    ensures out == PlotChecked(headers, rows, checked, parse)
  {
    var selected := CheckedItems(|headers|, checked);
    var cols := ExtractColumns(rows, selected, parse);
    if cols.Failure? {
      return RowTooShort;
    }
    var series := LabelSeries(headers, selected, cols.value);
    out := Plotted(series);
  }

  /** The plotted series: one per picked column, in the order of the picks,
      labelled by its header cell, holding the parsed cells of the data rows
      that are not empty; the load fails exactly when such a row lacks a
      picked column. */
  lemma PlottedColumns<V>(headers: seq<string>, rows: seq<seq<string>>, checked: set<nat>, parse: string -> Option<V>)
    ensures PlotChecked(headers, rows, checked, parse).Plotted? <==> Covers(rows, CheckedItems(|headers|, checked))
    ensures PlotChecked(headers, rows, checked, parse).Plotted? ==>
              HeadedColumns(PlotChecked(headers, rows, checked, parse).series, headers,
                            CheckedItems(|headers|, checked), Filter(rows, NonEmptyRow), parse)
  {
    var selected := CheckedItems(|headers|, checked);
    if Covers(rows, selected) {
      var cols := Columns(rows, selected, parse);
      var series := LabelledSeries(headers, selected, cols);
      assert PlotChecked(headers, rows, checked, parse) == Plotted(series);
      ColumnsView(rows, selected, parse);
      forall i | 0 <= i < |selected|
        ensures series[i].legend == headers[selected[i]] && series[i].values == cols[i]
      {
      }
    }
  }

  /** `series` holds one entry per picked column, labelled by its header
      cell, with the parsed cell of that column for every row of `data`. */
  ghost predicate HeadedColumns<V>(series: seq<Series<V>>, headers: seq<string>, selected: seq<nat>,
                                   data: seq<seq<string>>, parse: string -> Option<V>)
    requires forall k :: 0 <= k < |selected| ==> selected[k] < |headers|
  {
    |series| == |selected| &&
    forall i :: 0 <= i < |selected| ==>
      series[i].legend == headers[selected[i]] &&
      |series[i].values| == |data| &&
      forall j :: 0 <= j < |data| ==>
        RowCovers(data[j], selected) && series[i].values[j] == parse(data[j][selected[i]])
  }

  /** A file made only of empty lines ("\n") passes the sniffing step, which
      counts them, and then runs out of records looking for the header. */
  lemma BlankFileHasNoHeader<V>(lines: seq<string>, path: string, shown: int, checked: set<nat>,
                                parse: string -> Option<V>)
    requires |lines| > 0
    requires forall i :: 0 <= i < |lines| ==> lines[i] == "\n"
    ensures Sniff(lines, path).Some?
    ensures LoadResult(lines, path, shown, checked, parse) == NoHeader
  {
    var d := Sniff(lines, path).value;
    var records := Records(lines, d);
    forall k | 0 <= k < |records|
      ensures |records[k]| == 0
    {
      assert StripTerminator(lines[k]) == [];
    }
    assert LoadResult(lines, path, shown, checked, parse) == ReadResult(records, shown, checked, parse);
  }
}
