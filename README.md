# general_plotter-py: the table-loading core, in Dafny

`general_plotter-py` is a small desktop tool that opens a CSV or TSV file, lets
the user tick the columns to plot, and draws one line per picked column. It
has three front-ends. Each one settles on a delimiter, reads the first
non-empty record as the header, asks which columns to plot and collects the
picked cells of every non-empty data row. They differ in how they choose the
delimiter, how they label columns and what a bad cell does:

* `general_plotter.py` is the wxPython front-end. `_find_delim` guesses the
  delimiter from the tab and comma counts of the first lines that are not
  blank, and falls back to the file extension. `load` then reads the header,
  asks for the columns and plots them. Each cell goes through `try_float`,
  so a cell that is not a number becomes NaN. A column with an empty header
  is labelled `Column <n>`.
* `wxdemo.py` is a second wxPython demo. Its `load` sniffs the delimiter
  inline with a different rule: it compares how many sampled lines agree
  with the first line's tab count against how many agree with its comma
  count. It labels every column with its header cell as it is.
* `main.py` is the Tk front-end. `plot_file` takes the delimiter from the
  extension alone (`.csv` means comma, anything else means tab). It asks for
  column names through `OptionDialog.show` and maps each name back with
  `headers.index`. A cell that is not a number raises instead of becoming
  NaN.

The model takes the file as its sequence of lines. Each line keeps its
terminator, as iterating over a Python file yields it. A record of
`csv.reader` is the line without its terminator, split on the delimiter. An
empty line gives the empty record. Cell conversion is a parameter
`parse: string -> Option<V>`. `None` stands for NaN in the two wx
front-ends and for the `ValueError` of `float()` in `main.py`. The column
dialogs are answers: `Table.Answer` is either `Cancel` or `Ok` with the set
of ticked positions. `GetCheckedItems` gives those positions in ascending
order.

Files:

* `wrappers.dfy` holds `Option` and `Result`.
* `seqs.dfy` holds `Filter` and `Occurrences`. `Occurrences` is Python's
  `list.count` and `str.count`.
* `text.dfy` holds `str.strip`, `str.endswith`, splitting on one character
  and decimal formatting.
* `csv.dfy` turns lines into records.
* `sniffing.dfy` is the sampling loop that both wx front-ends run.
* `table.dfy` holds the header search, the column extraction loop,
  `GetCheckedItems` and the load outcomes shared by the wx front-ends.
* `general_plotter.dfy`, `wxdemo.dfy` and `main_app.dfy` model the three
  front-ends.

Loops in the source are methods with loop invariants. Each is proved equal
to a specification function, and the properties are proved about those
functions.

## Model

| member | source | states |
|---|---|---|
| Seqs.Occurrences | general_plotter.py:175-176 | `list.count`/`str.count` of one element: at most the length, and positive exactly when the element occurs |
| Seqs.OccurrencesIsMultiplicity | general_plotter.py:175-176 | the count is the number of times the element occurs: its multiplicity in the sequence |
| Seqs.OccurrencesOnlyAt | general_plotter.py:175-176 | an element found at one position and nowhere else is counted once |
| Seqs.OccurrencesAll | general_plotter.py:178-179 | the first element's count equals the length exactly when every element equals it |
| Seqs.Filter | main.py:133 | `filter(lambda row: len(row) > 0, rows)` keeps only rows that pass the test, and no more of them than it is given |
| Seqs.FilterMembers | main.py:133 | a row is kept exactly when it is one of the rows and passes the test |
| Text.TrimStart | general_plotter.py:166 | leading whitespace removed: the result is a suffix, the removed part is all whitespace, the new first character is not whitespace |
| Text.TrimEnd | general_plotter.py:166 | trailing whitespace removed: the result is a prefix, the removed part is all whitespace, the new last character is not whitespace |
| Text.Strip | general_plotter.py:166 | `line.strip()` is no longer than the line and neither starts nor ends with whitespace |
| Text.StripEmptyIffBlank | general_plotter.py:166 | `line.strip()` is empty exactly when every character is whitespace |
| Text.EndsWith | general_plotter.py:184-185 | `endswith` holding means the string is some stem followed by the suffix |
| Text.Split | general_plotter.py:219 | splitting on a one-character delimiter gives one more piece than there are delimiters, and no piece contains the delimiter |
| Text.SplitNoDelim | general_plotter.py:219 | a line without the delimiter is one piece, the line itself |
| Text.SplitAtOnly | general_plotter.py:219 | a line with a single delimiter splits into the parts before and after it |
| Text.SplitJoin | general_plotter.py:219 | joining the pieces with the delimiter gives back the line |
| Text.Decimal | general_plotter.py:243 | `str(n)` is non-empty, all digits, and has no leading zero when n > 0 |
| Text.DecimalRoundTrip | general_plotter.py:243 | reading the decimal digits of `str(n)` back gives n |
| Csv.StripTerminator | general_plotter.py:218-219 | a trailing `\r\n` is removed whole, otherwise a trailing `\n` or `\r`; nothing else is removed |
| Csv.ParseRecord | general_plotter.py:219 | a record is empty exactly when the line holds nothing before its terminator; otherwise its fields joined by the delimiter give the line back, and there is one more field than delimiters |
| Csv.Records | general_plotter.py:218-219 | `csv.reader` yields one record per line, the record of that line |
| Csv.NonBlankLineHasFields | general_plotter.py:166 | a line that is not blank gives a record with at least one field |
| Sniffing.Sample | general_plotter.py:165-170 | the recorded lines are accepted lines only, in file order, at most `sample + 1` of them, and they are all accepted lines unless the cap was reached |
| Sniffing.Counts | general_plotter.py:167-168 | one count per sampled line, `line.count(c)` of that line |
| Sniffing.SampleEmpty | general_plotter.py:172-173 | nothing is sampled exactly when no line of the file is accepted |
| Sniffing.SampleCounts | general_plotter.py:163-170 | the loop with its early `break` gives the tab and comma counts of exactly the sampled lines |
| Sniffing.HasTabExtension | general_plotter.py:184-185 | the extension rule holds exactly when the name ends with `.txt` or `.xlm` |
| Table.FirstNonEmpty | general_plotter.py:220-222 | the header is the first record that is not empty; every record before it is empty; there is none exactly when all records are empty |
| Table.ReadHeader | general_plotter.py:219-222 | the `next(reader)` loop stops at the first non-empty record, and the data rows are the records after it |
| Table.Columns | general_plotter.py:230-235 | there is one column per picked index |
| Table.ColumnsView | general_plotter.py:230-235 | each column has one entry per non-empty data row, in row order, holding the converted cell of that row |
| Table.AppendCells | general_plotter.py:234-235 | one row appends its converted picked cells, or raises `IndexError` exactly when it lacks a picked column |
| Table.ExtractColumns | general_plotter.py:230-235 | the nested loops succeed exactly when every non-empty row has every picked column, and then give the columns above; otherwise they raise `IndexError` |
| Table.CheckedItems | general_plotter.py:113-114 | the ticked positions: ascending, in range, all ticked, and every ticked position in range is included |
| Table.CheckedItemsEmpty | general_plotter.py:228 | no position is picked exactly when no box in range is ticked |
| GeneralPlotter.CanUseIffUniform | general_plotter.py:175-179 | a delimiter is a candidate exactly when every sampled line has the first line's count of it and that count is positive |
| GeneralPlotter.Decide | general_plotter.py:172-204 | no delimiter exactly when nothing was sampled, so the `None` returns at 191-192 and 196-197 are dead; the warning appears exactly when neither delimiter is a candidate, and the extension decides then (`.txt`/`.xlm` tab, else comma); a single candidate wins; with two candidates tab wins only on a strictly larger count |
| GeneralPlotter.FindDelim | general_plotter.py:161-206 | `_find_delim` is the sample loop followed by the decision |
| GeneralPlotter.Sniff | general_plotter.py:161-206 | `_find_delim` returns `None` exactly when every line of the file is blank, and shows its warning only when the extension then settles the delimiter (`.txt`/`.xlm` tab, else comma) |
| GeneralPlotter.Label | general_plotter.py:240-243 | a legend entry is never empty, and a non-empty header is used unchanged |
| GeneralPlotter.PlaceholderNamesColumn | general_plotter.py:242-243 | the placeholder is `Column ` followed by digits that read back as the 1-based column number |
| GeneralPlotter.PlaceholdersDistinct | general_plotter.py:240-243 | two columns with empty headers get different legend entries |
| GeneralPlotter.Plot | general_plotter.py:239-244 | one series per picked column |
| GeneralPlotter.LabelSeries | general_plotter.py:239-244 | the plotting loop labels each extracted column, in pick order |
| GeneralPlotter.PlotColumns | general_plotter.py:228-244 | extraction then plotting: `IndexError` for a short row, otherwise the labelled series |
| GeneralPlotter.ReadTable | general_plotter.py:218-244 | the header, then the dialog (cancel returns), then extraction and plotting |
| GeneralPlotter.LoadResult | general_plotter.py:208-247 | the load stops undetermined exactly when no delimiter was given and every line is blank; it plots only after a confirmed dialog |
| GeneralPlotter.LoadRecords | general_plotter.py:218-244 | once the delimiter is known the load is never undetermined; it finds no header exactly when every record is empty |
| GeneralPlotter.PlotPicked | general_plotter.py:228-244 | after the dialog the load either hits a short row or plots one series per picked column |
| GeneralPlotter.Load | general_plotter.py:208-247 | a given delimiter is used as is; otherwise `_find_delim` runs and its warning is the only one shown; `None` stops the load |
| GeneralPlotter.NonBlankLineGivesHeader | general_plotter.py:219-222 | a file with a non-blank line has a header record under either delimiter |
| GeneralPlotter.SniffedFileHasHeader | general_plotter.py:210-222 | when `_find_delim` settles the delimiter, `next(reader)` cannot run out before the header |
| GeneralPlotter.PlottedSeries | general_plotter.py:228-244 | after the dialog, the load plots exactly when every non-empty data row has every picked column; then it gives one series per pick, in pick order, labelled by `Label`, with one entry per non-empty row, in row order, the converted cell or NaN |
| GeneralPlotter.SteadyDelimiterChosen | general_plotter.py:165-204 | a file whose non-blank lines all hold the same positive number of one delimiter and none of the other is read with that delimiter, without the warning |
| GeneralPlotter.TimeValueDelimiter | general_plotter.py:165-204 | example: the file `time,value` / `1,10` / `2,x` / `3,30` is read with the comma, without the warning |
| GeneralPlotter.TimeValueFirstRow | general_plotter.py:230-235 | example: the `value` column after the row `1,10` |
| GeneralPlotter.TimeValueSecondRow | general_plotter.py:230-235 | example: after the row `2,x` the column holds NaN for `x` |
| GeneralPlotter.TimeValueColumn | general_plotter.py:230-235 | example: the `value` column of rows `1,10`, `2,x`, `3,30` is 10, NaN, 30 |
| GeneralPlotter.TimeValuePick | general_plotter.py:113-114 | example: ticking the second of two boxes picks position 1 |
| GeneralPlotter.TimeValueLegend | general_plotter.py:239-244 | example: the picked column is labelled `value` |
| GeneralPlotter.TimeValueSeries | general_plotter.py:228-244 | example: after the dialog, the header `time,value` and the rows `1,10`, `2,x`, `3,30` plot one series `value` holding 10, NaN, 30 |
| GeneralPlotter.RecordOf | general_plotter.py:219 | a line `a,b` ended by a newline, with no comma in either part and no carriage return in `b`, is read as the record `a`, `b` |
| GeneralPlotter.RecordsOfFour | general_plotter.py:219 | a four-line file is read as the records of its four lines, in order |
| GeneralPlotter.TimeValueRecords | general_plotter.py:219 | example: the lines `time,value`, `1,10`, `2,x`, `3,30` are read as the records `time`,`value` / `1`,`10` / `2`,`x` / `3`,`30` |
| GeneralPlotter.LoadFromRecords | general_plotter.py:220-244 | example: from those four records, with `value` ticked, the header is the first record and one series `value` holding 10, NaN, 30 is plotted |
| GeneralPlotter.TimeValueLoad | general_plotter.py:208-247 | example: the whole load of the four-line file with `value` ticked plots one series `value` holding 10, NaN, 30 |
| WxDemo.Decide | wxdemo.py:198-216 | no delimiter exactly when nothing was sampled; tab exactly when more sampled lines share the first line's tab count than share its comma count; comma otherwise, ties included |
| WxDemo.ExtensionIgnored | wxdemo.py:203-212 | the file name never changes the decision, so the extension branch is dead |
| WxDemo.SniffDelim | wxdemo.py:187-216 | the sniffing part of `load` is the sample loop over non-empty lines (at most 11) followed by the decision |
| WxDemo.Sniff | wxdemo.py:187-216 | the "empty file" stop happens exactly when no line is read; blank lines holding a newline are sampled |
| WxDemo.SteadyCommasWin | wxdemo.py:203-216 | steady comma counts with varying tab counts give comma |
| WxDemo.RaggedCsvReadAsTab | wxdemo.py:203-216 | a file without tabs whose comma counts vary is read as tab-separated |
| WxDemo.TabFileReadAsComma | wxdemo.py:203-216 | a file with the same positive tab count on every line and no comma is read as comma-separated, where `_find_delim` picks the tab |
| WxDemo.LabelledSeries | wxdemo.py:240-243 | one series per picked column |
| WxDemo.LabelSeries | wxdemo.py:240-243 | the plotting loop labels each column with its header cell, empty or not |
| WxDemo.PlotColumns | wxdemo.py:227-243 | extraction then plotting: `IndexError` for a short row, otherwise the labelled series |
| WxDemo.ReadTable | wxdemo.py:218-243 | the header, then the dialog (a zero return of `ShowModal` stops), then extraction and plotting |
| WxDemo.LoadResult | wxdemo.py:183-246 | the load stops at the "empty file" error exactly when no line is read; it plots only when `ShowModal()` returned a non-zero value |
| WxDemo.ReadResult | wxdemo.py:218-243 | once the delimiter is known the load is never undetermined; it finds no header exactly when every record is empty |
| WxDemo.PlotChecked | wxdemo.py:227-243 | after the dialog the load either hits a short row or plots one series per picked column |
| WxDemo.Load | wxdemo.py:183-246 | sniffing, then reading the table |
| WxDemo.PlottedColumns | wxdemo.py:227-243 | the load plots exactly when every non-empty data row has every picked column; then it gives one series per pick, labelled by its header cell, with one converted entry per non-empty row, in row order |
| WxDemo.BlankFileHasNoHeader | wxdemo.py:189-221 | a file of empty lines passes the sniffing step and then runs out of records looking for the header |
| MainApp.Delimiter | main.py:115-117 | comma exactly when the file name ends with `.csv` |
| MainApp.DelimiterOfExtension | main.py:115-117 | `.csv` files are read with commas, `.txt` and `.xlm` files with tabs, whatever the stem |
| MainApp.Names | main.py:80-85 | one name per picked position |
| MainApp.Show | main.py:78-85 | `show` returns nothing when cancelled, and otherwise the names of the ticked boxes in option order |
| MainApp.Chosen | main.py:78-85 | a cancelled dialog chooses nothing, and every chosen name is one of the options |
| MainApp.IndexOf | main.py:125 | `headers.index(name)` is the first position holding the name |
| MainApp.Picks | main.py:125 | each chosen name maps to its first position, in the order of the choice |
| MainApp.DistinctHeadersPickTicked | main.py:124-125 | with distinct header names, mapping the chosen names back gives exactly the ticked positions |
| MainApp.DuplicateHeaderPlotsFirst | main.py:125 | with the header `v,v`, ticking the second column plots the first one |
| MainApp.RowValues | main.py:135-137 | a row converts exactly when it has every picked column and each picked cell converts; `IndexError` only for a missing column, `ValueError` only for a present cell that does not convert |
| MainApp.ReadRow | main.py:135-137 | the inner loop stops at the first picked cell that raises |
| MainApp.FailureStays | main.py:135-137 | once a cell of a row raises, the later picks of that row change nothing |
| MainApp.Extract | main.py:131-137 | a successful extraction has one plot per pick |
| MainApp.ExtractView | main.py:131-137 | the extraction succeeds exactly when every non-empty data row has every picked column and all its picked cells convert; then each plot holds one value per non-empty row, in row order |
| MainApp.AppendValues | main.py:135-137 | `plots[i].append(val)` for every pick of one row, leaving nothing else changed |
| MainApp.ExtractPlots | main.py:131-137 | the nested loops stop at the first row that raises, and otherwise give the extraction above |
| MainApp.ExtractFailureStays | main.py:133-137 | once a row raised, the rows after it change nothing |
| MainApp.PlotFileResult | main.py:112-138 | `plot_file` runs out of records before the header exactly when every line holds nothing before its terminator |
| MainApp.PlotRecords | main.py:120-138 | the header is missing exactly when every record is empty |
| MainApp.PlotChosen | main.py:124-138 | once the header is read it is never missing, and a drawn graph has the chosen names as its legend and one plot per name |
| MainApp.PlotFile | main.py:112-138 | `plot_file` is the extension delimiter, the header search, the dialog, the name mapping, the "no columns" stop and the extraction |
| MainApp.ReadTable | main.py:120-138 | the header search followed by the rest of `plot_file` |
| MainApp.PlotColumns | main.py:124-138 | the dialog, the name mapping, the "no columns" stop and the extraction loops |
| MainApp.NoColumnsIffNothingTicked | main.py:124-129 | after the header, the "no columns" warning appears exactly when the dialog was cancelled or no box was ticked |
| MainApp.GraphOfChosenColumns | main.py:124-138 | a drawn graph has the chosen names as its legend and the chosen columns over the non-empty data rows as its plots |
| MainApp.GraphIffRowsConvert | main.py:124-138 | a graph is drawn exactly when some column was chosen and every non-empty data row has all chosen columns with cells that `float()` accepts |

## Left out

- Widget construction, menus, file dialogs, notebook pages, the toolbar and the legend-picking callback are GUI glue. `sbwrap.py` is not part of this model.
- Drawing is left out. Titles, axis labels, `os.path.basename`/`Path.name` and every matplotlib call are calls into libraries the model does not see. A load ends with the series it would plot.
- Files are a given sequence of lines. Opening, `f.seek(0)`, `IOError` handling and the newline translation of `open(..., newline=...)` are not modelled.
- Records are a plain split of each line without its terminator. The quoting and escaping rules of `csv.reader` are not modelled.
- `csv.reader` and a carriage return inside a line are not modelled. `main.py` opens the file with `newline='\n'` (main.py:116), so a line can hold a bare `\r`. `csv.reader` raises `_csv.Error` on `1\r2,3\n`, which aborts `plot_file`, and it reads `a,b\r\r\n` as `a`, `b`. The model splits the first line into `1\r2` and `3` and reads the second as `a`, `b\r`.
- `try_float` and `float()` are the `parse` parameter. The syntax of float literals and IEEE values are left out.
- Modal dialogs are their answers. `Table.Answer` carries the ticked positions. `WxDemo.Load` takes the integer `ShowModal()` returned together with the ticked boxes. The warning shown by `_find_delim` is the `warned` result of `GeneralPlotter.Load`. The dialogs built at general_plotter.py:214-215, wxdemo.py:199-200 and wxdemo.py:207-208 are never shown. The first two only stop the load. The third sits in the dead extension branch.
- An exception that escapes a load is an outcome, not a crash. `Table.Outcome` has `NoHeader` for `StopIteration` and `RowTooShort` for `IndexError`. `MainApp.PlotOutcome` has `HeaderMissing` and `Raised`.
- The sample size follows the code. `_find_delim(path, sample=10)` keeps up to `sample + 1` = 11 lines, because its loop only stops once it holds more than `sample`. The wx demo does the same with 10. A 10-line sample is not modelled.
- No "undetermined after the fallback" outcome exists. Once a line is sampled, `_find_delim` always settles on a delimiter.
- Which integers wx's `ShowModal()` returns is not modelled. It is a parameter of `WxDemo.Load`.
- The debugging `print` calls at wxdemo.py:228-229 have no effect on the load.

## Findings

| source | as written | input that shows it | evidently intended | confidence | as-written member | corrected member |
|---|---|---|---|---|---|---|
| wxdemo.py:203-212 | `is_tab = count_tab > count_comma`, where each count is the number of sampled lines equal to the first line's count | a tab-separated file with no commas, e.g. lines `a\tb` and `1\t2`: both counts equal the sample size, so the comma is chosen and every line becomes one field | a delimiter that appears the same positive number of times on every line is chosen, as `_find_delim` at general_plotter.py:175-199 does | high, not executed | WxDemo.TabFileReadAsComma | GeneralPlotter.Decide |
