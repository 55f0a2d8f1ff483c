/** The Tk front-end `main.py`: `App.plot_file` picks the delimiter from the
    file name, reads the header, asks for columns by name through
    `OptionDialog.show`, maps each name back to a column index and converts
    every picked cell of every non-empty data row, raising on the first cell
    it cannot convert. */
module MainApp {
  import opened Wrappers
  import opened Seqs
  import opened Text
  import opened Csv
  import opened Table

  /** The delimiter `plot_file` uses: a comma for `.csv` files, a tab for
      everything else. */
  function Delimiter(filename: string): (d: Delim)
    ensures d == Comma <==> EndsWith(filename, ".csv")
  {
    if EndsWith(filename, ".csv") then Comma else Tab
  }

  /** Whatever its stem, a `.csv` file is read with commas and a `.txt` or
      `.xlm` file with tabs. */
  lemma DelimiterOfExtension(stem: string)
    ensures Delimiter(stem + ".csv") == Comma
    ensures Delimiter(stem + ".txt") == Tab
    ensures Delimiter(stem + ".xlm") == Tab
  {
    EndsWithAppended(stem, ".csv");
    assert (stem + ".txt")[|stem| + 1] == 't';
    assert (stem + ".xlm")[|stem| + 1] == 'x';
  }

  /** The options at the positions in `picked`, in that order. */
  function Names(options: seq<string>, picked: seq<nat>): (r: seq<string>)
    requires forall k :: 0 <= k < |picked| ==> picked[k] < |options|
    ensures |r| == |picked|
  {
    seq(|picked|, k requires 0 <= k < |picked| => options[picked[k]])
  }

  /** `OptionDialog.show` once the window has closed: the names of the
      ticked boxes, in the order of the options, if the dialog was
      confirmed, and nothing if it was cancelled. */
  method Show(options: seq<string>, answer: Answer) returns (res: seq<string>)
    ensures answer.Cancel? ==> res == []
    ensures answer.Ok? ==> res == Names(options, CheckedItems(|options|, answer.checked))
  {
    res := [];
    if answer.Ok? {
      var i := 0;
      while i < |options|
        invariant 0 <= i <= |options|
        invariant res == Names(options, CheckedItems(i, answer.checked))
      {
        ghost var before := CheckedItems(i, answer.checked);
        assert CheckedItems(i + 1, answer.checked) == before + (if i in answer.checked then [i] else []);
        if i in answer.checked {
          NamesSnoc(options, before, i);
          res := res + [options[i]];
        }
        i := i + 1;
      }
    }
  }

  /** One more picked position adds its option at the end. */
  lemma NamesSnoc(options: seq<string>, picked: seq<nat>, i: nat)
    requires forall k :: 0 <= k < |picked| ==> picked[k] < |options|
    requires i < |options|
    ensures Names(options, picked + [i]) == Names(options, picked) + [options[i]]
  {
  }

  /** What `show` returns for this answer. */
  function Chosen(options: seq<string>, answer: Answer): (r: seq<string>)
    ensures answer.Cancel? ==> r == []
    ensures forall k :: 0 <= k < |r| ==> r[k] in options
  {
    match answer
    case Cancel => []
    case Ok(checked) => Names(options, CheckedItems(|options|, checked))
  }

  /** `headers.index(name)`: the first position holding `name`. */
  function IndexOf(headers: seq<string>, name: string): (r: nat)
    requires name in headers
    ensures r < |headers| && headers[r] == name
    ensures forall k :: 0 <= k < r ==> headers[k] != name
  {
    if headers[0] == name then 0 else 1 + IndexOf(headers[1..], name)
  }

  /** The column indices of `cols`, one per chosen name, in the order of the
      choice. */
  function Picks(headers: seq<string>, names: seq<string>): (r: seq<nat>)
    requires forall k :: 0 <= k < |names| ==> names[k] in headers
    ensures |r| == |names|
    ensures forall k :: 0 <= k < |names| ==> r[k] == IndexOf(headers, names[k])
  {
    seq(|names|, k requires 0 <= k < |names| => IndexOf(headers, names[k]))
  }

  /** When the header names are distinct, mapping the chosen names back to
      indices recovers exactly the ticked positions. */
  lemma DistinctHeadersPickTicked(headers: seq<string>, checked: set<nat>)
    requires forall i, j :: 0 <= i < j < |headers| ==> headers[i] != headers[j]
    ensures var ticked := CheckedItems(|headers|, checked);
            var names := Names(headers, ticked);
            (forall k :: 0 <= k < |names| ==> names[k] in headers) &&
            Picks(headers, names) == ticked
  {
    var ticked := CheckedItems(|headers|, checked);
    var names := Names(headers, ticked);
    forall k | 0 <= k < |names|
      ensures names[k] in headers && IndexOf(headers, names[k]) == ticked[k]
    {
      assert headers[ticked[k]] == names[k];
      var r := IndexOf(headers, names[k]);
      assert r <= ticked[k];
      assert headers[r] == headers[ticked[k]];
    }
  }

  /** With a repeated header name, ticking the second copy plots the column
      of the first one. */
  lemma DuplicateHeaderPlotsFirst()
    ensures CheckedItems(2, {1}) == [1]
    ensures Picks(["v", "v"], Names(["v", "v"], [1])) == [0]
  {
    assert CheckedItems(1, {1}) == [];
    assert Names(["v", "v"], [1]) == ["v"];
  }

  /** Every picked column is present and its cell converts. */
  predicate RowParses<V>(row: seq<string>, picks: seq<nat>, parse: string -> Option<V>) {
    RowCovers(row, picks) && forall k :: 0 <= k < |picks| ==> parse(row[picks[k]]).Some?
  }

  /** The inner loop over one row: the converted picked cells, or the
      exception of the first picked cell that fails, `IndexError` for a
      missing column and `ValueError` for a cell that is not a number. */
  function RowValues<V>(row: seq<string>, picks: seq<nat>, parse: string -> Option<V>): (r: Result<seq<V>, Fault>)
    ensures r.Success? <==> RowParses(row, picks, parse)
    ensures r.Success? ==> |r.value| == |picks| &&
                           forall k :: 0 <= k < |picks| ==> Some(r.value[k]) == parse(row[picks[k]])
    ensures r == Failure(IndexError) ==> !RowCovers(row, picks)
    ensures r == Failure(ValueError) ==> exists k :: 0 <= k < |picks| && picks[k] < |row| && parse(row[picks[k]]).None?
  {
    if picks == [] then Success([])
    else
      var n := |picks| - 1;
      match RowValues(row, picks[..n], parse)
      case Failure(e) => Failure(e)
      case Success(vals) =>
        if picks[n] >= |row| then Failure(IndexError)
        else
          match parse(row[picks[n]])
          case None => Failure(ValueError)
          case Some(v) => Success(vals + [v])
  }

  /** The inner loop itself. */
  method ReadRow<V>(row: seq<string>, picks: seq<nat>, parse: string -> Option<V>) returns (r: Result<seq<V>, Fault>)
    ensures r == RowValues(row, picks, parse)
  {
    var vals: seq<V> := [];
    var i := 0;
    while i < |picks|
      invariant 0 <= i <= |picks|
      invariant RowValues(row, picks[..i], parse) == Success(vals)
    {
      assert picks[..i + 1][..i] == picks[..i];
      if picks[i] >= |row| {
        FailureStays(row, picks, parse, i + 1);
        return Failure(IndexError);
      }
      var v := parse(row[picks[i]]);
      if v.None? {
        FailureStays(row, picks, parse, i + 1);
        return Failure(ValueError);
      }
      vals := vals + [v.value];
      i := i + 1;
    }
    assert picks[..i] == picks;
    r := Success(vals);
  }

  /** Once a prefix of the picks fails, the whole row fails the same way. */
  lemma {:induction false} FailureStays<V>(row: seq<string>, picks: seq<nat>, parse: string -> Option<V>, i: nat)
    requires i <= |picks|
    ensures RowValues(row, picks[..i], parse).Failure? ==> RowValues(row, picks, parse) == RowValues(row, picks[..i], parse)
    decreases |picks| - i
  {
    if i < |picks| {
      FailureStays(row, picks, parse, i + 1);
      assert picks[..i + 1][..i] == picks[..i];
    } else {
      assert picks[..i] == picks;
    }
  }

  /** The nested loops of `plot_file`: row by row, skipping empty rows,
      appending each picked cell's value to its plot, until a cell raises. */
  function Extract<V>(rows: seq<seq<string>>, picks: seq<nat>, parse: string -> Option<V>): (r: Result<seq<seq<V>>, Fault>)
    ensures r.Success? ==> |r.value| == |picks|
  {
    if rows == [] then Success(seq(|picks|, _ => []))
    else
      var row := rows[|rows| - 1];
      match Extract(rows[..|rows| - 1], picks, parse)
      case Failure(e) => Failure(e)
      case Success(plots) =>
        if |row| == 0 then Success(plots)
        else
          match RowValues(row, picks, parse)
          case Failure(e) => Failure(e)
          case Success(vals) => Success(seq(|picks|, i requires 0 <= i < |picks| => plots[i] + [vals[i]]))
  }

  /** `r` is what the nested loops give for the non-empty rows `data`: a
      success exactly when every row of `data` has every picked column and
      all of its picked cells convert, and then plot `i` holds one value per
      row of `data`, in order, the value of its cell in column `picks[i]`. */
  ghost predicate ExtractedFrom<V>(r: Result<seq<seq<V>>, Fault>, data: seq<seq<string>>, picks: seq<nat>,
                                   parse: string -> Option<V>)
  {
    (r.Success? <==> forall j :: 0 <= j < |data| ==> RowParses(data[j], picks, parse)) &&
    (r.Success? ==>
       |r.value| == |picks| &&
       forall i :: 0 <= i < |picks| ==>
         |r.value[i]| == |data| &&
         forall j :: 0 <= j < |data| ==> Some(r.value[i][j]) == parse(data[j][picks[i]]))
  }

  /** The nested loops extract from exactly the non-empty rows. */
  lemma {:induction false} ExtractView<V>(rows: seq<seq<string>>, picks: seq<nat>, parse: string -> Option<V>)
    ensures ExtractedFrom(Extract(rows, picks, parse), Filter(rows, NonEmptyRow), picks, parse)
    decreases |rows|
  {
    if rows == [] {
      assert Filter(rows, NonEmptyRow) == [];
    } else {
      var init := rows[..|rows| - 1];
      var row := rows[|rows| - 1];
      ExtractView(init, picks, parse);
      assert init + [row] == rows;
      if |row| == 0 {
        assert Filter(rows, NonEmptyRow) == Filter(init, NonEmptyRow);
        assert Extract(rows, picks, parse) == Extract(init, picks, parse);
      } else {
        assert Filter(rows, NonEmptyRow) == Filter(init, NonEmptyRow) + [row];
        ExtractStep(init, row, picks, parse);
      }
    }
  }

  /** One non-empty row more: the extraction of `init + [row]` from that of
      `init`. */
  lemma ExtractStep<V>(init: seq<seq<string>>, row: seq<string>, picks: seq<nat>, parse: string -> Option<V>)
    requires |row| > 0
    requires ExtractedFrom(Extract(init, picks, parse), Filter(init, NonEmptyRow), picks, parse)
    ensures ExtractedFrom(Extract(init + [row], picks, parse), Filter(init, NonEmptyRow) + [row], picks, parse)
  {
    var kept := Filter(init, NonEmptyRow);
    var all := kept + [row];
    var rows := init + [row];
    assert rows[..|rows| - 1] == init;
    assert rows[|rows| - 1] == row;
    assert forall j :: 0 <= j < |kept| ==> all[j] == kept[j];
    assert all[|kept|] == row;
    var prev := Extract(init, picks, parse);
    var r := Extract(rows, picks, parse);
    if prev.Failure? {
      assert r == prev;
      var j :| 0 <= j < |kept| && !RowParses(kept[j], picks, parse);
      assert !RowParses(all[j], picks, parse);
    } else {
      var vals := RowValues(row, picks, parse);
      if vals.Failure? {
        assert r.Failure?;
        assert !RowParses(all[|kept|], picks, parse);
      } else {
        assert r == Success(seq(|picks|, i requires 0 <= i < |picks| => prev.value[i] + [vals.value[i]]));
        forall i | 0 <= i < |picks|
          ensures |r.value[i]| == |all|
          ensures forall j :: 0 <= j < |all| ==> Some(r.value[i][j]) == parse(all[j][picks[i]])
        {
          assert r.value[i] == prev.value[i] + [vals.value[i]];
        }
      }
    }
  }

  /** The plotting loop nests the per-row loop; it stops at the first row
      that raises. */
  method ExtractPlots<V>(rows: seq<seq<string>>, picks: seq<nat>, parse: string -> Option<V>)
    returns (r: Result<seq<seq<V>>, Fault>)
    ensures r == Extract(rows, picks, parse)
  {
    var plots: seq<seq<V>> := seq(|picks|, _ => []);
    var j := 0;
    while j < |rows|
      invariant 0 <= j <= |rows|
      invariant Extract(rows[..j], picks, parse) == Success(plots)
    {
      assert rows[..j + 1][..j] == rows[..j];
      var row := rows[j];
      if |row| > 0 {
        var vals := ReadRow(row, picks, parse);
        if vals.Failure? {
          ExtractFailureStays(rows, picks, parse, j + 1);
          return Failure(vals.error);
        }
        plots := AppendValues(plots, vals.value);
      }
      j := j + 1;
    }
    assert rows[..j] == rows;
    r := Success(plots);
  }

  /** `plots[i].append(val)` for every pick of one row. */
  method AppendValues<V>(plots: seq<seq<V>>, vals: seq<V>) returns (r: seq<seq<V>>)
    requires |plots| == |vals|
    ensures r == seq(|vals|, i requires 0 <= i < |vals| => plots[i] + [vals[i]])
  {
    r := plots;
    var i := 0;
    while i < |vals|
      invariant 0 <= i <= |vals| && |r| == |vals|
      invariant forall k :: 0 <= k < i ==> r[k] == plots[k] + [vals[k]]
      invariant forall k :: i <= k < |vals| ==> r[k] == plots[k]
    {
      r := r[i := r[i] + [vals[i]]];
      i := i + 1;
    }
  }

  /** Once the rows read so far raised, reading on changes nothing. */
  lemma {:induction false} ExtractFailureStays<V>(rows: seq<seq<string>>, picks: seq<nat>, parse: string -> Option<V>, j: nat)
    requires j <= |rows|
    ensures Extract(rows[..j], picks, parse).Failure? ==> Extract(rows, picks, parse) == Extract(rows[..j], picks, parse)
    decreases |rows| - j
  {
    if j < |rows| {
      ExtractFailureStays(rows, picks, parse, j + 1);
      assert rows[..j + 1][..j] == rows[..j];
    } else {
      assert rows[..j] == rows;
    }
  }

  /** How `plot_file` ends. */
  datatype PlotOutcome<V> =
    | HeaderMissing                  // every record is empty: `next(reader)` raises StopIteration
    | NoColumns                      // nothing chosen: the "No columns selected" warning
    | Raised(fault: Fault)           // `float(row[col])` raised
    | Graph(plots: seq<seq<V>>, legend: seq<string>)

  /** What `plot_file(filename)` does for a file with these lines when the
      column dialog is answered with `answer`. */
  function PlotFileResult<V>(lines: seq<string>, filename: string, answer: Answer, parse: string -> Option<V>): (r: PlotOutcome<V>)
    ensures r == HeaderMissing <==> forall i :: 0 <= i < |lines| ==> StripTerminator(lines[i]) == []
  {
    PlotRecords(Records(lines, Delimiter(filename)), answer, parse)
  }

  /** The part of `plot_file` after the file was split into records. */
  function PlotRecords<V>(records: seq<seq<string>>, answer: Answer, parse: string -> Option<V>): (r: PlotOutcome<V>)
    ensures r == HeaderMissing <==> forall k :: 0 <= k < |records| ==> |records[k]| == 0
  {
    match FirstNonEmpty(records)
    case None => HeaderMissing
    case Some(h) => PlotChosen(records[h], records[h + 1..], answer, parse)
  }

  /** The part of `plot_file` after the header was read. */
  function PlotChosen<V>(headers: seq<string>, rows: seq<seq<string>>, answer: Answer, parse: string -> Option<V>): (r: PlotOutcome<V>)
    ensures r != HeaderMissing
    ensures r.Graph? ==> r.legend == Chosen(headers, answer) && |r.plots| == |r.legend| > 0
  {
    var names := Chosen(headers, answer);
    var picks := Picks(headers, names);
    if |picks| == 0 then NoColumns
    else
      match Extract(rows, picks, parse)
      case Failure(e) => Raised(e)
      case Success(plots) => Graph(plots, names)
  }

  /** `App.plot_file`. */
  method PlotFile<V>(lines: seq<string>, filename: string, answer: Answer, parse: string -> Option<V>)
    returns (out: PlotOutcome<V>)
    ensures out == PlotFileResult(lines, filename, answer, parse)
  {
    out := ReadTable(Records(lines, Delimiter(filename)), answer, parse);
  }

  /** The reading part of `plot_file`: the header, then the rest. */
  method ReadTable<V>(records: seq<seq<string>>, answer: Answer, parse: string -> Option<V>)
    returns (out: PlotOutcome<V>)
    ensures out == PlotRecords(records, answer, parse)
  {
    var header, next := ReadHeader(records);
    if header.None? {
      return HeaderMissing;
    }
    assert records[next..] == records[FirstNonEmpty(records).value + 1..];
    out := PlotColumns(header.value, records[next..], answer, parse);
  }

  /** The part of `plot_file` after the header: the dialog, the name
      mapping, the "no columns" stop and the extraction loops. */
  method PlotColumns<V>(headers: seq<string>, rows: seq<seq<string>>, answer: Answer, parse: string -> Option<V>)
    returns (out: PlotOutcome<V>)
    ensures out == PlotChosen(headers, rows, answer, parse)
  {
    var names := Show(headers, answer);
    assert names == Chosen(headers, answer);
    var picks := Picks(headers, names);
    if |picks| == 0 {
      return NoColumns;
    }
    var plots := ExtractPlots(rows, picks, parse);
    if plots.Failure? {
      return Raised(plots.error);
    }
    out := Graph(plots.value, names);
  }

  /** Once the header is read, the "no columns" warning comes exactly when
      the dialog was cancelled or no box was ticked. */
  lemma NoColumnsIffNothingTicked<V>(headers: seq<string>, rows: seq<seq<string>>, answer: Answer, parse: string -> Option<V>)
    ensures PlotChosen(headers, rows, answer, parse) == NoColumns <==>
              answer.Cancel? || forall i :: 0 <= i < |headers| ==> i !in answer.checked
  {
    if answer.Ok? {
      CheckedItemsEmpty(|headers|, answer.checked);
      assert |Picks(headers, Chosen(headers, answer))| == |CheckedItems(|headers|, answer.checked)|;
    }
  }

  /** A drawn graph: the legend is the chosen names, and the plots are
      those of the chosen columns over the non-empty data rows. */
  lemma GraphOfChosenColumns<V>(headers: seq<string>, rows: seq<seq<string>>, answer: Answer, parse: string -> Option<V>)
    ensures var g := PlotChosen(headers, rows, answer, parse);
            var names := Chosen(headers, answer);
            g.Graph? ==>
              g.legend == names && |names| > 0 &&
              ExtractedFrom(Success(g.plots), Filter(rows, NonEmptyRow), Picks(headers, names), parse)
  {
    ExtractView(rows, Picks(headers, Chosen(headers, answer)), parse);
  }

  /** Every row of `data` has every picked column, and its picked cells
      convert. */
  ghost predicate RowsParse<V>(data: seq<seq<string>>, picks: seq<nat>, parse: string -> Option<V>) {
    forall j :: 0 <= j < |data| ==> RowParses(data[j], picks, parse)
  }

  /** A graph is drawn exactly when some column was chosen and every
      non-empty data row has all chosen columns, with cells that convert. */
  lemma GraphIffRowsConvert<V>(headers: seq<string>, rows: seq<seq<string>>, answer: Answer, parse: string -> Option<V>)
    ensures var names := Chosen(headers, answer);
            PlotChosen(headers, rows, answer, parse).Graph? <==>
              |names| > 0 && RowsParse(Filter(rows, NonEmptyRow), Picks(headers, names), parse)
  {
    var names := Chosen(headers, answer);
    var picks := Picks(headers, names);
    ExtractView(rows, picks, parse);
    var r := Extract(rows, picks, parse);
    assert r.Success? <==> RowsParse(Filter(rows, NonEmptyRow), picks, parse);
  }
}
