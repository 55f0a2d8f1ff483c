/** What the two wx front-ends do with the records once the delimiter is
    known: find the header, let the user pick columns, and turn every
    non-empty data row into one entry per picked column. */
module Table {
  import opened Wrappers
  import opened Seqs

  /** The answer of the column dialog: cancelled, or confirmed with the
      positions of the checked boxes. */
  datatype Answer = Cancel | Ok(checked: set<nat>)

  /** The exceptions that abort a load halfway. */
  datatype Fault = IndexError | ValueError

  /** One plotted column: its legend entry and one value per data row, where
      `None` stands for NaN. */
  datatype Series<V> = Series(legend: string, values: seq<Option<V>>)

  /** How a load through one of the wx front-ends ends. */
  datatype Outcome<V> =
    | Undetermined            // no delimiter: the load returns at once
    | NoHeader                // every record is empty: `next(reader)` raises StopIteration
    | Cancelled               // the column dialog was cancelled
    | RowTooShort             // `row[col]` raised IndexError for some data row
    | Plotted(series: seq<Series<V>>)

  /** Position of the first record with at least one field. */
  function FirstNonEmpty(records: seq<seq<string>>): (r: Option<nat>)
    ensures r.None? <==> forall k :: 0 <= k < |records| ==> |records[k]| == 0
    ensures r.Some? ==> r.value < |records| && |records[r.value]| > 0
    ensures r.Some? ==> forall k :: 0 <= k < r.value ==> |records[k]| == 0
  {
    if records == [] then None
    else if |records[0]| > 0 then Some(0)
    else
      match FirstNonEmpty(records[1..])
      case None => None
      case Some(k) => Some(k + 1)
  }

  /** Reading the header: take records until one is not empty. `next` is the
      number of records consumed, so the data rows are `records[next..]`. */
  method ReadHeader(records: seq<seq<string>>) returns (header: Option<seq<string>>, next: nat)
    ensures header.None? <==> FirstNonEmpty(records).None?
    ensures header.Some? ==> FirstNonEmpty(records) == Some(next - 1)
    ensures header.Some? ==> 0 < next <= |records| && header.value == records[next - 1]
  {
    if |records| == 0 {
      return None, 0;
    }
    var h := records[0];
    next := 1;
    while |h| == 0
      invariant 1 <= next <= |records|
      invariant h == records[next - 1]
      invariant forall k :: 0 <= k < next - 1 ==> |records[k]| == 0
      decreases |records| - next
    {
      if next == |records| {
        return None, next;
      }
      h := records[next];
      next := next + 1;
    }
    header := Some(h);
  }

  predicate NonEmptyRow(row: seq<string>) {
    |row| > 0
  }

  /** Every picked column exists in `row`. */
  predicate RowCovers(row: seq<string>, selected: seq<nat>) {
    forall k :: 0 <= k < |selected| ==> selected[k] < |row|
  }

  /** Every non-empty row has every picked column, so `row[col]` never
      raises. */
  predicate Covers(rows: seq<seq<string>>, selected: seq<nat>) {
    forall row :: row in rows && |row| > 0 ==> RowCovers(row, selected)
  }

  /** The columns after the picked cells of `row` have been appended. */
  function WithRow<V>(cols: seq<seq<Option<V>>>, row: seq<string>, selected: seq<nat>, parse: string -> Option<V>): (r: seq<seq<Option<V>>>)
    requires |cols| == |selected| && RowCovers(row, selected)
    ensures |r| == |selected|
    ensures forall i :: 0 <= i < |selected| ==> r[i] == cols[i] + [parse(row[selected[i]])]
  {
    seq(|selected|, i requires 0 <= i < |selected| => cols[i] + [parse(row[selected[i]])])
  }

  /** The picked columns as the loop builds them: row by row, skipping empty
      rows, appending the parsed cell of each picked column. */
  function Columns<V>(rows: seq<seq<string>>, selected: seq<nat>, parse: string -> Option<V>): (cols: seq<seq<Option<V>>>)
    requires Covers(rows, selected)
    ensures |cols| == |selected|
  {
    if rows == [] then seq(|selected|, _ => [])
    else
      var init := rows[..|rows| - 1];
      var row := rows[|rows| - 1];
      assert forall r :: r in init ==> r in rows;
      var prev := Columns(init, selected, parse);
      if |row| == 0 then prev else WithRow(prev, row, selected, parse)
  }

  /** The column view of what the loop builds: one column per pick, and in
      each column one entry per non-empty row, in row order, holding the
      parsed cell of that row. */
  lemma {:induction false} ColumnsView<V>(rows: seq<seq<string>>, selected: seq<nat>, parse: string -> Option<V>)
    requires Covers(rows, selected)
    ensures forall i :: 0 <= i < |selected| ==> |Columns(rows, selected, parse)[i]| == |Filter(rows, NonEmptyRow)|
    ensures forall j :: 0 <= j < |Filter(rows, NonEmptyRow)| ==> RowCovers(Filter(rows, NonEmptyRow)[j], selected)
    ensures forall i, j :: 0 <= i < |selected| && 0 <= j < |Filter(rows, NonEmptyRow)| ==>
              RowCovers(Filter(rows, NonEmptyRow)[j], selected) &&
              Columns(rows, selected, parse)[i][j] == parse(Filter(rows, NonEmptyRow)[j][selected[i]])
    decreases |rows|
  {
    if rows == [] {
      assert Filter(rows, NonEmptyRow) == [];
    } else {
      var init := rows[..|rows| - 1];
      var row := rows[|rows| - 1];
      assert forall r :: r in init ==> r in rows;
      ColumnsView(init, selected, parse);
      if |row| > 0 {
        assert row in rows;
        var kept := Filter(init, NonEmptyRow);
        assert Filter(rows, NonEmptyRow) == kept + [row];
        assert forall j :: 0 <= j < |kept| ==> (kept + [row])[j] == kept[j];
      } else {
        var kept := Filter(init, NonEmptyRow);
        var cols := Columns(init, selected, parse);
        assert Filter(rows, NonEmptyRow) == kept;
        assert Columns(rows, selected, parse) == cols;
        forall i, j | 0 <= i < |selected| && 0 <= j < |kept|
          ensures RowCovers(kept[j], selected) && cols[i][j] == parse(kept[j][selected[i]])
        {
        }
      }
    }
  }

  /** One more data row: an empty one changes nothing, a covered one appends
      its picked cells to the columns. */
  lemma ColumnsSnoc<V>(rows: seq<seq<string>>, row: seq<string>, selected: seq<nat>, parse: string -> Option<V>)
    requires Covers(rows, selected)
    requires |row| == 0 || RowCovers(row, selected)
    ensures Covers(rows + [row], selected)
    ensures |row| == 0 ==> Columns(rows + [row], selected, parse) == Columns(rows, selected, parse)
    ensures |row| > 0 ==>
              Columns(rows + [row], selected, parse) == WithRow(Columns(rows, selected, parse), row, selected, parse)
  {
    assert (rows + [row])[..|rows|] == rows;
  }

  /** The inner loop of the extraction: append the picked cells of one row to
      the columns, one column at a time; `None` when the row lacks one of the
      picked columns (the IndexError of `row[col]`). */
  method AppendCells<V>(cols: seq<seq<Option<V>>>, row: seq<string>, selected: seq<nat>, parse: string -> Option<V>)
    returns (r: Option<seq<seq<Option<V>>>>)
    requires |cols| == |selected|
    ensures r.Some? <==> RowCovers(row, selected)
    ensures r.Some? ==> r.value == WithRow(cols, row, selected, parse)
  {
    var out := cols;
    var i := 0;
    while i < |selected|
      invariant 0 <= i <= |selected|
      invariant |out| == |selected|
      invariant forall m :: 0 <= m < i ==> selected[m] < |row|
      invariant forall m :: 0 <= m < i ==> out[m] == cols[m] + [parse(row[selected[m]])]
      invariant forall m :: i <= m < |selected| ==> out[m] == cols[m]
    {
      if selected[i] >= |row| {
        return None;
      }
      out := out[i := out[i] + [parse(row[selected[i]])]];
      i := i + 1;
    }
    return Some(out);
  }

  /** The extraction loop of both wx front-ends: for every data row that is
      not empty, for every picked column in order, append the parsed cell to
      that column. A row without one of the picked columns raises IndexError
      and the load is abandoned. */
  method ExtractColumns<V>(rows: seq<seq<string>>, selected: seq<nat>, parse: string -> Option<V>)
    returns (r: Result<seq<seq<Option<V>>>, Fault>)
    ensures r.Success? <==> Covers(rows, selected)
    ensures r.Success? ==> r.value == Columns(rows, selected, parse)
    ensures r.Failure? ==> r.error == IndexError
  {
    var cols: seq<seq<Option<V>>> := seq(|selected|, _ => []);
    var k := 0;
    while k < |rows|
      invariant 0 <= k <= |rows|
      invariant Covers(rows[..k], selected)
      invariant cols == Columns(rows[..k], selected, parse)
    {
      var row := rows[k];
      assert rows[..k + 1] == rows[..k] + [row];
      if |row| == 0 {
        ColumnsSnoc(rows[..k], row, selected, parse);
        k := k + 1;
        continue;
      }
      var next := AppendCells(cols, row, selected, parse);
      if next.None? {
        assert row in rows;
        return Failure(IndexError);
      }
      cols := next.value;
      ColumnsSnoc(rows[..k], row, selected, parse);
      k := k + 1;
    }
    assert rows[..k] == rows;
    return Success(cols);
  }

  /** The positions of the checked boxes among the first `n`, in ascending
      order (what `CheckListBox.GetCheckedItems` reports). */
  function CheckedItems(n: nat, checked: set<nat>): (r: seq<nat>)
    ensures forall k :: 0 <= k < |r| ==> r[k] < n && r[k] in checked
    ensures forall i :: 0 <= i < n && i in checked ==> i in r
    ensures forall k, l :: 0 <= k < l < |r| ==> r[k] < r[l]
  {
    if n == 0 then []
    else CheckedItems(n - 1, checked) + (if n - 1 in checked then [n - 1] else [])
  }

  /** The dialog yields no column exactly when none of its boxes is
      ticked. */
  lemma {:induction false} CheckedItemsEmpty(n: nat, checked: set<nat>)
    ensures CheckedItems(n, checked) == [] <==> forall i :: 0 <= i < n ==> i !in checked
  {
    if n > 0 {
      CheckedItemsEmpty(n - 1, checked);
    }
  }
}
